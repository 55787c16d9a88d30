/** The alert tables as the program updates them, and the policy that drives them. */
module AlertTable {
  import opened Text
  import opened AlertStore
  import opened AlertExpiry

  // A call on a key changes the one row of that key.
  lemma {:induction false} KeyedCall(rows: seq<Row>, call: Call, now: int, key: string)
    requires OneRowPerKey(rows) && !call.Resolve?
    requires key == if call.RecordFire? || call.RecordPending? then call.r.key else call.key
    ensures var i := Find(rows, key);
            MapRows(rows, call, now) == if i < |rows| then rows[i := RowStep(rows[i], call, now)] else rows
  {
    hide Fired, Waiting, Closed, Raised, Rank;
    MapRowsFacts(rows, call, now, key);
    var i := Find(rows, key);
    NotFoundOrUnique(rows, key);
  }

  lemma NotFoundOrUnique(rows: seq<Row>, key: string)
    requires OneRowPerKey(rows)
    ensures forall j :: 0 <= j < |rows| && j != Find(rows, key) ==> rows[j].key != key
  {
    if Find(rows, key) == |rows| { NotFound(rows, key); }
  }

  datatype Policy = Policy(severity: Severity, forSeconds: int, ttl: Option<int>, closeOnAck: bool)
  datatype Rule = Rule(window: int, threshold: nat, level: Severity)

  // evaluate(), for an event whose stamp parses: recovery first, then the policy.
  function AfterRecovery(t: Table, target: Option<string>, r: Report, now: int): Table {
    if target.Some? then Step(t, Resolve(target.value, r.scope, r.ts), now) else t
  }

  // The report waits, and has waited long enough to fire.
  predicate Due(t: Table, r: Report, policy: Policy) {
    var i := Find(t.rows, r.key);
    i < |t.rows| && (t.rows[i].status == Active
                     || (t.rows[i].pendingSince.Some? && r.ts - t.rows[i].pendingSince.value >= policy.forSeconds))
  }

  predicate Met(t: Table, r: Report, rule: Rule) {
    var i := Find(t.rows, r.key);
    i < |t.rows| && t.rows[i].count >= rule.threshold && r.ts - t.rows[i].first <= rule.window
  }

  function EscalatedBy(t: Table, r: Report, rule: Rule, now: int): Table {
    if Met(t, r, rule) then Step(t, Escalate(r.key, rule.level), now) else t
  }

  function Evaluated(t: Table, target: Option<string>, policy: Option<Policy>, rule: Option<Rule>, r: Report,
                     cooldown: int, now: int): Table {
    var t0 := AfterRecovery(t, target, r, now);
    if policy.None? then t0
    else
      var report := r.(severity := policy.value.severity);
      var t1 := Step(t0, RecordPending(report), now);
      if !Due(t1, report, policy.value) then t1
      else
        var t2 := Step(t1, RecordFire(report, cooldown), now);
        if rule.None? then t2 else EscalatedBy(t2, report, rule.value, now)
  }

  class Alerts {
    var rows: seq<Row>
    var episodes: seq<Episode>

    ghost predicate Valid()
      reads this
    {
      OneRowPerKey(rows)
    }

    function Now(): Table
      reads this
    {
      Table(rows, episodes)
    }

    constructor ()
      ensures Valid() && Now() == Table([], [])
    {
      rows, episodes := [], [];
    }

    method Locate(key: string) returns (i: nat)
      ensures i == Find(rows, key)
    {
      i := 0;
      while i < |rows| && rows[i].key != key
        invariant 0 <= i <= |rows| && Find(rows, key) == i + Find(rows[i..], key)
      {
        assert rows[i..][1..] == rows[i + 1..];
        i := i + 1;
      }
      if i < |rows| { assert rows[i..][0] == rows[i]; }
    }

    method RecordFire(r: Report, cooldown: int, now: int) returns (notify: bool, count: nat)
      requires Valid()
      modifies this
      ensures Valid() && Now() == Step(old(Now()), AlertStore.RecordFire(r, cooldown), now)
      ensures Find(rows, r.key) < |rows| && count == rows[Find(rows, r.key)].count
      ensures notify <==> Find(old(rows), r.key) == |old(rows)|
                          || Notifies(old(rows)[Find(old(rows), r.key)], now, cooldown)
    {
      hide RowStep, FreshRow, MapRows;
      var call := AlertStore.RecordFire(r, cooldown);
      RowAfter(Now(), call, now, r.key);
      KeyedCall(rows, call, now, r.key);
      var i := Locate(r.key);
      if i == |rows| {
        rows := rows + [FreshRow(r, Active, 1, now)];
        FreshCount(r, now);
        return true, 1;
      }
      var row := rows[i];
      var should := row.status != Active || now - row.updated >= (if cooldown > 0 then cooldown else 0);
      var became := row.status != Active;
      count := if became then 1 else row.count + 1;
      var next := row.(last := r.ts, count := count, event := r.event,
                       severity := if row.status == Active && row.escalated then row.severity else r.severity,
                       kind := r.kind, scope := r.scope, status := Active, pendingSince := None, lastSeen := r.ts,
                       resolvedAt := None);
      if should { next := next.(updated := now); }
      if became { next := next.(first := r.ts, acknowledged := None, silenced := None); }
      FiredRow(row, r, cooldown, now);
      rows := rows[i := next];
      assert rows + [] == rows;
      notify := should;
    }

    method RecordPending(r: Report, now: int) returns (since: Option<int>)
      requires Valid()
      modifies this
      ensures Valid() && Now() == Step(old(Now()), AlertStore.RecordPending(r), now)
      ensures Find(rows, r.key) < |rows|
      ensures var row := rows[Find(rows, r.key)];
              if row.status == Active then since == None else since.Some? && since == row.pendingSince
    {
      hide MapRows;
      var call := AlertStore.RecordPending(r);
      RowAfter(Now(), call, now, r.key);
      KeyedCall(rows, call, now, r.key);
      var i := Locate(r.key);
      if i == |rows| {
        rows := rows + [FreshRow(r, Pending, 0, now)];
        return Some(r.ts);
      }
      if rows[i].status == Active {
        assert rows[i := rows[i]] + [] == rows;
        return None;
      }
      rows := rows[i := Waiting(rows[i], r, now)];
      assert rows + [] == rows;
      since := rows[i].pendingSince;
    }

    // acknowledge() of the policy layer: one-off faults close at the same time.
    method Acknowledge(key: string, closesOnAck: bool, ts: int, now: int) returns (found: bool, closed: bool)
      requires Valid()
      modifies this
      ensures Valid()
      ensures found <==> Find(old(rows), key) < |old(rows)| && old(rows)[Find(old(rows), key)].status == Active
      ensures closed <==> found && closesOnAck
      ensures Now() == Step(old(Now()), if closesOnAck then CloseAcknowledged(key, ts) else AlertStore.Acknowledge(key, ts), now)
    {
      hide MapRows, Archived;
      var call := if closesOnAck then CloseAcknowledged(key, ts) else AlertStore.Acknowledge(key, ts);
      RowAfter(Now(), call, now, key);
      KeyedCall(rows, call, now, key);
      var i := Locate(key);
      if i == |rows| || rows[i].status != Active {
        assert rows + [] == rows && (i < |rows| ==> rows[i := rows[i]] == rows);
        return false, false;
      }
      var row := rows[i].(acknowledged := Some(ts));
      if closesOnAck {
        episodes := Archive(episodes, row, ts);
        row := row.(status := Resolved, resolvedAt := Some(ts));
      }
      rows := rows[i := row.(updated := now)];
      assert rows + [] == rows;
      return true, closesOnAck;
    }

    method Escalate(key: string, level: Severity, now: int) returns (done: bool)
      requires Valid()
      modifies this
      ensures Valid() && Now() == Step(old(Now()), AlertStore.Escalate(key, level), now)
      ensures done <==> Find(old(rows), key) < |old(rows)|
                        && !(old(rows)[Find(old(rows), key)].escalated
                             && Rank(old(rows)[Find(old(rows), key)].severity) >= Rank(level))
    {
      hide MapRows, Rank;
      var call := AlertStore.Escalate(key, level);
      RowAfter(Now(), call, now, key);
      KeyedCall(rows, call, now, key);
      var i := Locate(key);
      if i == |rows| {
        assert rows + [] == rows;
        return false;
      }
      if rows[i].escalated && Rank(rows[i].severity) >= Rank(level) {
        assert rows[i := rows[i]] + [] == rows;
        return false;
      }
      rows := rows[i := Raised(rows[i], level, now)];
      assert rows + [] == rows;
      done := true;
    }

    static method ResolveRows(rows: seq<Row>, episodes: seq<Episode>, kind: string, scope: string, ts: int, now: int)
      returns (closed: seq<Row>, archive: seq<Episode>, changed: nat)
      ensures closed == MapRows(rows, AlertStore.Resolve(kind, scope, ts), now)
      ensures archive == ArchiveAll(rows, episodes, kind, scope, ts)
      ensures changed == Matching(rows, kind, scope)
    {
      hide Concerns, Archive, Closed;
      var call := AlertStore.Resolve(kind, scope, ts);
      closed, archive, changed := [], episodes, 0;
      var i := 0;
      while i < |rows|
        invariant 0 <= i <= |rows|
        invariant ArchiveAll(rows[i..], archive, kind, scope, ts) == ArchiveAll(rows, episodes, kind, scope, ts)
        invariant closed + MapRows(rows[i..], call, now) == MapRows(rows, call, now)
        invariant changed + Matching(rows[i..], kind, scope) == Matching(rows, kind, scope)
      {
        assert rows[i..][0] == rows[i] && rows[i..][1..] == rows[i + 1..];
        var next := rows[i];
        if Concerns(rows[i], kind, scope) {
          archive := Archive(archive, rows[i], ts);
          next := Closed(rows[i], ts, now);
          changed := changed + 1;
        }
        assert closed + ([next] + MapRows(rows[i + 1..], call, now)) == closed + [next] + MapRows(rows[i + 1..], call, now);
        closed := closed + [next];
        i := i + 1;
      }
      assert closed + [] == closed;
    }

    method Resolve(kind: string, scope: string, ts: int, now: int) returns (changed: nat)
      requires Valid()
      modifies this
      ensures Valid() && Now() == Step(old(Now()), AlertStore.Resolve(kind, scope, ts), now)
      ensures changed == Matching(old(rows), kind, scope) && changed + ActiveRows(rows) == ActiveRows(old(rows))
      ensures changed > 0 <==> exists row :: row in old(rows) && Concerns(row, kind, scope)
    {
      hide MapRows, ArchiveAll, Concerns, Matching, ActiveRows;
      ResolvingCloses(rows, kind, scope, ts, now);
      MatchingIsSome(rows, kind, scope);
      RowAfter(Now(), AlertStore.Resolve(kind, scope, ts), now, "");
      rows, episodes, changed := ResolveRows(rows, episodes, kind, scope, ts, now);
      assert rows + [] == rows;
    }

    // The sweep works on the rows as they stood when it began; the result is the number of
    // active rows it closed.
    method ResolveExpired(ttl: map<string, int>, now: int) returns (resolved: nat)
      requires Valid()
      modifies this
      ensures Valid() && Now() == Calls(old(Now()), Sweep(old(rows), ttl, now), now)
      ensures resolved + ActiveRows(rows) == ActiveRows(old(rows))
    {
      hide Step, Expired, ActiveRows;
      var seen := rows;
      resolved := 0;
      for i := 0 to |seen|
        invariant Valid() && Now() == Calls(old(Now()), Sweep(seen[..i], ttl, now), now)
        invariant resolved + ActiveRows(rows) == ActiveRows(old(rows))
      {
        assert seen[..i + 1][..i] == seen[..i];
        ghost var before := Sweep(seen[..i], ttl, now);
        if Expired(seen[i], ttl, now) {
          var changed := Resolve(seen[i].kind, seen[i].scope, now, now);
          resolved := resolved + changed;
          assert (before + [AlertStore.Resolve(seen[i].kind, seen[i].scope, now)])[..|before|] == before;
        } else {
          assert Sweep(seen[..i + 1], ttl, now) == before;
        }
      }
      assert seen[..|seen|] == seen;
    }

    // evaluate(): `target` is the fault type that this event's type recovers.
    method Evaluate(target: Option<string>, policy: Option<Policy>, rule: Option<Rule>, r: Report, cooldown: int, now: int)
      returns (notify: bool, count: nat)
      requires Valid()
      modifies this
      ensures Valid() && Now() == Evaluated(old(Now()), target, policy, rule, r, cooldown, now)
    {
      hide Step, Rank;
      notify, count := false, 0;
      if target.Some? { var _ := Resolve(target.value, r.scope, r.ts, now); }
      if policy.None? { return; }
      var report := r.(severity := policy.value.severity);
      var since := RecordPending(report, now);
      if since.Some? && report.ts - since.value < policy.value.forSeconds { return; }
      notify, count := RecordFire(report, cooldown, now);
      if rule.Some? {
        var i := Locate(report.key);
        if count >= rule.value.threshold && report.ts - rows[i].first <= rule.value.window {
          var _ := Escalate(report.key, rule.value.level, now);
        }
      }
    }
  }

  lemma FreshCount(r: Report, now: int)
    ensures FreshRow(r, Active, 1, now).count == 1
  {
  }

  lemma FiredRow(row: Row, r: Report, cooldown: int, now: int)
    requires row.key == r.key
    ensures RowStep(row, RecordFire(r, cooldown), now) == Fired(row, r, now, cooldown)
  {
  }

  // ------------------------------------------------------------- what the policy keeps

  predicate NoneWaiting(rows: seq<Row>, key: string) {
    var i := Find(rows, key);
    i < |rows| ==> rows[i].pendingSince == None
  }

  // A policy without a waiting time fires on every event: the key's alert is active
  // afterwards, its occurrence counts one fire more or starts over at one, and again
  // no report of the key is left waiting.
  lemma ImmediatePolicyAlwaysFires(t: Table, target: Option<string>, policy: Policy, rule: Option<Rule>, r: Report,
                                   cooldown: int, now: int)
    requires OneRowPerKey(t.rows) && policy.forSeconds <= 0 && NoneWaiting(t.rows, r.key)
    ensures var after := Evaluated(t, target, Some(policy), rule, r, cooldown, now);
            && Find(after.rows, r.key) < |after.rows|
            && after.rows[Find(after.rows, r.key)].status == Active
            && NoneWaiting(after.rows, r.key)
            && Open(after.rows, r.key) == Open(AfterRecovery(t, target, r, now).rows, r.key) + 1
  {
    hide Step, Due, EscalatedBy, NoneWaiting, Open, Find, AfterRecovery;
    RecoveryKeepsQuiet(t, target, r, now);
    var report := r.(severity := policy.severity);
    FiresAtOnce(AfterRecovery(t, target, r, now), report, policy, cooldown, now);
    var t2 := Step(Step(AfterRecovery(t, target, r, now), RecordPending(report), now), RecordFire(report, cooldown), now);
    if rule.Some? { EscalationKeepsTheRest(t2, report, rule.value, now); }
    SameOpen(t2.rows, (if rule.None? then t2 else EscalatedBy(t2, report, rule.value, now)).rows, r.key);
  }

  lemma RecoveryKeepsQuiet(t: Table, target: Option<string>, r: Report, now: int)
    requires OneRowPerKey(t.rows) && NoneWaiting(t.rows, r.key)
    ensures var t0 := AfterRecovery(t, target, r, now); OneRowPerKey(t0.rows) && NoneWaiting(t0.rows, r.key)
  {
    hide Step, RowStep;
    if target.Some? {
      RowAfter(t, Resolve(target.value, r.scope, r.ts), now, r.key);
      if Find(t.rows, r.key) < |t.rows| { QuietStep(t.rows[Find(t.rows, r.key)], Resolve(target.value, r.scope, r.ts), now); }
    }
  }

  // A report that does not have to wait goes through pending to firing.
  lemma FiresAtOnce(t: Table, r: Report, policy: Policy, cooldown: int, now: int)
    requires OneRowPerKey(t.rows) && policy.forSeconds <= 0 && NoneWaiting(t.rows, r.key)
    ensures var t1 := Step(t, RecordPending(r), now);
            var t2 := Step(t1, RecordFire(r, cooldown), now);
            && Due(t1, r, policy) && OneRowPerKey(t2.rows)
            && Find(t2.rows, r.key) < |t2.rows|
            && t2.rows[Find(t2.rows, r.key)].status == Active
            && NoneWaiting(t2.rows, r.key)
            && Open(t2.rows, r.key) == Open(t.rows, r.key) + 1
  {
    hide Step, RowStep;
    RowAfter(t, RecordPending(r), now, r.key);
    var i := Find(t.rows, r.key);
    if i < |t.rows| { WaitingRow(t.rows[i], r, now); }
    var t1 := Step(t, RecordPending(r), now);
    RowAfter(t1, RecordFire(r, cooldown), now, r.key);
    FiringRow(t1.rows[Find(t1.rows, r.key)], r, cooldown, now);
  }

  lemma SameOpen(rows: seq<Row>, other: seq<Row>, key: string)
    requires var i := Find(rows, key);
             i < |rows| && Find(other, key) == i < |other| && other[i].status == rows[i].status
             && other[i].count == rows[i].count && other[i].pendingSince == rows[i].pendingSince
    ensures Open(other, key) == Open(rows, key) && (NoneWaiting(other, key) <==> NoneWaiting(rows, key))
  {
  }

  lemma QuietStep(row: Row, call: Call, now: int)
    requires call.Resolve? || call.Escalate?
    ensures var next := RowStep(row, call, now);
            && next.pendingSince == row.pendingSince && next.count == row.count
            && (call.Escalate? ==> next.status == row.status)
            && (row.status != Active ==> next.status != Active)
  {
    hide Rank;
  }

  lemma WaitingRow(row: Row, r: Report, now: int)
    requires row.key == r.key
    ensures var next := RowStep(row, RecordPending(r), now);
            if row.status == Active then next == row
            else next.status == Pending
                 && next.pendingSince == if row.pendingSince.Some? then row.pendingSince else Some(r.ts)
  {
  }

  lemma FiringRow(row: Row, r: Report, cooldown: int, now: int)
    requires row.key == r.key
    ensures var next := RowStep(row, RecordFire(r, cooldown), now);
            && next.status == Active && next.pendingSince == None
            && next.count == if row.status == Active then row.count + 1 else 1
  {
    hide Notifies;
  }

  lemma EscalationKeepsTheRest(t: Table, r: Report, rule: Rule, now: int)
    requires OneRowPerKey(t.rows)
    ensures var after := EscalatedBy(t, r, rule, now);
            var i := Find(t.rows, r.key);
            i < |t.rows| ==>
              && Find(after.rows, r.key) == i < |after.rows|
              && after.rows[i].status == t.rows[i].status && after.rows[i].count == t.rows[i].count
              && after.rows[i].pendingSince == t.rows[i].pendingSince
  {
    hide Step, RowStep;
    var i := Find(t.rows, r.key);
    RowAfter(t, Escalate(r.key, rule.level), now, r.key);
    if i < |t.rows| { QuietStep(t.rows[i], Escalate(r.key, rule.level), now); }
  }
}
