/** What an open alert knows of the calls that made it: its occurrence, its lease, its
    notifications, its acknowledgement and the time it waited. */
module AlertHistory {
  import opened Text
  import opened AlertStore
  import opened AlertExpiry
  import opened AlertRuns
  import opened AlertTable
  import opened AlertEscalation

  // ------------------------------------------------------------- what the calls say

  // The newest fire of the key.
  function NewestFire(ticks: seq<Tick>, key: string): Option<Report> {
    if ticks == [] then None
    else
      var front, call := ticks[..|ticks| - 1], ticks[|ticks| - 1].call;
      if FiredHere(call, key) then Some(call.r) else NewestFire(front, key)
  }

  // The stamp of the fire that began the key's latest occurrence.
  function BeganAt(ticks: seq<Tick>, key: string): int {
    if ticks == [] then 0
    else
      var front, call := ticks[..|ticks| - 1], ticks[|ticks| - 1].call;
      if Begins(Run(front), call, key) then call.r.ts else BeganAt(front, key)
  }

  // The fires of that occurrence.
  function FiresSince(ticks: seq<Tick>, key: string): nat {
    if ticks == [] then 0
    else
      var front, call := ticks[..|ticks| - 1], ticks[|ticks| - 1].call;
      if Begins(Run(front), call, key) then 1 else FiresSince(front, key) + (if FiredHere(call, key) then 1 else 0)
  }

  // An escalation that raises the key's alert: not when it is marked and as severe already.
  predicate Lifts(t: Table, call: Call, key: string) {
    && Raises(call, key) && HasRow(t, key)
    && var row := t.rows[Find(t.rows, key)]; !(row.escalated && Rank(row.severity) >= Rank(call.level))
  }

  // A notification of the key, or an operator's or a rule's call on its open alert.
  predicate Touches(t: Table, tick: Tick, key: string) {
    || (tick.call.RecordFire? && tick.call.r.key == key && Notified(t, tick.call, tick.now))
    || ((tick.call.Acknowledge? || tick.call.Silence?) && tick.call.key == key && IsOpen(t, key))
    || Lifts(t, tick.call, key)
  }

  // The clock at the latest of these.
  function LastTouch(ticks: seq<Tick>, key: string): int {
    if ticks == [] then 0
    else
      var front, tick := ticks[..|ticks| - 1], ticks[|ticks| - 1];
      if Touches(Run(front), tick, key) then tick.now else LastTouch(front, key)
  }

  // The stamp of the first report that waited since the key last fired.
  function WaitingSince(ticks: seq<Tick>, key: string): Option<int> {
    if ticks == [] then None
    else
      var front, call := ticks[..|ticks| - 1], ticks[|ticks| - 1].call;
      if FiredHere(call, key) then None
      else if call.RecordPending? && call.r.key == key && !IsOpen(Run(front), key) && WaitingSince(front, key) == None
      then Some(call.r.ts)
      else WaitingSince(front, key)
  }

  // The acknowledgement of the occurrence; a raised severity drops it.
  function AcknowledgedAt(ticks: seq<Tick>, key: string): Option<int> {
    if ticks == [] then None
    else
      var front, call := ticks[..|ticks| - 1], ticks[|ticks| - 1].call;
      if Begins(Run(front), call, key) || Lifts(Run(front), call, key) then None
      else if call.Acknowledge? && call.key == key && IsOpen(Run(front), key) then Some(call.ts)
      else AcknowledgedAt(front, key)
  }

  function SilencedUntil(ticks: seq<Tick>, key: string): Option<int> {
    if ticks == [] then None
    else
      var front, call := ticks[..|ticks| - 1], ticks[|ticks| - 1].call;
      if Begins(Run(front), call, key) then None
      else if call.Silence? && call.key == key && IsOpen(Run(front), key) then Some(call.until)
      else SilencedUntil(front, key)
  }

  // ------------------------------------------------------------- the row of a key tells them

  // An open row, told by the run.
  predicate Tells(row: Row, newest: Option<Report>, began: int, fires: nat, touched: int, acknowledged: Option<int>,
                  silenced: Option<int>) {
    row.status == Active ==>
      && newest.Some? && newest.value.key == row.key
      && row.last == newest.value.ts && row.lastSeen == newest.value.ts && row.event == newest.value.event
      && row.kind == newest.value.kind && row.scope == newest.value.scope
      && row.first == began && row.count == fires && row.updated == touched
      && row.acknowledged == acknowledged && row.silenced == silenced && row.resolvedAt == None
  }

  ghost predicate RowTells(t: Table, ticks: seq<Tick>, key: string) {
    if HasRow(t, key) then
      var row := t.rows[Find(t.rows, key)];
      && row.pendingSince == WaitingSince(ticks, key)
      && Tells(row, NewestFire(ticks, key), BeganAt(ticks, key), FiresSince(ticks, key), LastTouch(ticks, key),
               AcknowledgedAt(ticks, key), SilencedUntil(ticks, key))
    else WaitingSince(ticks, key) == None
  }

  lemma RowStepTells(row: Row, tick: Tick, newest: Option<Report>, began: int, fires: nat, touched: int,
                     acknowledged: Option<int>, silenced: Option<int>)
    requires Tells(row, newest, began, fires, touched, acknowledged, silenced)
    ensures var call, open := tick.call, row.status == Active;
      var fired := FiredHere(call, row.key);
      var lifts := Raises(call, row.key) && !(row.escalated && Rank(row.severity) >= Rank(call.level));
      Tells(RowStep(row, call, tick.now),
            if fired then Some(call.r) else newest,
            if fired && !open then call.r.ts else began,
            if fired && !open then 1 else fires + (if fired then 1 else 0),
            if (fired && Notifies(row, tick.now, call.cooldown))
               || ((call.Acknowledge? || call.Silence?) && call.key == row.key && open) || lifts then tick.now else touched,
            if (fired && !open) || lifts then None
            else if call.Acknowledge? && call.key == row.key && open then Some(call.ts) else acknowledged,
            if fired && !open then None
            else if call.Silence? && call.key == row.key && open then Some(call.until) else silenced)
  {
    hide Rank;
  }

  lemma RowStepWaits(row: Row, call: Call, now: int)
    ensures RowStep(row, call, now).pendingSince
         == if FiredHere(call, row.key) then None
            else if call.RecordPending? && call.r.key == row.key && row.status != Active && row.pendingSince == None
            then Some(call.r.ts)
            else row.pendingSince
  {
    hide Rank, Notifies;
  }

  lemma {:induction false} RunTells(ticks: seq<Tick>, key: string)
    ensures RowTells(Run(ticks), ticks, key)
  {
    hide Step, RowTells;
    if ticks == [] {
      NothingTold(key);
    } else {
      RunTells(ticks[..|ticks| - 1], key);
      FiresAreConserved(ticks[..|ticks| - 1], key);
      StepTells(ticks, key);
    }
  }

  lemma NothingTold(key: string)
    ensures RowTells(Table([], []), [], key)
  {
  }

  lemma {:induction false} StepTells(ticks: seq<Tick>, key: string)
    requires ticks != [] && OneRowPerKey(Run(ticks[..|ticks| - 1]).rows)
    requires RowTells(Run(ticks[..|ticks| - 1]), ticks[..|ticks| - 1], key)
    ensures RowTells(Run(ticks), ticks, key)
  {
    hide Step, RowStep, Tells, FreshRow, Notifies, Rank;
    var front, tick := ticks[..|ticks| - 1], ticks[|ticks| - 1];
    var t := Run(front);
    RowAfter(t, tick.call, tick.now, key);
    if HasRow(t, key) {
      var row := t.rows[Find(t.rows, key)];
      RowStepTells(row, tick, NewestFire(front, key), BeganAt(front, key), FiresSince(front, key), LastTouch(front, key),
                   AcknowledgedAt(front, key), SilencedUntil(front, key));
      RowStepWaits(row, tick.call, tick.now);
    } else if FiredHere(tick.call, key) {
      FreshTells(tick.call.r, tick.now);
    } else if tick.call.RecordPending? && tick.call.r.key == key {
      FreshWaits(tick.call.r, tick.now);
    }
  }

  lemma FreshTells(r: Report, now: int)
    ensures Tells(FreshRow(r, Active, 1, now), Some(r), r.ts, 1, now, None, None)
    ensures FreshRow(r, Active, 1, now).pendingSince == None
  {
  }

  lemma FreshWaits(r: Report, now: int)
    ensures forall newest, began, fires, touched, ack, silenced ::
      Tells(FreshRow(r, Pending, 0, now), newest, began, fires, touched, ack, silenced)
    ensures FreshRow(r, Pending, 0, now).pendingSince == Some(r.ts)
  {
  }

  // ------------------------------------------------------------- the occurrence

  // Whatever else was called, an open alert shows the stamp its occurrence began with, its
  // fires, its newest fire, and its acknowledgement and silence of this occurrence.
  lemma OpenAlertTellsItsOccurrence(ticks: seq<Tick>, key: string)
    requires IsOpen(Run(ticks), key)
    ensures var row := Run(ticks).rows[Find(Run(ticks).rows, key)];
      && NewestFire(ticks, key).Some?
      && row.first == BeganAt(ticks, key) && row.count == FiresSince(ticks, key)
      && row.last == NewestFire(ticks, key).value.ts && row.event == NewestFire(ticks, key).value.event
      && row.kind == NewestFire(ticks, key).value.kind && row.scope == NewestFire(ticks, key).value.scope
      && row.acknowledged == AcknowledgedAt(ticks, key) && row.silenced == SilencedUntil(ticks, key)
  {
    hide Run;
    RunTells(ticks, key);
  }

  // The call closes the key's occurrence: the archive then holds it as the calls made it,
  // unless its start stamp was taken.
  lemma ClosingArchivesTheOccurrence(ticks: seq<Tick>, call: Call, now: int, key: string)
    requires Closes(Run(ticks), call, key) && !Collides(Run(ticks), call, key)
    ensures NewestFire(ticks, key).Some?
    ensures exists e :: e in Step(Run(ticks), call, now).episodes
                        && e.key == key && e.first == BeganAt(ticks, key) && e.count == FiresSince(ticks, key)
                        && e.last == NewestFire(ticks, key).value.ts && e.resolvedAt == call.ts
                        && e.severity == Run(ticks).rows[Find(Run(ticks).rows, key)].severity
  {
    hide Run, Archived, Archive, MapRows, NewRow;
    OpenAlertTellsItsOccurrence(ticks, key);
    FiresAreConserved(ticks, key);
    var t := Run(ticks);
    var row := t.rows[Find(t.rows, key)];
    var e := Episode(row.key, row.first, row.last, row.count, call.ts, row.severity);
    match call {
      case CloseAcknowledged(k, ts) => ArchivedNow(t.episodes, row, ts);
      case Resolve(kind, scope, ts) => ArchivedAmongAll(t.rows, t.episodes, kind, scope, ts, key);
      case _ =>
    }
    assert e in Step(t, call, now).episodes;
  }

  lemma ArchivedNow(episodes: seq<Episode>, row: Row, ts: int)
    ensures forall x :: x in episodes ==> x in Archive(episodes, row, ts)
    ensures !Archived(episodes, row.key, row.first)
        ==> Episode(row.key, row.first, row.last, row.count, ts, row.severity) in Archive(episodes, row, ts)
  {
    hide Archived;
    var e := Episode(row.key, row.first, row.last, row.count, ts, row.severity);
    assert (episodes + [e])[|episodes|] == e;
  }

  lemma {:induction false} ArchiveOnlyGrows(rows: seq<Row>, episodes: seq<Episode>, kind: string, scope: string, ts: int)
    ensures forall x :: x in episodes ==> x in ArchiveAll(rows, episodes, kind, scope, ts)
    decreases |rows|
  {
    hide Archive, Concerns;
    if rows != [] {
      ArchivedNow(episodes, rows[0], ts);
      ArchiveOnlyGrows(rows[1..], if Concerns(rows[0], kind, scope) then Archive(episodes, rows[0], ts) else episodes, kind, scope, ts);
    }
  }

  lemma {:induction false} ArchivedAmongAll(rows: seq<Row>, episodes: seq<Episode>, kind: string, scope: string, ts: int, key: string)
    requires OneRowPerKey(rows) && Find(rows, key) < |rows|
    requires var row := rows[Find(rows, key)]; Concerns(row, kind, scope) && !Archived(episodes, row.key, row.first)
    ensures var row := rows[Find(rows, key)];
      Episode(row.key, row.first, row.last, row.count, ts, row.severity) in ArchiveAll(rows, episodes, kind, scope, ts)
    decreases |rows|
  {
    hide Archive, Concerns, Archived;
    var next := if Concerns(rows[0], kind, scope) then Archive(episodes, rows[0], ts) else episodes;
    ArchivedNow(episodes, rows[0], ts);
    if rows[0].key == key {
      ArchiveOnlyGrows(rows[1..], next, kind, scope, ts);
    } else {
      HeadKeyIsGone(rows);
      ArchiveCounts(episodes, rows[0], ts, key);
      ArchivedAmongAll(rows[1..], next, kind, scope, ts, key);
    }
  }

  // ------------------------------------------------------------- notifications and waiting

  // Exactly: a fire notifies unless the alert is open and was notified, handled or raised
  // less than the cooldown ago.
  lemma NotifiesExactly(ticks: seq<Tick>, r: Report, cooldown: int, now: int)
    ensures Notified(Run(ticks), RecordFire(r, cooldown), now)
      <==> !IsOpen(Run(ticks), r.key) || now - LastTouch(ticks, r.key) >= (if cooldown > 0 then cooldown else 0)
  {
    hide Run;
    RunTells(ticks, r.key);
  }

  // Exactly: a report goes on to fire when its alert is open, or when it comes as long as
  // the policy asks after the first report that waited since the last fire.
  lemma FiresExactlyWhenDue(ticks: seq<Tick>, r: Report, policy: Policy, now: int)
    ensures var since := WaitingSince(ticks, r.key);
      Due(Step(Run(ticks), RecordPending(r), now), r, policy)
      <==> IsOpen(Run(ticks), r.key) || r.ts - (if since.Some? then since.value else r.ts) >= policy.forSeconds
  {
    hide Run, Step, RowStep;
    RunTells(ticks, r.key);
    FiresAreConserved(ticks, r.key);
    var t := Run(ticks);
    RowAfter(t, RecordPending(r), now, r.key);
    if HasRow(t, r.key) {
      WaitingRow(t.rows[Find(t.rows, r.key)], r, now);
    }
  }

  // ------------------------------------------------------------- the lease

  // The fire is of this kind and scope, and older than the kind's lease allows.
  predicate Lapsed(newest: Option<Report>, kind: string, scope: string, ttl: map<string, int>, now: int) {
    && newest.Some? && newest.value.kind == kind && newest.value.scope == scope
    && kind in ttl && ttl[kind] != 0 && now - newest.value.ts > ttl[kind]
  }

  lemma {:induction false} FindAlike(a: seq<Row>, b: seq<Row>, key: string)
    requires |a| == |b| && forall i :: 0 <= i < |a| ==> a[i].key == b[i].key
    ensures Find(a, key) == Find(b, key)
  {
    if a != [] {
      FindAlike(a[1..], b[1..], key);
    }
  }

  lemma {:induction false} FoundAt(rows: seq<Row>, i: nat)
    requires i < |rows| && OneRowPerKey(rows)
    ensures Find(rows, rows[i].key) == i
  {
    if i > 0 {
      assert forall j, k :: 0 <= j < k < |rows[1..]| ==> rows[1..][j].key == rows[j + 1].key && rows[1..][k].key == rows[k + 1].key;
      FoundAt(rows[1..], i - 1);
      assert rows[0].key != rows[i].key;
    }
  }

  // Exactly: after any run, a sweep closes an open alert when some open alert of its kind
  // and scope fired last more than the kind's lease ago. Every fire renews the lease.
  lemma SweepClosesExactly(ticks: seq<Tick>, ttl: map<string, int>, now: int, key: string)
    requires IsOpen(Run(ticks), key)
    ensures NewestFire(ticks, key).Some?
    ensures var t, r := Run(ticks), NewestFire(ticks, key).value;
      var after := Calls(t, Sweep(t.rows, ttl, now), now);
      HasRow(after, key)
      && (!IsOpen(after, key) <==> exists k :: IsOpen(t, k) && Lapsed(NewestFire(ticks, k), r.kind, r.scope, ttl, now))
  {
    hide Run, Calls, Sweep, Expired, Lapsed, Find;
    OpenAlertTellsItsOccurrence(ticks, key);
    var t, r := Run(ticks), NewestFire(ticks, key).value;
    var after := Calls(t, Sweep(t.rows, ttl, now), now);
    FiresAreConserved(ticks, key);
    SweepIsExact(t, ttl, now);
    FindAlike(after.rows, t.rows, key);
    var row := t.rows[Find(t.rows, key)];
    forall s | s in t.rows
      ensures Expired(s, ttl, now) && s.kind == row.kind && s.scope == row.scope
         <==> s.status == Active && Lapsed(NewestFire(ticks, s.key), r.kind, r.scope, ttl, now)
      ensures s.status == Active ==> IsOpen(t, s.key)
    {
      var i :| 0 <= i < |t.rows| && t.rows[i] == s;
      FoundAt(t.rows, i);
      LeaseOfOpen(ticks, ttl, now, s.key, r.kind, r.scope);
    }
    if k :| IsOpen(t, k) && Lapsed(NewestFire(ticks, k), r.kind, r.scope, ttl, now) {
      var s := t.rows[Find(t.rows, k)];
      assert s in t.rows && s.key == k;
    }
  }

  lemma LeaseOfOpen(ticks: seq<Tick>, ttl: map<string, int>, now: int, key: string, kind: string, scope: string)
    requires HasRow(Run(ticks), key)
    ensures var s := Run(ticks).rows[Find(Run(ticks).rows, key)];
      s.key == key
      && (Expired(s, ttl, now) && s.kind == kind && s.scope == scope
          <==> s.status == Active && Lapsed(NewestFire(ticks, key), kind, scope, ttl, now))
  {
    hide Run;
    RunTells(ticks, key);
  }

  // Exactly: a rule applies to an open alert when its occurrence has fired as often as the
  // rule asks, and the report comes within the rule's window after the first fire.
  lemma MetExactly(ticks: seq<Tick>, r: Report, rule: Rule)
    requires IsOpen(Run(ticks), r.key)
    ensures Met(Run(ticks), r, rule)
      <==> FiresSince(ticks, r.key) >= rule.threshold && r.ts - BeganAt(ticks, r.key) <= rule.window
  {
    hide Run;
    RunTells(ticks, r.key);
  }

  // A recovery leaves no open alert of the type it names in its scope, and touches no other
  // row.
  lemma RecoveryCloses(t: Table, target: string, r: Report, now: int)
    ensures var rows := AfterRecovery(t, Some(target), r, now).rows;
      |rows| == |t.rows|
      && forall i :: 0 <= i < |rows| ==>
           if t.rows[i].status == Active && t.rows[i].kind == target && t.rows[i].scope == r.scope
           then rows[i].status == Resolved && rows[i].resolvedAt == Some(r.ts)
           else rows[i] == t.rows[i]
  {
    hide MapRows;
    MapRowsFacts(t.rows, Resolve(target, r.scope, r.ts), now, "");
  }
}
