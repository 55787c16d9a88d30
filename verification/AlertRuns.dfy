/** What every run of alert calls keeps: when fires get lost, how far apart the
    notifications of one occurrence are, and that an escalation never drops. */
module AlertRuns {
  import opened Text
  import opened AlertStore

  // ------------------------------------------------------------- when fires are lost

  // Exactly: a key loses fires when one of its occurrences closes under a start stamp
  // that stands in the archive.
  lemma {:induction false} LossIsCollision(ticks: seq<Tick>, key: string)
    ensures Lost(ticks, key) == 0 <==> NeverCollides(ticks, key)
  {
    hide Run, Collides, Open;
    if ticks != [] {
      var front, n := ticks[..|ticks| - 1], |ticks| - 1;
      LossIsCollision(front, key);
      assert ticks[..n] == front;
      forall i | 0 <= i < n ensures front[..i] == ticks[..i] && front[i] == ticks[i] {}
      if Collides(Run(front), ticks[n].call, key) { CollisionLoses(front, ticks[n].call, key); }
    }
  }

  lemma CollisionLoses(ticks: seq<Tick>, call: Call, key: string)
    requires Collides(Run(ticks), call, key)
    ensures Open(Run(ticks).rows, key) >= 1
  {
    hide Run, Archived;
    OpenRowsCount(ticks, key);
  }

  // An occurrence that begins with a new stamp does not meet its stamp in the archive.
  ghost predicate OpenStampIsNew(t: Table, key: string) {
    var i := Find(t.rows, key);
    i < |t.rows| && t.rows[i].status == Active ==> !Archived(t.episodes, key, t.rows[i].first)
  }

  lemma {:induction false} NewStampsStayNew(ticks: seq<Tick>, key: string)
    requires !ReusesStamp(ticks, key)
    ensures OpenStampIsNew(Run(ticks), key)
  {
    hide Step, Archived;
    if ticks != [] {
      var front, n := ticks[..|ticks| - 1], |ticks| - 1;
      assert ticks[..n] == front;
      forall i | 0 <= i < n ensures front[..i] == ticks[..i] && front[i] == ticks[i] {}
      NewStampsStayNew(front, key);
      FiresAreConserved(front, key);
      assert Begins(Run(front), ticks[n].call, key) ==> !Archived(Run(front).episodes, key, ticks[n].call.r.ts);
      StampStep(Run(front), ticks[n].call, ticks[n].now, key);
    }
  }

  lemma StampStep(t: Table, call: Call, now: int, key: string)
    requires OneRowPerKey(t.rows) && OpenStampIsNew(t, key)
    requires Begins(t, call, key) ==> !Archived(t.episodes, key, call.r.ts)
    ensures OpenStampIsNew(Step(t, call, now), key)
  {
    hide Archived, Archive, ArchiveAll, Step;
    RowAfter(t, call, now, key);
    var i := Find(t.rows, key);
    if i < |t.rows| { RowStamps(t.rows[i], call, now); }
    if !Closes(t, call, key) { ArchiveGrowth(t, call, now, key); }
  }

  lemma RowStamps(row: Row, call: Call, now: int)
    ensures var next := RowStep(row, call, now);
            next.status == Active ==>
              if row.status == Active then next.first == row.first
              else FiredHere(call, row.key) && next.first == call.r.ts
  {
    hide Rank, Notifies;
  }

  // A call archives nothing under a key whose open occurrence it does not close.
  lemma ArchiveGrowth(t: Table, call: Call, now: int, key: string)
    requires OneRowPerKey(t.rows) && !Closes(t, call, key)
    ensures forall first :: Archived(Step(t, call, now).episodes, key, first) <==> Archived(t.episodes, key, first)
  {
    hide Archived, Archive, MapRows, NewRow;
    match call {
      case CloseAcknowledged(k, ts) =>
        var i := Find(t.rows, k);
        if i < |t.rows| && t.rows[i].status == Active { ArchiveCounts(t.episodes, t.rows[i], ts, key); }
      case Resolve(kind, scope, ts) => ArchiveAllGrowth(t.rows, t.episodes, kind, scope, ts, key);
      case _ =>
    }
  }

  lemma {:induction false} ArchiveAllGrowth(rows: seq<Row>, episodes: seq<Episode>, kind: string, scope: string, ts: int,
                                            key: string)
    requires OneRowPerKey(rows)
    requires Find(rows, key) < |rows| ==> !Concerns(rows[Find(rows, key)], kind, scope)
    ensures forall first :: Archived(ArchiveAll(rows, episodes, kind, scope, ts), key, first) <==> Archived(episodes, key, first)
    decreases |rows|
  {
    hide Archived, Archive, Concerns;
    if rows != [] {
      var next := if Concerns(rows[0], kind, scope) then Archive(episodes, rows[0], ts) else episodes;
      HeadKeyIsGone(rows);
      if rows[0].key == key { NotThere(rows[1..], key); }
      ArchiveCounts(episodes, rows[0], ts, key);
      ArchiveAllGrowth(rows[1..], next, kind, scope, ts, key);
    }
  }

  // With start stamps that are never reused, the archive and the open occurrence hold
  // every fire.
  lemma {:induction false} DistinctStampsLoseNothing(ticks: seq<Tick>, key: string)
    requires !ReusesStamp(ticks, key)
    ensures InArchive(Run(ticks).episodes, key) + Open(Run(ticks).rows, key) == Fires(ticks, key)
  {
    hide Step, Begins, Archived, Open, InArchive, Collides;
    forall i | 0 <= i < |ticks| ensures !Collides(Run(ticks[..i]), ticks[i].call, key) {
      PrefixReuses(ticks, i, key);
      NewStampsStayNew(ticks[..i], key);
      NewStampDoesNotCollide(Run(ticks[..i]), ticks[i].call, key);
    }
    LossIsCollision(ticks, key);
    FiresAreConserved(ticks, key);
  }

  lemma NewStampDoesNotCollide(t: Table, call: Call, key: string)
    requires OpenStampIsNew(t, key)
    ensures !Collides(t, call, key)
  {
  }

  lemma PrefixReuses(ticks: seq<Tick>, n: nat, key: string)
    requires n <= |ticks| && !ReusesStamp(ticks, key)
    ensures !ReusesStamp(ticks[..n], key)
  {
    hide Run, Begins, Archived;
    forall i | 0 <= i < n ensures ticks[..n][..i] == ticks[..i] && ticks[..n][i] == ticks[i] {}
  }

  // --------------------------------------------------- notifications of one occurrence

  // A notification: the key, which of its occurrences, and when.
  datatype Notice = Notice(key: string, occurrence: nat, at: int)

  function Occurrences(ticks: seq<Tick>, key: string): nat {
    if ticks == [] then 0
    else
      Occurrences(ticks[..|ticks| - 1], key)
      + (if Begins(Run(ticks[..|ticks| - 1]), ticks[|ticks| - 1].call, key) then 1 else 0)
  }

  // should_notify of record_fire
  predicate Notified(t: Table, call: Call, now: int) {
    call.RecordFire?
    && (var i := Find(t.rows, call.r.key); i == |t.rows| || Notifies(t.rows[i], now, call.cooldown))
  }

  function Notices(ticks: seq<Tick>): seq<Notice> {
    if ticks == [] then []
    else
      var front, tick := ticks[..|ticks| - 1], ticks[|ticks| - 1];
      Notices(front)
      + (if Notified(Run(front), tick.call, tick.now)
         then [Notice(tick.call.r.key, Occurrences(ticks, tick.call.r.key), tick.now)] else [])
  }

  // The clock never goes back, and every fire uses the same cooldown.
  ghost predicate Timely(ticks: seq<Tick>, cooldown: int) {
    && (forall i, j :: 0 <= i < j < |ticks| ==> ticks[i].now <= ticks[j].now)
    && (forall i :: 0 <= i < |ticks| && ticks[i].call.RecordFire? ==> ticks[i].call.cooldown == cooldown)
  }

  // A notification of the latest occurrence is no later than the row's update stamp,
  // and that is no later than the clock.
  ghost predicate NoticesBehind(ticks: seq<Tick>, key: string) {
    var t := Run(ticks);
    var i := Find(t.rows, key);
    && (i < |t.rows| ==> ticks != [] && t.rows[i].updated <= ticks[|ticks| - 1].now)
    && (forall n :: n in Notices(ticks) && n.key == key ==>
          n.occurrence <= Occurrences(ticks, key) && i < |t.rows|
          && (n.occurrence == Occurrences(ticks, key) ==> n.at <= t.rows[i].updated))
  }

  lemma RowUpdates(row: Row, call: Call, now: int)
    requires row.updated <= now
    ensures row.updated <= RowStep(row, call, now).updated <= now
    ensures FiredHere(call, row.key) && Notifies(row, now, call.cooldown) ==> RowStep(row, call, now).updated == now
  {
    hide Rank;
  }

  lemma {:induction false} NoticesStayBehind(ticks: seq<Tick>, cooldown: int, key: string)
    requires Timely(ticks, cooldown)
    ensures NoticesBehind(ticks, key)
  {
    hide Step, RowStep, Notifies, Begins;
    if ticks != [] {
      var front, tick := ticks[..|ticks| - 1], ticks[|ticks| - 1];
      NoticesStayBehind(front, cooldown, key);
      FiresAreConserved(front, key);
      var t := Run(front);
      RowAfter(t, tick.call, tick.now, key);
      var i := Find(t.rows, key);
      if i < |t.rows| {
        assert front[|front| - 1].now <= tick.now;
        RowUpdates(t.rows[i], tick.call, tick.now);
      }
      NoticesStep(front, tick, key);
    }
  }

  // What a call adds to the notices of a key, and to its occurrences.
  lemma NoticesStep(front: seq<Tick>, tick: Tick, key: string)
    ensures (front + [tick])[..|front|] == front
    ensures Begins(Run(front), tick.call, key) ==> Notified(Run(front), tick.call, tick.now)
    ensures forall n :: n in Notices(front + [tick]) ==>
              n in Notices(front)
              || (Notified(Run(front), tick.call, tick.now)
                  && n == Notice(tick.call.r.key, Occurrences(front + [tick], tick.call.r.key), tick.now))
  {
    hide Run;
    assert (front + [tick])[..|front|] == front;
  }

  // Within one occurrence of an alert, notifications are at least the cooldown apart,
  // over any run of calls on any keys with a clock that never goes back.
  lemma {:induction false} NoticesKeepTheCooldown(ticks: seq<Tick>, cooldown: int)
    requires Timely(ticks, cooldown)
    ensures var ns := Notices(ticks);
            forall i, j :: 0 <= i < j < |ns| && ns[i].key == ns[j].key && ns[i].occurrence == ns[j].occurrence ==>
              ns[j].at - ns[i].at >= cooldown && ns[j].at >= ns[i].at
  {
    hide Step, Begins, NoticesBehind, Notifies;
    if ticks != [] {
      var front, tick := ticks[..|ticks| - 1], ticks[|ticks| - 1];
      NoticesKeepTheCooldown(front, cooldown);
      assert front + [tick] == ticks;
      if Notified(Run(front), tick.call, tick.now) {
        NoticesStayBehind(front, cooldown, tick.call.r.key);
        NewNoticeIsLater(front, tick, cooldown);
        var ns := Notices(ticks);
        forall i, j | 0 <= i < j < |ns| && ns[i].key == ns[j].key && ns[i].occurrence == ns[j].occurrence
          ensures ns[j].at - ns[i].at >= cooldown && ns[j].at >= ns[i].at
        {
          assert ns[i] == Notices(front)[i] && ns[i] in Notices(front);
        }
      }
    }
  }

  lemma NewNoticeIsLater(front: seq<Tick>, tick: Tick, cooldown: int)
    requires Timely(front + [tick], cooldown) && Notified(Run(front), tick.call, tick.now)
    requires NoticesBehind(front, tick.call.r.key)
    ensures var key := tick.call.r.key;
            forall n :: n in Notices(front) && n.key == key
                        && n.occurrence == Occurrences(front + [tick], key) ==>
              tick.now - n.at >= cooldown && tick.now >= n.at
  {
    hide Run, Notices;
    var key := tick.call.r.key;
    var t := Run(front);
    assert (front + [tick])[..|front|] == front && (front + [tick])[|front|] == tick;
    assert front != [] ==> (front + [tick])[|front| - 1] == front[|front| - 1];
  }

  // ------------------------------------------------------------------ escalation

  // While an occurrence is open, an escalated severity never drops.
  lemma EscalationNeverDrops(t: Table, call: Call, now: int, key: string)
    requires OneRowPerKey(t.rows)
    requires Find(t.rows, key) < |t.rows| && t.rows[Find(t.rows, key)].escalated
    ensures var before := t.rows[Find(t.rows, key)];
            var after := Step(t, call, now).rows;
            && Find(after, key) == Find(t.rows, key) < |after|
            && after[Find(after, key)].escalated
            && (before.status == Active && after[Find(after, key)].status == Active
                ==> Rank(after[Find(after, key)].severity) >= Rank(before.severity))
  {
    hide Step, Notifies;
    RowAfter(t, call, now, key);
  }

  // The baseline is the severity before the first escalation, and no call changes it.
  lemma BaselineIsTheFirst(t: Table, call: Call, now: int, key: string)
    requires OneRowPerKey(t.rows) && Find(t.rows, key) < |t.rows|
    ensures var before := t.rows[Find(t.rows, key)];
            var after := Step(t, call, now).rows;
            && Find(after, key) == Find(t.rows, key) < |after|
            && (before.baseline.Some? ==> after[Find(after, key)].baseline == before.baseline)
            && (before.baseline.None? && !before.escalated && after[Find(after, key)].escalated
                ==> after[Find(after, key)].baseline == Some(before.severity))
  {
    hide Step, Notifies;
    RowAfter(t, call, now, key);
  }
}
