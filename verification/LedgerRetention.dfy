/** Pruning the ledger: it keeps or drops a protection's history whole, and no run of
    events and passes changes a protection that is still live. */
module LedgerRetention {
  import opened Text
  import opened ControlLedger

  // ------------------------------------------------------------------- retention

  // The protection's events must survive a pass with this cutoff.
  predicate Retains(rows: seq<Event>, p: string, cutoff: int) {
    var t := TallyOf(Entries(rows, p));
    IsUnresolved(t) || t.latest >= cutoff
  }

  predicate Survives(rows: seq<Event>, e: Event, cutoff: int) {
    e.created >= cutoff || (e.pid.Some? && Retains(rows, e.pid.value, cutoff))
  }

  function Survivors(all: seq<Event>, rows: seq<Event>, cutoff: int): seq<Event> {
    if rows == [] then []
    else (if Survives(all, rows[0], cutoff) then [rows[0]] else []) + Survivors(all, rows[1..], cutoff)
  }

  // delete_older_than
  function Prune(rows: seq<Event>, cutoff: int): seq<Event> {
    Survivors(rows, rows, cutoff)
  }

  lemma {:induction false} LatestIsABound(entries: seq<Event>)
    ensures forall x :: x in entries ==> x.created <= TallyOf(entries).latest
  {
    hide ActionFor;
    if entries != [] {
      LatestIsABound(entries[..|entries| - 1]);
      assert entries == entries[..|entries| - 1] + [entries[|entries| - 1]];
    }
  }

  lemma {:induction false} SurvivorsOf(all: seq<Event>, rows: seq<Event>, p: string, cutoff: int)
    requires forall x :: x in rows ==> x in all
    ensures Entries(Survivors(all, rows, cutoff), p) == if Retains(all, p, cutoff) then Entries(rows, p) else []
  {
    hide Retains;
    if rows != [] {
      SurvivorsOf(all, rows[1..], p, cutoff);
      var e, rest := rows[0], Survivors(all, rows[1..], cutoff);
      assert ([e] + rest)[1..] == rest && [] + rest == rest;
      if e.pid == Some(p) && !Retains(all, p, cutoff) {
        assert e in all;
        OldWhenNotRetained(all, e, p, cutoff);
      }
    }
  }

  lemma OldWhenNotRetained(all: seq<Event>, e: Event, p: string, cutoff: int)
    requires e in all && e.pid == Some(p) && !Retains(all, p, cutoff)
    ensures e.created < cutoff
  {
    EntriesFacts(all, p);
    LatestIsABound(Entries(all, p));
  }

  // A pass keeps a protection's history whole or drops it whole, and it drops only
  // what is resolved and entirely older than the cutoff.
  lemma PruningIsAllOrNothing(rows: seq<Event>, p: string, cutoff: int)
    ensures Entries(Prune(rows, cutoff), p) == if Retains(rows, p, cutoff) then Entries(rows, p) else []
    ensures Summary(Prune(rows, cutoff), p) == if Retains(rows, p, cutoff) then Summary(rows, p) else None
    ensures IsUnresolved(TallyOf(Entries(rows, p))) ==> Entries(Prune(rows, cutoff), p) == Entries(rows, p)
    ensures Entries(rows, p) != [] && Entries(Prune(rows, cutoff), p) == []
        ==> !IsUnresolved(TallyOf(Entries(rows, p))) && forall x :: x in Entries(rows, p) ==> x.created < cutoff
  {
    SurvivorsOf(rows, rows, p, cutoff);
    LatestIsABound(Entries(rows, p));
  }

  lemma {:induction false} LatestIsReached(entries: seq<Event>)
    requires entries != []
    ensures exists x :: x in entries && x.created == TallyOf(entries).latest
  {
    hide ActionFor;
    var n := |entries| - 1;
    assert entries[n] in entries;
    assert TallyOf(entries) == Count(TallyOf(entries[..n]), entries[n]);
    if entries[..n] != [] {
      LatestIsReached(entries[..n]);
      var x :| x in entries[..n] && x.created == TallyOf(entries[..n]).latest;
      assert x in entries;
    } else {
      assert TallyOf(entries[..n]).latest == 0;
      assert TallyOf(entries).latest == entries[n].created;
    }
  }

  // Exactly: an event survives a pass when it is no older than the cutoff, or when its
  // protection is unresolved or has another such event. A resolved protection whose events
  // are all older is dropped.
  lemma SurvivesExactly(rows: seq<Event>, cutoff: int, e: Event)
    requires e in rows
    ensures e in Prune(rows, cutoff)
      <==> e.created >= cutoff
           || (e.pid.Some? && IsUnresolved(TallyOf(Entries(rows, e.pid.value))))
           || (e.pid.Some? && exists x :: x in rows && x.pid == e.pid && x.created >= cutoff)
  {
    hide TallyOf, IsUnresolved, Entries;
    SurvivorsAre(rows, rows, cutoff, e);
    if e.pid.Some? {
      var entries := Entries(rows, e.pid.value);
      EntriesFacts(rows, e.pid.value);
      LatestIsABound(entries);
      LatestIsReached(entries);
    }
  }

  lemma {:induction false} SurvivorsAre(all: seq<Event>, rows: seq<Event>, cutoff: int, e: Event)
    ensures e in Survivors(all, rows, cutoff) <==> e in rows && Survives(all, e, cutoff)
  {
    hide Survives;
    if rows != [] {
      SurvivorsAre(all, rows[1..], cutoff, e);
    }
  }

  // ------------------------------------------------------ any run of events and passes

  datatype Op = Emit(e: Event) | Pass(cutoff: int)

  function Replay(ops: seq<Op>): seq<Event> {
    if ops == [] then []
    else
      var rows := Replay(ops[..|ops| - 1]);
      match ops[|ops| - 1]
      case Emit(e) => rows + [e]
      case Pass(cutoff) => Prune(rows, cutoff)
  }

  // The ledger that was never pruned.
  function History(ops: seq<Op>): seq<Event> {
    if ops == [] then []
    else
      var rows := History(ops[..|ops| - 1]);
      match ops[|ops| - 1]
      case Emit(e) => rows + [e]
      case Pass(_) => rows
  }

  lemma {:induction false} EntriesConcat(a: seq<Event>, b: seq<Event>, p: string)
    ensures Entries(a + b, p) == Entries(a, p) + Entries(b, p)
  {
    if a == [] {
      assert a + b == b;
    } else {
      assert (a + b)[1..] == a[1..] + b;
      EntriesConcat(a[1..], b, p);
    }
  }

  lemma {:induction false} LatestConcat(a: seq<Event>, b: seq<Event>)
    ensures Latest(a + b) == Latest(a) + Latest(b)
  {
    hide ActionFor, ResourceFor;
    if b == [] {
      assert a + b == a;
    } else {
      assert (a + b)[..|a + b| - 1] == a + b[..|b| - 1];
      LatestConcat(a, b[..|b| - 1]);
    }
  }

  // After a settled history only what comes later counts.
  lemma ActiveAfterSettled(a: seq<Event>, b: seq<Event>)
    requires Active(a) == {}
    ensures Active(a + b) == Active(b)
  {
    hide Latest;
    LatestConcat(a, b);
    forall r | r in Latest(a) ensures Latest(a)[r] != Applied {
      assert r in Active(a) <==> Latest(a)[r] == Applied;
    }
  }

  lemma AlternatesFrom(a: seq<Event>, b: seq<Event>)
    requires Active(a) == {} && Alternates(a + b)
    ensures Alternates(b)
  {
    hide ActionFor, ResourceFor, Active;
    forall i | 0 <= i < |b|
      ensures match ActionFor(b[i].kind)
              case None => true
              case Some(act) => act == Applied <==> ResourceFor(b[i]) !in Active(b[..i])
    {
      assert (a + b)[|a| + i] == b[i];
      assert (a + b)[..|a| + i] == a + b[..i];
      ActiveAfterSettled(a, b[..i]);
    }
  }

  // "Live" by the count is "live" by the lifecycle, for a history that alternates.
  lemma LiveIsActive(entries: seq<Event>)
    requires Alternates(entries) && !TallyOf(entries).rebooted
    ensures IsUnresolved(TallyOf(entries)) <==> Active(entries) != {}
  {
    hide Alternates, TallyOf, Active;
    CountsAgainstActive(entries);
    AlternatingHasNoSurplus(entries);
  }

  // Over any run of events and pruning passes with any cutoffs, what is left of a
  // protection is the end of its history, cut where nothing was live; so the pruned
  // ledger shows the same live resources as the ledger that was never pruned.
  lemma {:induction false} RetentionIsInvisible(ops: seq<Op>, p: string) returns (dropped: seq<Event>)
    requires Alternates(Entries(History(ops), p)) && !TallyOf(Entries(History(ops), p)).rebooted
    ensures Entries(History(ops), p) == dropped + Entries(Replay(ops), p)
    ensures Active(dropped) == {}
    ensures Active(Entries(Replay(ops), p)) == Active(Entries(History(ops), p))
    ensures IsUnresolved(TallyOf(Entries(Replay(ops), p))) <==> IsUnresolved(TallyOf(Entries(History(ops), p)))
  {
    hide Alternates, Active, Count, Prune, IsUnresolved, Retains, TallyOf, Entries;
    if ops == [] {
      dropped := [];
      NothingActive();
    } else {
      var front, op := ops[..|ops| - 1], ops[|ops| - 1];
      var h, k := Entries(History(front), p), Entries(Replay(front), p);
      match op {
        case Emit(e) =>
          EntriesConcat(History(front), [e], p);
          EntriesConcat(Replay(front), [e], p);
          var more := Entries([e], p);
          AlternatesPrefix(h, more);
          TallyConcat(h, more);
          dropped := RetentionIsInvisible(front, p);
          assert dropped + k + more == dropped + (k + more);
          SameAfterSettled(dropped, k + more);
        case Pass(cutoff) =>
          dropped := RetentionIsInvisible(front, p);
          SameAfterSettled(dropped, k);
          PruningIsAllOrNothing(Replay(front), p, cutoff);
          if !Retains(Replay(front), p, cutoff) {
            NotRetainedIsResolved(Replay(front), p, cutoff);
            LiveIsActive(k);
            dropped := h;
            NothingActive();
            NothingLive();
            assert h + [] == h;
          }
      }
    }
  }

  lemma NotRetainedIsResolved(rows: seq<Event>, p: string, cutoff: int)
    requires !Retains(rows, p, cutoff)
    ensures !IsUnresolved(TallyOf(Entries(rows, p)))
  {
  }

  lemma NothingLive()
    ensures !IsUnresolved(TallyOf([]))
  {
  }

  lemma SameAfterSettled(dropped: seq<Event>, kept: seq<Event>)
    requires Active(dropped) == {} && Alternates(dropped + kept) && !TallyOf(dropped + kept).rebooted
    ensures Active(kept) == Active(dropped + kept)
    ensures Alternates(kept) && !TallyOf(kept).rebooted
    ensures IsUnresolved(TallyOf(kept)) <==> IsUnresolved(TallyOf(dropped + kept))
  {
    hide Alternates, Active, TallyOf;
    ActiveAfterSettled(dropped, kept);
    AlternatesFrom(dropped, kept);
    TallyConcat(dropped, kept);
    LiveIsActive(kept);
    LiveIsActive(dropped + kept);
  }

  lemma AlternatesPrefix(a: seq<Event>, b: seq<Event>)
    requires Alternates(a + b)
    ensures Alternates(a)
  {
    hide ActionFor, ResourceFor, Active;
    forall i | 0 <= i < |a| ensures (a + b)[i] == a[i] && (a + b)[..i] == a[..i] {}
  }

  // The same on the read model, when events carry their order in their stamps.
  lemma PruningNeverHidesALiveLimit(ops: seq<Op>, p: string)
    requires var h := Entries(History(ops), p); Sorted(h) && DistinctIds(h) && Alternates(h) && !TallyOf(h).rebooted
    requires Summary(History(ops), p).Some? && Summary(History(ops), p).value.active != {}
    ensures Summary(Replay(ops), p).Some?
    ensures Summary(Replay(ops), p).value.active == Summary(History(ops), p).value.active
  {
    hide Alternates, Active, Sort, Sorted, DistinctIds, TallyOf, StatusOf, Latest, EverApplied;
    var h, k := Entries(History(ops), p), Entries(Replay(ops), p);
    var dropped := RetentionIsInvisible(ops, p);
    SortedSuffix(dropped, k);
    SortOfSorted(h);
    SortOfSorted(k);
    NothingActive();
    SummaryActive(History(ops), p);
    SummaryActive(Replay(ops), p);
  }

  lemma SummaryActive(rows: seq<Event>, p: string)
    ensures Summary(rows, p).Some? <==> Entries(rows, p) != []
    ensures Summary(rows, p).Some? ==> Summary(rows, p).value.active == Active(Sort(Entries(rows, p)))
  {
    var entries := Entries(rows, p);
    if entries != [] { InsertNotEmpty(entries[0], Sort(entries[1..])); }
  }

  lemma SortedSuffix(a: seq<Event>, b: seq<Event>)
    requires Sorted(a + b) && DistinctIds(a + b)
    ensures Sorted(b) && DistinctIds(b)
  {
    hide Before;
    assert forall i :: 0 <= i < |b| ==> b[i] == (a + b)[|a| + i];
  }
}
