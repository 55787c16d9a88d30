/** What a lifecycle says about the events of its protection, told without the pass that
    builds it. */
module LifecycleMeaning {
  import opened Text
  import opened ControlLedger
  import opened LedgerRetention
  import opened LedgerReads

  // The event speaks of this resource; one that names none speaks of the unknown one.
  predicate On(e: Event, r: string) {
    if e.resource == None || e.resource == Some("") then r == "unknown" else e.resource == Some(r)
  }

  // The newest action on a resource.
  ghost predicate Newest(entries: seq<Event>, r: string, e: Event) {
    && e in entries && ActionFor(e.kind).Some? && On(e, r)
    && forall x :: x in entries && ActionFor(x.kind).Some? && On(x, r) ==> x == e || Before(x, e)
  }

  // Some resource's newest action is this one.
  ghost predicate EndsIn(entries: seq<Event>, r: string, a: Action) {
    exists e :: Newest(entries, r, e) && ActionFor(e.kind) == Some(a)
  }

  // Latest on sorted events is the newest action.
  lemma {:induction false} LatestIsNewest(sorted: seq<Event>, r: string)
    requires Sorted(sorted)
    ensures forall a :: (r in Latest(sorted) && Latest(sorted)[r] == a) <==> EndsIn(sorted, r, a)
  {
    hide ActionFor, On, ResourceFor, Before, EndsIn;
    if sorted != [] {
      var n := |sorted| - 1;
      var front, e := sorted[..n], sorted[n];
      assert forall i, j :: 0 <= i < j < n ==> Before(front[i], front[j]) by {
        forall i, j | 0 <= i < j < n
          ensures Before(front[i], front[j])
        {
          assert front[i] == sorted[i] && front[j] == sorted[j];
        }
      }
      LatestIsNewest(front, r);
      assert front + [e] == sorted;
      OnIsResource(e);
      EndsInSnoc(front, e, r);
    } else {
      NothingIsNewest(r);
    }
  }

  lemma EndsInSnoc(front: seq<Event>, e: Event, r: string)
    requires Sorted(front + [e])
    ensures var acts := ActionFor(e.kind).Some? && On(e, r);
      forall a :: EndsIn(front + [e], r, a) <==> if acts then ActionFor(e.kind) == Some(a) else EndsIn(front, r, a)
  {
    hide ActionFor, On, ResourceFor, Before, Newest;
    NewestSnoc(front, e, r);
  }

  lemma OnIsResource(e: Event)
    ensures forall r :: On(e, r) <==> ResourceFor(e) == r
  {
  }

  lemma NothingIsNewest(r: string)
    ensures forall a :: !EndsIn([], r, a)
  {
  }

  lemma NewestSnoc(front: seq<Event>, e: Event, r: string)
    requires Sorted(front + [e])
    ensures var acts := ActionFor(e.kind).Some? && On(e, r);
      forall x :: Newest(front + [e], r, x) <==> if acts then x == e else Newest(front, r, x)
  {
    hide ActionFor, On, ResourceFor;
    var all := front + [e];
    assert all[|front|] == e;
    forall x | x in front
      ensures Before(x, e) && !Before(e, x) && x in all
    {
      var i :| 0 <= i < |front| && front[i] == x;
      assert all[i] == x;
    }
    assert forall x :: x in all <==> x in front || x == e;
    NotBeforeItself(e);
  }

  lemma NotBeforeItself(e: Event)
    ensures !Before(e, e)
  {
  }

  lemma {:induction false} EverAppliedIs(entries: seq<Event>, r: string)
    ensures r in EverApplied(entries) <==> exists e :: e in entries && ActionFor(e.kind) == Some(Applied) && On(e, r)
  {
    hide ActionFor, On, ResourceFor;
    if entries != [] {
      var n := |entries| - 1;
      EverAppliedIs(entries[..n], r);
      OnIsResource(entries[n]);
      assert entries == entries[..n] + [entries[n]];
      assert forall e :: e in entries <==> e in entries[..n] || e == entries[n];
    }
  }

  lemma SameNewest(a: seq<Event>, b: seq<Event>, r: string)
    requires forall x :: x in a <==> x in b
    ensures forall act :: EndsIn(a, r, act) <==> EndsIn(b, r, act)
  {
    hide ActionFor, On, ResourceFor, Before;
    assert forall e :: Newest(a, r, e) <==> Newest(b, r, e);
  }

  // A resource is active, recovered or failed by its newest action, whatever it went
  // through before.
  lemma ResourcesByNewestAction(rows: seq<Event>, p: string, r: string)
    requires DistinctIds(rows) && Entries(rows, p) != []
    ensures Summary(rows, p).Some?
    ensures var l, entries := Summary(rows, p).value, Entries(rows, p);
      && (r in l.active <==> EndsIn(entries, r, Applied))
      && (r in l.recovered <==> EndsIn(entries, r, Recovered))
      && (r in l.failed <==> EndsIn(entries, r, Failed))
      && (r in l.applied <==> exists e :: e in entries && ActionFor(e.kind) == Some(Applied) && On(e, r))
  {
    hide DistinctIds, Sort, StatusOf, Latest, EverApplied, EndsIn, ActionFor, On, ResourceFor;
    var entries := Entries(rows, p);
    var sorted := Sort(entries);
    EntriesFacts(rows, p);
    SortFacts(entries);
    LatestIsNewest(sorted, r);
    EverAppliedIs(sorted, r);
    SameNewest(sorted, entries, r);
    assert |sorted| == |entries|;
  }

  // Start, app, boot and cgroups come from the first event, the update from the last.
  lemma EndsOfLifecycle(rows: seq<Event>, p: string, x: Event) returns (first: Event, last: Event)
    requires DistinctIds(rows) && x in Entries(rows, p)
    ensures first in Entries(rows, p) && (x == first || Before(first, x))
    ensures last in Entries(rows, p) && (x == last || Before(x, last))
    ensures Summary(rows, p).Some?
    ensures var l := Summary(rows, p).value;
      && l.startedAt == first.ts && l.app == first.app && l.boot == first.boot && l.cgroups == first.cgroups
      && l.lastUpdatedAt == last.ts
      && (forall e :: e in l.events <==> e in Entries(rows, p))
  {
    hide DistinctIds, StatusOf, Latest, EverApplied, Before;
    EntriesFacts(rows, p);
    SortFacts(Entries(rows, p));
    var sorted := Sort(Entries(rows, p));
    assert x in sorted;
    first, last := sorted[0], sorted[|sorted| - 1];
    var i :| 0 <= i < |sorted| && sorted[i] == x;
    assert first in sorted && last in sorted;
  }

  predicate Unmarked(rows: seq<Event>, p: string) {
    forall e :: e in Entries(rows, p) ==> e.kind !in [REBOOT_CLEARED, RUNTIME_CLEARED, VERIFICATION]
  }

  // Exactly: without markers a lifecycle is failed when the newest action on some resource
  // is FAILED, even while another is applied; active when one is applied and none failed;
  // and recovered otherwise.
  lemma StatusExactly(rows: seq<Event>, p: string)
    requires DistinctIds(rows) && Entries(rows, p) != [] && Unmarked(rows, p)
    ensures Summary(rows, p).Some?
    ensures var status, entries := Summary(rows, p).value.status, Entries(rows, p);
      && (status == IsFailed <==> exists r :: EndsIn(entries, r, Failed))
      && (status == IsActive <==> (exists r :: EndsIn(entries, r, Applied)) && !exists r :: EndsIn(entries, r, Failed))
      && (status == IsRecovered <==> !exists r, a :: EndsIn(entries, r, a) && a != Recovered)
  {
    hide DistinctIds, Sort, Latest, EverApplied, EndsIn, ActionFor, On, ResourceFor, Entries;
    var entries := Entries(rows, p);
    var sorted := Sort(entries);
    EntriesFacts(rows, p);
    SortFacts(entries);
    forall r
      ensures (r in With(Latest(sorted), Failed) <==> EndsIn(entries, r, Failed))
           && (r in With(Latest(sorted), Applied) <==> EndsIn(entries, r, Applied))
    {
      ResourcesByNewestAction(rows, p, r);
    }
    assert |sorted| == |entries|;
    assert forall k :: k in (set e | e in sorted :: e.kind) ==> k !in [REBOOT_CLEARED, RUNTIME_CLEARED, VERIFICATION];
  }

  ghost predicate Holds(entries: seq<Event>, kind: string) {
    exists e :: e in entries && e.kind == kind
  }

  lemma KindsAre(a: seq<Event>, b: seq<Event>, kind: string)
    requires forall x :: x in a <==> x in b
    ensures kind in (set e | e in a :: e.kind) <==> Holds(b, kind)
  {
  }

  // A marker decides, the reboot before the runtime clearing; the verification only of a
  // lifecycle that would be active.
  lemma MarkersDecide(rows: seq<Event>, p: string)
    requires DistinctIds(rows) && Entries(rows, p) != []
    ensures Summary(rows, p).Some?
    ensures var status, entries := Summary(rows, p).value.status, Entries(rows, p);
      && (status == ClearedByReboot <==> Holds(entries, REBOOT_CLEARED))
      && (status == ClearedWithoutRuntimeState <==> Holds(entries, RUNTIME_CLEARED) && !Holds(entries, REBOOT_CLEARED))
      && (status == RequiresVerification <==>
            && Holds(entries, VERIFICATION) && !Holds(entries, RUNTIME_CLEARED) && !Holds(entries, REBOOT_CLEARED)
            && (exists r :: EndsIn(entries, r, Applied)) && !exists r :: EndsIn(entries, r, Failed))
  {
    hide DistinctIds, Sort, Latest, EverApplied, EndsIn, ActionFor, On, ResourceFor, Entries, Holds;
    var entries := Entries(rows, p);
    var sorted := Sort(entries);
    EntriesFacts(rows, p);
    SortFacts(entries);
    forall r
      ensures (r in With(Latest(sorted), Failed) <==> EndsIn(entries, r, Failed))
           && (r in With(Latest(sorted), Applied) <==> EndsIn(entries, r, Applied))
    {
      ResourcesByNewestAction(rows, p, r);
    }
    assert |sorted| == |entries|;
    KindsAre(sorted, entries, REBOOT_CLEARED);
    KindsAre(sorted, entries, RUNTIME_CLEARED);
    KindsAre(sorted, entries, VERIFICATION);
  }

  // Exactly: a restart finds a protection unfinished when more of its events applied than
  // closed, some resource is applied by its newest action and none failed by it, and no
  // marker says so already.
  lemma UnfinishedExactly(rows: seq<Event>, p: string)
    requires DistinctIds(rows)
    ensures var entries := Entries(rows, p);
      Unfinished(rows, p)
      <==> IsUnresolved(TallyOf(entries)) && Unmarked(rows, p)
           && (exists r :: EndsIn(entries, r, Applied)) && !exists r :: EndsIn(entries, r, Failed)
  {
    hide DistinctIds, Sort, Latest, EverApplied, EndsIn, ActionFor, On, ResourceFor, Entries, TallyOf, IsUnresolved, StatusOf;
    var entries := Entries(rows, p);
    if entries == [] {
      NothingLive();
    } else {
      MarkersDecide(rows, p);
      if Unmarked(rows, p) {
        StatusExactly(rows, p);
      } else {
        MarkedIsNotActive(rows, p);
      }
    }
  }

  lemma MarkedIsNotActive(rows: seq<Event>, p: string)
    requires DistinctIds(rows) && Entries(rows, p) != [] && !Unmarked(rows, p)
    ensures Summary(rows, p).Some?
    ensures Summary(rows, p).value.status == IsActive ==>
      exists e :: e in Entries(rows, p) && e.kind in [VERIFICATION, REBOOT_CLEARED]
  {
    hide DistinctIds, Sort, Latest, EverApplied, EndsIn, ActionFor, On, ResourceFor, Entries;
    MarkersDecide(rows, p);
  }
}
