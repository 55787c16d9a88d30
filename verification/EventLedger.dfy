/** The ledger table and the calls on it, each under the database lock. */
module EventLedger {
  import opened Text
  import opened ControlLedger
  import opened LedgerRetention
  import opened LedgerReads

  datatype DBStatus = Success | AlreadyExisting | Rejected

  ghost predicate DistinctKeys(rows: seq<Event>) {
    forall i, j :: 0 <= i < j < |rows| && rows[i].dedup.Some? ==> rows[i].dedup != rows[j].dedup
  }

  lemma {:induction false} EntriesSnoc(events: seq<Event>, i: nat, p: string)
    requires i < |events|
    ensures Entries(events[..i + 1], p) == Entries(events[..i], p) + (if events[i].pid == Some(p) then [events[i]] else [])
  {
    assert events[..i + 1] == events[..i] + [events[i]];
    EntriesConcat(events[..i], [events[i]], p);
    assert [events[i]][1..] == [];
  }

  lemma {:induction false} SurvivorsDistinct(all: seq<Event>, rows: seq<Event>, cutoff: int)
    requires DistinctIds(rows) && DistinctKeys(rows)
    ensures DistinctIds(Survivors(all, rows, cutoff)) && DistinctKeys(Survivors(all, rows, cutoff))
    ensures forall x :: x in Survivors(all, rows, cutoff) ==> x in rows
  {
    hide Survives;
    if rows != [] {
      HeadIdIsNew(rows);
      forall x | x in rows[1..] && rows[0].dedup.Some? ensures x.dedup != rows[0].dedup {
        var i :| 0 <= i < |rows[1..]| && rows[1..][i] == x;
        assert rows[i + 1] == x;
      }
      assert forall i :: 0 <= i < |rows[1..]| ==> rows[1..][i] == rows[i + 1];
      SurvivorsDistinct(all, rows[1..], cutoff);
      var rest := Survivors(all, rows[1..], cutoff);
      forall j | 0 <= j < |rest| ensures rest[j].id != rows[0].id && (rows[0].dedup.Some? ==> rest[j].dedup != rows[0].dedup) {
        assert rest[j] in rest;
      }
    }
  }

  // summarize, one protection: a pass over the sorted events.
  method Digest(sorted: seq<Event>) returns (l: Lifecycle)
    requires sorted != []
    ensures l == LifecycleOf(sorted)
  {
    hide ActionFor, ResourceFor, StatusOf, With;
    var latest: map<string, Action> := map[];
    var ever: set<string> := {};
    var i := 0;
    while i < |sorted|
      invariant 0 <= i <= |sorted|
      invariant latest == Latest(sorted[..i]) && ever == EverApplied(sorted[..i])
    {
      assert sorted[..i + 1][..i] == sorted[..i];
      var action := ActionFor(sorted[i].kind);
      if action.Some? {
        var resource := ResourceFor(sorted[i]);
        latest := latest[resource := action.value];
        if action.value == Applied && resource !in ever { ever := ever + {resource}; }
      }
      i := i + 1;
    }
    assert sorted[..i] == sorted;
    var first, last := sorted[0], sorted[|sorted| - 1];
    l := Lifecycle(StatusOf(sorted), first.ts, last.ts, first.app, first.boot, ever,
                   With(latest, Recovered), With(latest, Failed), With(latest, Applied), first.cgroups, sorted);
  }

  method Summarize(events: seq<Event>) returns (lifecycles: map<string, Lifecycle>)
    ensures forall p :: p in lifecycles <==> Summary(events, p).Some?
    ensures forall p :: p in lifecycles ==> lifecycles[p] == Summary(events, p).value
  {
    hide Sort, LifecycleOf, Groups, Entries;
    var grouped: map<string, seq<Event>> := map[];
    var i := 0;
    NoGroups();
    assert events[..0] == [];
    while i < |events|
      invariant 0 <= i <= |events| && Groups(grouped, events[..i])
    {
      GroupsGrow(grouped, events, i);
      if events[i].pid.Some? {
        var p := events[i].pid.value;
        grouped := grouped[p := (if p in grouped then grouped[p] else []) + [events[i]]];
      }
      i := i + 1;
    }
    assert events[..i] == events;
    GroupsAre(grouped, events);
    lifecycles := map[];
    var todo := grouped.Keys;
    while todo != {}
      invariant todo <= grouped.Keys && lifecycles.Keys == grouped.Keys - todo
      invariant forall p :: p in lifecycles ==> Summary(events, p).Some? && lifecycles[p] == Summary(events, p).value
      decreases |todo|
    {
      var p :| p in todo;
      var entries := Sort(grouped[p]);
      SortedNotEmpty(grouped[p]);
      var l := Digest(entries);
      lifecycles := lifecycles[p := l];
      todo := todo - {p};
    }
    forall p ensures p in lifecycles <==> Summary(events, p).Some? {
      SummaryActive(events, p);
    }
  }

  // The events so far, by protection and in order.
  ghost predicate Groups(grouped: map<string, seq<Event>>, events: seq<Event>) {
    && (forall p :: p in grouped <==> Entries(events, p) != [])
    && (forall p :: p in grouped ==> grouped[p] == Entries(events, p))
  }

  lemma NoGroups()
    ensures Groups(map[], [])
  {
  }

  lemma GroupsGrow(grouped: map<string, seq<Event>>, events: seq<Event>, i: nat)
    requires i < |events| && Groups(grouped, events[..i])
    ensures Groups(if events[i].pid.None? then grouped
                   else
                     var p := events[i].pid.value;
                     grouped[p := (if p in grouped then grouped[p] else []) + [events[i]]], events[..i + 1])
  {
    hide Entries;
    forall p ensures Entries(events[..i + 1], p)
                  == Entries(events[..i], p) + (if events[i].pid == Some(p) then [events[i]] else [])
    {
      EntriesSnoc(events, i, p);
    }
  }

  lemma GroupsAre(grouped: map<string, seq<Event>>, events: seq<Event>)
    requires Groups(grouped, events)
    ensures forall p :: p in grouped ==> grouped[p] == Entries(events, p) != []
    ensures forall p :: p in grouped <==> Entries(events, p) != []
  {
    hide Entries;
  }

  lemma SortedNotEmpty(s: seq<Event>)
    requires s != []
    ensures Sort(s) != []
  {
    InsertNotEmpty(s[0], Sort(s[1..]));
  }

  // One mark for each of the protections.
  method MarksFor(rows: seq<Event>, pids: set<string>, lifecycles: map<string, Lifecycle>,
                  current: Option<string>, nextId: nat, ts: nat, created: nat) returns (marks: seq<Event>)
    requires forall p :: p in pids ==> p in lifecycles && Summary(rows, p) == Some(lifecycles[p])
    ensures |marks| == |pids| && forall i :: 0 <= i < |marks| ==> marks[i].id == nextId + i && marks[i].dedup == None
    ensures forall e :: e in marks ==> e.pid.Some? && e.pid.value in pids && IsMark(rows, e, current)
    ensures forall p :: p in pids ==> exists e :: e in marks && e.pid == Some(p)
  {
    hide Summary, IsMark, Mark, MarksOf;
    marks := [];
    var todo := pids;
    ghost var done: set<string> := {};
    NoMarks(rows, current, nextId);
    while todo != {}
      invariant done == pids - todo && todo <= pids && |marks| + |todo| == |pids|
      invariant MarksOf(rows, marks, done, current, nextId)
      decreases |todo|
    {
      var p :| p in todo;
      var mark := Mark(p, lifecycles[p], current, nextId + |marks|, ts, created);
      MarkFacts(rows, p, lifecycles[p], current, nextId + |marks|, ts, created);
      OneMoreMark(rows, marks, done, p, mark, current, nextId);
      marks := marks + [mark];
      todo := todo - {p};
      done := done + {p};
    }
    assert done == pids;
    MarksMean(rows, marks, pids, current, nextId);
  }

  // Numbered marks for exactly these protections.
  ghost predicate MarksOf(rows: seq<Event>, marks: seq<Event>, pids: set<string>, current: Option<string>, nextId: nat) {
    && (forall i :: 0 <= i < |marks| ==> marks[i].id == nextId + i && marks[i].dedup == None)
    && (forall e :: e in marks ==> e.pid.Some? && e.pid.value in pids && IsMark(rows, e, current))
    && (forall p :: p in pids ==> exists e :: e in marks && e.pid == Some(p))
  }

  lemma NoMarks(rows: seq<Event>, current: Option<string>, nextId: nat)
    ensures MarksOf(rows, [], {}, current, nextId)
  {
  }

  lemma OneMoreMark(rows: seq<Event>, marks: seq<Event>, pids: set<string>, p: string, mark: Event,
                    current: Option<string>, nextId: nat)
    requires MarksOf(rows, marks, pids, current, nextId)
    requires mark.id == nextId + |marks| && mark.dedup == None && mark.pid == Some(p) && IsMark(rows, mark, current)
    ensures MarksOf(rows, marks + [mark], pids + {p}, current, nextId)
  {
    hide IsMark;
    var more := marks + [mark];
    assert more[|marks|] == mark;
    assert forall e :: e in more <==> e in marks || e == mark;
    forall q | q in pids + {p}
      ensures exists e :: e in more && e.pid == Some(q)
    {
      if q == p {
        assert mark in more;
      } else {
        var e :| e in marks && e.pid == Some(q);
        assert e in more;
      }
    }
  }

  lemma MarksMean(rows: seq<Event>, marks: seq<Event>, pids: set<string>, current: Option<string>, nextId: nat)
    requires MarksOf(rows, marks, pids, current, nextId)
    ensures forall i :: 0 <= i < |marks| ==> marks[i].id == nextId + i && marks[i].dedup == None
    ensures forall e :: e in marks ==> e.pid.Some? && e.pid.value in pids && IsMark(rows, e, current)
    ensures forall p :: p in pids ==> exists e :: e in marks && e.pid == Some(p)
  {
    hide IsMark;
  }

  lemma MarksKeepValid(rows: seq<Event>, marks: seq<Event>, nextId: nat)
    requires DistinctIds(rows) && DistinctKeys(rows) && forall e :: e in rows ==> e.id < nextId
    requires forall i :: 0 <= i < |marks| ==> marks[i].id == nextId + i && marks[i].dedup == None
    ensures DistinctIds(rows + marks) && DistinctKeys(rows + marks)
  {
  }

  class Ledger {
    var rows: seq<Event>

    ghost predicate Valid()
      reads this
    {
      DistinctIds(rows) && DistinctKeys(rows)
    }

    constructor ()
      ensures Valid() && rows == []
    {
      rows := [];
    }

    // One row per event id, and one per deduplication key while that row is kept.
    method InsertEvent(e: Event) returns (status: DBStatus)
      requires Valid()
      modifies this
      ensures Valid()
      ensures status == AlreadyExisting <==> e.dedup.Some? && exists x :: x in old(rows) && x.dedup == e.dedup
      ensures status == Rejected <==> status != AlreadyExisting && exists x :: x in old(rows) && x.id == e.id
      ensures rows == if status == Success then old(rows) + [e] else old(rows)
    {
      if e.dedup.Some? && exists x :: x in rows && x.dedup == e.dedup { return AlreadyExisting; }
      if exists x :: x in rows && x.id == e.id { return Rejected; }
      rows := rows + [e];
      status := Success;
    }

    // _scan_control_lifecycles
    method ScanControlLifecycles() returns (stats: map<string, Tally>)
      ensures stats.Keys == Pids(rows)
      ensures forall p :: p in stats ==> stats[p] == TallyOf(Entries(rows, p))
    {
      hide Count, TallyOf, Entries, Pids;
      PidsOfNothing();
      assert rows[..0] == [];
      stats := map[];
      var i := 0;
      while i < |rows|
        invariant 0 <= i <= |rows|
        invariant stats.Keys == Pids(rows[..i])
        invariant forall p :: p in stats ==> stats[p] == TallyOf(Entries(rows[..i], p))
      {
        var row := rows[i];
        forall p ensures Entries(rows[..i + 1], p)
                      == Entries(rows[..i], p) + (if row.pid == Some(p) then [row] else [])
        {
          EntriesSnoc(rows, i, p);
        }
        PidsSnoc(rows, i);
        if row.pid.Some? {
          var p := row.pid.value;
          if p !in stats { FirstEntry(rows[..i], p); }
          TallySnoc(Entries(rows[..i], p), row);
          var state := if p in stats then stats[p] else Tally(0, 0, false, 0);
          stats := stats[p := Count(state, row)];
        }
        forall p | p in stats ensures stats[p] == TallyOf(Entries(rows[..i + 1], p)) {
          assert Entries(rows[..i], p) + [] == Entries(rows[..i], p);
        }
        i := i + 1;
      }
      assert rows[..i] == rows;
    }

    // delete_older_than
    method DeleteOlderThan(cutoff: int) returns (deleted: nat)
      requires Valid()
      modifies this
      ensures Valid()
      ensures rows == Prune(old(rows), cutoff) && deleted == |old(rows)| - |rows|
    {
      hide TallyOf, Entries, IsUnresolved, Survives, DistinctIds, DistinctKeys, Survivors, Pids;
      var stats := ScanControlLifecycles();
      ghost var before := rows;
      var retain := set p | p in stats && (IsUnresolved(stats[p]) || stats[p].latest >= cutoff);
      SurvivorsDistinct(rows, rows, cutoff);
      var kept: seq<Event> := [];
      var i := 0;
      while i < |rows|
        invariant 0 <= i <= |rows| && rows == before && |kept| <= i
        invariant kept + Survivors(before, before[i..], cutoff) == Prune(before, cutoff)
      {
        var row := rows[i];
        NextSurvivor(before, i, cutoff, kept);
        SurvivesByRetain(before, row, cutoff, retain);
        if !(row.created < cutoff && (row.pid.None? || row.pid.value !in retain)) {
          kept := kept + [row];
        }
        i := i + 1;
      }
      NoSurvivorLeft(before, cutoff, kept);
      deleted := |rows| - |kept|;
      rows := kept;
    }

    method UnresolvedProtectionIds() returns (ids: set<string>)
      ensures ids == UnresolvedIds(rows)
    {
      hide TallyOf, Entries, IsUnresolved;
      var stats := ScanControlLifecycles();
      ids := set p | p in stats && IsUnresolved(stats[p]);
    }

    // query(): `window` is what the newest-2000 query returned.
    method Query(window: seq<Event>, app: Option<string>) returns (lifecycles: map<string, Lifecycle>)
      requires Valid() && DistinctIds(window)
      requires forall x :: x in window ==> x in ForApp(rows, app)
      ensures forall p :: p in lifecycles <==> Summary(Visible(rows, window, app), p).Some?
      ensures forall p :: p in lifecycles ==> lifecycles[p] == Summary(Visible(rows, window, app), p).value
      ensures forall p :: IsUnresolved(TallyOf(Entries(rows, p))) && Summary(ForApp(rows, app), p).Some?
                ==> p in lifecycles && lifecycles[p] == Summary(ForApp(rows, app), p).value
    {
      hide DistinctIds, TallyOf, Entries, IsUnresolved, Summary;
      var ids := UnresolvedProtectionIds();
      var events := window;
      var more := ForApp(OfProtections(rows, ids), app);
      var seen := set e | e in events :: e.id;
      var i := 0;
      while i < |more|
        invariant 0 <= i <= |more|
        invariant forall n :: n in seen <==> exists e :: e in events && e.id == n
        invariant FoldIn(events, more[i..]) == FoldIn(window, more)
      {
        assert more[i..][0] == more[i] && more[i..][1..] == more[i + 1..];
        if more[i].id !in seen {
          events := events + [more[i]];
          seen := seen + {more[i].id};
        }
        i := i + 1;
      }
      lifecycles := Summarize(events);
      forall p | IsUnresolved(TallyOf(Entries(rows, p)))
        ensures Summary(events, p) == Summary(ForApp(rows, app), p)
      {
        LiveProtectionsAreWhole(rows, window, app, p);
      }
    }

    // reconcile_interrupted_lifecycles, with the ids and stamps of what it emits.
    method ReconcileInterrupted(current: Option<string>, nextId: nat, ts: nat, created: nat)
      returns (marks: seq<Event>, marked: set<string>)
      requires Valid() && forall e :: e in rows ==> e.id < nextId
      modifies this
      ensures Valid() && rows == old(rows) + marks && |marks| == |marked|
      ensures forall p :: p in marked <==> Unfinished(old(rows), p)
      ensures forall e :: e in marks ==> IsMark(old(rows), e, current) && e.pid.value in marked
      ensures forall p :: !Unfinished(rows, p)
      ensures forall p, first :: p in marked && IsFirst(old(rows), p, first) ==>
        (IsUnresolved(TallyOf(Entries(rows, p))) <==> !Known(current) || !Known(first.boot) || first.boot == current)
    {
      hide Unfinished, IsMark, Mark, Summary, DistinctIds, DistinctKeys, UnresolvedIds, OfProtections, IsFirst, TallyOf,
           IsUnresolved, Known;
      ghost var before := rows;
      var ids := UnresolvedProtectionIds();
      var existing := OfProtections(rows, ids);
      var markers := set e | e in existing && e.pid.Some? && e.kind in [VERIFICATION, REBOOT_CLEARED] :: e.pid.value;
      var lifecycles := Summarize(existing);
      var unfinished := set p | p in lifecycles && lifecycles[p].status == IsActive && p !in markers;
      forall p ensures p in unfinished <==> Unfinished(rows, p) {
        UnfinishedAmongUnresolved(rows, p);
      }
      forall p | p in lifecycles ensures Summary(rows, p) == Some(lifecycles[p]) {
        UnfinishedAmongUnresolved(rows, p);
      }
      marked := unfinished;
      marks := MarksFor(rows, unfinished, lifecycles, current, nextId, ts, created);
      MarksKeepValid(rows, marks, nextId);
      rows := rows + marks;
      forall p ensures !Unfinished(rows, p) {
        ReconcilingSettles(before, marks, current, p);
      }
      forall p, first | p in marked && IsFirst(before, p, first)
        ensures IsUnresolved(TallyOf(Entries(rows, p))) <==> !Known(current) || !Known(first.boot) || first.boot == current
      {
        MarkedStaysLiveExactly(before, marks, current, p, first);
      }
    }

    // clear_without_runtime_state
    method ClearWithoutRuntimeState(p: string, nextId: nat, ts: nat, created: nat) returns (cleared: bool)
      requires Valid() && forall e :: e in rows ==> e.id < nextId
      modifies this
      ensures Valid()
      ensures cleared <==> Summary(old(rows), p).Some? && Summary(old(rows), p).value.status == IsActive
                           && Summary(old(rows), p).value.cgroups == []
      ensures !cleared ==> rows == old(rows)
      ensures cleared ==> exists e :: rows == old(rows) + [e] && e.pid == Some(p) && e.kind == RUNTIME_CLEARED
    {
      hide Entries, DistinctIds, DistinctKeys, Summary;
      var lifecycles := Summarize(OfProtections(rows, {p}));
      OneProtection(rows, {p}, p);
      if p !in lifecycles || lifecycles[p].status != IsActive || lifecycles[p].cgroups != [] { return false; }
      var e := Event(nextId, ts, created, RUNTIME_CLEARED, Some(p), None, lifecycles[p].app, None, [], None);
      SnocValid(rows, e);
      rows := rows + [e];
      cleared := true;
    }
  }

  lemma MarkFacts(rows: seq<Event>, p: string, l: Lifecycle, current: Option<string>, id: nat, ts: nat, created: nat)
    requires Summary(rows, p) == Some(l)
    ensures var mark := Mark(p, l, current, id, ts, created);
            mark.pid == Some(p) && mark.id == id && mark.dedup == None && IsMark(rows, mark, current)
  {
  }

  lemma SnocValid(rows: seq<Event>, e: Event)
    requires DistinctIds(rows) && DistinctKeys(rows)
    requires e.dedup == None && forall x :: x in rows ==> x.id < e.id
    ensures DistinctIds(rows + [e]) && DistinctKeys(rows + [e])
  {
  }

  // The events of a protection are all there, or none.
  lemma {:induction false} OneProtection(rows: seq<Event>, ids: set<string>, p: string)
    ensures Entries(OfProtections(rows, ids), p) == if p in ids then Entries(rows, p) else []
    ensures p in ids ==> Summary(OfProtections(rows, ids), p) == Summary(rows, p)
    ensures p !in ids ==> Summary(OfProtections(rows, ids), p) == None
  {
    hide Sort, LifecycleOf;
    if rows != [] {
      OneProtection(rows[1..], ids, p);
      var rest := OfProtections(rows[1..], ids);
      assert ([rows[0]] + rest)[1..] == rest && [] + rest == rest;
    }
    SortOfNothing();
  }

  lemma SortOfNothing()
    ensures Sort([]) == []
  {
  }

  lemma UnfinishedAmongUnresolved(rows: seq<Event>, p: string)
    ensures var existing := OfProtections(rows, UnresolvedIds(rows));
            var markers := set e | e in existing && e.pid.Some? && e.kind in [VERIFICATION, REBOOT_CLEARED] :: e.pid.value;
            && (Unfinished(rows, p) <==> Summary(existing, p).Some? && Summary(existing, p).value.status == IsActive
                                         && p !in markers)
            && (Summary(existing, p).Some? ==> Summary(existing, p) == Summary(rows, p))
  {
    hide Sort, LifecycleOf, TallyOf, Summary, IsUnresolved;
    var ids := UnresolvedIds(rows);
    OneProtection(rows, ids, p);
    OfProtectionsFacts(rows, ids);
    EntriesFacts(rows, p);
    if IsUnresolved(TallyOf(Entries(rows, p))) { LiveIsKnown(rows, p); }
  }

  lemma FirstEntry(rows: seq<Event>, p: string)
    requires p !in Pids(rows)
    ensures Entries(rows, p) == [] && TallyOf(Entries(rows, p)) == Tally(0, 0, false, 0)
  {
    NoEntries(rows, p);
  }

  lemma PidsOfNothing()
    ensures Pids([]) == {}
  {
  }

  lemma PidsSnoc(rows: seq<Event>, i: nat)
    requires i < |rows|
    ensures Pids(rows[..i + 1]) == Pids(rows[..i]) + (if rows[i].pid.Some? then {rows[i].pid.value} else {})
  {
    assert rows[..i + 1] == rows[..i] + [rows[i]];
  }

  lemma TallySnoc(entries: seq<Event>, e: Event)
    ensures TallyOf(entries + [e]) == Count(TallyOf(entries), e)
  {
    assert (entries + [e])[..|entries|] == entries;
  }

  lemma NextSurvivor(rows: seq<Event>, i: nat, cutoff: int, kept: seq<Event>)
    requires i < |rows|
    ensures kept + Survivors(rows, rows[i..], cutoff)
         == (if Survives(rows, rows[i], cutoff) then kept + [rows[i]] else kept) + Survivors(rows, rows[i + 1..], cutoff)
    ensures rows[i].pid.Some? ==> rows[i].pid.value in Pids(rows)
  {
    hide Survives;
    assert rows[i..][0] == rows[i] && rows[i..][1..] == rows[i + 1..];
  }

  lemma NoSurvivorLeft(rows: seq<Event>, cutoff: int, kept: seq<Event>)
    ensures kept + Survivors(rows, rows[|rows|..], cutoff) == kept
  {
  }

  lemma SurvivesByRetain(rows: seq<Event>, row: Event, cutoff: int, retain: set<string>)
    requires forall p :: p in retain <==> p in Pids(rows) && Retains(rows, p, cutoff)
    requires row.pid.Some? ==> row.pid.value in Pids(rows)
    ensures Survives(rows, row, cutoff) <==> !(row.created < cutoff && (row.pid.None? || row.pid.value !in retain))
  {
  }
}
