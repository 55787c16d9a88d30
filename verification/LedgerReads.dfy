/** Reading a bounded window of the ledger, and closing lifecycles that a restart left
    behind: what each shows, keeps and settles. */
module LedgerReads {
  import opened Text
  import opened ControlLedger
  import opened LedgerRetention

  // ------------------------------------------------------- the bounded query

  // Append what is not there yet, by event id.
  function FoldIn(events: seq<Event>, more: seq<Event>): seq<Event>
    decreases |more|
  {
    if more == [] then events
    else if exists e :: e in events && e.id == more[0].id then FoldIn(events, more[1..])
    else FoldIn(events + [more[0]], more[1..])
  }

  function ForApp(rows: seq<Event>, app: Option<string>): seq<Event> {
    if rows == [] then []
    else (if app == None || rows[0].app == app then [rows[0]] else []) + ForApp(rows[1..], app)
  }

  // The events of the given protections.
  function OfProtections(rows: seq<Event>, ids: set<string>): seq<Event> {
    if rows == [] then []
    else (if rows[0].pid.Some? && rows[0].pid.value in ids then [rows[0]] else []) + OfProtections(rows[1..], ids)
  }

  function Pids(rows: seq<Event>): set<string> {
    set e | e in rows && e.pid.Some? :: e.pid.value
  }

  function UnresolvedIds(rows: seq<Event>): set<string> {
    set p | p in Pids(rows) && IsUnresolved(TallyOf(Entries(rows, p)))
  }

  lemma {:induction false} ForAppFacts(rows: seq<Event>, app: Option<string>)
    ensures forall x :: x in ForApp(rows, app) <==> x in rows && (app == None || x.app == app)
    ensures DistinctIds(rows) ==> DistinctIds(ForApp(rows, app))
  {
    if rows != [] {
      ForAppFacts(rows[1..], app);
      if DistinctIds(rows) { HeadIdIsNew(rows); }
    }
  }

  lemma HeadIdIsNew(rows: seq<Event>)
    requires rows != [] && DistinctIds(rows)
    ensures forall x :: x in rows[1..] ==> x.id != rows[0].id
    ensures DistinctIds(rows[1..])
  {
    forall x | x in rows[1..] ensures x.id != rows[0].id {
      var i :| 0 <= i < |rows[1..]| && rows[1..][i] == x;
      assert rows[i + 1] == x;
    }
  }

  lemma {:induction false} OfProtectionsFacts(rows: seq<Event>, ids: set<string>)
    ensures forall x :: x in OfProtections(rows, ids) <==> x in rows && x.pid.Some? && x.pid.value in ids
    ensures DistinctIds(rows) ==> DistinctIds(OfProtections(rows, ids))
  {
    if rows != [] {
      OfProtectionsFacts(rows[1..], ids);
      if DistinctIds(rows) { HeadIdIsNew(rows); }
    }
  }

  lemma SameIdSameEvent(rows: seq<Event>, a: Event, b: Event)
    requires DistinctIds(rows) && a in rows && b in rows && a.id == b.id
    ensures a == b
  {
    var i :| 0 <= i < |rows| && rows[i] == a;
    var j :| 0 <= j < |rows| && rows[j] == b;
  }

  // Folding in events of the ledger adds exactly those that the window lacks.
  lemma {:induction false} FoldInFacts(ledger: seq<Event>, events: seq<Event>, more: seq<Event>)
    requires DistinctIds(ledger) && DistinctIds(events)
    requires (forall x :: x in events ==> x in ledger) && (forall x :: x in more ==> x in ledger)
    ensures DistinctIds(FoldIn(events, more))
    ensures forall x :: x in FoldIn(events, more) <==> x in events || x in more
    decreases |more|
  {
    hide DistinctIds;
    if more != [] {
      var m := more[0];
      assert m in more && m in ledger;
      if e :| e in events && e.id == m.id {
        SameIdSameEvent(ledger, e, m);
        FoldInFacts(ledger, events, more[1..]);
      } else {
        SnocDistinct(events, m);
        FoldInFacts(ledger, events + [m], more[1..]);
      }
      assert forall x :: x in more <==> x == m || x in more[1..];
    }
  }

  lemma SnocDistinct(events: seq<Event>, m: Event)
    requires DistinctIds(events) && forall e :: e in events ==> e.id != m.id
    ensures DistinctIds(events + [m])
  {
  }

  // query() without a time range: any window of the ledger, and the full history of
  // every live protection folded in.
  function Visible(ledger: seq<Event>, window: seq<Event>, app: Option<string>): seq<Event> {
    FoldIn(window, ForApp(OfProtections(ledger, UnresolvedIds(ledger)), app))
  }

  // However small the window is, a live protection shows the lifecycle of the whole
  // ledger.
  lemma LiveProtectionsAreWhole(ledger: seq<Event>, window: seq<Event>, app: Option<string>, p: string)
    requires DistinctIds(ledger) && DistinctIds(window)
    requires forall x :: x in window ==> x in ForApp(ledger, app)
    requires IsUnresolved(TallyOf(Entries(ledger, p)))
    ensures Summary(Visible(ledger, window, app), p) == Summary(ForApp(ledger, app), p)
  {
    hide DistinctIds, Summary, TallyOf, IsUnresolved;
    ForAppFacts(ledger, app);
    OfProtectionsFacts(ledger, UnresolvedIds(ledger));
    var live := OfProtections(ledger, UnresolvedIds(ledger));
    ForAppFacts(live, app);
    FoldInFacts(ledger, window, ForApp(live, app));
    EntriesFacts(ledger, p);
    LiveIsKnown(ledger, p);
    SummaryIgnoresOrder(Visible(ledger, window, app), ForApp(ledger, app), p);
  }

  lemma LiveIsKnown(ledger: seq<Event>, p: string)
    requires IsUnresolved(TallyOf(Entries(ledger, p)))
    ensures p in UnresolvedIds(ledger)
  {
    EntriesFacts(ledger, p);
    NothingLive();
    assert Entries(ledger, p)[0] in ledger;
  }

  // ------------------------------------------- lifecycles that a restart interrupted

  predicate Unfinished(rows: seq<Event>, p: string) {
    && IsUnresolved(TallyOf(Entries(rows, p)))
    && Summary(rows, p).Some? && Summary(rows, p).value.status == IsActive
    && forall e :: e in Entries(rows, p) ==> e.kind != VERIFICATION && e.kind != REBOOT_CLEARED
  }

  // A boot id that was read.
  predicate Known(boot: Option<string>) {
    boot.Some? && boot.value != ""
  }

  function MarkKind(boot: Option<string>, current: Option<string>): string {
    if Known(current) && Known(boot) && boot != current then REBOOT_CLEARED else VERIFICATION
  }

  function Mark(p: string, l: Lifecycle, current: Option<string>, id: nat, ts: nat, created: nat): Event {
    Event(id, ts, created, MarkKind(l.boot, current), Some(p), None, l.app, current, [], None)
  }

  predicate IsMark(rows: seq<Event>, e: Event, current: Option<string>) {
    && e.pid.Some? && Summary(rows, e.pid.value).Some?
    && e.kind == MarkKind(Summary(rows, e.pid.value).value.boot, current)
  }

  lemma {:induction false} NoEntries(rows: seq<Event>, p: string)
    requires forall e :: e in rows ==> e.pid != Some(p)
    ensures Entries(rows, p) == []
  {
    if rows != [] {
      assert rows[0] in rows;
      NoEntries(rows[1..], p);
    }
  }

  // Reconciling again after every unfinished lifecycle was marked finds nothing, and
  // a mark never changes which resources are active.
  lemma ReconcilingSettles(rows: seq<Event>, marks: seq<Event>, current: Option<string>, p: string)
    requires DistinctIds(rows + marks)
    requires forall e :: e in marks ==> IsMark(rows, e, current) && Unfinished(rows, e.pid.value)
    requires Unfinished(rows, p) ==> exists e :: e in marks && e.pid == Some(p)
    ensures !Unfinished(rows + marks, p)
    ensures Active(Entries(rows + marks, p)) == Active(Entries(rows, p))
    ensures TallyOf(Entries(rows + marks, p)).rebooted
        <==> TallyOf(Entries(rows, p)).rebooted
             || exists e :: e in marks && e.pid == Some(p) && e.kind == REBOOT_CLEARED
  {
    hide DistinctIds, Sort, Active, TallyOf, Summary, IsUnresolved;
    EntriesConcat(rows, marks, p);
    EntriesFacts(marks, p);
    var more := Entries(marks, p);
    forall e | e in more ensures e in marks && (e.kind == REBOOT_CLEARED || e.kind == VERIFICATION) {}
    MarksChangeNothing(Entries(rows, p), more);
    if e :| e in marks && e.pid == Some(p) {
      assert e in Entries(rows + marks, p);
    } else {
      NoEntries(marks, p);
      assert Entries(rows, p) + [] == Entries(rows, p);
      SummaryOfEntries(rows, rows + marks, p);
    }
  }

  // The protection's first event by stamp and id.
  ghost predicate IsFirst(rows: seq<Event>, p: string, first: Event) {
    first in Entries(rows, p) && forall x :: x in Entries(rows, p) ==> x == first || Before(first, x)
  }

  lemma BootOfFirst(rows: seq<Event>, p: string, first: Event)
    requires DistinctIds(rows) && IsFirst(rows, p, first)
    ensures Summary(rows, p).Some? && Summary(rows, p).value.boot == first.boot
  {
    hide DistinctIds, StatusOf, Latest, EverApplied;
    EntriesFacts(rows, p);
    SortFacts(Entries(rows, p));
    var sorted := Sort(Entries(rows, p));
    assert sorted[0] in sorted && first in sorted;
  }

  // Exactly: a marked protection stays unresolved by count unless the boot id of its first
  // event and the current one are both known and differ.
  lemma MarkedStaysLiveExactly(rows: seq<Event>, marks: seq<Event>, current: Option<string>, p: string, first: Event)
    requires DistinctIds(rows) && IsFirst(rows, p, first) && Unfinished(rows, p)
    requires forall e :: e in marks ==> IsMark(rows, e, current)
    requires exists e :: e in marks && e.pid == Some(p)
    ensures IsUnresolved(TallyOf(Entries(rows + marks, p)))
        <==> !Known(current) || !Known(first.boot) || first.boot == current
  {
    hide DistinctIds, Sort, TallyOf, Summary, Known, Active, IsFirst;
    BootOfFirst(rows, p, first);
    EntriesConcat(rows, marks, p);
    EntriesFacts(marks, p);
    var more := Entries(marks, p);
    forall e | e in more ensures e in marks && e.kind == MarkKind(first.boot, current) {}
    MarksChangeNothing(Entries(rows, p), more);
    var e :| e in marks && e.pid == Some(p);
    assert e in more;
  }

  // In particular a limit of the running boot is never given up: its protection keeps its
  // whole history over any later run of events and passes that does not close it.
  lemma SameBootIsKept(ops: seq<Op>, marks: seq<Event>, current: Option<string>, p: string, more: seq<Op>)
    requires DistinctIds(Replay(ops)) && Unfinished(Replay(ops), p) && NeverCloses(more, p)
    requires forall e :: e in marks ==> IsMark(Replay(ops), e, current)
    requires exists e :: e in marks && e.pid == Some(p)
    requires forall x :: x in Entries(Replay(ops), p) ==> x.boot == current
    ensures var kept := Entries(Replay(ops + Emits(marks) + more), p);
      kept == Entries(Replay(ops), p) + Entries(marks, p) + Entries(History(more), p) && IsUnresolved(TallyOf(kept))
  {
    hide DistinctIds, Replay, History, Unfinished, IsMark, NeverCloses, TallyOf, IsUnresolved, Emits;
    var rows := Replay(ops);
    var first := FirstOf(rows, p);
    MarkedStaysLiveExactly(rows, marks, current, p, first);
    EmitsAppend(ops, marks);
    UnresolvedStays(ops + Emits(marks), p, more);
    EntriesConcat(rows, marks, p);
  }

  lemma FirstOf(rows: seq<Event>, p: string) returns (first: Event)
    requires DistinctIds(rows) && Unfinished(rows, p)
    ensures IsFirst(rows, p, first)
  {
    hide DistinctIds, StatusOf, Latest, EverApplied, IsUnresolved, TallyOf;
    EntriesFacts(rows, p);
    SortFacts(Entries(rows, p));
    var sorted := Sort(Entries(rows, p));
    first := sorted[0];
    forall x | x in Entries(rows, p)
      ensures x == first || Before(first, x)
    {
      assert x in sorted;
    }
    assert first in sorted;
  }

  function Emits(events: seq<Event>): seq<Op> {
    seq(|events|, i requires 0 <= i < |events| => Emit(events[i]))
  }

  lemma {:induction false} EmitsAppend(ops: seq<Op>, events: seq<Event>)
    ensures Replay(ops + Emits(events)) == Replay(ops) + events
  {
    hide Replay;
    if events == [] {
      assert ops + Emits(events) == ops && Replay(ops) + events == Replay(ops);
    } else {
      var n := |events| - 1;
      EmitsAppend(ops, events[..n]);
      ReplaySnoc(ops + Emits(events[..n]), Emit(events[n]));
      assert ops + Emits(events) == ops + Emits(events[..n]) + [Emit(events[n])];
      assert Replay(ops) + events == Replay(ops) + events[..n] + [events[n]];
    }
  }

  lemma SummaryOfEntries(a: seq<Event>, b: seq<Event>, p: string)
    requires Entries(a, p) == Entries(b, p)
    ensures Summary(a, p) == Summary(b, p)
  {
  }

  lemma {:induction false} MarksChangeNothing(entries: seq<Event>, marks: seq<Event>)
    requires forall e :: e in marks ==> e.kind == REBOOT_CLEARED || e.kind == VERIFICATION
    ensures Active(entries + marks) == Active(entries)
    ensures TallyOf(entries + marks).rebooted
        <==> TallyOf(entries).rebooted || exists e :: e in marks && e.kind == REBOOT_CLEARED
    ensures TallyOf(entries + marks).applied == TallyOf(entries).applied
    ensures TallyOf(entries + marks).closed == TallyOf(entries).closed
  {
    if marks == [] {
      assert entries + marks == entries;
    } else {
      var front, e := marks[..|marks| - 1], marks[|marks| - 1];
      assert marks == front + [e] && e in marks;
      assert entries + marks == (entries + front) + [e];
      MarksChangeNothing(entries, front);
      MarkIsNoAction(e.kind);
      ActiveStep(entries + front, e);
      assert (entries + marks)[..|entries + marks| - 1] == entries + front;
    }
  }

  lemma MarkIsNoAction(kind: string)
    requires kind == REBOOT_CLEARED || kind == VERIFICATION || kind == RUNTIME_CLEARED
    ensures ActionFor(kind) == None
  {
    hide EndsWith;
    assert kind[|kind| - 1] != 'D';
    if EndsWith(kind, "_APPLIED") { LastCharacter(kind, "_APPLIED"); }
    if EndsWith(kind, "_RECOVERED") { LastCharacter(kind, "_RECOVERED"); }
    if EndsWith(kind, "_FAILED") { LastCharacter(kind, "_FAILED"); }
  }

  lemma LastCharacter(s: string, suffix: string)
    requires suffix != "" && EndsWith(s, suffix)
    ensures s[|s| - 1] == suffix[|suffix| - 1]
  {
  }

  // ------------------------------------------------ a lifecycle closed by hand

  // Later events of the protection neither recover nor fail a resource, nor clear it by a
  // reboot.
  predicate NeverCloses(ops: seq<Op>, p: string) {
    forall i :: 0 <= i < |ops| ==> ops[i].Emit? && ops[i].e.pid == Some(p) ==> Leaves(ops[i].e.kind)
  }

  predicate Leaves(kind: string) {
    kind != REBOOT_CLEARED && (ActionFor(kind) == None || ActionFor(kind) == Some(Applied))
  }

  // Closing an orphaned lifecycle settles its status, but not its tally: whatever events
  // and passes follow, with any cutoffs, retention takes the protection for live and keeps
  // its whole history until one of its own events closes it.
  lemma ClosedByHandIsKeptForever(ops: seq<Op>, p: string, e: Event, more: seq<Op>)
    requires e.pid == Some(p) && e.kind == RUNTIME_CLEARED && DistinctIds(Replay(ops) + [e])
    requires Unfinished(Replay(ops), p) && NeverCloses(more, p)
    ensures Summary(Replay(ops + [Emit(e)]), p).Some?
    ensures Summary(Replay(ops + [Emit(e)]), p).value.status == ClearedWithoutRuntimeState
    ensures var kept := Entries(Replay(ops + [Emit(e)] + more), p);
      kept == Entries(Replay(ops), p) + [e] + Entries(History(more), p) && IsUnresolved(TallyOf(kept))
  {
    hide Sort, Prune, StatusOf, IsUnresolved, TallyOf, Before, NeverCloses, Replay, History;
    var rows := Replay(ops);
    var entries := Entries(rows, p);
    ReplaySnoc(ops, Emit(e));
    EntriesConcat(rows, [e], p);
    assert Entries([e], p) == [e];
    EntriesFacts(rows + [e], p);
    SortFacts(entries + [e]);
    ClearedStatus(Sort(entries + [e]), e);
    ClearedTally(entries, e);
    UnresolvedStays(ops + [Emit(e)], p, more);
  }

  lemma ReplaySnoc(ops: seq<Op>, op: Op)
    ensures Replay(ops + [op]) == if op.Emit? then Replay(ops) + [op.e] else Prune(Replay(ops), op.cutoff)
    ensures History(ops + [op]) == if op.Emit? then History(ops) + [op.e] else History(ops)
  {
    hide Prune;
    assert (ops + [op])[..|ops|] == ops;
  }

  // An unresolved protection loses nothing while none of its events closes it.
  lemma {:induction false} UnresolvedStays(ops: seq<Op>, p: string, more: seq<Op>)
    requires IsUnresolved(TallyOf(Entries(Replay(ops), p))) && NeverCloses(more, p)
    ensures var kept := Entries(Replay(ops + more), p);
      kept == Entries(Replay(ops), p) + Entries(History(more), p) && IsUnresolved(TallyOf(kept))
  {
    hide Prune, IsUnresolved, TallyOf, Replay, History, Entries, Leaves;
    if more == [] {
      assert ops + more == ops;
      NothingEmitted(p);
    } else {
      var n := |more| - 1;
      var front, op := more[..n], more[n];
      assert more == front + [op] && ops + more == (ops + front) + [op];
      assert forall i :: 0 <= i < n ==> front[i] == more[i];
      UnresolvedStays(ops, p, front);
      ReplaySnoc(ops + front, op);
      ReplaySnoc(front, op);
      var before := Entries(Replay(ops + front), p);
      match op {
        case Emit(e) =>
          EntriesConcat(Replay(ops + front), [e], p);
          EntriesConcat(History(front), [e], p);
          OneEntry(e, p);
          if e.pid == Some(p) {
            LeavesUnresolved(before, e);
          }
          assert before + Entries([e], p) == Entries(Replay(ops), p) + (Entries(History(front), p) + Entries([e], p));
        case Pass(cutoff) =>
          PruningIsAllOrNothing(Replay(ops + front), p, cutoff);
      }
    }
  }

  lemma NothingEmitted(p: string)
    ensures History([]) == [] && forall s: seq<Event> :: s + Entries([], p) == s
  {
  }

  lemma OneEntry(e: Event, p: string)
    ensures Entries([e], p) == if e.pid == Some(p) then [e] else []
    ensures forall s: seq<Event> :: s + [] == s
  {
  }

  lemma LeavesUnresolved(entries: seq<Event>, e: Event)
    requires IsUnresolved(TallyOf(entries)) && Leaves(e.kind)
    ensures IsUnresolved(TallyOf(entries + [e]))
  {
    hide ActionFor;
    assert (entries + [e])[..|entries|] == entries;
  }

  lemma ClearedStatus(sorted: seq<Event>, e: Event)
    requires e in sorted && e.kind == RUNTIME_CLEARED && forall x :: x in sorted ==> x.kind != REBOOT_CLEARED
    ensures StatusOf(sorted) == ClearedWithoutRuntimeState
  {
    assert e.kind in (set x | x in sorted :: x.kind);
  }

  lemma ClearedTally(entries: seq<Event>, e: Event)
    requires e.kind == RUNTIME_CLEARED && IsUnresolved(TallyOf(entries))
    ensures IsUnresolved(TallyOf(entries + [e]))
  {
    MarkIsNoAction(e.kind);
    assert (entries + [e])[..|entries + [e]| - 1] == entries;
  }
}
