/** The event ledger of resource-control protections: the tally that retention uses, and
    the lifecycle that the dashboard shows.

    Timestamps and event ids are compared as strings by the program; here they are
    the ranks of those strings. An event with a protection id is a control event. */
module ControlLedger {
  import opened Text

  datatype Event = Event(
    id: nat, ts: nat, created: nat, kind: string,
    pid: Option<string>, resource: Option<string>, app: Option<string>, boot: Option<string>,
    cgroups: seq<string>, dedup: Option<string>)

  datatype Action = Applied | Recovered | Failed

  const REBOOT_CLEARED := "CONTROL_LIFECYCLE_CLEARED_BY_REBOOT"
  const RUNTIME_CLEARED := "CONTROL_LIFECYCLE_CLEARED_WITHOUT_RUNTIME_STATE"
  const VERIFICATION := "CONTROL_LIFECYCLE_REQUIRES_VERIFICATION"

  predicate EndsWith(s: string, suffix: string) {
    |suffix| <= |s| && s[|s| - |suffix|..] == suffix
  }

  function ActionFor(kind: string): Option<Action> {
    if EndsWith(kind, "_APPLIED") then Some(Applied)
    else if EndsWith(kind, "_RECOVERED") then Some(Recovered)
    else if EndsWith(kind, "_FAILED") then Some(Failed)
    else None
  }

  function ResourceFor(e: Event): string {
    if e.resource.None? || e.resource.value == "" then "unknown" else e.resource.value
  }

  // The events of one protection, in ledger order.
  function Entries(rows: seq<Event>, p: string): seq<Event> {
    if rows == [] then []
    else (if rows[0].pid == Some(p) then [rows[0]] else []) + Entries(rows[1..], p)
  }

  ghost predicate DistinctIds(rows: seq<Event>) {
    forall i, j :: 0 <= i < j < |rows| ==> rows[i].id != rows[j].id
  }

  // ------------------------------------------------ the tally of _scan_control_lifecycles

  datatype Tally = Tally(applied: nat, closed: nat, rebooted: bool, latest: nat)

  function Count(t: Tally, e: Event): Tally {
    var latest := if e.created > t.latest then e.created else t.latest;
    match ActionFor(e.kind)
    case Some(Applied) => t.(applied := t.applied + 1, latest := latest)
    case Some(_) => t.(closed := t.closed + 1, latest := latest)
    case None => t.(rebooted := t.rebooted || e.kind == REBOOT_CLEARED, latest := latest)
  }

  function TallyOf(entries: seq<Event>): Tally {
    if entries == [] then Tally(0, 0, false, 0)
    else Count(TallyOf(entries[..|entries| - 1]), entries[|entries| - 1])
  }

  predicate IsUnresolved(t: Tally) {
    !t.rebooted && t.applied > t.closed
  }

  // ---------------------------------------------------------- the lifecycle of summarize

  function Latest(entries: seq<Event>): map<string, Action> {
    if entries == [] then map[]
    else
      var e := entries[|entries| - 1];
      var before := Latest(entries[..|entries| - 1]);
      match ActionFor(e.kind)
      case None => before
      case Some(a) => before[ResourceFor(e) := a]
  }

  function EverApplied(entries: seq<Event>): set<string> {
    if entries == [] then {}
    else
      var e := entries[|entries| - 1];
      EverApplied(entries[..|entries| - 1]) + (if ActionFor(e.kind) == Some(Applied) then {ResourceFor(e)} else {})
  }

  function With(latest: map<string, Action>, a: Action): set<string> {
    set r | r in latest && latest[r] == a
  }

  function Active(entries: seq<Event>): set<string> {
    With(Latest(entries), Applied)
  }

  predicate Before(a: Event, b: Event) {
    a.ts < b.ts || (a.ts == b.ts && a.id < b.id)
  }

  // sort(key = (ts_utc, event_id))
  function Insert(e: Event, s: seq<Event>): seq<Event> {
    if s == [] || !Before(s[0], e) then [e] + s else [s[0]] + Insert(e, s[1..])
  }

  function Sort(s: seq<Event>): seq<Event> {
    if s == [] then [] else Insert(s[0], Sort(s[1..]))
  }

  datatype Status = IsActive | IsRecovered | IsFailed | ClearedByReboot | ClearedWithoutRuntimeState | RequiresVerification

  datatype Lifecycle = Lifecycle(
    status: Status, startedAt: nat, lastUpdatedAt: nat, app: Option<string>, boot: Option<string>,
    applied: set<string>, recovered: set<string>, failed: set<string>, active: set<string>,
    cgroups: seq<string>, events: seq<Event>)

  function StatusOf(entries: seq<Event>): Status {
    var latest := Latest(entries);
    var kinds := set e | e in entries :: e.kind;
    var base := if With(latest, Failed) != {} then IsFailed
                else if With(latest, Applied) != {} then IsActive
                else IsRecovered;
    if REBOOT_CLEARED in kinds then ClearedByReboot
    else if RUNTIME_CLEARED in kinds then ClearedWithoutRuntimeState
    else if VERIFICATION in kinds && base == IsActive then RequiresVerification
    else base
  }

  function LifecycleOf(sorted: seq<Event>): Lifecycle
    requires sorted != []
  {
    var latest := Latest(sorted);
    var first, last := sorted[0], sorted[|sorted| - 1];
    Lifecycle(StatusOf(sorted), first.ts, last.ts, first.app, first.boot, EverApplied(sorted),
              With(latest, Recovered), With(latest, Failed), With(latest, Applied), first.cgroups, sorted)
  }

  // What summarize returns for one protection.
  function Summary(events: seq<Event>, p: string): Option<Lifecycle> {
    var entries := Sort(Entries(events, p));
    if entries == [] then None else Some(LifecycleOf(entries))
  }

  // ------------------------------------------------------------------- sorting

  ghost predicate Sorted(s: seq<Event>) {
    forall i, j :: 0 <= i < j < |s| ==> Before(s[i], s[j])
  }

  lemma {:induction false} InsertFacts(e: Event, s: seq<Event>)
    requires Sorted(s) && forall x :: x in s ==> x.id != e.id
    ensures Sorted(Insert(e, s)) && |Insert(e, s)| == |s| + 1
    ensures forall x :: x in Insert(e, s) <==> x == e || x in s
  {
    if s != [] && Before(s[0], e) {
      InsertFacts(e, s[1..]);
      var t := Insert(e, s[1..]);
      assert forall x :: x in s <==> x == s[0] || x in s[1..];
      forall j | 1 <= j < |[s[0]] + t| ensures Before(s[0], ([s[0]] + t)[j]) {
        assert ([s[0]] + t)[j] == t[j - 1] && t[j - 1] in t;
      }
    }
  }

  lemma {:induction false} SortFacts(s: seq<Event>)
    requires DistinctIds(s)
    ensures Sorted(Sort(s)) && |Sort(s)| == |s|
    ensures forall x :: x in Sort(s) <==> x in s
  {
    hide Before;
    if s != [] {
      SortFacts(s[1..]);
      forall x | x in Sort(s[1..]) ensures x.id != s[0].id {
        var i :| 0 <= i < |s[1..]| && s[1..][i] == x;
        assert s[i + 1] == x;
      }
      InsertFacts(s[0], Sort(s[1..]));
    }
  }

  // A set of events has one sorted order.
  lemma {:induction false} SortedIsUnique(a: seq<Event>, b: seq<Event>)
    requires Sorted(a) && Sorted(b) && forall x :: x in a <==> x in b
    ensures a == b
  {
    assert |a| > 0 ==> a[0] in b;
    assert |b| > 0 ==> b[0] in a;
    if a != [] && b != [] {
      assert a[0] in b && b[0] in a;
      assert a[0] == b[0];
      forall x ensures x in a[1..] <==> x in b[1..] {
        TailOfSorted(a, x);
        TailOfSorted(b, x);
      }
      SortedIsUnique(a[1..], b[1..]);
    }
  }

  lemma TailOfSorted(s: seq<Event>, x: Event)
    requires s != [] && Sorted(s)
    ensures x in s[1..] <==> x in s && x != s[0]
  {
    if x in s[1..] {
      var i :| 0 <= i < |s[1..]| && s[1..][i] == x;
      assert Before(s[0], s[i + 1]);
    }
  }

  lemma SortOfSorted(s: seq<Event>)
    requires Sorted(s) && DistinctIds(s)
    ensures Sort(s) == s
  {
    SortFacts(s);
    SortedIsUnique(Sort(s), s);
  }

  lemma {:induction false} EntriesFacts(rows: seq<Event>, p: string)
    ensures forall x :: x in Entries(rows, p) <==> x in rows && x.pid == Some(p)
    ensures DistinctIds(rows) ==> DistinctIds(Entries(rows, p))
  {
    if rows != [] {
      EntriesFacts(rows[1..], p);
      var rest := Entries(rows[1..], p);
      if DistinctIds(rows) {
        forall x | x in rest ensures x.id != rows[0].id {
          var i :| 0 <= i < |rows[1..]| && rows[1..][i] == x;
          assert rows[i + 1] == x;
        }
      }
    }
  }

  // A lifecycle depends on which events there are, not on the order they come in.
  lemma SummaryIgnoresOrder(a: seq<Event>, b: seq<Event>, p: string)
    requires DistinctIds(a) && DistinctIds(b)
    requires forall x: Event :: x.pid == Some(p) ==> (x in a <==> x in b)
    ensures Summary(a, p) == Summary(b, p)
  {
    hide Before, LifecycleOf, DistinctIds, Sort;
    EntriesFacts(a, p);
    EntriesFacts(b, p);
    SortFacts(Entries(a, p));
    SortFacts(Entries(b, p));
    SortedIsUnique(Sort(Entries(a, p)), Sort(Entries(b, p)));
  }

  // ------------------------------------------------- the tally against the lifecycle

  // APPLIED events of a resource that was applied already, and terminal events of a
  // resource that was not.
  function Reapplied(entries: seq<Event>): nat {
    if entries == [] then 0
    else
      var front, e := entries[..|entries| - 1], entries[|entries| - 1];
      Reapplied(front)
      + (if ActionFor(e.kind) == Some(Applied) && ResourceFor(e) in Active(front) then 1 else 0)
  }

  function Stray(entries: seq<Event>): nat {
    if entries == [] then 0
    else
      var front, e := entries[..|entries| - 1], entries[|entries| - 1];
      Stray(front)
      + (if ActionFor(e.kind) in [Some(Recovered), Some(Failed)] && ResourceFor(e) !in Active(front) then 1 else 0)
  }

  // Each resource alternates between APPLIED and RECOVERED-or-FAILED, from APPLIED on.
  ghost predicate Alternates(entries: seq<Event>) {
    forall i :: 0 <= i < |entries| ==>
      match ActionFor(entries[i].kind)
      case None => true
      case Some(a) => a == Applied <==> ResourceFor(entries[i]) !in Active(entries[..i])
  }

  lemma ActiveStep(front: seq<Event>, e: Event)
    ensures Active(front + [e])
         == match ActionFor(e.kind)
            case None => Active(front)
            case Some(Applied) => Active(front) + {ResourceFor(e)}
            case Some(_) => Active(front) - {ResourceFor(e)}
  {
    hide ActionFor, ResourceFor;
    assert (front + [e])[..|front + [e]| - 1] == front;
  }

  // For every history, whatever its events and their order: what the counts say and
  // what the lifecycle shows differ by exactly the events that do not alternate.
  lemma {:induction false} CountsAgainstActive(entries: seq<Event>)
    ensures TallyOf(entries).applied - TallyOf(entries).closed
         == |Active(entries)| + Reapplied(entries) - Stray(entries)
  {
    hide ActionFor, ResourceFor, Active;
    if entries != [] {
      var front, e := entries[..|entries| - 1], entries[|entries| - 1];
      assert entries == front + [e];
      CountsAgainstActive(front);
      ActiveStep(front, e);
      if ResourceFor(e) !in Active(front) {
        assert |Active(front) + {ResourceFor(e)}| == |Active(front)| + 1;
        assert Active(front) - {ResourceFor(e)} == Active(front);
      } else {
        assert Active(front) + {ResourceFor(e)} == Active(front);
        assert |Active(front) - {ResourceFor(e)}| == |Active(front)| - 1;
      }
    } else {
      NothingActive();
    }
  }

  lemma NothingActive()
    ensures Active([]) == {}
  {
  }

  lemma {:induction false} AlternatingHasNoSurplus(entries: seq<Event>)
    requires Alternates(entries)
    ensures Reapplied(entries) == 0 && Stray(entries) == 0
  {
    hide ActionFor, ResourceFor, Active;
    if entries != [] {
      var front := entries[..|entries| - 1];
      forall i | 0 <= i < |front| ensures front[i] == entries[i] && front[..i] == entries[..i] {}
      AlternatingHasNoSurplus(front);
    }
  }

  // Counts and booleans do not depend on the order of the rows.
  function Bump(t: Tally, u: Tally): Tally {
    Tally(t.applied + u.applied, t.closed + u.closed, t.rebooted || u.rebooted,
          if t.latest > u.latest then t.latest else u.latest)
  }

  function One(e: Event): Tally {
    Count(Tally(0, 0, false, 0), e)
  }

  lemma {:induction false} TallyConcat(a: seq<Event>, b: seq<Event>)
    ensures TallyOf(a + b) == Bump(TallyOf(a), TallyOf(b))
  {
    if b == [] {
      assert a + b == a;
    } else {
      hide Count;
      assert (a + b)[..|a + b| - 1] == a + b[..|b| - 1];
      TallyConcat(a, b[..|b| - 1]);
      CountBump(TallyOf(a), TallyOf(b[..|b| - 1]), b[|b| - 1]);
    }
  }

  lemma CountBump(t: Tally, u: Tally, e: Event)
    ensures Count(Bump(t, u), e) == Bump(t, Count(u, e))
  {
    hide ActionFor;
  }

  lemma TallyOfOne(e: Event)
    ensures TallyOf([e]) == One(e)
  {
    assert [e][..0] == [];
  }

  lemma {:induction false} TallyOfInsert(e: Event, s: seq<Event>)
    ensures TallyOf(Insert(e, s)) == Bump(One(e), TallyOf(s))
  {
    hide One, Before, Count;
    TallyOfOne(e);
    if s == [] || !Before(s[0], e) {
      TallyConcat([e], s);
    } else {
      TallyOfInsert(e, s[1..]);
      TallyConcat([s[0]], Insert(e, s[1..]));
      TallyConcat([s[0]], s[1..]);
      assert s == [s[0]] + s[1..];
    }
  }

  lemma {:induction false} TallyOfSort(s: seq<Event>)
    ensures TallyOf(Sort(s)) == TallyOf(s)
  {
    hide One, Insert, TallyOf, Bump;
    if s != [] {
      TallyOfSort(s[1..]);
      TallyOfInsert(s[0], Sort(s[1..]));
      TallyOfOne(s[0]);
      TallyConcat([s[0]], s[1..]);
      assert s == [s[0]] + s[1..];
    }
  }

  // The protection as retention sees it and as the dashboard shows it: for any ledger
  // without a reboot marker they agree exactly up to the surplus, and they agree on
  // "live" when each resource alternates.
  lemma UnresolvedAgainstLifecycle(rows: seq<Event>, p: string)
    requires Entries(rows, p) != [] && !TallyOf(Entries(rows, p)).rebooted
    ensures var sorted := Sort(Entries(rows, p));
            && Summary(rows, p).Some?
            && (IsUnresolved(TallyOf(Entries(rows, p)))
                <==> |Summary(rows, p).value.active| + Reapplied(sorted) > Stray(sorted))
            && (Alternates(sorted)
                ==> (IsUnresolved(TallyOf(Entries(rows, p))) <==> Summary(rows, p).value.active != {}))
  {
    hide Alternates, Count, ActionFor, StatusOf;
    var entries := Entries(rows, p);
    var sorted := Sort(entries);
    TallyOfSort(entries);
    CountsAgainstActive(sorted);
    InsertNotEmpty(entries[0], Sort(entries[1..]));
    if Alternates(sorted) { AlternatingHasNoSurplus(sorted); }
  }

  lemma InsertNotEmpty(e: Event, s: seq<Event>)
    ensures Insert(e, s) != []
  {
  }

  // A limit that failed to apply leaves a terminal event without its APPLIED. It then
  // cancels, in the count, a limit of the same protection that is still in force, whichever
  // of the two came first.
  lemma FailedAttemptHidesLiveLimit(failed: Event, applied: Event, p: string)
    requires failed.pid == applied.pid == Some(p) && ResourceFor(failed) != ResourceFor(applied)
    requires failed.kind == "CONTROL_CPU_LIMIT_FAILED" && applied.kind == "CONTROL_DISK_IO_LIMIT_APPLIED"
    ensures HidesLive([failed, applied], applied, p) && HidesLive([applied, failed], applied, p)
  {
    PairHides(failed, applied, applied, failed, p);
    PairHides(applied, failed, applied, failed, p);
  }

  // The limit is in force by the lifecycle and settled by the count.
  predicate HidesLive(rows: seq<Event>, applied: Event, p: string) {
    && Summary(rows, p).Some? && ResourceFor(applied) in Summary(rows, p).value.active
    && !IsUnresolved(TallyOf(Entries(rows, p)))
  }

  lemma PairHides(one: Event, two: Event, applied: Event, failed: Event, p: string)
    requires one.pid == two.pid == Some(p) && ResourceFor(failed) != ResourceFor(applied)
    requires failed.kind == "CONTROL_CPU_LIMIT_FAILED" && applied.kind == "CONTROL_DISK_IO_LIMIT_APPLIED"
    requires (one, two) in [(applied, failed), (failed, applied)]
    ensures HidesLive([one, two], applied, p)
  {
    hide ActionFor, StatusOf, IsUnresolved, ResourceFor;
    var rows := [one, two];
    assert rows[1..] == [two] && [two][1..] == [];
    assert Entries([], p) == [] && Entries([two], p) == [two] && Entries(rows, p) == rows;
    PairSorted(one, two);
    PairTold(applied, failed);
  }

  lemma PairSorted(one: Event, two: Event)
    ensures Sort([one, two]) in [[one, two], [two, one]]
  {
    hide Before;
    assert [one, two][1..] == [two] && [two][1..] == [];
    assert Sort([]) == [] && Insert(two, []) == [two];
    assert Sort([two]) == Insert(two, Sort([two][1..]));
    assert Insert(one, []) == [one];
    assert Insert(one, [two]) == if !Before(two, one) then [one] + [two] else [two] + Insert(one, [two][1..]);
    assert Sort([one, two]) == Insert(one, Sort([one, two][1..]));
    assert [one] + [two] == [one, two] && [two] + [one] == [two, one];
  }

  lemma PairTold(applied: Event, failed: Event)
    requires failed.kind == "CONTROL_CPU_LIMIT_FAILED" && applied.kind == "CONTROL_DISK_IO_LIMIT_APPLIED"
    requires ResourceFor(failed) != ResourceFor(applied)
    ensures ResourceFor(applied) in Active([failed, applied]) && ResourceFor(applied) in Active([applied, failed])
    ensures !IsUnresolved(TallyOf([failed, applied])) && !IsUnresolved(TallyOf([applied, failed]))
  {
    assert ActionFor(failed.kind) == Some(Failed);
    assert ActionFor(applied.kind) == Some(Applied);
    ActiveStep([failed], applied);
    ActiveStep([], applied);
    ActiveStep([applied], failed);
    assert [] + [applied] == [applied];
    assert [failed] + [applied] == [failed, applied] && [applied] + [failed] == [applied, failed];
    TallyConcat([failed], [applied]);
    TallyConcat([applied], [failed]);
    TallyOfOne(failed);
    TallyOfOne(applied);
  }
}
