/** The stored revisions: each check either reconfirms the latest one or adds its successor. */
module RevisionChain {
  import opened Text
  import opened ConfigRevision

  datatype Side = Hardware | Software

  datatype Inventory = Inventory(hw: seq<Field>, sw: seq<Field>)

  datatype Statuses = Statuses(hw: Status, sw: Status)

  datatype Summary = Summary(hw: seq<Change>, sw: seq<Change>)

  // A stored revision. Revisions are named by their position; a baseline has no
  // predecessor and no changes.
  datatype Row = Row(previous: Option<nat>, created: int, inventory: Inventory,
                     changes: Option<Summary>, status: Statuses)

  // An inventory check: what it read, the clock, and whether the store took its result.
  datatype Check = Check(inventory: Inventory, now: int, stored: bool)

  // The newest revision by time, and by insertion among equals.
  function Latest(rows: seq<Row>): (l: nat)
    requires rows != []
    ensures l < |rows|
  {
    var n := |rows| - 1;
    if n == 0 then 0
    else
      var l := Latest(rows[..n]);
      if rows[n].created >= rows[l].created then n else l
  }

  function ClassifiedBoth(inventory: Inventory, prev: Statuses): Statuses {
    Statuses(Classified(inventory.hw, prev.hw), Classified(inventory.sw, prev.sw))
  }

  function ChangesBoth(inventory: Inventory, prev: Statuses): Summary {
    Summary(Changes(inventory.hw, prev.hw), Changes(inventory.sw, prev.sw))
  }

  const Nothing := Statuses(map[], map[])

  function Step(rows: seq<Row>, c: Check): seq<Row> {
    if !c.stored then rows
    else if rows == [] then [Row(None, c.now, c.inventory, None, ClassifiedBoth(c.inventory, Nothing))]
    else
      var l := Latest(rows);
      var status := ClassifiedBoth(c.inventory, rows[l].status);
      var changes := ChangesBoth(c.inventory, rows[l].status);
      if changes == Summary([], []) then rows[l := rows[l].(status := status)]
      else rows + [Row(Some(l), c.now, c.inventory, Some(changes), status)]
  }

  class RevisionStore {
    var rows: seq<Row>

    constructor ()
      ensures rows == []
    {
      rows := [];
    }

    method EnsureBaseline(c: Check)
      modifies this
      ensures rows == if old(rows) == [] then Step([], c) else old(rows)
    {
      if rows != [] {
        return;
      }
      var hw, _ := ClassifyAndDiff(c.inventory.hw, map[]);
      var sw, _ := ClassifyAndDiff(c.inventory.sw, map[]);
      if c.stored {
        rows := [Row(None, c.now, c.inventory, None, Statuses(hw, sw))];
      }
    }

    // The result lists the changes an event is emitted for.
    method CheckAndRecordIfChanged(c: Check) returns (emitted: Summary)
      modifies this
      ensures rows == Step(old(rows), c)
      ensures emitted ==
        if old(rows) == [] || !c.stored then Summary([], [])
        else ChangesBoth(c.inventory, old(rows)[Latest(old(rows))].status)
    {
      if rows == [] {
        EnsureBaseline(c);
        return Summary([], []);
      }
      var l := Latest(rows);
      var prev := rows[l].status;
      var hw, hwChanges := ClassifyAndDiff(c.inventory.hw, prev.hw);
      var sw, swChanges := ClassifyAndDiff(c.inventory.sw, prev.sw);
      if hwChanges == [] && swChanges == [] {
        if c.stored {
          rows := rows[l := rows[l].(status := Statuses(hw, sw))];
        }
        return Summary([], []);
      }
      if !c.stored {
        return Summary([], []);
      }
      rows := rows + [Row(Some(l), c.now, c.inventory, Some(Summary(hwChanges, swChanges)), Statuses(hw, sw))];
      return Summary(hwChanges, swChanges);
    }
  }

  // --------------------------------------------------------------- folding the changes

  function FieldsOf(i: Inventory, side: Side): seq<Field> {
    if side == Hardware then i.hw else i.sw
  }

  function StatusOf(s: Statuses, side: Side): Status {
    if side == Hardware then s.hw else s.sw
  }

  function ChangesOf(s: Summary, side: Side): seq<Change> {
    if side == Hardware then s.hw else s.sw
  }

  function Apply(v: View, changes: seq<Change>): View {
    if changes == [] then v
    else
      var c := changes[|changes| - 1];
      var before := Apply(v, changes[..|changes| - 1]);
      if c.current.Some? then before[c.field := c.current.value] else before - {c.field}
  }

  // The known values of revision i, from the inventory of its baseline and the change
  // summaries since.
  function Rebuilt(rows: seq<Row>, i: nat, side: Side): View
    requires i < |rows|
    decreases i
  {
    var row := rows[i];
    if row.previous.Some? && row.previous.value < i && row.changes.Some?
    then Apply(Rebuilt(rows, row.previous.value, side), ChangesOf(row.changes.value, side))
    else Answers(FieldsOf(row.inventory, side))
  }

  // What an inventory answered.
  function Answers(fields: seq<Field>): View {
    if fields == [] then map[]
    else
      var f := fields[|fields| - 1];
      var before := Answers(fields[..|fields| - 1]);
      if f.value.Some? then before[f.name := f.value.value] else before
  }

  lemma {:induction false} ApplyUntouched(v: View, changes: seq<Change>, f: string)
    requires forall i :: 0 <= i < |changes| ==> changes[i].field != f
    ensures Known(Apply(v, changes), f) == Known(v, f)
  {
    if changes != [] {
      ApplyUntouched(v, changes[..|changes| - 1], f);
    }
  }

  lemma {:induction false} ApplyTouched(v: View, changes: seq<Change>, k: nat)
    requires k < |changes| && forall i, j :: 0 <= i < j < |changes| ==> changes[i].field != changes[j].field
    ensures Known(Apply(v, changes), changes[k].field) == changes[k].current
  {
    var n := |changes| - 1;
    if k < n {
      ApplyTouched(v, changes[..n], k);
    }
  }

  lemma DifferenceApplies(changes: seq<Change>, fields: set<string>, before: View, after: View)
    requires IsDifference(changes, fields, before, after) && before.Keys <= fields && after.Keys <= fields
    ensures Apply(before, changes) == after
  {
    hide Apply;
    forall f
      ensures Known(Apply(before, changes), f) == Known(after, f)
    {
      if k :| 0 <= k < |changes| && changes[k].field == f {
        ApplyTouched(before, changes, k);
      } else {
        ApplyUntouched(before, changes, f);
      }
    }
    SameKnown(Apply(before, changes), after);
  }

  lemma SameKnown(v: View, w: View)
    requires forall f :: Known(v, f) == Known(w, f)
    ensures v == w
  {
    assert forall f :: f in v ==> Known(v, f) == Known(w, f);
    assert forall f :: f in w ==> Known(v, f) == Known(w, f);
  }

  // --------------------------------------------------------------- every revision

  // Every inventory reads the same fields, each once.
  predicate Reads(c: Check, side: Side, names: set<string>) {
    Distinct(FieldsOf(c.inventory, side)) && Names(FieldsOf(c.inventory, side)) == names
  }

  ghost predicate RowHolds(rows: seq<Row>, i: nat, side: Side, names: set<string>)
    requires i < |rows|
  {
    && Sound(StatusOf(rows[i].status, side)) && StatusOf(rows[i].status, side).Keys == names
    && Rebuilt(rows, i, side) == ViewOf(StatusOf(rows[i].status, side))
  }

  function After(checks: seq<Check>): seq<Row> {
    if checks == [] then [] else Step(After(checks[..|checks| - 1]), checks[|checks| - 1])
  }

  lemma {:induction false} RebuiltIgnoresStatus(rows: seq<Row>, other: seq<Row>, i: nat, side: Side)
    requires i < |rows| <= |other|
    requires forall k :: 0 <= k < |rows| ==> other[k].(status := rows[k].status) == rows[k]
    ensures Rebuilt(rows, i, side) == Rebuilt(other, i, side)
    decreases i
  {
    hide Apply, Answers;
    assert other[i].(status := rows[i].status) == rows[i];
    if rows[i].previous.Some? && rows[i].previous.value < i {
      RebuiltIgnoresStatus(rows, other, rows[i].previous.value, side);
    }
  }

  lemma BothPerSide(inventory: Inventory, prev: Statuses, side: Side)
    ensures StatusOf(ClassifiedBoth(inventory, prev), side) == Classified(FieldsOf(inventory, side), StatusOf(prev, side))
    ensures ChangesOf(ChangesBoth(inventory, prev), side) == Changes(FieldsOf(inventory, side), StatusOf(prev, side))
  {
  }

  lemma StepOnSide(current: seq<Field>, prev: Status, names: set<string>)
    requires Distinct(current) && Names(current) == names && Sound(prev) && prev.Keys <= names
    ensures Sound(Classified(current, prev)) && Classified(current, prev).Keys == names
    ensures Apply(ViewOf(prev), Changes(current, prev)) == ViewOf(Classified(current, prev))
  {
    hide Sound, Classified, Changes, Apply, IsDifference, Names, Distinct;
    ChangesAreTheDifference(current, prev);
    StatusPerField(current, prev);
    DifferenceApplies(Changes(current, prev), names, ViewOf(prev), ViewOf(Classified(current, prev)));
  }

  lemma {:induction false} AnswersAreKnown(current: seq<Field>)
    requires Distinct(current)
    ensures ViewOf(Classified(current, map[])) == Answers(current)
  {
    hide Distinct, ViewOf, Names;
    if current != [] {
      var n := |current| - 1;
      DistinctPrefix(current);
      AnswersAreKnown(current[..n]);
      StatusPerField(current[..n], map[]);
      NotAmong(current, n);
      EntryIsSeen(Classified(current[..n], map[]), current[n]);
    } else {
      NothingSeen();
    }
  }

  lemma NothingSeen()
    ensures ViewOf(map[]) == map[]
  {
  }

  lemma DistinctPrefix(current: seq<Field>)
    requires current != [] && Distinct(current)
    ensures Distinct(current[..|current| - 1])
  {
  }

  // A field read for the first time adds its answer to what is known.
  lemma EntryIsSeen(s: Status, f: Field)
    requires f.name !in s
    ensures ViewOf(s[f.name := Classify(Prior(map[], f.name), f).0])
         == if f.value.Some? then ViewOf(s)[f.name := f.value.value] else ViewOf(s)
  {
  }

  // Folding the change summaries from a revision's baseline always gives the values its
  // status knows, whichever checks failed to be stored and whatever the clock did.
  lemma {:induction false} ChainRebuildsTheView(checks: seq<Check>, i: nat, side: Side, names: set<string>)
    requires forall c :: c in checks ==> Reads(c, side, names)
    requires i < |After(checks)|
    ensures RowHolds(After(checks), i, side, names)
  {
    hide Reads, RowHolds, Step;
    if checks == [] {
    } else {
      var n := |checks| - 1;
      Fewer(checks, side, names);
      var rows := After(checks[..n]);
      forall k | 0 <= k < |rows|
        ensures RowHolds(rows, k, side, names)
      {
        ChainRebuildsTheView(checks[..n], k, side, names);
      }
      RowsHold(rows, checks[n], i, side, names);
    }
  }

  lemma Fewer(checks: seq<Check>, side: Side, names: set<string>)
    requires checks != [] && forall c :: c in checks ==> Reads(c, side, names)
    ensures forall c :: c in checks[..|checks| - 1] ==> Reads(c, side, names)
    ensures Reads(checks[|checks| - 1], side, names)
  {
    hide Reads;
    assert checks[|checks| - 1] in checks;
  }

  lemma RowsHold(rows: seq<Row>, c: Check, i: nat, side: Side, names: set<string>)
    requires forall k :: 0 <= k < |rows| ==> RowHolds(rows, k, side, names)
    requires Reads(c, side, names) && i < |Step(rows, c)|
    ensures RowHolds(Step(rows, c), i, side, names)
  {
    hide RowHolds, Rebuilt, Latest;
    if !c.stored {
    } else if rows == [] {
      BaselineHolds(c, side, names);
    } else {
      var l := Latest(rows);
      assert RowHolds(rows, l, side, names);
      if ChangesBoth(c.inventory, rows[l].status) == Summary([], []) {
        if i == l {
          TouchedHolds(rows, c, l, side, names);
        } else {
          OthersHold(rows, Step(rows, c), i, side, names);
        }
      } else if i == |rows| {
        AddedHolds(rows, c, l, side, names);
      } else {
        OthersHold(rows, Step(rows, c), i, side, names);
      }
    }
  }

  lemma BaselineHolds(c: Check, side: Side, names: set<string>)
    requires Reads(c, side, names) && c.stored
    ensures RowHolds(Step([], c), 0, side, names)
  {
    hide Sound, Classified, Changes, Distinct, Names, Answers, Apply, ViewOf;
    var none: Status := map[];
    EmptyIsSound();
    BothPerSide(c.inventory, Nothing, side);
    StepOnSide(FieldsOf(c.inventory, side), none, names);
    AnswersAreKnown(FieldsOf(c.inventory, side));
  }

  lemma EmptyIsSound()
    ensures Sound(map[])
  {
  }

  lemma OthersHold(rows: seq<Row>, more: seq<Row>, i: nat, side: Side, names: set<string>)
    requires i < |rows| <= |more| && RowHolds(rows, i, side, names) && more[i] == rows[i]
    requires forall k :: 0 <= k < |rows| ==> more[k].(status := rows[k].status) == rows[k]
    ensures RowHolds(more, i, side, names)
  {
    hide Sound, ViewOf, Rebuilt;
    RebuiltIgnoresStatus(rows, more, i, side);
  }

  lemma TouchedHolds(rows: seq<Row>, c: Check, l: nat, side: Side, names: set<string>)
    requires l < |rows| && RowHolds(rows, l, side, names) && Reads(c, side, names)
    requires ChangesBoth(c.inventory, rows[l].status) == Summary([], [])
    ensures RowHolds(rows[l := rows[l].(status := ClassifiedBoth(c.inventory, rows[l].status))], l, side, names)
  {
    hide Sound, Classified, Changes, Distinct, Names, ViewOf, Rebuilt;
    var touched := rows[l := rows[l].(status := ClassifiedBoth(c.inventory, rows[l].status))];
    BothPerSide(c.inventory, rows[l].status, side);
    StepOnSide(FieldsOf(c.inventory, side), StatusOf(rows[l].status, side), names);
    RebuiltIgnoresStatus(rows, touched, l, side);
  }

  lemma AddedHolds(rows: seq<Row>, c: Check, l: nat, side: Side, names: set<string>)
    requires l < |rows| && RowHolds(rows, l, side, names) && Reads(c, side, names)
    ensures var changes := ChangesBoth(c.inventory, rows[l].status);
      RowHolds(rows + [Row(Some(l), c.now, c.inventory, Some(changes), ClassifiedBoth(c.inventory, rows[l].status))],
               |rows|, side, names)
  {
    hide Sound, Classified, Changes, Distinct, Names, ViewOf, Apply, Answers;
    var status, changes := ClassifiedBoth(c.inventory, rows[l].status), ChangesBoth(c.inventory, rows[l].status);
    var more := rows + [Row(Some(l), c.now, c.inventory, Some(changes), status)];
    BothPerSide(c.inventory, rows[l].status, side);
    StepOnSide(FieldsOf(c.inventory, side), StatusOf(rows[l].status, side), names);
    RebuiltIgnoresStatus(rows, more, l, side);
    assert more[|rows|].previous == Some(l) && more[|rows|].status == status;
  }

  // --------------------------------------------------------------- which revision follows which

  // What field f answered at the checks that were stored.
  function StoredReads(checks: seq<Check>, side: Side, f: string): seq<Option<string>> {
    if checks == [] then []
    else
      var c := checks[|checks| - 1];
      StoredReads(checks[..|checks| - 1], side, f) + if c.stored then [Read(FieldsOf(c.inventory, side), f)] else []
  }

  function Read(fields: seq<Field>, f: string): Option<string> {
    if fields == [] then None
    else if fields[|fields| - 1].name == f then fields[|fields| - 1].value
    else Read(fields[..|fields| - 1], f)
  }

  // Each revision follows the one stored before it.
  predicate Linear(rows: seq<Row>) {
    forall i :: 0 <= i < |rows| ==> rows[i].previous == if i == 0 then None else Some(i - 1)
  }

  // No revision of the first n is older than one stored before it.
  predicate InOrder(rows: seq<Row>, n: nat)
    requires n <= |rows|
  {
    forall j, i :: 0 <= j < i < n ==> rows[j].created <= rows[i].created
  }

  // The revision in force is the one stored last.
  predicate LastInForce(rows: seq<Row>) {
    rows != [] ==> Latest(rows) == |rows| - 1
  }

  // The revision in force is the newest, and among equals the last.
  lemma {:induction false} LatestIsNewest(rows: seq<Row>, i: nat)
    requires i < |rows|
    ensures rows[i].created <= rows[Latest(rows)].created
    ensures i > Latest(rows) ==> rows[i].created < rows[Latest(rows)].created
  {
    var n := |rows| - 1;
    if n > 0 {
      if i < n {
        LatestIsNewest(rows[..n], i);
      } else {
        LatestIsNewest(rows[..n], 0);
      }
    }
  }

  lemma LastInForceExactly(rows: seq<Row>)
    ensures LastInForce(rows) <==> forall j :: 0 <= j < |rows| - 1 ==> rows[j].created <= rows[|rows| - 1].created
  {
    hide Latest;
    forall i | 0 <= i < |rows|
      ensures rows[i].created <= rows[Latest(rows)].created
      ensures i > Latest(rows) ==> rows[i].created < rows[Latest(rows)].created
    {
      LatestIsNewest(rows, i);
    }
    if rows != [] {
      var l, last := Latest(rows), |rows| - 1;
      assert rows[last].created <= rows[l].created;
      if l < last {
        assert rows[last].created < rows[l].created;
      }
    }
  }

  // Only the status of a stored revision is ever rewritten, and its status does not matter
  // for which one is in force.
  predicate SameButStatus(rows: seq<Row>, other: seq<Row>) {
    |rows| == |other| && forall k :: 0 <= k < |rows| ==> other[k].(status := rows[k].status) == rows[k]
  }

  lemma {:induction false} LatestIgnoresStatus(rows: seq<Row>, other: seq<Row>)
    requires rows != [] && SameButStatus(rows, other)
    ensures Latest(rows) == Latest(other)
  {
    var n := |rows| - 1;
    assert forall k :: 0 <= k < |rows| ==> other[k].(status := rows[k].status) == rows[k];
    if n > 0 {
      LatestIgnoresStatus(rows[..n], other[..n]);
      assert rows[n].created == other[n].created;
      assert rows[..n][Latest(rows[..n])].created == other[..n][Latest(rows[..n])].created;
    }
  }

  // What a check does to the stored revisions, apart from their statuses.
  lemma StepGrows(rows: seq<Row>, c: Check)
    ensures var next := Step(rows, c);
      && |rows| <= |next| <= |rows| + 1 && SameButStatus(rows, next[..|rows|])
      && (|next| > |rows| ==>
            c.stored && next[|rows|].created == c.now
            && next[|rows|].previous == if rows == [] then None else Some(Latest(rows)))
  {
    hide Latest, ClassifiedBoth, ChangesBoth;
  }

  // Every revision names as its predecessor the one that was in force when it was stored.
  lemma {:induction false} PreviousWasInForce(checks: seq<Check>, i: nat)
    requires i < |After(checks)|
    ensures After(checks)[i].previous == if i == 0 then None else Some(Latest(After(checks)[..i]))
  {
    hide Step, Latest;
    if checks == [] {
    } else {
      var n := |checks| - 1;
      var rows, next := After(checks[..n]), After(checks);
      StepGrows(rows, checks[n]);
      if i < |rows| {
        PreviousWasInForce(checks[..n], i);
        assert next[i].(status := rows[i].status) == rows[i] by {
          assert next[..|rows|][i] == next[i];
        }
        if i > 0 {
          PartsAlike(rows, next[..|rows|], i);
          assert next[..|rows|][..i] == next[..i];
          LatestIgnoresStatus(rows[..i], next[..i]);
        }
      } else if i > 0 {
        LatestIgnoresStatus(rows, next[..i]);
      }
    }
  }

  lemma PartsAlike(rows: seq<Row>, other: seq<Row>, i: nat)
    requires SameButStatus(rows, other) && i <= |rows|
    ensures SameButStatus(rows[..i], other[..i])
  {
  }

  // Exactly: the chain follows the order of storage if and only if no revision but the
  // last is older than one stored before it. What the clock did at checks that added no
  // revision does not matter.
  lemma ChainIsLinearExactly(checks: seq<Check>)
    ensures var rows := After(checks);
      Linear(rows) <==> InOrder(rows, if rows == [] then 0 else |rows| - 1)
  {
    hide After, Latest, Newest;
    var rows := After(checks);
    forall i | 0 <= i < |rows|
      ensures i > 0 ==> (rows[i].previous == Some(i - 1) <==> Newest(rows, i - 1))
      ensures i == 0 ==> rows[i].previous == None
    {
      PreviousWasInForce(checks, i);
      if i > 0 {
        LastOfPart(rows, i);
      }
    }
    if rows != [] {
      OrderByPredecessor(rows);
      if Linear(rows) {
        forall k: nat | k < |rows| - 1
          ensures Newest(rows, k)
        {
          assert rows[k + 1].previous == Some(k);
        }
      }
    }
  }

  lemma LastOfPart(rows: seq<Row>, i: nat)
    requires 0 < i <= |rows|
    ensures Latest(rows[..i]) == i - 1 <==> Newest(rows, i - 1)
  {
    hide Latest;
    LastInForceExactly(rows[..i]);
  }

  lemma OrderByPredecessor(rows: seq<Row>)
    requires rows != []
    ensures InOrder(rows, |rows| - 1) <==> forall k: nat :: k < |rows| - 1 ==> Newest(rows, k)
  {
    if forall k: nat :: k < |rows| - 1 ==> Newest(rows, k) {
      forall j, i | 0 <= j < i < |rows| - 1
        ensures rows[j].created <= rows[i].created
      {
        assert Newest(rows, i);
      }
    }
  }

  predicate Newest(rows: seq<Row>, i: nat)
    requires i < |rows|
  {
    forall j :: 0 <= j < i ==> rows[j].created <= rows[i].created
  }

  // Whenever a check is stored, the revision in force is the one stored last.
  ghost predicate HeadInForce(checks: seq<Check>) {
    forall k :: 0 <= k < |checks| && checks[k].stored ==> LastInForce(After(checks[..k]))
  }

  // So it is when the stored revisions are in order of time.
  lemma {:induction false} OrderKeepsHead(checks: seq<Check>)
    requires InOrder(After(checks), |After(checks)|)
    ensures HeadInForce(checks)
  {
    hide Step, Latest, LastInForce;
    if checks != [] {
      var n := |checks| - 1;
      var rows, next := After(checks[..n]), After(checks);
      StepGrows(rows, checks[n]);
      forall k | 0 <= k < |rows|
        ensures next[k].created == rows[k].created
      {
        assert next[..|rows|][k] == next[k];
      }
      OrderKeepsHead(checks[..n]);
      LastInForceExactly(rows);
      HeadGrows(checks);
    }
  }

  lemma HeadGrows(checks: seq<Check>)
    requires checks != [] && HeadInForce(checks[..|checks| - 1]) && LastInForce(After(checks[..|checks| - 1]))
    ensures HeadInForce(checks)
  {
    hide After, LastInForce;
    var n := |checks| - 1;
    forall k | 0 <= k < n
      ensures checks[..n][..k] == checks[..k] && checks[..n][k] == checks[k]
    {
    }
  }

  // A clock that never steps back keeps them so.
  lemma {:induction false} SteadyClockKeepsOrder(checks: seq<Check>)
    requires forall i, j :: 0 <= i <= j < |checks| ==> checks[i].now <= checks[j].now
    ensures InOrder(After(checks), |After(checks)|)
    ensures forall i :: 0 <= i < |After(checks)| ==> checks != [] && After(checks)[i].created <= checks[|checks| - 1].now
  {
    hide Step;
    if checks != [] {
      var n := |checks| - 1;
      var rows, next := After(checks[..n]), After(checks);
      SteadyClockKeepsOrder(checks[..n]);
      assert n > 0 ==> checks[n - 1].now <= checks[n].now;
      StepGrows(rows, checks[n]);
      forall k | 0 <= k < |rows|
        ensures next[k].created == rows[k].created
      {
        assert next[..|rows|][k] == next[k];
      }
    }
  }

  lemma {:induction false} ReadIs(fields: seq<Field>, i: nat)
    requires i < |fields| && Distinct(fields)
    ensures Read(fields, fields[i].name) == fields[i].value
  {
    if i < |fields| - 1 {
      ReadIs(fields[..|fields| - 1], i);
    }
  }

  // Field f has, in the revision in force, the status these reads give it.
  predicate Reflects(rows: seq<Row>, side: Side, f: string, rs: seq<Option<string>>) {
    FieldAfter(f, rs) == if rows == [] then Unseen else Prior(StatusOf(rows[|rows| - 1].status, side), f)
  }

  // While the last revision is in force whenever a check is stored, its status is the one
  // the stored checks alone would give, so a removal is reported after exactly two stored
  // misses in a row.
  lemma {:induction false} StatusFollowsStoredReads(checks: seq<Check>, side: Side, names: set<string>, f: string)
    requires HeadInForce(checks) && f in names && forall c :: c in checks ==> Reads(c, side, names)
    ensures Reflects(After(checks), side, f, StoredReads(checks, side, f))
  {
    if checks != [] {
      hide HeadInForce, Reads, LastInForce, Read, Step, Reflects;
      var n := |checks| - 1;
      var c, rows := checks[n], After(checks[..n]);
      HeadPrefix(checks);
      Fewer(checks, side, names);
      StatusFollowsStoredReads(checks[..n], side, names, f);
      if c.stored {
        StatusStep(rows, c, side, names, f, StoredReads(checks[..n], side, f));
      } else {
        Unstored(rows, c);
        assert StoredReads(checks, side, f) == StoredReads(checks[..n], side, f);
      }
    }
  }

  lemma HeadPrefix(checks: seq<Check>)
    requires checks != [] && HeadInForce(checks)
    ensures HeadInForce(checks[..|checks| - 1])
    ensures checks[|checks| - 1].stored ==> LastInForce(After(checks[..|checks| - 1]))
  {
    hide After, LastInForce;
    var n := |checks| - 1;
    forall k | 0 <= k < n
      ensures checks[..n][..k] == checks[..k] && checks[..n][k] == checks[k]
    {
    }
  }

  lemma StatusStep(rows: seq<Row>, c: Check, side: Side, names: set<string>, f: string, rs: seq<Option<string>>)
    requires LastInForce(rows) && c.stored && Reads(c, side, names) && f in names && Reflects(rows, side, f, rs)
    ensures Reflects(Step(rows, c), side, f, rs + [Read(FieldsOf(c.inventory, side), f)])
  {
    hide Reads, LastInForce, Read, Step, Classify, Classified, ClassifiedBoth;
    var prev := if rows == [] then Nothing else rows[|rows| - 1].status;
    BothPerSide(c.inventory, prev, side);
    OneMoreRead(c, side, names, f, StatusOf(prev, side));
    LastStatus(rows, c);
    FieldSnoc(f, rs, Read(FieldsOf(c.inventory, side), f));
  }

  lemma FieldSnoc(f: string, rs: seq<Option<string>>, newest: Option<string>)
    ensures FieldAfter(f, rs + [newest]) == Classify(FieldAfter(f, rs), Field(f, newest)).0
  {
    hide Classify;
    assert (rs + [newest])[..|rs|] == rs;
  }

  lemma Unstored(rows: seq<Row>, c: Check)
    requires !c.stored
    ensures Step(rows, c) == rows
  {
  }

  lemma LastStatus(rows: seq<Row>, c: Check)
    requires LastInForce(rows) && c.stored
    ensures var prev := if rows == [] then Nothing else rows[|rows| - 1].status;
      var next := Step(rows, c);
      next != [] && next[|next| - 1].status == ClassifiedBoth(c.inventory, prev)
  {
    hide ClassifiedBoth, ChangesBoth;
  }

  lemma OneMoreRead(c: Check, side: Side, names: set<string>, f: string, prev: Status)
    requires Reads(c, side, names) && f in names
    ensures Prior(Classified(FieldsOf(c.inventory, side), prev), f)
         == Classify(Prior(prev, f), Field(f, Read(FieldsOf(c.inventory, side), f))).0
  {
    hide Classify, Classified, Read;
    var fields := FieldsOf(c.inventory, side);
    StatusPerField(fields, prev);
    var i :| 0 <= i < |fields| && fields[i].name == f;
    ReadIs(fields, i);
    assert fields[i] == Field(f, fields[i].value);
  }

  lemma SingleField(f: Field, prev: Status)
    ensures Classified([f], prev) == map[f.name := Classify(Prior(prev, f.name), f).0] && Classified([], prev) == map[]
    ensures Changes([], prev) == []
    ensures var c := Classify(Prior(prev, f.name), f).1; Changes([f], prev) == if c.Some? then [c.value] else []
  {
    assert [f][..0] == [];
  }

  // An inventory of one hardware field.
  function Only(f: string, v: string, now: int): Check {
    Check(Inventory([Field(f, Some(v))], []), now, true)
  }

  lemma BecomesOther(f: string, was: string, became: string, now: int, rows: seq<Row>)
    requires was != became && rows != []
    requires rows[Latest(rows)].status == Statuses(map[f := Entry(Some(was), Present, 0)], map[])
    ensures Step(rows, Only(f, became, now))
         == rows + [Row(Some(Latest(rows)), now, Only(f, became, now).inventory,
                        Some(Summary([Change(f, Some(was), Some(became), Modified)], [])),
                        Statuses(map[f := Entry(Some(became), Present, 0)], map[]))]
  {
    hide Classified, Changes;
    SingleField(Field(f, Some(became)), map[f := Entry(Some(was), Present, 0)]);
    SingleField(Field(f, Some(became)), map[]);
  }

  lemma AfterSnoc(checks: seq<Check>, c: Check)
    ensures After(checks + [c]) == Step(After(checks), c)
  {
    hide Step;
    assert (checks + [c])[..|checks|] == checks;
  }

  lemma StartsWithOnly(f: string, was: string, now: int)
    ensures var rows := Step([], Only(f, was, now));
      |rows| == 1 && rows[0].created == now && rows[0].status == Statuses(map[f := Entry(Some(was), Present, 0)], map[])
  {
    hide Classified, Changes;
    SingleField(Field(f, Some(was)), map[]);
    assert Prior(map[], f) == Unseen;
  }

  lemma LatestStays(rows: seq<Row>, row: Row)
    requires |rows| == 1 && row.created < rows[0].created
    ensures Latest(rows + [row]) == 0
  {
    assert (rows + [row])[..1] == rows;
  }

  // Exactly: when a check adds a revision and the next one reads the same, the same changes
  // are recorded again from the same predecessor if and only if the clock of the first was
  // behind the revision then in force.
  lemma ChangeRepeatsExactly(checks: seq<Check>, c: Check, again: Check)
    requires c.stored && again.stored && again.inventory == c.inventory && After(checks) != []
    requires ChangesBoth(c.inventory, After(checks)[Latest(After(checks))].status) != Summary([], [])
    ensures var rows := After(checks);
      var next := After(checks + [c, again]);
      (|next| == |rows| + 2 && next[|rows| + 1].previous == next[|rows|].previous
       && next[|rows| + 1].changes == next[|rows|].changes)
      <==> c.now < rows[Latest(rows)].created
  {
    hide ChangesBoth, ClassifiedBoth, After, Latest, Step;
    var rows := After(checks);
    AfterSnoc(checks, c);
    AfterSnoc(checks + [c], again);
    assert checks + [c] + [again] == checks + [c, again];
    StoredAndChanged(rows, c);
    var once := Step(rows, c);
    LatestOfAdded(rows, once[|rows|]);
    assert once[..|rows|] == rows;
    StepGrows(once, again);
    if c.now < rows[Latest(rows)].created {
      StoredAndChanged(once, again);
    } else {
      KeepsPrevious(once, again, |rows|);
    }
  }

  lemma StoredAndChanged(rows: seq<Row>, c: Check)
    requires c.stored && rows != [] && ChangesBoth(c.inventory, rows[Latest(rows)].status) != Summary([], [])
    ensures Step(rows, c)
         == rows + [Row(Some(Latest(rows)), c.now, c.inventory, Some(ChangesBoth(c.inventory, rows[Latest(rows)].status)),
                        ClassifiedBoth(c.inventory, rows[Latest(rows)].status))]
  {
    hide ChangesBoth, ClassifiedBoth, Latest;
  }

  lemma LatestOfAdded(rows: seq<Row>, row: Row)
    requires rows != []
    ensures Latest(rows + [row]) == if row.created >= rows[Latest(rows)].created then |rows| else Latest(rows)
  {
    assert (rows + [row])[..|rows|] == rows;
  }

  lemma KeepsPrevious(rows: seq<Row>, c: Check, i: nat)
    requires i < |rows|
    ensures i < |Step(rows, c)| && Step(rows, c)[i].previous == rows[i].previous
  {
    hide Step;
    StepGrows(rows, c);
    assert Step(rows, c)[..|rows|][i] == Step(rows, c)[i];
    assert Step(rows, c)[..|rows|][i].(status := rows[i].status) == rows[i];
  }

  // It happens: a change read with the clock set back is recorded twice.
  lemma ClockSetBackRepeatsAChange(f: string, was: string, became: string)
    requires was != became
    ensures var rows := After([Only(f, was, 10), Only(f, became, 5), Only(f, became, 6)]);
      && |rows| == 3 && rows[1].changes == rows[2].changes && rows[1].changes.Some?
      && rows[1].previous == rows[2].previous == Some(0)
  {
    hide Step, Only, After;
    var a, b, c := Only(f, was, 10), Only(f, became, 5), Only(f, became, 6);
    StartsWithOnly(f, was, 10);
    AfterSnoc([], a);
    AfterSnoc([a], b);
    AfterSnoc([a, b], c);
    assert [] + [a] == [a] && [a] + [b] == [a, b] && [a, b] + [c] == [a, b, c];
    Nobody();
    var first, second := After([a]), After([a, b]);
    BecomesOther(f, was, became, 5, first);
    LatestStays(first, second[1]);
    assert first + [second[1]] == second;
    BecomesOther(f, was, became, 6, second);
  }

  lemma Nobody()
    ensures After([]) == []
  {
  }
}
