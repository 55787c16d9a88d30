/** Versioned hardware and software inventories: one pass classifies every field and lists
    its changes, and the revisions form a chain of such lists. */
module ConfigRevision {
  import opened Text

  datatype FieldState = Present | Unavailable | Unknown | Removed

  // What is remembered of a field; values are JSON texts.
  datatype Entry = Entry(value: Option<string>, state: FieldState, misses: nat)

  datatype Kind = Discovered | Added | Modified | Gone

  datatype Change = Change(field: string, previous: Option<string>, current: Option<string>, kind: Kind)

  // One field of an inventory; None is a read that gave nothing.
  datatype Field = Field(name: string, value: Option<string>)

  type Status = map<string, Entry>

  type View = map<string, string>

  const REMOVED_AFTER: nat := 2

  const Unseen := Entry(None, Unavailable, 0)

  function Prior(prev: Status, name: string): Entry {
    if name in prev then prev[name] else Unseen
  }

  function Classify(prev: Entry, f: Field): (Entry, Option<Change>) {
    match f.value
    case None =>
      if prev.state != Present && prev.state != Unknown then (prev, None)
      else if prev.misses + 1 >= REMOVED_AFTER
      then (Entry(None, Removed, prev.misses + 1), Some(Change(f.name, prev.value, None, Gone)))
      else (Entry(prev.value, Unknown, prev.misses + 1), None)
    case Some(v) =>
      var seen := Entry(f.value, Present, 0);
      if prev.state == Unavailable then (seen, Some(Change(f.name, prev.value, f.value, Discovered)))
      else if prev.state == Removed then (seen, Some(Change(f.name, prev.value, f.value, Added)))
      else if f.value != prev.value then (seen, Some(Change(f.name, prev.value, f.value, Modified)))
      else (seen, None)
  }

  function Classified(current: seq<Field>, prev: Status): Status {
    if current == [] then map[]
    else
      var f := current[|current| - 1];
      Classified(current[..|current| - 1], prev)[f.name := Classify(Prior(prev, f.name), f).0]
  }

  function Changes(current: seq<Field>, prev: Status): seq<Change> {
    if current == [] then []
    else
      var f := current[|current| - 1];
      var c := Classify(Prior(prev, f.name), f).1;
      Changes(current[..|current| - 1], prev) + if c.Some? then [c.value] else []
  }

  method ClassifyAndDiff(current: seq<Field>, prev: Status) returns (status: Status, changes: seq<Change>)
    ensures status == Classified(current, prev) && changes == Changes(current, prev)
  {
    status, changes := map[], [];
    for i := 0 to |current|
      invariant status == Classified(current[..i], prev) && changes == Changes(current[..i], prev)
    {
      assert current[..i + 1][..i] == current[..i];
      var field, value := current[i].name, current[i].value;
      var p := if field in prev then prev[field] else Entry(None, Unavailable, 0);
      var misses := p.misses;
      if value == None {
        if p.state == Present || p.state == Unknown {
          misses := misses + 1;
          if misses >= REMOVED_AFTER {
            status := status[field := Entry(None, Removed, misses)];
            changes := changes + [Change(field, p.value, None, Gone)];
          } else {
            status := status[field := Entry(p.value, Unknown, misses)];
          }
        } else {
          status := status[field := p];
        }
      } else {
        status := status[field := Entry(value, Present, 0)];
        if p.state == Unavailable || p.state == Removed {
          changes := changes + [Change(field, p.value, value, if p.state == Removed then Added else Discovered)];
        } else if value != p.value {
          changes := changes + [Change(field, p.value, value, Modified)];
        }
      }
    }
    assert current[..|current|] == current;
  }

  // --------------------------------------------------------------- changes are the difference

  // A value is remembered exactly while the field is present or in doubt.
  predicate SoundEntry(e: Entry) {
    e.value.Some? <==> e.state == Present || e.state == Unknown
  }

  predicate Sound(s: Status) {
    forall f :: f in s ==> SoundEntry(s[f])
  }

  // The last known values.
  function ViewOf(s: Status): View {
    map f | f in s && s[f].value.Some? :: s[f].value.value
  }

  function Known(v: View, f: string): Option<string> {
    if f in v then Some(v[f]) else None
  }

  function Names(current: seq<Field>): set<string> {
    set i | 0 <= i < |current| :: current[i].name
  }

  predicate Distinct(current: seq<Field>) {
    forall i, j :: 0 <= i < j < |current| ==> current[i].name != current[j].name
  }

  function KindOf(c: Change, prev: Entry): bool {
    match c.kind
    case Discovered => prev.state == Unavailable && c.current.Some?
    case Added => prev.state == Removed && c.current.Some?
    case Modified => c.previous.Some? && c.current.Some?
    case Gone => c.current.None?
  }

  lemma OneField(prev: Entry, f: Field)
    requires SoundEntry(prev)
    ensures var out := Classify(prev, f);
      && SoundEntry(out.0)
      && (out.1.Some? <==> prev.value != out.0.value)
      && (out.1.Some? ==> out.1.value.field == f.name && out.1.value.previous == prev.value
                          && out.1.value.current == out.0.value && KindOf(out.1.value, prev))
  {
  }

  lemma NamesSnoc(current: seq<Field>)
    ensures current == [] ==> Names(current) == {}
    ensures current != [] ==> Names(current) == Names(current[..|current| - 1]) + {current[|current| - 1].name}
  {
    if current != [] {
      assert current == current[..|current| - 1] + [current[|current| - 1]];
    }
  }

  lemma {:induction false} StatusPerField(current: seq<Field>, prev: Status)
    requires Distinct(current)
    ensures Classified(current, prev).Keys == Names(current)
    ensures forall i :: 0 <= i < |current| ==>
      && current[i].name in Classified(current, prev)
      && Classified(current, prev)[current[i].name] == Classify(Prior(prev, current[i].name), current[i]).0
  {
    hide Classify, Names;
    NamesSnoc(current);
    if current != [] {
      StatusPerField(current[..|current| - 1], prev);
    }
  }

  // The change of one field, as two views show it.
  predicate Shows(c: Change, before: View, after: View) {
    && c.previous == Known(before, c.field) && c.current == Known(after, c.field) && c.previous != c.current
  }

  // The listed changes are exactly the fields whose last known value differs, each with
  // its value before and after, and no field twice.
  predicate IsDifference(changes: seq<Change>, fields: set<string>, before: View, after: View) {
    && (forall i :: 0 <= i < |changes| ==> changes[i].field in fields && Shows(changes[i], before, after))
    && (forall i, j :: 0 <= i < j < |changes| ==> changes[i].field != changes[j].field)
    && (forall f :: f in fields && Known(before, f) != Known(after, f) ==> exists i :: 0 <= i < |changes| && changes[i].field == f)
  }

  lemma {:induction false} ChangesAreTheDifference(current: seq<Field>, prev: Status)
    requires Distinct(current) && Sound(prev)
    ensures IsDifference(Changes(current, prev), Names(current), ViewOf(prev), ViewOf(Classified(current, prev)))
    ensures Sound(Classified(current, prev))
  {
    hide Classify, Sound, Changes;
    StatusPerField(current, prev);
    ChangesPerField(current, prev, Classified(current, prev));
    StaysSound(current, prev);
  }

  lemma StaysSound(current: seq<Field>, prev: Status)
    requires Distinct(current) && Sound(prev)
    ensures Sound(Classified(current, prev))
  {
    hide Classify, Classified;
    StatusPerField(current, prev);
    forall f | f in Classified(current, prev)
      ensures SoundEntry(Classified(current, prev)[f])
    {
      var i :| 0 <= i < |current| && current[i].name == f;
      OneField(Prior(prev, f), current[i]);
    }
  }

  lemma {:induction false} ChangesPerField(current: seq<Field>, prev: Status, next: Status)
    requires Distinct(current) && Sound(prev)
    requires forall i :: 0 <= i < |current| ==>
      current[i].name in next && next[current[i].name] == Classify(Prior(prev, current[i].name), current[i]).0
    ensures IsDifference(Changes(current, prev), Names(current), ViewOf(prev), ViewOf(next))
  {
    hide Classify, Sound, IsDifference, ViewOf, Names;
    NamesSnoc(current);
    if current == [] {
      NoDifference(ViewOf(prev), ViewOf(next));
    } else {
      var n := |current| - 1;
      var f := current[n];
      ChangesPerField(current[..n], prev, next);
      SoundPrior(prev, f.name);
      OneField(Prior(prev, f.name), f);
      SeenIn(prev, f.name);
      SeenIn(next, f.name);
      NotAmong(current, n);
      DifferenceGrows(Changes(current[..n], prev), Names(current[..n]), f.name, Classify(Prior(prev, f.name), f).1,
                      ViewOf(prev), ViewOf(next));
    }
  }

  lemma NoDifference(before: View, after: View)
    ensures IsDifference([], {}, before, after)
  {
  }

  lemma SoundPrior(prev: Status, name: string)
    requires Sound(prev)
    ensures SoundEntry(Prior(prev, name))
  {
  }

  lemma SeenIn(s: Status, name: string)
    ensures Known(ViewOf(s), name) == Prior(s, name).value
  {
  }

  lemma NotAmong(current: seq<Field>, n: nat)
    requires n < |current| && Distinct(current)
    ensures current[n].name !in Names(current[..n])
  {
  }

  lemma DifferenceGrows(changes: seq<Change>, fields: set<string>, name: string, c: Option<Change>, before: View, after: View)
    requires IsDifference(changes, fields, before, after) && name !in fields
    requires c.Some? <==> Known(before, name) != Known(after, name)
    requires c.Some? ==> c.value.field == name && Shows(c.value, before, after)
    ensures IsDifference(changes + (if c.Some? then [c.value] else []), fields + {name}, before, after)
  {
    hide Known, Shows;
    if c.Some? {
      var more := changes + [c.value];
      forall f | f in fields + {name} && Known(before, f) != Known(after, f)
        ensures exists i :: 0 <= i < |more| && more[i].field == f
      {
        if f == name {
          assert more[|changes|].field == f;
        } else {
          var i :| 0 <= i < |changes| && changes[i].field == f;
          assert more[i].field == f;
        }
      }
    } else {
      assert changes + [] == changes;
    }
  }

  // --------------------------------------------------------------- one field over time

  function FieldAfter(name: string, rs: seq<Option<string>>): Entry {
    if rs == [] then Unseen
    else Classify(FieldAfter(name, rs[..|rs| - 1]), Field(name, rs[|rs| - 1])).0
  }

  // The change the newest read gives rise to.
  function NewestChange(name: string, rs: seq<Option<string>>): Option<Change>
    requires rs != []
  {
    Classify(FieldAfter(name, rs[..|rs| - 1]), Field(name, rs[|rs| - 1])).1
  }

  // Read n places from the end.
  predicate Answered(rs: seq<Option<string>>, n: nat) {
    n < |rs| && rs[|rs| - 1 - n].Some?
  }

  // The status of a field depends on its last two reads, and on whether it ever answered.
  lemma {:induction false} StatusInClosedForm(name: string, rs: seq<Option<string>>)
    ensures FieldAfter(name, rs) ==
      if Answered(rs, 0) then Entry(rs[|rs| - 1], Present, 0)
      else if Answered(rs, 1) then Entry(rs[|rs| - 2], Unknown, 1)
      else if exists i :: 0 <= i < |rs| && rs[i].Some? then Entry(None, Removed, 2)
      else Unseen
  {
    if rs != [] {
      var n := |rs| - 1;
      var before := rs[..n];
      StatusInClosedForm(name, before);
      assert Answered(before, 0) <==> Answered(rs, 1);
      assert Answered(before, 1) <==> Answered(rs, 2);
      if i :| 0 <= i < n && before[i].Some? {
        assert rs[i].Some?;
      }
    }
  }

  // A field is reported removed by exactly the second of two reads in a row that gave
  // nothing after one that gave something.
  lemma RemovedAfterTwoMisses(name: string, rs: seq<Option<string>>)
    requires rs != []
    ensures (NewestChange(name, rs).Some? && NewestChange(name, rs).value.kind == Gone)
      <==> (!Answered(rs, 0) && |rs| >= 3 && !Answered(rs, 1) && Answered(rs, 2))
  {
    var before := rs[..|rs| - 1];
    StatusInClosedForm(name, before);
    assert Answered(before, 0) <==> Answered(rs, 1);
    assert Answered(before, 1) <==> Answered(rs, 2);
  }

  // Exactly: a change is a removal when the field stopped answering, a discovery when it
  // answers for the first time, an addition when it answers after two misses or more, and a
  // modification when it answers otherwise with another value.
  lemma KindTellsHistory(name: string, rs: seq<Option<string>>)
    requires rs != [] && NewestChange(name, rs).Some?
    ensures var kind, before := NewestChange(name, rs).value.kind, rs[..|rs| - 1];
      && (kind == Gone <==> !Answered(rs, 0))
      && (kind == Discovered <==> Answered(rs, 0) && forall i :: 0 <= i < |before| ==> before[i] == None)
      && (kind == Added <==> Answered(rs, 0) && !Answered(rs, 1) && !Answered(rs, 2)
                             && exists i :: 0 <= i < |before| && before[i].Some?)
      && (kind == Modified <==> Answered(rs, 0) && (Answered(rs, 1) || Answered(rs, 2)))
  {
    var before := rs[..|rs| - 1];
    StatusInClosedForm(name, before);
    assert Answered(before, 0) <==> Answered(rs, 1);
    assert Answered(before, 1) <==> Answered(rs, 2);
    assert Answered(rs, 1) ==> before[|rs| - 2].Some?;
    assert Answered(rs, 2) ==> before[|rs| - 3].Some?;
  }
}
