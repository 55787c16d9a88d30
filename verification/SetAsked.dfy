/** What a set leaves behind, told without the comparison that decides whether there is
    anything to do: the list that was asked for, up to what Python's == does not tell apart. */
module SetAsked {
  import opened Text
  import opened YamlFlow
  import opened YamlSection
  import opened SectionEdits
  import opened ConfigFile
  import opened ConfigLocality

  // --------------------------------------------------------------- what a value stands for

  // A truth value stands for its number, and a dict has no order.
  datatype Meaning =
    | Nothing
    | Number(n: int)
    | Chars(s: string)
    | Sequence(items: seq<Meaning>)
    | Table(entries: map<Meaning, Meaning>)

  function MeaningOf(v: Value): Meaning
    decreases v, 1
  {
    match v
    case Null => Nothing
    case Bool(b) => Number(if b then 1 else 0)
    case Int(n) => Number(n)
    case Str(s) => Chars(s)
    case List(items) => Sequence(Meanings(items))
    case Dict(entries) => Table(AsMap(Pairs(entries)))
  }

  function Meanings(items: seq<Value>): (r: seq<Meaning>)
    ensures |r| == |items| && forall i :: 0 <= i < |items| ==> r[i] == MeaningOf(items[i])
    decreases items, 0
  {
    if items == [] then [] else [MeaningOf(items[0])] + Meanings(items[1..])
  }

  function PairOf(e: Entry): (Meaning, Meaning)
    decreases e, 0
  {
    (MeaningOf(e.key), MeaningOf(e.value))
  }

  function Pairs(entries: seq<Entry>): (r: seq<(Meaning, Meaning)>)
    ensures |r| == |entries| && forall i :: 0 <= i < |entries| ==> r[i] == PairOf(entries[i])
    decreases entries, 0
  {
    if entries == [] then [] else [PairOf(entries[0])] + Pairs(entries[1..])
  }

  function AsMap<K, V>(ps: seq<(K, V)>): map<K, V> {
    if ps == [] then map[] else AsMap(ps[..|ps| - 1])[ps[|ps| - 1].0 := ps[|ps| - 1].1]
  }

  ghost predicate DistinctKeys<K, V>(ps: seq<(K, V)>) {
    forall i, j :: 0 <= i < j < |ps| ==> ps[i].0 != ps[j].0
  }

  // No dict in the value has a key twice.
  ghost predicate Proper(v: Value) {
    match v
    case List(items) => forall i :: 0 <= i < |items| ==> Proper(items[i])
    case Dict(entries) =>
      DistinctKeys(Pairs(entries)) && forall i :: 0 <= i < |entries| ==> Proper(entries[i].key) && Proper(entries[i].value)
    case _ => true
  }

  function FieldPairs(m: Mapping): (r: seq<(string, Meaning)>)
    ensures |r| == |m| && forall i :: 0 <= i < |m| ==> r[i] == (m[i].key, MeaningOf(m[i].value))
  {
    if m == [] then [] else [(m[0].key, MeaningOf(m[0].value))] + FieldPairs(m[1..])
  }

  // A list item, from its keys to what their values stand for.
  function RecordOf(m: Mapping): map<string, Meaning> {
    AsMap(FieldPairs(m))
  }

  function Records(items: seq<Mapping>): (r: seq<map<string, Meaning>>)
    ensures |r| == |items| && forall i :: 0 <= i < |items| ==> r[i] == RecordOf(items[i])
  {
    if items == [] then [] else [RecordOf(items[0])] + Records(items[1..])
  }

  ghost predicate ProperItems(items: seq<Mapping>) {
    forall i :: 0 <= i < |items| ==>
      DistinctKeys(FieldPairs(items[i])) && forall j :: 0 <= j < |items[i]| ==> Proper(items[i][j].value)
  }

  // --------------------------------------------------------------- == is equality of that

  ghost predicate HasKey<K, V>(ps: seq<(K, V)>, k: K) {
    exists i :: 0 <= i < |ps| && ps[i].0 == k
  }

  lemma HasKeySnoc<K, V>(ps: seq<(K, V)>, k: K)
    requires ps != []
    ensures HasKey(ps, k) <==> HasKey(ps[..|ps| - 1], k) || ps[|ps| - 1].0 == k
    ensures DistinctKeys(ps) ==> DistinctKeys(ps[..|ps| - 1]) && !HasKey(ps[..|ps| - 1], ps[|ps| - 1].0)
  {
    var n := |ps| - 1;
    if i :| 0 <= i < n && ps[..n][i].0 == k {
      assert ps[i].0 == k;
    }
    if i :| 0 <= i < |ps| && ps[i].0 == k && i < n {
      assert ps[..n][i].0 == k;
    }
    if ps[n].0 == k {
      assert HasKey(ps, k);
    }
  }

  lemma {:induction false} AsMapKeys<K, V>(ps: seq<(K, V)>, k: K)
    ensures k in AsMap(ps) <==> HasKey(ps, k)
  {
    hide HasKey;
    if ps != [] {
      AsMapKeys(ps[..|ps| - 1], k);
      HasKeySnoc(ps, k);
    } else {
      NoKey<K, V>(k);
    }
  }

  lemma NoKey<K, V>(k: K)
    ensures var none: seq<(K, V)> := []; !HasKey(none, k)
  {
  }

  lemma {:induction false} AsMapSize<K, V>(ps: seq<(K, V)>)
    requires DistinctKeys(ps)
    ensures |AsMap(ps)| == |ps|
  {
    hide DistinctKeys, HasKey;
    if ps != [] {
      var n := |ps| - 1;
      HasKeySnoc(ps, ps[n].0);
      AsMapSize(ps[..n]);
      AsMapKeys(ps[..n], ps[n].0);
      var before, after := AsMap(ps[..n]), AsMap(ps);
      assert after.Keys == before.Keys + {ps[n].0};
      assert |after.Keys| == |after| && |before.Keys| == |before|;
    }
  }

  lemma {:induction false} AsMapValue<K, V>(ps: seq<(K, V)>, i: nat)
    requires DistinctKeys(ps) && i < |ps|
    ensures ps[i].0 in AsMap(ps) && AsMap(ps)[ps[i].0] == ps[i].1
  {
    var n := |ps| - 1;
    if i < n {
      AsMapValue(ps[..n], i);
      assert ps[i].0 != ps[n].0;
    }
  }

  ghost predicate Among<K, V>(p: (K, V), qs: seq<(K, V)>) {
    exists j :: 0 <= j < |qs| && p == qs[j]
  }

  ghost predicate Within<K, V>(ps: seq<(K, V)>, qs: seq<(K, V)>) {
    forall i :: 0 <= i < |ps| ==> Among(ps[i], qs)
  }

  // As many pairs, each of them among the others: the same map.
  lemma SameMap<K, V>(ps: seq<(K, V)>, qs: seq<(K, V)>)
    requires DistinctKeys(ps) && DistinctKeys(qs)
    ensures AsMap(ps) == AsMap(qs) <==> |ps| == |qs| && Within(ps, qs)
  {
    hide AsMap, DistinctKeys;
    var m, n := AsMap(ps), AsMap(qs);
    AsMapSize(ps);
    AsMapSize(qs);
    if m == n {
      forall i | 0 <= i < |ps|
        ensures Among(ps[i], qs)
      {
        AsMapValue(ps, i);
        AsMapKeys(qs, ps[i].0);
        var j :| 0 <= j < |qs| && qs[j].0 == ps[i].0;
        AsMapValue(qs, j);
        assert ps[i] == (ps[i].0, ps[i].1) && qs[j] == (qs[j].0, qs[j].1);
        assert ps[i] == qs[j];
      }
    } else if |ps| == |qs| && Within(ps, qs) {
      forall k | k in m
        ensures k in n && m[k] == n[k]
      {
        AsMapKeys(ps, k);
        var i :| 0 <= i < |ps| && ps[i].0 == k;
        assert Among(ps[i], qs);
        var j :| 0 <= j < |qs| && ps[i] == qs[j];
        AsMapValue(ps, i);
        AsMapValue(qs, j);
      }
      SubsetOfSize(m.Keys, n.Keys);
      assert false;
    }
  }

  lemma SubsetOfSize<K>(a: set<K>, b: set<K>)
    requires a <= b && |a| == |b|
    ensures a == b
  {
    assert |b - a| == |b| - |a|;
  }

  lemma {:induction false} EqualExactly(v: Value, w: Value)
    requires Proper(v) && Proper(w)
    ensures PyEqual(v, w) <==> MeaningOf(v) == MeaningOf(w)
    decreases v
  {
    hide AsMap, DistinctKeys;
    if v.List? && w.List? {
      if |v.items| == |w.items| {
        forall i | 0 <= i < |v.items|
          ensures PyEqual(v.items[i], w.items[i]) <==> MeaningOf(v.items[i]) == MeaningOf(w.items[i])
        {
          EqualExactly(v.items[i], w.items[i]);
        }
        assert Meanings(v.items) == Meanings(w.items) <==> forall i :: 0 <= i < |v.items| ==> Meanings(v.items)[i] == Meanings(w.items)[i];
      }
    } else if v.Dict? && w.Dict? {
      forall i, j | 0 <= i < |v.entries| && 0 <= j < |w.entries|
        ensures PyEqual(v.entries[i].key, w.entries[j].key) && PyEqual(v.entries[i].value, w.entries[j].value)
           <==> Pairs(v.entries)[i] == Pairs(w.entries)[j]
      {
        EqualExactly(v.entries[i].key, w.entries[j].key);
        EqualExactly(v.entries[i].value, w.entries[j].value);
      }
      SameMap(Pairs(v.entries), Pairs(w.entries));
    }
  }

  lemma SameMappingExactly(m: Mapping, n: Mapping)
    requires ProperItems([m]) && ProperItems([n])
    ensures SameMapping(m, n) <==> RecordOf(m) == RecordOf(n)
  {
    hide AsMap, DistinctKeys, PyEqual, Proper;
    assert [m][0] == m && [n][0] == n;
    forall i, j | 0 <= i < |m| && 0 <= j < |n|
      ensures m[i].key == n[j].key && PyEqual(m[i].value, n[j].value) <==> FieldPairs(m)[i] == FieldPairs(n)[j]
    {
      EqualExactly(m[i].value, n[j].value);
    }
    SameMap(FieldPairs(m), FieldPairs(n));
  }

  lemma SameListExactly(a: seq<Mapping>, b: seq<Mapping>)
    requires ProperItems(a) && ProperItems(b)
    ensures SameList(a, b) <==> Records(a) == Records(b)
  {
    hide RecordOf, SameMapping, Proper, DistinctKeys;
    if |a| == |b| {
      forall i | 0 <= i < |a|
        ensures SameMapping(a[i], b[i]) <==> RecordOf(a[i]) == RecordOf(b[i])
      {
        SameMappingExactly(a[i], b[i]);
      }
      assert Records(a) == Records(b) <==> forall i :: 0 <= i < |a| ==> Records(a)[i] == Records(b)[i];
    }
  }

  // What a value stands for tells nulls, texts and all integers but 0 and 1 exactly.
  lemma MeaningIsExact(v: Value, w: Value)
    requires MeaningOf(v) == MeaningOf(w) && (v.Null? || v.Str? || (v.Int? && v.n !in {0, 1}))
    ensures v == w
  {
  }

  // --------------------------------------------------------------- what a set leaves

  // The file holds the list as `[]`.
  predicate SaysEmptyList(lines: Lines, section: string) {
    match ViewOf(lines, section)
    case Absent => false
    case Present(header, body, _) => InlineValue(header) == "[]" && forall l :: l in body ==> Ignored(l)
  }

  // The memory holds what is asked for, and so does the file in its final form.
  predicate HeldBefore(st: State, s: string, entries: seq<Mapping>) {
    s in st.attrs && Records(st.attrs[s]) == Records(entries) && (entries != [] || SaysEmptyList(st.lines, s))
  }

  lemma NothingToDoExactly(st: State, s: string, entries: seq<Mapping>)
    requires ProperItems(Existing(st.attrs, s)) && ProperItems(entries)
    ensures AlreadySet(st, s, entries) <==> HeldBefore(st, s, entries)
  {
    hide SameList, Records, ProperItems, HeaderIndex, BlockEnd, InlineValue, Ignored;
    if s in st.attrs {
      SameListExactly(st.attrs[s], entries);
    }
  }

  // After any set the memory holds the list that was asked for, item by item with the same
  // keys and values; and after a fitting one the block reads as that list too.
  lemma SetHoldsWhatWasAsked(st: State, s: string, entries: seq<Mapping>)
    requires ProperItems(Existing(st.attrs, s)) && ProperItems(entries)
    ensures var next := Step(st, Set(s, entries));
      && s in next.attrs && Records(next.attrs[s]) == Records(entries)
      && (forall t :: t != s ==> Existing(next.attrs, t) == Existing(st.attrs, t))
      && (SectionName(s) && InSync(st, s) && Writable(Set(s, entries)) && Fits(st, Set(s, entries)) ==>
            var read := ReadView(ViewOf(next.lines, s));
            read.Some? && Records(read.value) == Records(entries))
    ensures Step(st, Set(s, entries)) == st || !HeldBefore(st, s, entries)
  {
    hide SameList, Records, ProperItems, SetLines, HeldBefore, ReadView, Fits, HeaderIndex, BlockEnd, SectionName, Writable;
    NothingToDoExactly(st, s, entries);
    if AlreadySet(st, s, entries) {
      SameListExactly(st.attrs[s], entries);
    }
    if SectionName(s) && InSync(st, s) && Writable(Set(s, entries)) && Fits(st, Set(s, entries)) {
      StepSync(st, Set(s, entries));
      SetIsPresent(st, s, entries);
    }
  }

  lemma SetIsPresent(st: State, s: string, entries: seq<Mapping>)
    requires SectionName(s) && InSync(st, s)
    ensures HeaderIndex(Step(st, Set(s, entries)).lines, s) < |Step(st, Set(s, entries)).lines|
  {
    hide SectionName, HeaderIndex, BlockEnd, Cut, Joined, SetLines, NewHeader, RenderItems, Padding, ReadView, SameMapping;
    if HeaderIndex(st.lines, s) < |st.lines| {
      SectionsStay(st, Set(s, entries), s);
    } else if !AlreadySet(st, s, entries) {
      AddedAtEnd(st.lines, s, entries);
      JoinedIsFound(s, st.lines + Padding(st.lines), NewHeader(s, "", entries == []), RenderItems(entries, 2, 4), []);
      JoinedLength(st.lines + Padding(st.lines), NewHeader(s, "", entries == []), RenderItems(entries, 2, 4), []);
    }
  }

  // The same in one, for a caller whose dicts are proper.
  lemma SetAsAsked(st: State, s: string, entries: seq<Mapping>)
    ensures ProperItems(Existing(st.attrs, s)) && ProperItems(entries) ==>
      && s in Step(st, Set(s, entries)).attrs && Records(Step(st, Set(s, entries)).attrs[s]) == Records(entries)
      && (AlreadySet(st, s, entries) <==> HeldBefore(st, s, entries))
  {
    hide ProperItems, Records, AlreadySet, HeldBefore, Step, Existing;
    if ProperItems(Existing(st.attrs, s)) && ProperItems(entries) {
      SetHoldsWhatWasAsked(st, s, entries);
      NothingToDoExactly(st, s, entries);
    }
  }
}
