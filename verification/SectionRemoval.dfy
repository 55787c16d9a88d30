/** Removing the items that match a set of `key: text` pairs. The editor decides in
    the file by a crude text scan and in memory by comparing str() of the values;
    this module says exactly when the two agree. */
module SectionRemoval {
  import opened Text
  import opened YamlFlow
  import opened YamlPlain
  import opened YamlSection
  import opened SectionReadBack
  import opened SectionEdits

  // ------------------------------------------------------ the two comparisons

  // What the scan makes of a printed value.
  function Crude(v: Value): string {
    StripQuotes(Strip(Print(v)))
  }

  predicate Quote(c: char) {
    c == '"' || c == '\''
  }

  predicate ScannableText(s: string) {
    && '"' !in s && '\\' !in s
    && (s != "" ==> s[0] != '\'' && s[|s| - 1] != '\'')
  }

  // The values on which the scan sees what memory sees.
  predicate ScansTrue(v: Value) {
    v.Int? || (v.Str? && ScannableText(v.s))
  }

  lemma {:induction false} StripQuotesCore(a: string, core: string, b: string)
    requires (forall c :: c in a ==> Quote(c)) && (forall c :: c in b ==> Quote(c))
    requires core != "" ==> !Quote(core[0]) && !Quote(core[|core| - 1])
    ensures StripQuotes(a + core + b) == core
    decreases |a| + |b|
  {
    var s := a + core + b;
    if a != "" {
      assert a[0] in a;
      assert s[1..] == a[1..] + core + b;
      StripQuotesCore(a[1..], core, b);
    } else if b != "" {
      assert b[|b| - 1] in b;
      assert b[0] in b;
      if core == "" {
        assert s == b && s[1..] == "" + core + b[1..];
        StripQuotesCore("", core, b[1..]);
      } else {
        assert s[..|s| - 1] == "" + core + b[..|b| - 1];
        StripQuotesCore("", core, b[..|b| - 1]);
      }
    } else {
      assert s == core;
    }
  }

  lemma {:induction false} StripQuotesEnds(s: string)
    ensures var r := StripQuotes(s); r != "" ==> !Quote(r[0]) && !Quote(r[|r| - 1])
  {
    if s != "" && Quote(s[0]) {
      StripQuotesEnds(s[1..]);
    } else if s != "" && Quote(s[|s| - 1]) {
      StripQuotesEnds(s[..|s| - 1]);
    }
  }

  lemma {:induction false} EscapeGrows(s: string)
    ensures |EscapeEach(s)| >= |s|
    ensures |EscapeEach(s)| == |s| <==> '"' !in s && '\\' !in s
    ensures '"' !in s && '\\' !in s ==> EscapeEach(s) == s
    ensures s != "" ==> EscapeEach(s)[|EscapeEach(s)| - 1] == s[|s| - 1]
    ensures s != "" && s[0] != '"' ==> EscapeEach(s)[0] == s[0]
  {
    if s != "" {
      EscapeGrows(s[1..]);
      assert s == [s[0]] + s[1..];
      assert s[1..] == "" ==> EscapeEach(s[1..]) == "";
    }
  }

  // Exactly the values on which the text scan and str() agree.
  lemma CrudeAgreesExactly(v: Value)
    requires Scalar(v)
    ensures Crude(v) == PyStr(v) <==> ScansTrue(v)
  {
    match v {
      case Null => assert Print(v) == "null"; CrudeOfWord("null");
      case Bool(b) => CrudeOfWord(if b then "true" else "false");
      case Int(n) => IntReadsBack(n); CrudeOfWord(PrintInt(n));
      case Str(s) => CrudeOfString(s);
    }
  }

  lemma CrudeOfWord(t: string)
    requires t != "" && forall c :: c in t ==> IsPlainChar(c)
    ensures StripQuotes(Strip(t)) == t
  {
    assert t[0] in t && t[|t| - 1] in t;
    StripOfStripped(t);
    StripQuotesCore("", t, "");
    assert "" + t + "" == t;
  }

  lemma CrudeOfString(s: string)
    ensures Crude(Str(s)) == s <==> ScannableText(s)
  {
    hide LStrip, RStrip, Strip, StripQuotes, Escape;
    EscapeIsPerCharacter(s);
    var t := EscapeEach(s);
    assert Print(Str(s)) == "\"" + t + "\"";
    StripOfStripped("\"" + t + "\"");
    EscapeGrows(s);
    if s != "" && (Quote(s[0]) || Quote(s[|s| - 1])) {
      StripQuotesEnds("\"" + t + "\"");
      assert s[0] in s && s[|s| - 1] in s;
    } else {
      StripQuotesCore("\"", t, "\"");
      assert (t == s) <==> ('"' !in s && '\\' !in s);
    }
  }

  // ------------------------------------------------------- one item's fields

  // A dict built from the fields in order: the last one wins.
  function CrudeMap(m: Mapping): map<string, string> {
    if m == [] then map[]
    else CrudeMap(m[..|m| - 1])[m[|m| - 1].key := Crude(m[|m| - 1].value)]
  }

  function FieldMap(m: Mapping): map<string, Value> {
    if m == [] then map[]
    else FieldMap(m[..|m| - 1])[m[|m| - 1].key := m[|m| - 1].value]
  }

  // The wanted keys of every item hold scalars.
  predicate Comparable(wanted: map<string, string>, m: Mapping) {
    forall k :: k in wanted && k in FieldMap(m) ==> Scalar(FieldMap(m)[k])
  }

  // str(item.get(k, "")) == str(v) for every pair
  predicate ItemMatches(wanted: map<string, string>, m: Mapping)
    requires Comparable(wanted, m)
  {
    forall k :: k in wanted ==> (if k in FieldMap(m) then PyStr(FieldMap(m)[k]) else "") == wanted[k]
  }

  predicate ScansTrueFor(wanted: map<string, string>, m: Mapping) {
    forall k :: k in wanted && k in FieldMap(m) ==> ScansTrue(FieldMap(m)[k])
  }

  lemma {:induction false} MapsAlign(m: Mapping)
    ensures CrudeMap(m).Keys == FieldMap(m).Keys
    ensures forall k :: k in FieldMap(m) ==> CrudeMap(m)[k] == Crude(FieldMap(m)[k])
  {
    hide Crude;
    if m != [] {
      MapsAlign(m[..|m| - 1]);
    }
  }

  // How the file judges an item.
  predicate CrudeMatches(wanted: map<string, string>, m: Mapping) {
    FieldsMatch(wanted, CrudeMap(m))
  }

  // The item is judged the same in the file and in memory.
  lemma JudgedAlike(wanted: map<string, string>, m: Mapping)
    requires ScansTrueFor(wanted, m)
    ensures Comparable(wanted, m)
    ensures ItemMatches(wanted, m) <==> CrudeMatches(wanted, m)
  {
    hide Crude, PyStr, CrudeMap, FieldMap;
    MapsAlign(m);
    forall k | k in wanted && k in FieldMap(m)
      ensures Scalar(FieldMap(m)[k]) && Crude(FieldMap(m)[k]) == PyStr(FieldMap(m)[k])
    {
      CrudeAgreesExactly(FieldMap(m)[k]);
    }
  }

  // -------------------------------------------------------- scanning an item

  // The line is in the form the editor writes.
  predicate Tidy(d: nat, line: string) {
    match ShapeOf(d, line)
    case Item(t) => ReadField(t).Some? ==> t == FieldText(ReadField(t).value)
    case Subkey(t) => ReadField(t).Some? ==> t == FieldText(ReadField(t).value)
    case _ => true
  }

  lemma ScanSkips(fields: map<string, string>, line: string)
    requires Ignored(line)
    ensures ScanLine(fields, line) == fields
  {
    if Blank(line) {
      hide IsSpace, LStrip, RStrip, Strip;
      assert IndexOf("", ':') == 0;
    } else {
      hide LStrip, RStrip, StripQuotes, IndexOf;
      assert LStrip(line)[0] == LStrip(line)[..1][0] == '#';
      RStripStart(LStrip(line));
    }
  }

  lemma StripLine(pad: nat, text: string)
    requires Stripped(text)
    ensures Strip(Spaces(pad) + text + "\n") == text
  {
    StripCore(Spaces(pad), text, "\n");
  }

  lemma PrintedStripped(v: Value)
    ensures Stripped(Print(v)) && Print(v) != ""
  {
    if v.Int? {
      IntReadsBack(v.n);
      var t := Print(v);
      assert t[0] in t && t[|t| - 1] in t;
    }
  }

  lemma ScanText(fields: map<string, string>, f: Field)
    requires PlainKey(f.key)
    ensures var text := FieldText(f);
            && Stripped(text) && text != "" && text[0] != '-' && text[0] != '#'
            && IndexOf(text, ':') == |f.key| < |text|
            && Strip(text[..|f.key|]) == f.key
            && StripQuotes(Strip(text[|f.key| + 1..])) == Crude(f.value)
  {
    var text := FieldText(f);
    assert forall i :: 0 <= i < |f.key| ==> f.key[i] != ':';
    assert text[..|f.key|] == f.key;
    IndexOfIs(text, ':', |f.key|);
    StripOfStripped(f.key);
    PrintedStripped(f.value);
    assert text[|f.key| + 1..] == " " + Print(f.value) + "";
    StripCore(" ", Print(f.value), "");
    assert text[|text| - 1] == Print(f.value)[|Print(f.value)| - 1];
    StripOfStripped(Print(f.value));
  }

  lemma ScanField(fields: map<string, string>, pad: nat, dashed: bool, f: Field)
    requires PlainKey(f.key)
    ensures ScanLine(fields, Spaces(pad) + (if dashed then "- " else "") + FieldText(f) + "\n")
         == fields[f.key := Crude(f.value)]
  {
    hide FieldText, Strip, StripQuotes, Crude, Spaces, IndexOf, PlainKey;
    ScanText(fields, f);
    var t := FieldText(f);
    if dashed {
      var text := "- " + t;
      StripLine(pad, text);
      assert Spaces(pad) + "- " + t + "\n" == Spaces(pad) + text + "\n";
      assert text[..2] == "- " && text[2..] == t;
    } else {
      StripLine(pad, t);
      assert Spaces(pad) + "" + t + "\n" == Spaces(pad) + t + "\n";
      assert |t| >= 2 ==> t[..2][0] == t[0];
    }
  }

  // The item that a dash line opens, and the field that a line below it adds.
  function HeadOf(d: nat, line: string): Mapping {
    if ShapeOf(d, line).Item? then
      match ReadItemHead(ShapeOf(d, line).text)
      case None => []
      case Some(m) => m
    else []
  }

  function TailOf(d: nat, line: string): Mapping {
    if ShapeOf(d, line).Subkey? then
      match ReadField(ShapeOf(d, line).text)
      case None => []
      case Some(f) => [f]
    else []
  }

  lemma HeadScanned(d: nat, line: string, before: seq<Mapping>)
    requires ItemStart(d, line) && Tidy(d, line) && ReadLine(d, Some(before), line).Some?
    ensures ReadLine(d, Some(before), line) == Some(before + [HeadOf(d, line)])
    ensures ScanLine(map[], line) == CrudeMap(HeadOf(d, line))
  {
    hide ScanLine, Crude, FieldText, ReadField, Ignored;
    if Ignored(line) { IgnoredIsNoItemStart(d, line); }
    var t := ShapeOf(d, line).text;
    assert line == Spaces(d) + "- " + t + "\n";
    if t == "{}" {
      ScanEmptyItem(d, map[]);
    } else {
      var f := ReadField(t).value;
      ReadFieldKey(t);
      ScanField(map[], d, true, f);
      assert [f][..0] == [];
    }
  }

  lemma ShapeOfOther(d: nat, line: string)
    requires !ItemStart(d, line)
    ensures !ShapeOf(d, line).Item?
  {
    hide Ignored;
  }

  lemma TailScanned(d: nat, line: string, before: seq<Mapping>, m: Mapping, fields: map<string, string>)
    requires !ItemStart(d, line) && Tidy(d, line) && ReadLine(d, Some(before + [m]), line).Some?
    ensures ReadLine(d, Some(before + [m]), line) == Some(before + [m + TailOf(d, line)])
    ensures ScanLine(fields, line) == fields + CrudeMap(TailOf(d, line))
  {
    hide ScanLine, Crude, FieldText, ReadField, Ignored, ItemStart, PlainKey, Resolved;
    ShapeOfOther(d, line);
    var all := before + [m];
    assert all[..|all| - 1] == before;
    if ShapeOf(d, line).Subkey? {
      var t := ShapeOf(d, line).text;
      assert line == Spaces(d + 2) + "" + t + "\n";
      var f := ReadField(t).value;
      ReadFieldKey(t);
      ScanField(fields, d + 2, false, f);
      assert [f][..0] == [];
    } else {
      ScanSkips(fields, line);
      assert m + [] == m;
    }
  }

  lemma ReadFieldKey(t: string)
    requires ReadField(t).Some?
    ensures PlainKey(ReadField(t).value.key)
  {
  }

  lemma ScanEmptyItem(d: nat, fields: map<string, string>)
    ensures ScanLine(fields, Spaces(d) + "- " + "{}" + "\n") == fields
  {
    StripLine(d, "- {}");
    assert Spaces(d) + "- " + "{}" + "\n" == Spaces(d) + "- {}" + "\n";
    assert "- {}"[2..] == "{}";
    IndexOfAbsent("{}", ':');
  }

  // ------------------------------------------------------------ whole items

  // The item that starts on the first line of a chunk.
  function ItemOf(d: nat, chunk: Lines): Mapping
    requires chunk != []
  {
    if |chunk| == 1 then HeadOf(d, chunk[0])
    else ItemOf(d, chunk[..|chunk| - 1]) + TailOf(d, chunk[|chunk| - 1])
  }

  lemma {:induction false} ChunkScanned(d: nat, chunk: Lines, before: seq<Mapping>)
    requires chunk != [] && ItemStart(d, chunk[0])
    requires forall j :: 1 <= j < |chunk| ==> !ItemStart(d, chunk[j])
    requires forall l :: l in chunk ==> Tidy(d, l)
    requires ReadLines(d, Some(before), chunk).Some?
    ensures ReadLines(d, Some(before), chunk) == Some(before + [ItemOf(d, chunk)])
    ensures Scan(chunk) == CrudeMap(ItemOf(d, chunk))
  {
    hide ItemStart, Tidy, ReadLine, ScanLine, HeadOf, TailOf;
    var n := |chunk| - 1;
    if n == 0 {
      assert chunk[1..] == [] && chunk[..0] == [];
      HeadScanned(d, chunk[0], before);
    } else {
      assert chunk == chunk[..n] + [chunk[n]];
      ReadConcat(d, Some(before), chunk[..n], [chunk[n]]);
      var so := ReadLines(d, Some(before), chunk[..n]);
      if so.None? { ReadNothing(d, [chunk[n]]); }
      assert forall l :: l in chunk[..n] ==> l in chunk;
      ChunkScanned(d, chunk[..n], before);
      assert [chunk[n]][1..] == [];
      assert ReadLines(d, so, [chunk[n]]) == ReadLine(d, so, chunk[n]);
      var m := ItemOf(d, chunk[..n]);
      TailScanned(d, chunk[n], before, m, Scan(chunk[..n]));
      CrudeMapConcat(m, TailOf(d, chunk[n]));
    }
  }

  lemma {:induction false} CrudeMapConcat(a: Mapping, b: Mapping)
    ensures CrudeMap(a + b) == CrudeMap(a) + CrudeMap(b)
  {
    hide Crude;
    if b == [] {
      assert a + b == a;
    } else {
      assert (a + b)[..|a + b| - 1] == a + b[..|b| - 1];
      CrudeMapConcat(a, b[..|b| - 1]);
    }
  }

  // What the comprehension over the in-memory list keeps.
  function Unmatched(wanted: map<string, string>, items: seq<Mapping>): seq<Mapping>
    requires forall m :: m in items ==> Comparable(wanted, m)
  {
    if items == [] then []
    else if ItemMatches(wanted, items[0]) then Unmatched(wanted, items[1..])
    else [items[0]] + Unmatched(wanted, items[1..])
  }

  // What the file keeps.
  function CrudeUnmatched(wanted: map<string, string>, items: seq<Mapping>): seq<Mapping> {
    if items == [] then []
    else if CrudeMatches(wanted, items[0]) then CrudeUnmatched(wanted, items[1..])
    else [items[0]] + CrudeUnmatched(wanted, items[1..])
  }

  lemma {:induction false} KeptAlike(wanted: map<string, string>, items: seq<Mapping>)
    requires forall m :: m in items ==> ScansTrueFor(wanted, m)
    ensures forall m :: m in items ==> Comparable(wanted, m)
    ensures CrudeUnmatched(wanted, items) == Unmatched(wanted, items)
  {
    hide ScansTrueFor, Comparable, ItemMatches, CrudeMatches;
    forall m | m in items ensures Comparable(wanted, m) { JudgedAlike(wanted, m); }
    if items != [] {
      JudgedAlike(wanted, items[0]);
      KeptAlike(wanted, items[1..]);
    }
  }

  lemma {:induction false} ChunkFacts(d: nat, body: Lines)
    requires body != []
    ensures var n := ChunkLength(d, body);
            && (forall j :: 1 <= j < n ==> !ItemStart(d, body[j]))
            && (n < |body| ==> ItemStart(d, body[n]))
  {
    hide ItemStart;
    if |body| > 1 && !ItemStart(d, body[1]) {
      ChunkFacts(d, body[1..]);
      var n := ChunkLength(d, body[1..]);
      assert forall j :: 2 <= j < n + 1 ==> body[j] == body[1..][j - 1];
    }
  }

  // The lines before the first dash line of a block say nothing.
  predicate QuietUntilItem(d: nat, body: Lines) {
    body == [] || ItemStart(d, body[0]) || (Ignored(body[0]) && QuietUntilItem(d, body[1..]))
  }

  function Lift(a: seq<Mapping>, so: Option<seq<Mapping>>): Option<seq<Mapping>> {
    match so
    case None => None
    case Some(items) => Some(a + items)
  }

  lemma LiftLine(d: nat, a: seq<Mapping>, b: seq<Mapping>, line: string)
    requires b != [] || ItemStart(d, line) || Ignored(line)
    ensures ReadLine(d, Some(a + b), line) == Lift(a, ReadLine(d, Some(b), line))
    ensures ReadLine(d, Some(b), line).Some? && (b != [] || !Ignored(line))
        ==> ReadLine(d, Some(b), line).value != []
  {
    hide ReadItemHead, ReadField, Ignored, ItemStart;
    if ItemStart(d, line) && Ignored(line) { IgnoredIsNoItemStart(d, line); }
    ShapeOfItemStart(d, line);
    match ShapeOf(d, line) {
      case Item(t) =>
        if ReadItemHead(t).Some? {
          assert a + b + [ReadItemHead(t).value] == a + (b + [ReadItemHead(t).value]);
        }
      case Subkey(t) =>
        var all := a + b;
        assert all[|all| - 1] == b[|b| - 1];
        if ReadField(t).Some? {
          var last := [b[|b| - 1] + [ReadField(t).value]];
          assert all[..|all| - 1] + last == a + (b[..|b| - 1] + last);
        }
      case _ =>
    }
  }

  lemma ShapeOfItemStart(d: nat, line: string)
    ensures ItemStart(d, line) || Ignored(line) ==> !ShapeOf(d, line).Subkey?
  {
    hide Ignored;
  }

  // Reading only ever adds to the list or to its last item, so what a block adds
  // does not depend on what stood before it.
  lemma {:induction false} Lifted(d: nat, a: seq<Mapping>, b: seq<Mapping>, body: Lines)
    requires b != [] || QuietUntilItem(d, body)
    ensures ReadLines(d, Some(a + b), body) == Lift(a, ReadLines(d, Some(b), body))
    decreases |body|
  {
    hide ItemStart, ReadLine, Ignored;
    if body != [] {
      LiftLine(d, a, b, body[0]);
      match ReadLine(d, Some(b), body[0]) {
        case None => ReadNothing(d, body[1..]);
        case Some(b') =>
          if Ignored(body[0]) {
            IgnoredLine(d, Some(b), body[0]);
            IgnoredIsNoItemStart(d, body[0]);
          }
          Lifted(d, a, b', body[1..]);
      }
    }
  }

  // What is left reads as the items that the scan lets stay, and as many items went.
  lemma {:induction false} KeptReads(d: nat, wanted: map<string, string>, body: Lines,
                                     left: seq<Mapping>, items: seq<Mapping>)
    requires QuietUntilItem(d, body) && forall l :: l in body ==> Tidy(d, l)
    requires ReadLines(d, Some([]), body) == Some(items)
    ensures ReadLines(d, Some(left), Kept(d, wanted, body).0) == Some(left + CrudeUnmatched(wanted, items))
    ensures Kept(d, wanted, body).1 + |CrudeUnmatched(wanted, items)| == |items|
    decreases |body|
  {
    hide ItemStart, Tidy, ReadLine, Ignored, CrudeMatches, ChunkMatches, Scan, CrudeMap;
    if body == [] {
      assert left + [] == left;
    } else if !ItemStart(d, body[0]) {
      IgnoredLine(d, Some([]), body[0]);
      KeptReads(d, wanted, body[1..], left, items);
      IgnoredLine(d, Some(left), body[0]);
      var rest := Kept(d, wanted, body[1..]).0;
      assert ([body[0]] + rest)[1..] == rest;
    } else {
      var n := ChunkLength(d, body);
      var chunk, below := body[..n], body[n..];
      var items' := SplitFirst(d, body, items);
      KeptMatches(wanted, chunk, items[0]);
      assert items == [items[0]] + items';
      if ChunkMatches(wanted, chunk) {
        KeptReads(d, wanted, below, left, items');
      } else {
        KeptReads(d, wanted, below, left + [items[0]], items');
        Lifted(d, left, [], chunk);
        assert left + [] == left;
        ReadConcat(d, Some(left), chunk, Kept(d, wanted, below).0);
        assert left + [items[0]] + CrudeUnmatched(wanted, items') == left + ([items[0]] + CrudeUnmatched(wanted, items'));
      }
    }
  }

  // The first item of a block that reads, and the block below it.
  lemma SplitFirst(d: nat, body: Lines, items: seq<Mapping>) returns (rest: seq<Mapping>)
    requires body != [] && ItemStart(d, body[0]) && forall l :: l in body ==> Tidy(d, l)
    requires ReadLines(d, Some([]), body) == Some(items)
    ensures items != [] && rest == items[1..]
    ensures var n := ChunkLength(d, body);
            && ReadLines(d, Some([]), body[..n]) == Some([items[0]])
            && Scan(body[..n]) == CrudeMap(items[0])
            && ReadLines(d, Some([]), body[n..]) == Some(rest)
            && QuietUntilItem(d, body[..n]) && QuietUntilItem(d, body[n..])
  {
    hide ItemStart, Tidy, ReadLine, Ignored, Scan, CrudeMap, ItemOf;
    ChunkFacts(d, body);
    var n := ChunkLength(d, body);
    var chunk, below := body[..n], body[n..];
    assert body == chunk + below;
    ReadConcat(d, Some([]), chunk, below);
    if ReadLines(d, Some([]), chunk).None? { ReadNothing(d, below); }
    ChunkScanned(d, chunk, []);
    var m := ItemOf(d, chunk);
    assert [] + [m] == [m] && [m] + [] == [m];
    Lifted(d, [m], [], below);
    rest := ReadLines(d, Some([]), below).value;
    assert items == [m] + rest;
  }

  lemma IgnoredLine(d: nat, so: Option<seq<Mapping>>, line: string)
    requires Ignored(line)
    ensures ReadLine(d, so, line) == so
  {
  }

  lemma KeptMatches(wanted: map<string, string>, chunk: Lines, m: Mapping)
    requires Scan(chunk) == CrudeMap(m)
    ensures ChunkMatches(wanted, chunk) <==> CrudeMatches(wanted, m)
  {
  }

  // ----------------------------------------------------------- the whole block

  // Every line of the block that holds a field is in the form the editor writes.
  predicate TidyBody(body: Lines) {
    forall l :: l in body ==> Tidy(ItemColumn(body), l)
  }

  lemma {:induction false} QuietFromReading(d: nat, body: Lines)
    requires ReadLines(d, Some([]), body).Some?
    ensures QuietUntilItem(d, body)
  {
    hide Ignored, ReadItemHead, ItemStart;
    if body != [] {
      if Ignored(body[0]) {
        IgnoredLine(d, Some([]), body[0]);
        QuietFromReading(d, body[1..]);
      } else {
        if ReadLine(d, Some([]), body[0]).None? { ReadNothing(d, body[1..]); }
        ItemShapeStarts(d, body[0]);
      }
    }
  }

  lemma ItemShapeStarts(d: nat, line: string)
    ensures ShapeOf(d, line).Item? ==> ItemStart(d, line)
  {
    hide Ignored;
  }

  lemma {:induction false} KeptFacts(d: nat, wanted: map<string, string>, body: Lines)
    requires QuietUntilItem(d, body)
    ensures QuietUntilItem(d, Kept(d, wanted, body).0)
    ensures forall l :: l in Kept(d, wanted, body).0 ==> l in body
    decreases |body|
  {
    hide ItemStart, Ignored, ChunkMatches;
    if body != [] {
      if !ItemStart(d, body[0]) {
        KeptFacts(d, wanted, body[1..]);
        var rest := Kept(d, wanted, body[1..]).0;
        assert ([body[0]] + rest)[1..] == rest;
      } else {
        ChunkFacts(d, body);
        var n := ChunkLength(d, body);
        KeptFacts(d, wanted, body[n..]);
        assert body[..n][0] == body[0];
      }
    }
  }

  // A block in which dashes stand at `d` is read at `d`.
  lemma {:induction false} QuietColumn(d: nat, body: Lines)
    requires QuietUntilItem(d, body)
    ensures ItemColumn(body) == d || forall l :: l in body ==> Ignored(l)
  {
    hide Ignored;
    if body != [] {
      if ItemStart(d, body[0]) {
        if Ignored(body[0]) { IgnoredIsNoItemStart(d, body[0]); }
        IndentOfItemStart(d, body[0]);
      } else {
        QuietColumn(d, body[1..]);
      }
    }
  }

  lemma IndentOfItemStart(d: nat, line: string)
    requires ItemStart(d, line)
    ensures Indent(line) == d
  {
    assert line == Spaces(d) + ("- " + line[d + 2..]);
    PaddedLine(d, "- " + line[d + 2..]);
  }

  lemma RemovedBodyReads(body: Lines, wanted: map<string, string>)
    requires ReadBody(body).Some? && TidyBody(body) && forall l :: l in body ==> Stays(l)
    ensures var (kept, count) := Kept(DetectIndent(body).0, wanted, body);
            && ReadBody(kept) == Some(CrudeUnmatched(wanted, ReadBody(body).value))
            && count == |ReadBody(body).value| - |CrudeUnmatched(wanted, ReadBody(body).value)|
            && TidyBody(kept) && (forall l :: l in kept ==> l in body)
  {
    hide Ignored, CrudeMatches, Stays, Kept, CrudeUnmatched, DetectIndent, ReadLine, Tidy;
    DetectedColumn(body);
    var d := ItemColumn(body);
    QuietFromReading(d, body);
    KeptReads(d, wanted, body, [], ReadBody(body).value);
    KeptFacts(d, wanted, body);
    var kept := Kept(d, wanted, body).0;
    QuietColumn(d, kept);
    assert [] + CrudeUnmatched(wanted, ReadBody(body).value) == CrudeUnmatched(wanted, ReadBody(body).value);
    if ItemColumn(kept) != d {
      ReadIgnored(d, Some([]), kept);
      ReadIgnored(ItemColumn(kept), Some([]), kept);
      forall l | l in kept ensures Tidy(ItemColumn(kept), l) { TidyIgnored(ItemColumn(kept), l); }
    }
  }

  lemma TidyIgnored(d: nat, line: string)
    requires Ignored(line)
    ensures Tidy(d, line)
  {
  }

  // ---------------------------------------------- what the editor writes is tidy

  lemma {:induction false} SubkeysTidy(d: nat, m: Mapping)
    requires Renderable(m)
    ensures forall l :: l in RenderSubkeys(m, d + 2) ==> Tidy(d, l)
  {
    hide FieldText, PlainKey, Clean, ReadField;
    if m != [] {
      assert m[0] in m;
      SubkeyShape(d, d + 2, m[0]);
      FieldReadsBack(m[0]);
      SubkeysTidy(d, m[1..]);
    }
  }

  lemma ItemTidy(d: nat, sub: nat, m: Mapping)
    requires Renderable(m) && (|m| <= 1 || sub == d + 2)
    ensures forall l :: l in RenderItem(m, d, sub) ==> Tidy(d, l)
  {
    hide FieldText, PlainKey, Clean, ReadField;
    if m == [] {
      DashLineShape(d, "{}");
      assert Spaces(d) + "- " + "{}" + "\n" == Spaces(d) + "- {}\n";
      BracesAreNoField();
    } else {
      assert m[0] in m;
      DashLineShape(d, FieldText(m[0]));
      FieldReadsBack(m[0]);
      if |m| > 1 { SubkeysTidy(d, m[1..]); }
    }
  }

  lemma BracesAreNoField()
    ensures ReadField("{}") == None
  {
    IndexOfAbsent("{}", ':');
  }

  lemma {:induction false} ItemsTidy(d: nat, sub: nat, items: seq<Mapping>)
    requires forall m :: m in items ==> Renderable(m)
    requires OneLiners(items) || sub == d + 2
    ensures forall l :: l in RenderItems(items, d, sub) ==> Tidy(d, l)
  {
    hide RenderItem, Renderable, Tidy;
    if items != [] {
      assert items[0] in items;
      ItemTidy(d, sub, items[0]);
      ItemsTidy(d, sub, items[1..]);
    }
  }
}
