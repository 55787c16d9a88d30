/** The configuration file and the attributes held in memory, under any run of
    append, set and remove on any of its list sections. */
module ConfigFile {
  import opened Text
  import opened YamlFlow
  import opened YamlPlain
  import opened YamlSection
  import opened SectionReadBack
  import opened SectionEdits
  import opened SectionRemoval

  datatype State = State(lines: Lines, attrs: map<string, seq<Mapping>>)

  datatype Edit =
    | Append(section: string, entry: Mapping)
    | Set(section: string, entries: seq<Mapping>)
    | Remove(section: string, wanted: map<string, string>)

  function Existing(attrs: map<string, seq<Mapping>>, section: string): seq<Mapping> {
    if section in attrs then attrs[section] else []
  }

  // Python's == on these values: a bool is the number it stands for, and a dict does not
  // care for the order of its keys.
  predicate PyEqual(v: Value, w: Value)
    decreases v
  {
    match v
    case Null => w.Null?
    case Bool(b) => w == v || w == Int(if b then 1 else 0)
    case Int(n) => w == v || (n == 0 && w == Bool(false)) || (n == 1 && w == Bool(true))
    case Str(_) => w == v
    case List(items) =>
      w.List? && |items| == |w.items| && forall i :: 0 <= i < |items| ==> PyEqual(items[i], w.items[i])
    case Dict(entries) =>
      && w.Dict? && |entries| == |w.entries|
      && forall i :: 0 <= i < |entries| ==>
           exists j :: 0 <= j < |w.entries| && PyEqual(entries[i].key, w.entries[j].key)
                       && PyEqual(entries[i].value, w.entries[j].value)
  }

  predicate SameMapping(m: Mapping, n: Mapping) {
    && |m| == |n|
    && forall i :: 0 <= i < |m| ==> exists j :: 0 <= j < |n| && m[i].key == n[j].key && PyEqual(m[i].value, n[j].value)
  }

  predicate SameList(a: seq<Mapping>, b: seq<Mapping>) {
    |a| == |b| && forall i :: 0 <= i < |a| ==> SameMapping(a[i], b[i])
  }

  // What set_list_section takes for "nothing to do".
  predicate AlreadySet(st: State, section: string, entries: seq<Mapping>) {
    var h := HeaderIndex(st.lines, section);
    && section in st.attrs && SameList(st.attrs[section], entries)
    && (entries != []
        || (h < |st.lines| && InlineValue(st.lines[h]) == "[]"
            && forall l :: l in st.lines[h + 1..BlockEnd(st.lines, h)] ==> Ignored(l)))
  }

  predicate Callable(st: State, edit: Edit) {
    edit.Remove? ==> forall m :: m in Existing(st.attrs, edit.section) ==> Comparable(edit.wanted, m)
  }

  // One call, as the methods of the class below carry it out.
  function Step(st: State, edit: Edit): State
    requires Callable(st, edit)
  {
    var s := edit.section;
    var missing := HeaderIndex(st.lines, s) == |st.lines|;
    match edit
    case Append(_, entry) =>
      if missing then st
      else State(AppendLines(st.lines, s, entry), st.attrs[s := Existing(st.attrs, s) + [entry]])
    case Set(_, entries) =>
      if AlreadySet(st, s, entries) then st
      else State(SetLines(st.lines, s, entries), st.attrs[s := entries])
    case Remove(_, wanted) =>
      if wanted == map[] || missing then st
      else
        var (lines, count) := RemoveLines(st.lines, s, wanted);
        if count == 0 then st
        else State(lines, if s in st.attrs then st.attrs[s := Unmatched(wanted, st.attrs[s])] else st.attrs)
  }

  // --------------------------------------------------- a section as the reader sees it

  // Header, block, and whether a dash in column 0 follows the block.
  datatype View = Absent | Present(header: string, body: Lines, dashed: bool)

  function ViewOf(lines: Lines, section: string): View {
    var h := HeaderIndex(lines, section);
    if h == |lines| then Absent
    else
      var e := BlockEnd(lines, h);
      Present(lines[h], lines[h + 1..e], e < |lines| && StartsWith(lines[e], "-"))
  }

  function ReadView(v: View): Option<seq<Mapping>> {
    match v
    case Absent => None
    case Present(header, body, dashed) => ReadParts(header, body, if dashed then ["-"] else [])
  }

  // File and memory hold the same list, and the file holds it in the editor's form. A
  // section the file lacks is unset or empty in memory.
  predicate InSync(st: State, section: string) {
    match ViewOf(st.lines, section)
    case Absent => Existing(st.attrs, section) == []
    case Present(header, body, dashed) =>
      && ReadView(ViewOf(st.lines, section)) == Some(Existing(st.attrs, section))
      && TidyBody(body)
  }

  lemma ViewOfCut(section: string, before: Lines, header: string, body: Lines, after: Lines)
    requires Cut(section, before, header, body, after)
    ensures ViewOf(Joined(before, header, body, after), section)
         == Present(header, body, after != [] && StartsWith(after[0], "-"))
  {
    hide HeaderIndex, BlockEnd, Cut, ReadSection, ReadParts;
    JoinedIsFound(section, before, header, body, after);
    var lines := Joined(before, header, body, after);
    assert lines[|before| + 1..|before| + 1 + |body|] == body;
  }

  // ---------------------------------------------- other sections are left alone

  lemma NameOfHeader(line: string, s: string)
    requires SectionName(s) && HasHeader(line, s)
    ensures IndexOf(line, ':') == |s| <= |line| && line[..|s|] == s
  {
    AfterOwnColon(s, line[|s| + 1..]);
    assert line == s + ":" + line[|s| + 1..];
    assert forall i :: 0 <= i < |s| ==> s[i] != ':';
    IndexOfIs(line, ':', |s|);
  }

  lemma HeaderNamesOne(line: string, s: string, t: string)
    requires SectionName(s) && SectionName(t) && s != t && HasHeader(line, s)
    ensures !HasHeader(line, t)
  {
    hide HasHeader, SectionName;
    NameOfHeader(line, s);
    if HasHeader(line, t) { NameOfHeader(line, t); }
  }

  lemma NameStart(line: string, t: string)
    requires SectionName(t) && HasHeader(line, t)
    ensures line != "" && line[0] == t[0] && !Stays(line) && !StartsWith(line, "-")
  {
    assert line[0] == line[..|t| + 1][0] == t[0];
    LStripLead("", line);
    assert "" + line == line;
    StripIsStripped(line);
  }

  lemma {:induction false} HeaderIndexSkips(a: Lines, b: Lines, t: string)
    ensures HeaderIndex(a + b, t)
         == if HeaderIndex(a, t) < |a| then HeaderIndex(a, t) else |a| + HeaderIndex(b, t)
  {
    hide HasHeader;
    if a == [] {
      assert a + b == b;
    } else {
      assert (a + b)[1..] == a[1..] + b;
      HeaderIndexSkips(a[1..], b, t);
    }
  }

  lemma {:induction false} BlockLengthStops(a: Lines, b: Lines)
    requires b != [] && !Stays(b[0])
    ensures BlockLength(a + b) == BlockLength(a)
  {
    hide Stays;
    if a == [] {
      assert a + b == b;
    } else {
      assert (a + b)[1..] == a[1..] + b;
      BlockLengthStops(a[1..], b);
    }
  }

  // A section that starts in `a` is seen the same when `a` is followed by any line
  // that heads a section.
  lemma ViewInFront(a: Lines, b: Lines, s: string, t: string)
    requires SectionName(s) && HeaderIndex(a, t) < |a|
    requires b != [] && HasHeader(b[0], s)
    ensures ViewOf(a + b, t) == ViewOf(a, t)
  {
    hide HasHeader, HeaderIndex, Stays;
    NameStart(b[0], s);
    HeaderIndexSkips(a, b, t);
    var h := HeaderIndex(a, t);
    BlockLengthStops(a[h + 1..], b);
    assert (a + b)[h + 1..] == a[h + 1..] + b;
    var e := BlockEnd(a, h);
    assert (a + b)[h + 1..e] == a[h + 1..e];
  }

  // And one that starts behind `a` does not depend on `a`.
  lemma ViewBehind(a: Lines, b: Lines, t: string)
    requires HeaderIndex(a, t) == |a|
    ensures ViewOf(a + b, t) == ViewOf(b, t)
  {
    hide HasHeader, HeaderIndex, BlockLength;
    HeaderIndexSkips(a, b, t);
    var h := HeaderIndex(b, t);
    if h < |b| {
      PartBehind(a, b, h + 1, |b|);
      assert (a + b)[|a| + h] == b[h] && (a + b)[..|a + b|] == a + b && b[..|b|] == b;
      assert BlockEnd(a + b, |a| + h) == |a| + BlockEnd(b, h);
      PartBehind(a, b, h + 1, BlockEnd(b, h));
      LineBehind(a, b, BlockEnd(b, h));
    }
  }

  lemma PartBehind(a: Lines, b: Lines, i: nat, j: nat)
    requires i <= j <= |b|
    ensures (a + b)[|a| + i..|a| + j] == b[i..j]
    ensures (a + b)[|a| + i..] == b[i..]
  {
  }

  lemma LineBehind(a: Lines, b: Lines, i: nat)
    requires i <= |b|
    ensures i < |b| ==> (a + b)[|a| + i] == b[i]
  {
  }

  // Rewriting one section's header and block leaves the view of every other one.
  lemma OtherSectionsKeepTheirView(s: string, t: string, before: Lines, after: Lines,
                                   h0: string, body0: Lines, h1: string, body1: Lines)
    requires SectionName(s) && SectionName(t) && s != t
    requires Cut(s, before, h0, body0, after) && Cut(s, before, h1, body1, after)
    ensures ViewOf(Joined(before, h0, body0, after), t) == ViewOf(Joined(before, h1, body1, after), t)
  {
    hide HasHeader, HeaderIndex, Stays, ViewOf;
    OtherView(s, t, before, h0, body0, after);
    OtherView(s, t, before, h1, body1, after);
  }

  lemma OtherView(s: string, t: string, before: Lines, header: string, body: Lines, after: Lines)
    requires SectionName(s) && SectionName(t) && s != t && Cut(s, before, header, body, after)
    ensures ViewOf(Joined(before, header, body, after), t)
         == if HeaderIndex(before, t) < |before| then ViewOf(before, t) else ViewOf(after, t)
  {
    hide HasHeader, HeaderIndex, Stays, ViewOf;
    var lines := Joined(before, header, body, after);
    if HeaderIndex(before, t) < |before| {
      assert lines == before + ([header] + body + after);
      ViewInFront(before, [header] + body + after, s, t);
    } else {
      HeaderNamesOne(header, s, t);
      forall l | l in body ensures !HasHeader(l, t) {
        if HasHeader(l, t) { NameStart(l, t); }
      }
      HeaderFound([header] + body, [], t);
      assert [header] + body + [] == [header] + body;
      HeaderIndexSkips(before, [header] + body, t);
      assert lines == (before + ([header] + body)) + after;
      ViewBehind(before + ([header] + body), after, t);
    }
  }

  // ------------------------------------------------------ when a call keeps sync

  // The sub-key column that the editor finds is the one below the dash.
  predicate ColumnsAgree(lines: Lines, section: string)
    requires HeaderIndex(lines, section) < |lines|
  {
    var h := HeaderIndex(lines, section);
    var (dash, sub) := DetectIndent(lines[h + 1..BlockEnd(lines, h)]);
    sub == dash + 2
  }

  // What a caller can look at before the call.
  predicate Fits(st: State, edit: Edit) {
    var h := HeaderIndex(st.lines, edit.section);
    match edit
    case Append(s, entry) =>
      h < |st.lines| ==> InlineValue(st.lines[h]) == "" && (|entry| <= 1 || ColumnsAgree(st.lines, s))
    case Set(s, entries) =>
      AlreadySet(st, s, entries) || h == |st.lines| || OneLiners(entries) || ColumnsAgree(st.lines, s)
    case Remove(s, wanted) =>
      forall m :: m in Existing(st.attrs, s) ==> ScansTrueFor(wanted, m)
  }

  predicate Writable(edit: Edit) {
    match edit
    case Append(_, entry) => Renderable(entry)
    case Set(_, entries) => forall m :: m in entries ==> Renderable(m)
    case Remove(_, _) => true
  }

  // The cut of a file at a section that it has, with what sync says about it.
  lemma SyncedCut(st: State, s: string)
    requires HeaderIndex(st.lines, s) < |st.lines|
    ensures var h := HeaderIndex(st.lines, s);
            var e := BlockEnd(st.lines, h);
            var header, body, after := st.lines[h], st.lines[h + 1..e], st.lines[e..];
            && Cut(s, st.lines[..h], header, body, after)
            && st.lines == Joined(st.lines[..h], header, body, after)
            && (InSync(st, s) <==> ReadParts(header, body, after) == Some(Existing(st.attrs, s)) && TidyBody(body))
  {
    hide BlockEnd, ReadBody, InlineValue, HasHeader, Stays, TidyBody;
    CutAt(st.lines, s);
    assert StartsWith("-", "-");
  }

  // The same for a file put together around a section.
  lemma SyncOfJoined(s: string, before: Lines, header: string, body: Lines, after: Lines,
                     attrs: map<string, seq<Mapping>>)
    requires Cut(s, before, header, body, after)
    ensures InSync(State(Joined(before, header, body, after), attrs), s)
        <==> ReadParts(header, body, after) == Some(Existing(attrs, s)) && TidyBody(body)
  {
    hide ReadBody, InlineValue, HasHeader, Stays, TidyBody, ViewOf, Cut, Existing;
    ViewOfCut(s, before, header, body, after);
    assert StartsWith("-", "-");
  }

  lemma AppendSync(st: State, s: string, entry: Mapping)
    requires InSync(st, s) && Renderable(entry)
    ensures InSync(Step(st, Append(s, entry)), s) <==> Fits(st, Append(s, entry))
  {
    hide BlockEnd, ReadBody, InlineValue, HasHeader, Stays, TidyBody, InSync, HeaderIndex, AppendBody, AppendLines,
         Renderable, DetectIndent;
    var h := HeaderIndex(st.lines, s);
    if h < |st.lines| {
      SyncedCut(st, s);
      var e := BlockEnd(st.lines, h);
      var before, header, body, after := st.lines[..h], st.lines[h], st.lines[h + 1..e], st.lines[e..];
      AppendIsLocal(s, before, header, body, after, entry);
      BlockOfInline(body, InlineValue(header), after, Existing(st.attrs, s), header);
      AppendedBodyReads(body, entry);
      SyncOfJoined(s, before, header, AppendBody(body, entry), after,
                   st.attrs[s := Existing(st.attrs, s) + [entry]]);
      if InlineValue(header) == "" {
        if |entry| <= 1 || DetectIndent(body).1 == DetectIndent(body).0 + 2 { AppendedTidy(body, entry); }
      } else {
        AppendedSpeaks(body, entry);
      }
    }
  }

  // A section in sync always has a block that reads.
  lemma BlockOfInline(body: Lines, inline: string, after: Lines, items: seq<Mapping>, header: string)
    requires ReadParts(header, body, after) == Some(items) && inline == InlineValue(header)
    ensures ReadBody(body) == Some(items)
    ensures !(after != [] && StartsWith(after[0], "-")) && inline in ["", "[]"]
  {
    hide InlineValue, ReadLine, Ignored;
    if inline == "[]" {
      ReadIgnored(ItemColumn(body), Some([]), body);
    }
  }

  lemma AppendedTidy(body: Lines, entry: Mapping)
    requires ReadBody(body).Some? && TidyBody(body) && Renderable(entry) && forall l :: l in body ==> Stays(l)
    requires |entry| <= 1 || DetectIndent(body).1 == DetectIndent(body).0 + 2
    ensures TidyBody(AppendBody(body, entry))
  {
    hide RenderItem, Stays, Ignored, Tidy, Renderable, DetectIndent, WalkBack, ReadLine;
    var (d, sub) := DetectIndent(body);
    DetectedColumn(body);
    var i := WalkBack(body, 0, |body|);
    var a, b := body[..i], body[i..];
    assert body == a + b;
    ColumnOfPrefix(a, RenderItem(entry, d, sub) + b);
    ColumnOfPrefix(a, b);
    ItemColumnOfItem(entry, d, sub, b);
    assert AppendBody(body, entry) == a + (RenderItem(entry, d, sub) + b);
    ItemTidy(d, sub, entry);
  }

  lemma AppendedSpeaks(body: Lines, entry: Mapping)
    ensures exists l :: l in AppendBody(body, entry) && !Ignored(l)
  {
    hide FieldText, Ignored, DetectIndent, WalkBack;
    var (d, sub) := DetectIndent(body);
    var text := if entry == [] then "- {}\n" else "- " + FieldText(entry[0]) + "\n";
    PaddedLine(d, text);
    var l := RenderItem(entry, d, sub)[0];
    assert l == Spaces(d) + text;
    assert l in AppendBody(body, entry);
  }

  lemma SetSync(st: State, s: string, entries: seq<Mapping>)
    requires SectionName(s) && InSync(st, s) && forall m :: m in entries ==> Renderable(m)
    ensures InSync(Step(st, Set(s, entries)), s) <==> Fits(st, Set(s, entries))
  {
    hide BlockEnd, ReadBody, InlineValue, HasHeader, Stays, TidyBody, InSync, HeaderIndex, SetLines,
         Renderable, DetectIndent, AlreadySet, RenderItems, OneLiners, NewHeader, HeaderComment;
    var h := HeaderIndex(st.lines, s);
    if !AlreadySet(st, s, entries) {
      if h == |st.lines| {
        SetMissing(st.lines, s, entries, st.attrs[s := entries]);
      } else {
        SyncedCut(st, s);
        var e := BlockEnd(st.lines, h);
        var before, header, body, after := st.lines[..h], st.lines[h], st.lines[h + 1..e], st.lines[e..];
        BlockOfInline(body, InlineValue(header), after, Existing(st.attrs, s), header);
        SetIsLocal(s, before, header, body, after, entries);
        DetectedDashIsIndented(body);
        HeaderCommentForm(header);
        SetSyncAt(s, before, HeaderComment(header), after, entries, DetectIndent(body).0, DetectIndent(body).1,
                  st.attrs[s := entries]);
      }
    }
  }

  lemma SetSyncAt(s: string, before: Lines, comment: string, after: Lines, entries: seq<Mapping>, dash: nat, sub: nat,
                  attrs: map<string, seq<Mapping>>)
    requires SectionName(s) && 1 <= dash < sub && forall m :: m in entries ==> Renderable(m)
    requires comment == "" || (|comment| > 2 && comment[..2] == "  " && comment[2] == '#')
    requires forall l :: l in before ==> !HasHeader(l, s)
    requires after != [] ==> !Stays(after[0]) && !StartsWith(after[0], "-")
    requires s in attrs && attrs[s] == entries
    ensures var header := NewHeader(s, comment, entries == []);
            && Cut(s, before, header, RenderItems(entries, dash, sub), after)
            && (InSync(State(Joined(before, header, RenderItems(entries, dash, sub), after), attrs), s)
                <==> OneLiners(entries) || sub == dash + 2)
  {
    hide ReadBody, InlineValue, HasHeader, Stays, Tidy, InSync, Renderable, RenderItem, NewHeader, SectionName, StartsWith;
    var header, body := NewHeader(s, comment, entries == []), RenderItems(entries, dash, sub);
    NewHeaderReads(s, comment, entries == []);
    SetBodyReads(entries, dash, sub);
    SyncOfJoined(s, before, header, body, after, attrs);
    if OneLiners(entries) || sub == dash + 2 {
      ItemsTidy(dash, sub, entries);
      if entries != [] { ItemColumnOfItem(entries[0], dash, sub, RenderItems(entries[1..], dash, sub)); }
    }
  }

  // A section the file lacks is added at its end, after a blank line.
  function Padding(lines: Lines): Lines {
    if lines != [] && !Blank(lines[|lines| - 1]) then ["\n"] else []
  }

  lemma AddedAtEnd(lines: Lines, s: string, entries: seq<Mapping>)
    requires SectionName(s) && HeaderIndex(lines, s) == |lines|
    ensures Cut(s, lines + Padding(lines), NewHeader(s, "", entries == []), RenderItems(entries, 2, 4), [])
    ensures SetLines(lines, s, entries)
         == Joined(lines + Padding(lines), NewHeader(s, "", entries == []), RenderItems(entries, 2, 4), [])
  {
    hide InlineValue, Stays, RenderItems, HeaderIndex, NewHeader, Blank;
    HeaderFacts(lines, s);
    assert lines[..|lines|] == lines;
    assert !HasHeader("\n", s);
    NewHeaderReads(s, "", entries == []);
    ItemsStay(entries, 2, 4);
  }

  // A section that is added stands behind a blank line, or first in the file; only one blank
  // line is put in, and only where there is none.
  lemma AddedBehindBlankLine(lines: Lines)
    ensures Padding(lines) in [[], ["\n"]]
    ensures lines + Padding(lines) != [] ==> Blank((lines + Padding(lines))[|lines + Padding(lines)| - 1])
    ensures lines == [] || Blank(lines[|lines| - 1]) ==> Padding(lines) == []
  {
    BlankLine("x");
  }

  lemma SetMissing(lines: Lines, s: string, entries: seq<Mapping>, attrs: map<string, seq<Mapping>>)
    requires SectionName(s) && HeaderIndex(lines, s) == |lines| && forall m :: m in entries ==> Renderable(m)
    requires s in attrs && attrs[s] == entries
    ensures InSync(State(SetLines(lines, s, entries), attrs), s)
  {
    hide ReadBody, InlineValue, HasHeader, Stays, Tidy, InSync, Renderable, RenderItems, HeaderIndex, NewHeader, SetLines, Padding;
    AddedAtEnd(lines, s, entries);
    SetSyncAt(s, lines + Padding(lines), "", [], entries, 2, 4, attrs);
  }

  // File and memory judge every item alike.
  predicate JudgeAlike(wanted: map<string, string>, items: seq<Mapping>)
    requires forall m :: m in items ==> Comparable(wanted, m)
  {
    forall m :: m in items ==> (CrudeMatches(wanted, m) <==> ItemMatches(wanted, m))
  }

  predicate ScanTakesNone(wanted: map<string, string>, items: seq<Mapping>) {
    forall m :: m in items ==> !CrudeMatches(wanted, m)
  }

  lemma {:induction false} CrudeKeeps(wanted: map<string, string>, items: seq<Mapping>, m: Mapping)
    ensures m in CrudeUnmatched(wanted, items) <==> m in items && !CrudeMatches(wanted, m)
  {
    hide CrudeMatches;
    if items != [] {
      CrudeKeeps(wanted, items[1..], m);
    }
  }

  lemma {:induction false} MemoryKeeps(wanted: map<string, string>, items: seq<Mapping>, m: Mapping)
    requires forall i :: i in items ==> Comparable(wanted, i)
    ensures m in Unmatched(wanted, items) <==> m in items && !ItemMatches(wanted, m)
  {
    hide ItemMatches, Comparable;
    if items != [] {
      MemoryKeeps(wanted, items[1..], m);
    }
  }

  lemma {:induction false} AlikeKeepsAlike(wanted: map<string, string>, items: seq<Mapping>)
    requires forall m :: m in items ==> Comparable(wanted, m)
    requires JudgeAlike(wanted, items)
    ensures CrudeUnmatched(wanted, items) == Unmatched(wanted, items)
  {
    hide CrudeMatches, ItemMatches, Comparable;
    if items != [] {
      AlikeKeepsAlike(wanted, items[1..]);
    }
  }

  lemma {:induction false} NoneTaken(wanted: map<string, string>, items: seq<Mapping>)
    requires ScanTakesNone(wanted, items)
    ensures CrudeUnmatched(wanted, items) == items
  {
    hide CrudeMatches;
    if items != [] {
      NoneTaken(wanted, items[1..]);
    }
  }

  // The lists that file and memory keep, told item by item.
  lemma KeptByItem(wanted: map<string, string>, items: seq<Mapping>)
    requires forall m :: m in items ==> Comparable(wanted, m)
    ensures CrudeUnmatched(wanted, items) == items <==> ScanTakesNone(wanted, items)
    ensures CrudeUnmatched(wanted, items) == Unmatched(wanted, items) <==> JudgeAlike(wanted, items)
  {
    hide CrudeMatches, ItemMatches, Comparable, CrudeUnmatched, Unmatched;
    forall m | m in items
      ensures m in CrudeUnmatched(wanted, items) <==> !CrudeMatches(wanted, m)
      ensures m in Unmatched(wanted, items) <==> !ItemMatches(wanted, m)
    {
      CrudeKeeps(wanted, items, m);
      MemoryKeeps(wanted, items, m);
    }
    if ScanTakesNone(wanted, items) {
      NoneTaken(wanted, items);
    }
    if JudgeAlike(wanted, items) {
      AlikeKeepsAlike(wanted, items);
    }
  }

  // Exactly: a removal keeps sync when the scan matches no item, or file and memory judge
  // every item alike. They do whenever the call fits.
  lemma RemoveSync(st: State, s: string, wanted: map<string, string>)
    requires InSync(st, s) && Callable(st, Remove(s, wanted)) && wanted != map[]
    ensures var items := Existing(st.attrs, s);
            && (InSync(Step(st, Remove(s, wanted)), s) <==> ScanTakesNone(wanted, items) || JudgeAlike(wanted, items))
            && (HeaderIndex(st.lines, s) < |st.lines|
                ==> RemoveLines(st.lines, s, wanted).1 == |items| - |CrudeUnmatched(wanted, items)|)
            && (Fits(st, Remove(s, wanted)) ==> JudgeAlike(wanted, items))
  {
    hide BlockEnd, ReadBody, InlineValue, HasHeader, Stays, TidyBody, InSync, HeaderIndex, DetectIndent, Kept,
         ScansTrueFor, Comparable, Unmatched, CrudeUnmatched, Ignored, ScanTakesNone, JudgeAlike;
    var h := HeaderIndex(st.lines, s);
    var items := Existing(st.attrs, s);
    KeptByItem(wanted, items);
    if Fits(st, Remove(s, wanted)) { KeptAlike(wanted, items); }
    if h < |st.lines| {
      SyncedCut(st, s);
      var e := BlockEnd(st.lines, h);
      var before, header, body, after := st.lines[..h], st.lines[h], st.lines[h + 1..e], st.lines[e..];
      BlockOfInline(body, InlineValue(header), after, items, header);
      RemovedBodyReads(body, wanted);
      var (kept, count) := Kept(DetectIndent(body).0, wanted, body);
      assert st.lines[..h + 1] == before + [header];
      assert RemoveLines(st.lines, s, wanted) == (Joined(before, header, kept, after), count);
      CrudeUnmatchedSmaller(wanted, items);
      if count != 0 {
        assert s in st.attrs;
        SyncOfJoined(s, before, header, kept, after, st.attrs[s := Unmatched(wanted, items)]);
        if InlineValue(header) == "[]" { QuietBlockIsEmpty(body); }
      }
    } else {
      AbsentIsEmpty(st, s);
      NothingUnmatched(wanted);
    }
  }

  lemma AbsentIsEmpty(st: State, s: string)
    requires InSync(st, s) && HeaderIndex(st.lines, s) == |st.lines|
    ensures Existing(st.attrs, s) == []
  {
  }

  lemma NothingUnmatched(wanted: map<string, string>)
    ensures CrudeUnmatched(wanted, []) == []
  {
  }

  lemma {:induction false} CrudeUnmatchedSmaller(wanted: map<string, string>, items: seq<Mapping>)
    ensures |CrudeUnmatched(wanted, items)| <= |items|
    ensures |CrudeUnmatched(wanted, items)| == |items| ==> CrudeUnmatched(wanted, items) == items
  {
    hide CrudeMatches;
    if items != [] {
      CrudeUnmatchedSmaller(wanted, items[1..]);
    }
  }

  lemma QuietBlockIsEmpty(body: Lines)
    requires forall l :: l in body ==> Ignored(l)
    ensures ReadBody(body) == Some([])
  {
    hide ReadLine, Ignored;
    ReadIgnored(ItemColumn(body), Some([]), body);
  }

  // ------------------------------------------------------------- any run of edits

  // A call rewrites the header and the block of its own section and nothing else, whatever
  // the block holds and whether or not the call keeps file and memory in sync.
  lemma EditIsLocal(st: State, edit: Edit) returns (header': string, body': Lines)
    requires SectionName(edit.section) && Callable(st, edit) && HeaderIndex(st.lines, edit.section) < |st.lines|
    ensures var h := HeaderIndex(st.lines, edit.section);
            var e := BlockEnd(st.lines, h);
            && Cut(edit.section, st.lines[..h], st.lines[h], st.lines[h + 1..e], st.lines[e..])
            && Cut(edit.section, st.lines[..h], header', body', st.lines[e..])
            && st.lines == Joined(st.lines[..h], st.lines[h], st.lines[h + 1..e], st.lines[e..])
            && Step(st, edit).lines == Joined(st.lines[..h], header', body', st.lines[e..])
            && header' == (if edit.Set? && !AlreadySet(st, edit.section, edit.entries)
                           then NewHeader(edit.section, HeaderComment(st.lines[h]), edit.entries == []) else st.lines[h])
  {
    hide BlockEnd, ReadBody, InlineValue, HasHeader, Stays, HeaderIndex, AppendBody, AppendLines,
         SetLines, DetectIndent, AlreadySet, RenderItems, NewHeader, HeaderComment, Kept, Unmatched, Comparable, Ignored;
    var s := edit.section;
    CutAt(st.lines, s);
    var h := HeaderIndex(st.lines, s);
    var e := BlockEnd(st.lines, h);
    var before, header, body, after := st.lines[..h], st.lines[h], st.lines[h + 1..e], st.lines[e..];
    header', body' := header, body;
    match edit {
      case Append(_, entry) =>
        AppendIsLocal(s, before, header, body, after, entry);
        AppendedStays(body, entry);
        body' := AppendBody(body, entry);
      case Set(_, entries) =>
        if !AlreadySet(st, s, entries) {
          SetIsLocal(s, before, header, body, after, entries);
          DetectedDashIsIndented(body);
          HeaderCommentForm(header);
          NewHeaderReads(s, HeaderComment(header), entries == []);
          ItemsStay(entries, DetectIndent(body).0, DetectIndent(body).1);
          header' := NewHeader(s, HeaderComment(header), entries == []);
          body' := RenderItems(entries, DetectIndent(body).0, DetectIndent(body).1);
        }
      case Remove(_, wanted) =>
        if wanted != map[] {
          KeptLines(DetectIndent(body).0, wanted, body);
          var (kept, count) := Kept(DetectIndent(body).0, wanted, body);
          assert st.lines[..h + 1] == before + [header];
          if count != 0 { body' := kept; }
        }
    }
  }

  lemma AppendedStays(body: Lines, entry: Mapping)
    requires forall l :: l in body ==> Stays(l)
    ensures forall l :: l in AppendBody(body, entry) ==> Stays(l)
  {
    hide Stays, RenderItem, WalkBack, DetectIndent;
    DetectedDashIsIndented(body);
    ItemStays(entry, DetectIndent(body).0, DetectIndent(body).1);
  }

  lemma StepSync(st: State, edit: Edit)
    requires SectionName(edit.section) && InSync(st, edit.section) && Callable(st, edit)
    requires Writable(edit) && Fits(st, edit)
    ensures InSync(Step(st, edit), edit.section)
  {
    hide InSync, Fits, Step;
    match edit {
      case Append(s, entry) => AppendSync(st, s, entry);
      case Set(s, entries) => SetSync(st, s, entries);
      case Remove(s, wanted) => if wanted != map[] { RemoveSync(st, s, wanted); } else { RemoveNothing(st, s); }
    }
  }

  lemma RemoveNothing(st: State, s: string)
    requires Callable(st, Remove(s, map[]))
    ensures Step(st, Remove(s, map[])) == st
  {
  }

  // A blank line at the end of the file belongs to the last block and says nothing.
  lemma BlankLine(t: string)
    requires t != ""
    ensures !HasHeader("\n", t) && Stays("\n") && Ignored("\n")
  {
  }

  lemma PaddedSync(lines: Lines, attrs: map<string, seq<Mapping>>, t: string)
    requires SectionName(t)
    ensures InSync(State(lines + ["\n"], attrs), t) <==> InSync(State(lines, attrs), t)
  {
    hide HasHeader, Stays, InlineValue, ReadBody, TidyBody, HeaderIndex, Existing, Cut, Joined;
    BlankLine(t);
    HeaderIndexSkips(lines, ["\n"], t);
    HeaderFound(["\n"], [], t);
    assert ["\n"] + [] == ["\n"];
    var h := HeaderIndex(lines, t);
    if h < |lines| {
      CutAt(lines, t);
      var e := BlockEnd(lines, h);
      PaddedCut(lines[..h], lines[h], lines[h + 1..e], lines[e..], attrs, t);
    }
  }

  lemma PaddedCut(before: Lines, header: string, body: Lines, after: Lines, attrs: map<string, seq<Mapping>>, t: string)
    requires SectionName(t) && Cut(t, before, header, body, after)
    ensures InSync(State(Joined(before, header, body, after) + ["\n"], attrs), t)
        <==> InSync(State(Joined(before, header, body, after), attrs), t)
  {
    hide HasHeader, Stays, InlineValue, ReadBody, TidyBody, InSync, Existing;
    var lines := Joined(before, header, body, after);
    BlankLine(t);
    SyncOfJoined(t, before, header, body, after, attrs);
    if after == [] {
      assert lines + ["\n"] == Joined(before, header, body + ["\n"], []);
      SyncOfJoined(t, before, header, body + ["\n"], [], attrs);
      BlankTail(body);
    } else {
      assert lines + ["\n"] == Joined(before, header, body, after + ["\n"]);
      SyncOfJoined(t, before, header, body, after + ["\n"], attrs);
    }
  }

  lemma BlankTail(body: Lines)
    ensures ReadBody(body + ["\n"]) == ReadBody(body)
    ensures TidyBody(body + ["\n"]) <==> TidyBody(body)
    ensures (forall l :: l in body + ["\n"] ==> Ignored(l)) <==> forall l :: l in body ==> Ignored(l)
  {
    hide ReadLine, Tidy;
    var d := ItemColumn(body);
    assert Ignored("\n");
    ColumnOfPrefix(body, ["\n"]);
    if FirstContent(body) == |body| {
      assert body[..|body|] == body;
      ColumnOfIgnored(body, []);
      assert body + [] == body;
    }
    assert ItemColumn(body + ["\n"]) == d;
    ReadConcat(d, Some([]), body, ["\n"]);
    ReadIgnored(d, ReadLines(d, Some([]), body), ["\n"]);
    TidyIgnored(d, "\n");
  }

  // What the rest of the file says does not depend on a call, not even on one that breaks
  // the sync of its own section.
  lemma OthersSync(st: State, edit: Edit, t: string)
    requires SectionName(edit.section) && Callable(st, edit) && SectionName(t) && t != edit.section
    ensures InSync(Step(st, edit), t) <==> InSync(st, t)
  {
    hide BlockEnd, Cut, ReadView, TidyBody, HeaderIndex, RenderItems, NewHeader, SetLines, AppendLines,
         RemoveLines, Comparable, AlreadySet, SectionName;
    var s := edit.section;
    if HeaderIndex(st.lines, s) < |st.lines| {
      var header', body' := EditIsLocal(st, edit);
      var h := HeaderIndex(st.lines, s);
      var e := BlockEnd(st.lines, h);
      OtherSectionsKeepTheirView(s, t, st.lines[..h], st.lines[e..], st.lines[h], st.lines[h + 1..e], header', body');
    } else if edit.Set? && !AlreadySet(st, s, edit.entries) {
      AddedSectionOthers(st, s, edit.entries, t);
    }
  }

  lemma AddedSectionOthers(st: State, s: string, entries: seq<Mapping>, t: string)
    requires SectionName(s) && SectionName(t) && t != s && HeaderIndex(st.lines, s) == |st.lines|
    ensures InSync(State(SetLines(st.lines, s, entries), st.attrs[s := entries]), t) <==> InSync(st, t)
  {
    hide BlockEnd, ReadView, TidyBody, HeaderIndex, RenderItems, NewHeader, SetLines, SectionName, Stays, Blank;
    var pad := Padding(st.lines);
    AddedAtEnd(st.lines, s, entries);
    OtherView(s, t, st.lines + pad, NewHeader(s, "", entries == []), RenderItems(entries, 2, 4), []);
    AbsentOf(st.lines + pad, t);
    if pad == [] {
      assert st.lines + pad == st.lines;
    } else {
      PaddedSync(st.lines, st.attrs, t);
    }
  }

  lemma AbsentOf(lines: Lines, t: string)
    ensures ViewOf([], t) == Absent
    ensures HeaderIndex(lines, t) == |lines| ==> ViewOf(lines, t) == Absent
  {
  }

  ghost predicate RunFits(st: State, edits: seq<Edit>, sections: set<string>)
    decreases |edits|
  {
    edits == []
    || (&& edits[0].section in sections && Callable(st, edits[0]) && Writable(edits[0]) && Fits(st, edits[0])
        && RunFits(Step(st, edits[0]), edits[1..], sections))
  }

  ghost function Run(st: State, edits: seq<Edit>, sections: set<string>): State
    requires RunFits(st, edits, sections)
    decreases |edits|
  {
    if edits == [] then st else Run(Step(st, edits[0]), edits[1..], sections)
  }

  // Over any run of edits to any sections, each section of the file reads as the
  // list in memory.
  lemma {:induction false} RunStaysInSync(st: State, edits: seq<Edit>, sections: set<string>)
    requires forall s :: s in sections ==> SectionName(s) && InSync(st, s)
    requires RunFits(st, edits, sections)
    ensures forall s :: s in sections ==> InSync(Run(st, edits, sections), s)
    decreases |edits|
  {
    hide InSync, Step, Callable, Writable, Fits, SectionName;
    if edits != [] {
      var edit := edits[0];
      StepSync(st, edit);
      forall t | t in sections ensures InSync(Step(st, edit), t) {
        if t != edit.section { OthersSync(st, edit, t); }
      }
      RunStaysInSync(Step(st, edit), edits[1..], sections);
    }
  }

  // ------------------------------------------------------- where sync breaks

  // A whitespace-only line right below a one-field item is taken for a sub-key: its
  // width becomes the sub-key column, and the next two-field entry does not read.
  lemma WideBlankLineMisleads(d: nat, width: nat, f: Field, entry: Mapping)
    requires d >= 1 && width > d && width != d + 2
    requires PlainKey(f.key) && Clean(f.value) && Renderable(entry) && |entry| >= 2
    ensures var body := [Spaces(d) + "- " + FieldText(f) + "\n", Spaces(width) + "\n"];
            && ReadBody(body) == Some([[f]])
            && DetectIndent(body) == (d, width)
            && ReadBody(AppendBody(body, entry)) == None
  {
    hide FieldText, PlainKey, Clean, RenderItem, AppendBody, Renderable, ReadBody, DetectIndent;
    BlankLineReads(d, width, f);
    BlankLineDetected(d, width, f);
    var body := [Spaces(d) + "- " + FieldText(f) + "\n", Spaces(width) + "\n"];
    AppendedBodyReads(body, entry);
  }

  lemma BlankLineIs(width: nat)
    ensures Blank(Spaces(width) + "\n") && Ignored(Spaces(width) + "\n") && Indent(Spaces(width) + "\n") == width
    ensures SubkeyHint(Spaces(width) + "\n")
  {
    StripAllSpace(Spaces(width) + "\n");
    LStripBlanksLead(Spaces(width), "\n");
  }

  lemma BlankLineReads(d: nat, width: nat, f: Field)
    requires d >= 1 && PlainKey(f.key) && Clean(f.value)
    ensures ReadBody([Spaces(d) + "- " + FieldText(f) + "\n", Spaces(width) + "\n"]) == Some([[f]])
  {
    hide FieldText, PlainKey, Clean, ReadField, Blank, Ignored;
    var item, blank := Spaces(d) + "- " + FieldText(f) + "\n", Spaces(width) + "\n";
    var body := [item, blank];
    DashLineShape(d, FieldText(f));
    BlankLineIs(width);
    assert body[1..] == [blank] && [blank][1..] == [];
    HeadStep(d, [], f);
    assert ReadLine(d, Some([[f]]), blank) == Some([[f]]);
    var none: seq<Mapping> := [];
    assert none + [[f]] == [[f]];
    assert ReadLines(d, Some([[f]]), [blank]) == ReadLines(d, Some([[f]]), []);
    assert ItemColumn(body) == d;
  }

  lemma BlankLineDetected(d: nat, width: nat, f: Field)
    requires d >= 1 && width > d
    ensures DetectIndent([Spaces(d) + "- " + FieldText(f) + "\n", Spaces(width) + "\n"]) == (d, width)
  {
    hide FieldText, Blank, SubkeyHint;
    var item, blank := Spaces(d) + "- " + FieldText(f) + "\n", Spaces(width) + "\n";
    var body := [item, blank];
    DashLineShape(d, FieldText(f));
    BlankLineIs(width);
    assert item == Spaces(d) + ("- " + FieldText(f) + "\n");
    PaddedLine(d, "- " + FieldText(f) + "\n");
    assert body[1..] == [blank] && [blank][1..] == [];
    assert SubkeyHint(blank);
  }

  // Two items that the scan does not tell apart: text with an apostrophe at its end reads
  // as the text without it.
  function Twins(): seq<Mapping> {
    [[Field("id", Str("x"))], [Field("id", Str("x'"))]]
  }

  function TwinFile(s: string): State {
    State([s + ":\n", "  - id: \"x\"\n", "  - id: \"x'\"\n"], map[s := Twins()])
  }

  // One call takes both items from the file and one from memory.
  lemma ApostropheDivides(s: string)
    requires SectionName(s)
    ensures InSync(TwinFile(s), s) && HeaderIndex(TwinFile(s).lines, s) == 0
    ensures var edit := Remove(s, map["id" := "x"]);
            && Callable(TwinFile(s), edit)
            && RemoveLines(TwinFile(s).lines, s, edit.wanted).1 == 2
            && Step(TwinFile(s), edit).attrs == map[s := [Twins()[1]]]
            && !InSync(Step(TwinFile(s), edit), s)
  {
    hide InSync, Crude, HeaderIndex, RemoveLines, Comparable, ItemMatches, CrudeMatches, SectionName, PyStr;
    TwinsJudged();
    TwinFileInSync(s);
    var wanted := map["id" := "x"];
    assert "id" in wanted;
    assert Callable(TwinFile(s), Remove(s, wanted));
    RemoveSync(TwinFile(s), s, wanted);
  }

  lemma TwinsJudged()
    ensures var wanted := map["id" := "x"];
            && Unmatched(wanted, Twins()) == [Twins()[1]] && CrudeUnmatched(wanted, Twins()) == []
            && (forall m :: m in Twins() ==> Comparable(wanted, m))
            && !ScanTakesNone(wanted, Twins()) && !JudgeAlike(wanted, Twins())
  {
    hide Crude, Comparable, ItemMatches, CrudeMatches, PyStr;
    var wanted, items := map["id" := "x"], Twins();
    IdItem("x");
    IdItem("x'");
    CrudeOfString("x");
    CrudeOfApostrophe();
    assert items[1..] == [items[1]] && [items[1]][1..] == [];
    assert Unmatched(wanted, [items[1]]) == [items[1]] + Unmatched(wanted, []);
    assert CrudeUnmatched(wanted, [items[1]]) == CrudeUnmatched(wanted, []);
    assert items[0] in items && items[1] in items;
  }

  // The file of the two items, as the editor itself writes it.
  lemma TwinFileInSync(s: string)
    requires SectionName(s)
    ensures HeaderIndex(TwinFile(s).lines, s) == 0 && InSync(TwinFile(s), s)
  {
    hide InSync, SectionName, Cut, SetLines, HasHeader, NewHeader, RenderItems, Renderable;
    var none: Lines := [];
    var header, body := NewHeader(s, "", false), RenderItems(Twins(), 2, 4);
    TwinsRendered();
    TwinHeader(s);
    AddedAtEnd(none, s, Twins());
    assert none + Padding(none) == [];
    assert Joined(none + Padding(none), header, body, []) == TwinFile(s).lines;
    SetMissing(none, s, Twins(), map[s := Twins()]);
    JoinedIsFound(s, none + Padding(none), header, body, []);
  }

  lemma TwinsRendered()
    ensures RenderItems(Twins(), 2, 4) == ["  - id: \"x\"\n", "  - id: \"x'\"\n"]
    ensures forall m :: m in Twins() ==> Renderable(m)
  {
    hide Renderable;
    OneFieldLine("x");
    OneFieldLine("x'");
    TwoRendered(Twins());
    assert "  - id: \"" + "x" + "\"\n" == "  - id: \"x\"\n";
    assert "  - id: \"" + "x'" + "\"\n" == "  - id: \"x'\"\n";
  }

  lemma TwinHeader(s: string)
    ensures NewHeader(s, "", false) == s + ":\n"
  {
    assert s + ":" + "" == s + ":";
    assert s + ":" + "\n" == s + ":\n";
  }

  lemma TwoRendered(items: seq<Mapping>)
    requires |items| == 2 && |items[0]| == 1 && |items[1]| == 1
    ensures RenderItems(items, 2, 4) == RenderItem(items[0], 2, 4) + RenderItem(items[1], 2, 4)
    ensures |RenderItem(items[0], 2, 4)| == |RenderItem(items[1], 2, 4)| == 1
  {
    hide FieldText;
    assert items[1..] == [items[1]] && items[1..][1..] == [];
    assert RenderItems(items[1..], 2, 4) == RenderItem(items[1], 2, 4) + RenderItems(items[1..][1..], 2, 4);
  }

  lemma NoEscapes(text: string)
    requires text == "x" || text == "x'"
    ensures Print(Str(text)) == "\"" + text + "\""
  {
    EscapeIsPerCharacter(text);
    EscapeGrows(text);
  }

  lemma OneFieldLine(text: string)
    requires text == "x" || text == "x'"
    ensures RenderItem([Field("id", Str(text))], 2, 4) == ["  - id: \"" + text + "\"\n"]
    ensures Renderable([Field("id", Str(text))])
  {
    hide Print, Resolved;
    var m := [Field("id", Str(text))];
    assert m[1..] == [];
    NoEscapes(text);
    LetterBegins("id");
    assert FieldText(m[0]) == "id" + ": " + ("\"" + text + "\"");
    assert Spaces(2) == "  ";
    assert Spaces(2) + "- " + FieldText(m[0]) + "\n" == "  - id: \"" + text + "\"\n";
  }

  lemma IdItem(text: string)
    ensures var m, wanted := [Field("id", Str(text))], map["id" := "x"];
            && Comparable(wanted, m)
            && (ItemMatches(wanted, m) <==> text == "x")
            && (CrudeMatches(wanted, m) <==> Crude(Str(text)) == "x")
  {
    hide Crude;
    var m, wanted := [Field("id", Str(text))], map["id" := "x"];
    assert m[..0] == [];
    assert FieldMap(m) == map["id" := Str(text)];
    assert CrudeMap(m) == map["id" := Crude(Str(text))];
    assert "id" in wanted;
  }

  lemma CrudeOfApostrophe()
    ensures Crude(Str("x'")) == "x"
  {
    EscapeIsPerCharacter("x'");
    EscapeGrows("x'");
    assert '"' !in "x'" && '\\' !in "x'";
    var t := "\"" + "x" + "'\"";
    assert Print(Str("x'")) == t;
    StripOfStripped(t);
    StripQuotesCore("\"", "x", "'\"");
  }

  // ------------------------------------------------------------ lines stay lines

  predicate OneLine(text: string) {
    '\n' !in text
  }

  lemma LineEnds(text: string)
    requires OneLine(text)
    ensures IndexOf(text + "\n", '\n') == |text|
  {
    assert (text + "\n")[..|text|] == text;
    IndexOfIs(text + "\n", '\n', |text|);
  }

  lemma FieldOneLine(f: Field)
    requires PlainKey(f.key) && Clean(f.value)
    ensures OneLine(FieldText(f))
  {
    PrintedIsOneLine(f.value);
    assert forall i :: 0 <= i < |f.key| ==> f.key[i] != '\n';
  }

  lemma {:induction false} SubkeysTerminated(m: Mapping, sub: nat)
    requires Renderable(m)
    ensures Terminated(RenderSubkeys(m, sub))
  {
    hide FieldText, PlainKey, Clean, IndexOf;
    if m != [] {
      assert m[0] in m;
      FieldOneLine(m[0]);
      LineEnds(Spaces(sub) + FieldText(m[0]));
      SubkeysTerminated(m[1..], sub);
    }
  }

  lemma ItemTerminated(m: Mapping, dash: nat, sub: nat)
    requires Renderable(m)
    ensures Terminated(RenderItem(m, dash, sub))
  {
    hide FieldText, PlainKey, Clean, IndexOf;
    if m == [] {
      LineEnds(Spaces(dash) + "- {}");
      assert Spaces(dash) + "- {}" + "\n" == Spaces(dash) + "- {}\n";
    } else {
      assert m[0] in m;
      FieldOneLine(m[0]);
      LineEnds(Spaces(dash) + "- " + FieldText(m[0]));
      SubkeysTerminated(m[1..], sub);
    }
  }

  lemma {:induction false} ItemsTerminated(items: seq<Mapping>, dash: nat, sub: nat)
    requires forall m :: m in items ==> Renderable(m)
    ensures Terminated(RenderItems(items, dash, sub))
  {
    hide RenderItem, Renderable, IndexOf;
    if items != [] {
      assert items[0] in items;
      ItemTerminated(items[0], dash, sub);
      ItemsTerminated(items[1..], dash, sub);
    }
  }

  lemma CommentOneLine(header: string)
    requires header != "" && IndexOf(header, '\n') == |header| - 1
    ensures OneLine(HeaderComment(header))
  {
    hide IndexOf, Strip, ChopNewlines;
    IndexOfFacts(header, '\n');
    ChopOnce(header);
    var after := AfterColon(ChopNewlines(header));
    assert OneLine(after);
    var i := IndexOf(after, '#');
    if i < |after| {
      StripOneLine(after[i..]);
    }
  }

  lemma StripOneLine(t: string)
    requires OneLine(t)
    ensures OneLine(Strip(t))
  {
    hide LStrip, RStrip, IsSpace;
    LStripSplits(t);
    RStripSplits(LStrip(t));
  }

  lemma HeaderTerminated(section: string, comment: string, empty: bool)
    requires SectionName(section) && OneLine(comment)
    ensures Terminated([NewHeader(section, comment, empty)])
  {
    hide IndexOf;
    var gap := if empty then ": []" else ":";
    assert forall k :: 0 <= k < |section| ==> section[k] != '\n';
    LineEnds(section + gap + comment);
  }

  lemma ChopOnce(header: string)
    requires header != "" && header[|header| - 1] == '\n' && OneLine(header[..|header| - 1])
    ensures ChopNewlines(header) == header[..|header| - 1]
  {
    var t := header[..|header| - 1];
    assert t != "" ==> t[|t| - 1] in t;
  }

  lemma {:induction false} KeptLines(d: nat, wanted: map<string, string>, body: Lines)
    ensures forall l :: l in Kept(d, wanted, body).0 ==> l in body
    decreases |body|
  {
    hide ItemStart, ChunkMatches;
    if body != [] {
      if !ItemStart(d, body[0]) {
        KeptLines(d, wanted, body[1..]);
      } else {
        var n := ChunkLength(d, body);
        KeptLines(d, wanted, body[n..]);
      }
    }
  }

  // The file written by a call splits into the very lines that the call meant.
  lemma StepTerminated(st: State, edit: Edit)
    requires SectionName(edit.section) && Callable(st, edit) && Writable(edit) && Terminated(st.lines)
    ensures Terminated(Step(st, edit).lines)
  {
    hide IndexOf, HeaderIndex, RenderItem, RenderItems, NewHeader, HeaderComment, DetectIndent, WalkBack, AlreadySet,
         Kept, Blank, BlockEnd, Renderable, Comparable, Unmatched, SectionName;
    var s := edit.section;
    var h := HeaderIndex(st.lines, s);
    match edit {
      case Append(_, entry) =>
        if h < |st.lines| {
          var (dash, sub) := DetectIndent(st.lines[h + 1..BlockEnd(st.lines, h)]);
          ItemTerminated(entry, dash, sub);
        }
      case Set(_, entries) =>
        if h == |st.lines| {
          NewlineTerminated();
          HeaderTerminated(s, "", entries == []);
          ItemsTerminated(entries, 2, 4);
        } else {
          var (dash, sub) := DetectIndent(st.lines[h + 1..BlockEnd(st.lines, h)]);
          CommentOneLine(st.lines[h]);
          HeaderTerminated(s, HeaderComment(st.lines[h]), entries == []);
          ItemsTerminated(entries, dash, sub);
        }
      case Remove(_, wanted) =>
        if h < |st.lines| {
          var e := BlockEnd(st.lines, h);
          KeptLines(DetectIndent(st.lines[h + 1..e]).0, wanted, st.lines[h + 1..e]);
        }
    }
  }

  lemma NewlineTerminated()
    ensures IndexOf("\n", '\n') == 0
  {
  }
}
