/** Appending to a section and replacing it, seen by the reader: the section reads
    as the new list, and everything outside its block is left as it was. */
module SectionEdits {
  import opened Text
  import opened YamlFlow
  import opened YamlSection
  import opened SectionReadBack

  // ------------------------------------------- a file around one of its sections

  // A file cut into what precedes a section, its header, its block and the rest.
  ghost predicate Cut(section: string, before: Lines, header: string, body: Lines, after: Lines) {
    && (forall l :: l in before ==> !HasHeader(l, section))
    && HasHeader(header, section)
    && (forall l :: l in body ==> Stays(l))
    && (after != [] ==> !Stays(after[0]))
  }

  function Joined(before: Lines, header: string, body: Lines, after: Lines): Lines {
    before + [header] + body + after
  }

  // What the reader makes of a header, its block and the line that ends it.
  function ReadParts(header: string, body: Lines, after: Lines): Option<seq<Mapping>> {
    var inline := InlineValue(header);
    if after != [] && StartsWith(after[0], "-") then None
    else if inline == "" then ReadBody(body)
    else if inline == "[]" && (forall l :: l in body ==> Ignored(l)) then Some([])
    else None
  }

  lemma {:induction false} HeaderFound(before: Lines, rest: Lines, section: string)
    requires forall l :: l in before ==> !HasHeader(l, section)
    requires rest == [] || HasHeader(rest[0], section)
    ensures HeaderIndex(before + rest, section) == |before|
  {
    hide HasHeader;
    if before == [] {
      assert before + rest == rest;
    } else {
      assert before[0] in before;
      assert (before + rest)[1..] == before[1..] + rest;
      HeaderFound(before[1..], rest, section);
    }
  }

  lemma {:induction false} HeaderFacts(lines: Lines, section: string)
    ensures var h := HeaderIndex(lines, section);
            && (forall l :: l in lines[..h] ==> !HasHeader(l, section))
            && (h < |lines| ==> HasHeader(lines[h], section))
  {
    hide HasHeader;
    if lines != [] && !HasHeader(lines[0], section) {
      HeaderFacts(lines[1..], section);
      var h := HeaderIndex(lines, section);
      assert lines[..h] == [lines[0]] + lines[1..][..h - 1];
    }
  }

  lemma {:induction false} BlockFound(body: Lines, after: Lines)
    requires forall l :: l in body ==> Stays(l)
    requires after == [] || !Stays(after[0])
    ensures BlockLength(body + after) == |body|
  {
    hide Stays;
    if body == [] {
      assert body + after == after;
    } else {
      assert body[0] in body;
      assert (body + after)[1..] == body[1..] + after;
      BlockFound(body[1..], after);
    }
  }

  lemma {:induction false} BlockFacts(rest: Lines)
    ensures var n := BlockLength(rest);
            && (forall l :: l in rest[..n] ==> Stays(l))
            && (n < |rest| ==> !Stays(rest[n]))
  {
    hide Stays;
    if rest != [] && Stays(rest[0]) {
      BlockFacts(rest[1..]);
      var n := BlockLength(rest);
      assert rest[..n] == [rest[0]] + rest[1..][..n - 1];
    }
  }

  lemma Regroup(lines: Lines, h: nat, e: nat)
    requires h < e <= |lines|
    ensures lines == Joined(lines[..h], lines[h], lines[h + 1..e], lines[e..])
  {
  }

  // Every file that has the section can be cut, in the places the editor finds.
  lemma CutAt(lines: Lines, section: string)
    requires HeaderIndex(lines, section) < |lines|
    ensures var h := HeaderIndex(lines, section);
            var e := BlockEnd(lines, h);
            && Cut(section, lines[..h], lines[h], lines[h + 1..e], lines[e..])
            && lines == Joined(lines[..h], lines[h], lines[h + 1..e], lines[e..])
            && ReadSection(lines, section) == ReadParts(lines[h], lines[h + 1..e], lines[e..])
  {
    hide HasHeader, Stays, ReadParts, ReadSection, HeaderIndex, Joined;
    HeaderFacts(lines, section);
    var h := HeaderIndex(lines, section);
    var e := BlockEnd(lines, h);
    BlockFacts(lines[h + 1..]);
    Regroup(lines, h, e);
    assert lines[h + 1..][..e - h - 1] == lines[h + 1..e];
    JoinedIsFound(section, lines[..h], lines[h], lines[h + 1..e], lines[e..]);
  }

  // And a cut file is found again where it was cut.
  lemma JoinedIsFound(section: string, before: Lines, header: string, body: Lines, after: Lines)
    requires Cut(section, before, header, body, after)
    ensures var lines := Joined(before, header, body, after);
            && HeaderIndex(lines, section) == |before|
            && BlockEnd(lines, |before|) == |before| + 1 + |body|
            && ReadSection(lines, section) == ReadParts(header, body, after)
  {
    hide HasHeader, Stays, ReadBody, InlineValue;
    var lines := Joined(before, header, body, after);
    assert lines == before + ([header] + body + after);
    HeaderFound(before, [header] + body + after, section);
    assert lines[|before| + 1..] == body + after;
    BlockFound(body, after);
    assert lines[|before|..] == [header] + body + after;
    assert lines[|before|..][1..] == body + after;
    assert lines[|before|..][1..1 + |body|] == body;
  }

  // -------------------------------------------------------------- lines that stay

  lemma PaddedStays(pad: nat, text: string)
    requires pad >= 1
    ensures Stays(Spaces(pad) + text)
  {
  }

  lemma {:induction false} SubkeysStay(m: Mapping, sub: nat)
    requires sub >= 1
    ensures forall l :: l in RenderSubkeys(m, sub) ==> Stays(l)
  {
    hide FieldText;
    if m != [] {
      PaddedStays(sub, FieldText(m[0]) + "\n");
      assert Spaces(sub) + FieldText(m[0]) + "\n" == Spaces(sub) + (FieldText(m[0]) + "\n");
      SubkeysStay(m[1..], sub);
    }
  }

  lemma ItemStays(m: Mapping, dash: nat, sub: nat)
    requires 1 <= dash && 1 <= sub
    ensures forall l :: l in RenderItem(m, dash, sub) ==> Stays(l)
  {
    hide FieldText;
    if m == [] {
      PaddedStays(dash, "- {}\n");
    } else {
      PaddedStays(dash, "- " + FieldText(m[0]) + "\n");
      assert Spaces(dash) + "- " + FieldText(m[0]) + "\n" == Spaces(dash) + ("- " + FieldText(m[0]) + "\n");
      SubkeysStay(m[1..], sub);
    }
  }

  lemma {:induction false} ItemsStay(items: seq<Mapping>, dash: nat, sub: nat)
    requires 1 <= dash && 1 <= sub
    ensures forall l :: l in RenderItems(items, dash, sub) ==> Stays(l)
  {
    hide Stays, RenderItem;
    if items != [] {
      ItemStays(items[0], dash, sub);
      ItemsStay(items[1..], dash, sub);
    }
  }

  // In a block no dash can be found in column 0.
  lemma {:induction false} DetectedDashIsIndented(body: Lines)
    requires forall l :: l in body ==> Stays(l)
    ensures DetectIndent(body).0 >= 1
  {
    if body != [] {
      assert body[0] in body;
      if DashLine(body[0]) {
        if Ignored(body[0]) { IgnoredIsNoDash(body[0]); }
        LStripBlanksSplits(body[0]);
      } else {
        DetectedDashIsIndented(body[1..]);
      }
    }
  }

  lemma {:induction false} ColumnOfPrefix(a: Lines, b: Lines)
    ensures ItemColumn(a + b) == if FirstContent(a) < |a| then ItemColumn(a) else ItemColumn(b)
  {
    hide Ignored, Indent;
    if a == [] {
      assert a + b == b;
    } else {
      assert (a + b)[1..] == a[1..] + b;
      ColumnOfPrefix(a[1..], b);
    }
  }

  lemma ItemColumnOfItem(m: Mapping, dash: nat, sub: nat, rest: Lines)
    ensures ItemColumn(RenderItem(m, dash, sub) + rest) == dash
  {
    hide FieldText;
    var head := RenderItem(m, dash, sub)[0];
    var text := if m == [] then "- {}\n" else "- " + FieldText(m[0]) + "\n";
    assert head == Spaces(dash) + text;
    PaddedLine(dash, text);
    assert (RenderItem(m, dash, sub) + rest)[0] == head;
  }

  // ---------------------------------------------------------------------- append

  // What append_to_list_section does to the block alone.
  function AppendBody(body: Lines, entry: Mapping): Lines {
    var (dash, sub) := DetectIndent(body);
    var i := WalkBack(body, 0, |body|);
    body[..i] + RenderItem(entry, dash, sub) + body[i..]
  }

  lemma {:induction false} WalkBackShifts(before: Lines, body: Lines, after: Lines, i: nat)
    requires i <= |body|
    ensures WalkBack(before + body + after, |before|, |before| + i) == |before| + WalkBack(body, 0, i)
  {
    hide Blank;
    if i > 0 {
      assert (before + body + after)[|before| + i - 1] == body[i - 1];
      WalkBackShifts(before, body, after, i - 1);
    }
  }

  lemma {:induction false} WalkBackFacts(body: Lines, i: nat)
    requires i <= |body|
    ensures var r := WalkBack(body, 0, i); forall l :: l in body[r..i] ==> Ignored(l)
  {
    if i > 0 && Blank(body[i - 1]) {
      hide Blank, Comment;
      WalkBackFacts(body, i - 1);
      var r := WalkBack(body, 0, i);
      assert body[r..i] == body[r..i - 1] + [body[i - 1]];
    }
  }

  lemma AppendIsLocal(section: string, before: Lines, header: string, body: Lines, after: Lines, entry: Mapping)
    requires Cut(section, before, header, body, after)
    ensures HeaderIndex(Joined(before, header, body, after), section) == |before|
    ensures AppendLines(Joined(before, header, body, after), section, entry)
         == Joined(before, header, AppendBody(body, entry), after)
  {
    hide AppendBetween, ReadSection, ReadParts, HeaderIndex, BlockEnd, Cut, AppendBody;
    JoinedIsFound(section, before, header, body, after);
    AppendBetweenIsLocal(before + [header], body, after, entry);
  }

  lemma AppendBetweenIsLocal(a: Lines, body: Lines, after: Lines, entry: Mapping)
    ensures AppendBetween(a + body + after, |a|, |a| + |body|, entry) == a + AppendBody(body, entry) + after
  {
    hide DetectIndent, RenderItem, WalkBack;
    var lines := a + body + after;
    assert lines[|a|..|a| + |body|] == body;
    WalkBackShifts(a, body, after, |body|);
    InsertInside(a, body, after, WalkBack(body, 0, |body|),
                 RenderItem(entry, DetectIndent(body).0, DetectIndent(body).1));
  }

  lemma InsertInside(a: Lines, body: Lines, after: Lines, i: nat, more: Lines)
    requires i <= |body|
    ensures var lines := a + body + after;
            lines[..|a| + i] + more + lines[|a| + i..] == a + (body[..i] + more + body[i..]) + after
  {
    var lines := a + body + after;
    assert lines[..|a| + i] == a + body[..i];
    assert lines[|a| + i..] == body[i..] + after;
  }

  // The block reads as the list with the entry at its end exactly when the entry
  // has no sub-keys or the column found for sub-keys is the one below the dash.
  lemma AppendedBodyReads(body: Lines, entry: Mapping)
    requires ReadBody(body).Some? && Renderable(entry) && forall l :: l in body ==> Stays(l)
    ensures ReadBody(AppendBody(body, entry))
         == if |entry| <= 1 || DetectIndent(body).1 == DetectIndent(body).0 + 2
            then Some(ReadBody(body).value + [entry]) else None
    ensures forall l :: l in AppendBody(body, entry) ==> Stays(l)
  {
    hide RenderItem, Stays, Ignored, ReadLine, Renderable, DetectIndent;
    var items := ReadBody(body).value;
    var (d, sub) := DetectIndent(body);
    DetectedColumn(body);
    var i := WalkBack(body, 0, |body|);
    var a, new', b := body[..i], RenderItem(entry, d, sub), body[i..];
    assert body == a + b;
    WalkBackFacts(body, |body|);
    assert body[i..|body|] == b;
    ReadConcat(d, Some([]), a, b);
    ReadIgnored(d, ReadLines(d, Some([]), a), b);
    ItemReadsBack(d, sub, items, entry);
    ReadConcat(d, Some([]), a, new' + b);
    ReadConcat(d, Some(items), new', b);
    ReadIgnored(d, ReadLines(d, Some(items), new'), b);
    assert a + new' + b == a + (new' + b);
    ColumnOfPrefix(a, new' + b);
    ColumnOfPrefix(a, b);
    ItemColumnOfItem(entry, d, sub, b);
    ItemStays(entry, d, sub);
  }

  // ------------------------------------------------------------------------- set

  lemma NewHeaderReads(section: string, comment: string, empty: bool)
    requires SectionName(section)
    requires comment == "" || (|comment| > 2 && comment[..2] == "  " && comment[2] == '#')
    ensures HasHeader(NewHeader(section, comment, empty), section)
    ensures InlineValue(NewHeader(section, comment, empty)) == if empty then "[]" else ""
  {
    var line := NewHeader(section, comment, empty);
    var gap := if empty then " []" else "";
    var after := gap + comment + "\n";
    assert line == section + ":" + after;
    assert line[..|section| + 1] == section + ":";
    assert line[|section| + 1] == after[0] && after[0] in " \n";
    AfterOwnColon(section, after);
    InlineOf(gap, comment);
  }

  lemma AfterOwnColon(section: string, after: string)
    requires SectionName(section)
    ensures AfterColon(section + ":" + after) == after
  {
    var line := section + ":" + after;
    assert forall i :: 0 <= i < |section| ==> section[i] != ':';
    assert line[..|section|] == section;
    IndexOfIs(line, ':', |section|);
  }

  lemma InlineOf(gap: string, comment: string)
    requires gap == "" || gap == " []"
    requires comment == "" || (|comment| > 2 && comment[..2] == "  " && comment[2] == '#')
    ensures var after := gap + comment + "\n";
            Strip(after[..IndexOf(after, '#')]) == if gap == "" then "" else "[]"
  {
    var after := gap + comment + "\n";
    if comment == "" {
      assert '#' !in after;
      IndexOfAbsent(after, '#');
      assert after[..|after|] == gap + "\n";
      StripInline(gap, "\n");
    } else {
      assert after[..|gap| + 2] == gap + "  ";
      assert after[|gap| + 2] == '#';
      IndexOfIs(after, '#', |gap| + 2);
      StripInline(gap, "  ");
    }
  }

  lemma StripInline(gap: string, tail: string)
    requires (gap == "" || gap == " []") && AllSpace(tail)
    ensures Strip(gap + tail) == if gap == "" then "" else "[]"
  {
    if gap == "" {
      StripCore("", "", tail);
      assert "" + "" + tail == gap + tail;
    } else {
      StripCore(" ", "[]", tail);
      assert " " + "[]" + tail == gap + tail;
    }
  }

  lemma HeaderCommentForm(header: string)
    ensures var c := HeaderComment(header);
            c == "" || (|c| > 2 && c[..2] == "  " && c[2] == '#')
  {
    hide Strip, ChopNewlines, AfterColon;
    var after := AfterColon(ChopNewlines(header));
    var i := IndexOf(after, '#');
    if i < |after| {
      StripAtHash(after[i..]);
    }
  }

  // The lines of a freshly written block.
  lemma SetBodyReads(entries: seq<Mapping>, dash: nat, sub: nat)
    requires 1 <= dash < sub && forall m :: m in entries ==> Renderable(m)
    ensures var body := RenderItems(entries, dash, sub);
            && ReadBody(body) == (if OneLiners(entries) || sub == dash + 2 then Some(entries) else None)
            && (forall l :: l in body ==> Stays(l))
  {
    hide RenderItem, Stays, ReadLine, Renderable;
    var body := RenderItems(entries, dash, sub);
    ItemsStay(entries, dash, sub);
    if entries != [] {
      ItemColumnOfItem(entries[0], dash, sub, RenderItems(entries[1..], dash, sub));
      ItemsReadBackInOrder(dash, sub, [], entries);
      assert [] + entries == entries;
    }
  }

  // set_list_section on a file that has the section, whatever the block held.
  lemma SetIsLocal(section: string, before: Lines, header: string, body: Lines, after: Lines, entries: seq<Mapping>)
    requires Cut(section, before, header, body, after)
    ensures SetLines(Joined(before, header, body, after), section, entries)
         == Joined(before, NewHeader(section, HeaderComment(header), entries == []),
                   RenderItems(entries, DetectIndent(body).0, DetectIndent(body).1), after)
  {
    hide DetectIndent, RenderItems, HasHeader, Stays, ReadSection, ReadParts, NewHeader, HeaderComment;
    var lines := Joined(before, header, body, after);
    JoinedIsFound(section, before, header, body, after);
    assert lines[|before| + 1..|before| + 1 + |body|] == body;
    assert lines[..|before|] == before;
    assert lines[|before|] == header;
    assert lines[|before| + 1 + |body|..] == after;
  }

  // ------------------------------------------------------------- what the author wrote stays

  // The comment of a line.
  function CommentIn(line: string): string {
    var i := IndexOf(line, '#');
    if i == |line| then "" else Strip(line[i..])
  }

  // A new header carries the comment of the old one.
  lemma HeaderKeepsComment(section: string, header: string, empty: bool)
    requires SectionName(section) && HasHeader(header, section)
    ensures CommentIn(NewHeader(section, HeaderComment(header), empty)) == CommentIn(header)
  {
    hide Strip, IndexOf, ChopNewlines, CommentIn, NewHeader, HeaderComment, SectionName;
    var rest := header[|section| + 1..];
    assert header == section + ":" + rest;
    HashBehindName(section, rest);
    ChopKeepsComment(rest);
    CommentOfHeader(section, rest);
    CommentWritten(section, ChopNewlines(rest), empty);
  }

  lemma CommentOfHeader(section: string, rest: string)
    requires SectionName(section)
    ensures HeaderComment(section + ":" + rest)
         == if '#' in ChopNewlines(rest) then "  " + CommentIn(ChopNewlines(rest)) else ""
  {
    hide Strip, IndexOf, ChopNewlines, SectionName, AfterColon;
    ChopBehind(section + ":", rest);
    ColonAfterName(section, ChopNewlines(rest));
    IndexOfFacts(ChopNewlines(rest), '#');
  }

  lemma ChopKeepsComment(rest: string)
    ensures CommentIn(rest) == CommentIn(ChopNewlines(rest))
  {
    hide Strip, IndexOf, ChopNewlines;
    ChopSplits(rest);
    var after, tail := ChopNewlines(rest), rest[|ChopNewlines(rest)|..];
    HashInFront(after, tail);
    IndexOfFacts(after, '#');
    IndexOfFacts(rest, '#');
    if '#' in after {
      var i := IndexOf(after, '#');
      assert rest[i..] == after[i..] + tail;
      StripBefore(after[i..], tail);
    }
  }

  lemma CommentWritten(section: string, after: string, empty: bool)
    requires SectionName(section)
    ensures CommentIn(NewHeader(section, if '#' in after then "  " + CommentIn(after) else "", empty)) == CommentIn(after)
  {
    hide Strip, IndexOf, SectionName;
    IndexOfFacts(after, '#');
    if '#' in after {
      var t := after[IndexOf(after, '#')..];
      StripAtHash(t);
      StripIsStripped(t);
      var gap := if empty then ": []  " else ":  ";
      assert NewHeader(section, "  " + Strip(t), empty) == section + gap + (Strip(t) + "\n");
      HashAt(section, gap, Strip(t) + "\n");
      StripBefore(Strip(t), "\n");
      StripOfStripped(Strip(t));
    } else {
      NoHashIn(section);
      IndexOfAbsent(NewHeader(section, "", empty), '#');
    }
  }

  lemma NoHashIn(section: string)
    requires SectionName(section)
    ensures '#' !in section && ':' !in section
  {
  }

  lemma ColonAfterName(section: string, rest: string)
    requires SectionName(section)
    ensures AfterColon(section + ":" + rest) == rest
  {
    var line := section + ":" + rest;
    NoHashIn(section);
    assert line[..|section|] == section;
    IndexOfIs(line, ':', |section|);
  }

  // The first `#` of a header stands behind its name.
  lemma HashBehindName(section: string, rest: string)
    requires SectionName(section)
    ensures CommentIn(section + ":" + rest) == CommentIn(rest)
  {
    hide Strip, IndexOf;
    var line := section + ":" + rest;
    NoHashIn(section);
    IndexOfFacts(rest, '#');
    if '#' in rest {
      var i := IndexOf(rest, '#');
      assert line[..|section| + 1 + i] == section + ":" + rest[..i];
      IndexOfIs(line, '#', |section| + 1 + i);
      assert line[|section| + 1 + i..] == rest[i..];
    } else {
      IndexOfAbsent(line, '#');
    }
  }

  lemma HashInFront(a: string, b: string)
    requires '#' !in b
    ensures '#' in a ==> IndexOf(a + b, '#') == IndexOf(a, '#')
    ensures '#' !in a ==> '#' !in a + b
  {
    hide IndexOf;
    IndexOfFacts(a, '#');
    if '#' in a {
      assert (a + b)[..IndexOf(a, '#')] == a[..IndexOf(a, '#')];
      IndexOfIs(a + b, '#', IndexOf(a, '#'));
    }
  }

  lemma HashAt(section: string, gap: string, text: string)
    requires SectionName(section) && '#' !in gap && text != "" && text[0] == '#'
    ensures CommentIn(section + gap + text) == Strip(text)
  {
    hide Strip, IndexOf;
    var line := section + gap + text;
    NoHashIn(section);
    assert line[..|section + gap|] == section + gap;
    IndexOfIs(line, '#', |section + gap|);
    assert line[|section + gap|..] == text;
  }

  lemma {:induction false} ChopBehind(lead: string, rest: string)
    requires lead != "" && lead[|lead| - 1] != '\n'
    ensures ChopNewlines(lead + rest) == lead + ChopNewlines(rest)
  {
    if rest != "" {
      assert (lead + rest)[..|lead + rest| - 1] == lead + rest[..|rest| - 1];
      ChopBehind(lead, rest[..|rest| - 1]);
    } else {
      assert lead + rest == lead;
    }
  }

  lemma {:induction false} ChopSplits(s: string)
    ensures var r := ChopNewlines(s); s == r + s[|r|..] && AllSpace(s[|r|..]) && '#' !in s[|r|..]
  {
    if s != "" && s[|s| - 1] == '\n' {
      ChopSplits(s[..|s| - 1]);
      var n := |ChopNewlines(s)|;
      assert s[n..] == s[..|s| - 1][n..] + [s[|s| - 1]];
    }
  }

  lemma StripBefore(s: string, tail: string)
    requires AllSpace(tail)
    ensures Strip(s + tail) == Strip(s)
  {
    hide LStrip, RStrip, IsSpace;
    LStripSplits(s);
    RStripSplits(LStrip(s));
    var lead, core, end := s[..|s| - |LStrip(s)|], Strip(s), LStrip(s)[|Strip(s)|..];
    StripIsStripped(s);
    assert s + tail == lead + core + (end + tail);
    SpacesJoin(end, tail);
    StripCore(lead, core, end + tail);
  }

  lemma SpacesJoin(a: string, b: string)
    requires AllSpace(a) && AllSpace(b)
    ensures AllSpace(a + b)
  {
  }

  // An appended item stands right behind the last line of the block that is not blank, and
  // the blank lines stay behind it.
  lemma AppendedBehindLastLine(body: Lines, entry: Mapping) returns (i: nat)
    ensures i <= |body| && (i > 0 ==> !Blank(body[i - 1])) && forall l :: l in body[i..] ==> Blank(l)
    ensures AppendBody(body, entry)
         == body[..i] + RenderItem(entry, DetectIndent(body).0, DetectIndent(body).1) + body[i..]
  {
    hide Blank, DetectIndent, RenderItem;
    i := WalkBack(body, 0, |body|);
    WalkedOverBlanks(body, |body|);
  }

  lemma {:induction false} WalkedOverBlanks(body: Lines, n: nat)
    requires n <= |body|
    ensures var i := WalkBack(body, 0, n); i > 0 ==> !Blank(body[i - 1])
    ensures forall l :: l in body[WalkBack(body, 0, n)..n] ==> Blank(l)
  {
    hide Blank;
    if n > 0 && Blank(body[n - 1]) {
      WalkedOverBlanks(body, n - 1);
      var i := WalkBack(body, 0, n);
      assert body[i..n] == body[i..n - 1] + [body[n - 1]];
    }
  }

  // A line that says something in column 0: neither blank nor a comment nor indented.
  predicate InColumnZero(line: string) {
    Strip(line) != "" && !StartsWith(LStrip(line), "#") && line[0] != ' ' && line[0] != '\t'
  }

  // Exactly: a block ends at the first line behind its header that says something in
  // column 0, or with the file.
  lemma BlockEndsExactly(lines: Lines, h: nat)
    requires h < |lines|
    ensures var e := BlockEnd(lines, h);
      && (forall k :: h < k < e ==> !InColumnZero(lines[k]))
      && (e < |lines| ==> InColumnZero(lines[e]))
  {
    hide InColumnZero, Stays;
    var rest := lines[h + 1..];
    BlockRunsOn(rest);
    forall k | h < k < BlockEnd(lines, h)
      ensures !InColumnZero(lines[k])
    {
      assert rest[k - h - 1] == lines[k];
    }
  }

  lemma {:induction false} BlockRunsOn(rest: Lines)
    ensures var n := BlockLength(rest);
      (forall k :: 0 <= k < n ==> !InColumnZero(rest[k])) && (n < |rest| ==> InColumnZero(rest[n]))
  {
    hide InColumnZero, Stays;
    if rest != [] {
      StaysOrNot(rest[0]);
      BlockRunsOn(rest[1..]);
    }
  }

  lemma StaysOrNot(line: string)
    ensures Stays(line) <==> !InColumnZero(line)
  {
  }
}
