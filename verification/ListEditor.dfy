/** The list-section editor as the program runs it: loops over the lines of the
    file, splices in place, and an attribute that is updated along. */
module ListEditor {
  import opened Text
  import opened YamlFlow
  import opened YamlSection
  import opened SectionRemoval
  import opened ConfigFile
  import opened SetAsked

  // ------------------------------------------------- the line ranges of the items

  datatype Range = Range(first: nat, end: nat)

  // The ranges that the scan of lines[from..to] still closes; `start` is the dash
  // line of the item that is open, or -1.
  function Ranges(dash: nat, lines: Lines, from: nat, stop: nat, start: int): seq<Range>
    requires from <= stop <= |lines| && -1 <= start < from
    decreases stop - from
  {
    if from == stop then (if start == -1 then [] else [Range(start, stop)])
    else if ItemStart(dash, lines[from]) then
      var below := Ranges(dash, lines, from + 1, stop, from);
      if start == -1 then below else [Range(start, from)] + below
    else Ranges(dash, lines, from + 1, stop, start)
  }

  predicate InOrder(ranges: seq<Range>, lo: nat, hi: nat) {
    if ranges == [] then true
    else lo <= ranges[0].first <= ranges[0].end <= hi && InOrder(ranges[1..], ranges[0].end, hi)
  }

  // The ranges of the items that match.
  function Chosen(wanted: map<string, string>, lines: Lines, ranges: seq<Range>): seq<Range>
    requires InOrder(ranges, 0, |lines|)
  {
    if ranges == [] then []
    else
      var r := ranges[0];
      OrderWeakens(ranges[1..], r.end, 0, |lines|);
      (if ChunkMatches(wanted, lines[r.first..r.end]) then [r] else []) + Chosen(wanted, lines, ranges[1..])
  }

  lemma ChosenOfNone(wanted: map<string, string>, lines: Lines)
    ensures InOrder([], 0, |lines|) && Chosen(wanted, lines, []) == []
  {
  }

  lemma ChosenStep(wanted: map<string, string>, lines: Lines, ranges: seq<Range>, i: nat)
    requires i < |ranges| && InOrder(ranges[i..], 0, |lines|)
    ensures ranges[i].first <= ranges[i].end <= |lines| && InOrder(ranges[i + 1..], 0, |lines|)
    ensures Chosen(wanted, lines, ranges[i..])
         == (if ChunkMatches(wanted, lines[ranges[i].first..ranges[i].end]) then [ranges[i]] else [])
            + Chosen(wanted, lines, ranges[i + 1..])
  {
    hide ChunkMatches;
    assert ranges[i..][0] == ranges[i] && ranges[i..][1..] == ranges[i + 1..];
    OrderWeakens(ranges[i + 1..], ranges[i].end, 0, |lines|);
  }

  lemma {:induction false} OrderWeakens(ranges: seq<Range>, lo: nat, lo': nat, hi: nat)
    requires InOrder(ranges, lo, hi) && lo' <= lo
    ensures InOrder(ranges, lo', hi)
  {
  }

  lemma {:induction false} RangesInOrder(dash: nat, lines: Lines, from: nat, stop: nat, start: int)
    requires from <= stop <= |lines| && -1 <= start < from
    ensures InOrder(Ranges(dash, lines, from, stop, start), if start == -1 then from else start, stop)
    decreases stop - from
  {
    if from < stop {
      if ItemStart(dash, lines[from]) {
        RangesInOrder(dash, lines, from + 1, stop, from);
        if start != -1 {
          var rest := Ranges(dash, lines, from + 1, stop, from);
          var all := [Range(start, from)] + rest;
          assert all[0] == Range(start, from) && all[1..] == rest;
          assert Ranges(dash, lines, from, stop, start) == all;
        }
      } else {
        RangesInOrder(dash, lines, from + 1, stop, start);
        if start == -1 { OrderWeakens(Ranges(dash, lines, from + 1, stop, start), from + 1, from, stop); }
      }
    }
  }

  lemma {:induction false} OrderOfBound(ranges: seq<Range>, lo: nat, hi: nat, hi': nat)
    requires InOrder(ranges, lo, hi) && hi <= hi'
    ensures InOrder(ranges, lo, hi')
  {
    if ranges != [] {
      OrderOfBound(ranges[1..], ranges[0].end, hi, hi');
    }
  }

  lemma {:induction false} ChosenInOrder(wanted: map<string, string>, lines: Lines, ranges: seq<Range>, lo: nat)
    requires InOrder(ranges, lo, |lines|) && InOrder(ranges, 0, |lines|)
    ensures InOrder(Chosen(wanted, lines, ranges), lo, |lines|)
  {
    hide ChunkMatches;
    if ranges != [] {
      var r := ranges[0];
      OrderWeakens(ranges[1..], r.end, 0, |lines|);
      ChosenInOrder(wanted, lines, ranges[1..], r.end);
      var rest := Chosen(wanted, lines, ranges[1..]);
      assert ([r] + rest)[0] == r && ([r] + rest)[1..] == rest;
      assert [] + rest == rest;
      OrderWeakens(rest, r.end, lo, |lines|);
    }
  }

  // Deleting from the bottom up.
  function DeleteAll(lines: Lines, ranges: seq<Range>): (left: Lines)
    requires InOrder(ranges, 0, |lines|)
    ensures ranges != [] ==> |left| >= ranges[0].first
    ensures ranges == [] ==> left == lines
  {
    if ranges == [] then lines
    else
      OrderWeakens(ranges[1..], ranges[0].end, 0, |lines|);
      var below := DeleteAll(lines, ranges[1..]);
      assert ranges[1..] != [] ==> ranges[1..][0].first >= ranges[0].end;
      below[..ranges[0].first] + below[ranges[0].end..]
  }

  lemma {:induction false} ChunkLengthIs(dash: nat, body: Lines, n: nat)
    requires 1 <= n <= |body| && forall j :: 1 <= j < n ==> !ItemStart(dash, body[j])
    requires n < |body| ==> ItemStart(dash, body[n])
    ensures ChunkLength(dash, body) == n
  {
    hide ItemStart;
    if n > 1 {
      ChunkLengthIs(dash, body[1..], n - 1);
    }
  }

  // Deleting the matching ranges leaves the lines that the specification keeps.
  lemma {:induction false} DeletedIsKept(dash: nat, wanted: map<string, string>, lines: Lines,
                                         from: nat, stop: nat, start: int)
    requires from <= stop <= |lines| && -1 <= start < from
    requires start != -1 ==> ItemStart(dash, lines[start])
                             && forall j :: start < j < from ==> !ItemStart(dash, lines[j])
    ensures InOrder(Ranges(dash, lines, from, stop, start), 0, |lines|)
    ensures InOrder(Chosen(wanted, lines, Ranges(dash, lines, from, stop, start)), 0, |lines|)
    ensures var first := (if start == -1 then from else start);
            var (kept, count) := Kept(dash, wanted, lines[first..stop]);
            var chosen := Chosen(wanted, lines, Ranges(dash, lines, from, stop, start));
            |chosen| == count && DeleteAll(lines, chosen) == lines[..first] + kept + lines[stop..]
    decreases stop - from
  {
    hide ItemStart, ChunkMatches, DeleteAll, Chosen, InOrder, Kept;
    var first: nat := if start == -1 then from else start;
    var ranges := Ranges(dash, lines, from, stop, start);
    RangesInOrder(dash, lines, from, stop, start);
    OrderOfBound(ranges, first, stop, |lines|);
    OrderWeakens(ranges, first, 0, |lines|);
    ChosenInOrder(wanted, lines, ranges, 0);
    if from == stop {
      NothingChosen(dash, wanted, lines, stop);
      if start != -1 {
        assert ranges == [Range(start, stop)] + [];
        ItemClosed(dash, wanted, lines, start, stop, stop, []);
      }
    } else if ItemStart(dash, lines[from]) {
      DeletedIsKept(dash, wanted, lines, from + 1, stop, from);
      if start != -1 {
        ItemClosed(dash, wanted, lines, start, from, stop, Ranges(dash, lines, from + 1, stop, from));
      }
    } else {
      DeletedIsKept(dash, wanted, lines, from + 1, stop, start);
      if start == -1 { KeptSkips(dash, wanted, lines, from, stop); }
    }
  }

  lemma NothingChosen(dash: nat, wanted: map<string, string>, lines: Lines, stop: nat)
    requires stop <= |lines|
    ensures InOrder([], 0, |lines|) && Chosen(wanted, lines, []) == [] && DeleteAll(lines, []) == lines
    ensures Kept(dash, wanted, lines[stop..stop]) == ([], 0)
    ensures lines[..stop] + [] + lines[stop..] == lines
  {
  }

  lemma KeptSkips(dash: nat, wanted: map<string, string>, lines: Lines, from: nat, stop: nat)
    requires from < stop <= |lines| && !ItemStart(dash, lines[from])
    ensures var (kept, count) := Kept(dash, wanted, lines[from + 1..stop]);
            && Kept(dash, wanted, lines[from..stop]) == ([lines[from]] + kept, count)
            && lines[..from + 1] + kept == lines[..from] + ([lines[from]] + kept)
  {
    hide ItemStart, ChunkMatches, ChunkLength;
    assert lines[from..stop][0] == lines[from] && lines[from..stop][1..] == lines[from + 1..stop];
    assert lines[..from + 1] == lines[..from] + [lines[from]];
  }

  // The item that opens at `s` closes at `e`; the ranges below it are done.
  lemma ItemClosed(dash: nat, wanted: map<string, string>, lines: Lines, s: nat, e: nat, stop: nat, rest: seq<Range>)
    requires s < e <= stop <= |lines| && ItemStart(dash, lines[s])
    requires forall j :: s < j < e ==> !ItemStart(dash, lines[j])
    requires e < stop ==> ItemStart(dash, lines[e])
    requires InOrder([Range(s, e)] + rest, 0, |lines|) && InOrder(rest, 0, |lines|)
    requires InOrder(Chosen(wanted, lines, rest), 0, |lines|)
    requires var (kept, count) := Kept(dash, wanted, lines[e..stop]);
             |Chosen(wanted, lines, rest)| == count
             && DeleteAll(lines, Chosen(wanted, lines, rest)) == lines[..e] + kept + lines[stop..]
    ensures InOrder(Chosen(wanted, lines, [Range(s, e)] + rest), 0, |lines|)
    ensures var (kept, count) := Kept(dash, wanted, lines[s..stop]);
            var chosen := Chosen(wanted, lines, [Range(s, e)] + rest);
            |chosen| == count && DeleteAll(lines, chosen) == lines[..s] + kept + lines[stop..]
  {
    hide ItemStart, ChunkMatches, DeleteAll, Chosen, InOrder;
    SlicesMeet(lines, s, e, stop);
    ChunkLengthIs(dash, lines[s..stop], e - s);
    OneRange(wanted, lines, s, e, stop, rest);
    DeleteFront(lines, s, e, stop, Kept(dash, wanted, lines[e..stop]).0);
  }

  lemma SlicesMeet(lines: Lines, s: nat, e: nat, stop: nat)
    requires s <= e <= stop <= |lines|
    ensures lines[s..stop][e - s..] == lines[e..stop] && lines[s..stop][..e - s] == lines[s..e]
  {
  }

  // One more range in front of the others.
  lemma OneRange(wanted: map<string, string>, lines: Lines, s: nat, e: nat, stop: nat, rest: seq<Range>)
    requires s <= e <= stop <= |lines| && InOrder([Range(s, e)] + rest, 0, |lines|) && InOrder(rest, 0, |lines|)
    ensures var chosen := Chosen(wanted, lines, [Range(s, e)] + rest);
            var others := Chosen(wanted, lines, rest);
            && InOrder(others, 0, |lines|)
            && chosen == (if ChunkMatches(wanted, lines[s..e]) then [Range(s, e)] + others else others)
            && InOrder(chosen, 0, |lines|)
            && |DeleteAll(lines, others)| >= e
            && DeleteAll(lines, chosen)
               == (if ChunkMatches(wanted, lines[s..e])
                   then DeleteAll(lines, others)[..s] + DeleteAll(lines, others)[e..]
                   else DeleteAll(lines, others))
  {
    hide ChunkMatches;
    var all := [Range(s, e)] + rest;
    assert all[1..] == rest && all[0] == Range(s, e);
    ChosenInOrder(wanted, lines, all, 0);
    ChosenInOrder(wanted, lines, rest, e);
    var others := Chosen(wanted, lines, rest);
    OrderWeakens(others, e, 0, |lines|);
    assert ([Range(s, e)] + others)[1..] == others;
  }

  lemma DeleteFront(lines: Lines, s: nat, e: nat, stop: nat, kept: Lines)
    requires s <= e <= stop <= |lines|
    ensures var below := lines[..e] + kept + lines[stop..];
            && below[..s] + below[e..] == lines[..s] + kept + lines[stop..]
            && below == lines[..s] + (lines[s..e] + kept) + lines[stop..]
  {
  }

  class Config {
    var lines: Lines                        // the file
    var attrs: map<string, seq<Mapping>>    // the list attributes set so far

    constructor (lines: Lines, attrs: map<string, seq<Mapping>>)
      ensures this.lines == lines && this.attrs == attrs
    {
      this.lines, this.attrs := lines, attrs;
    }

    function Now(): State
      reads this
    {
      State(lines, attrs)
    }

    static method FindTopLevelKey(lines: Lines, section: string) returns (idx: int)
      ensures idx == if HeaderIndex(lines, section) == |lines| then -1 else HeaderIndex(lines, section)
    {
      hide HasHeader;
      idx := 0;
      while idx < |lines|
        invariant 0 <= idx <= |lines|
        invariant HeaderIndex(lines, section) == idx + HeaderIndex(lines[idx..], section)
      {
        if HasHeader(lines[idx], section) { return; }
        assert lines[idx..][1..] == lines[idx + 1..];
        idx := idx + 1;
      }
      idx := -1;
    }

    static method FindBlockEnd(lines: Lines, start: nat) returns (e: nat)
      requires start < |lines|
      ensures e == BlockEnd(lines, start)
    {
      hide Ignored;
      e := start + 1;
      while e < |lines|
        invariant start + 1 <= e <= |lines|
        invariant BlockLength(lines[start + 1..]) == e - start - 1 + BlockLength(lines[e..])
      {
        assert lines[e..][1..] == lines[e + 1..];
        if !Ignored(lines[e]) {
          assert lines[e] != "" by { EmptyIsIgnored(); }
          if lines[e][0] != ' ' && lines[e][0] != '\t' { return; }
        }
        e := e + 1;
      }
    }

    static method DetectListItemIndent(lines: Lines, header: nat, end: nat) returns (dash: nat, sub: nat)
      requires header < end <= |lines|
      ensures (dash, sub) == DetectIndent(lines[header + 1..end])
    {
      hide DashLine, Indent, SubkeyHint;
      var idx := header + 1;
      while idx < end
        invariant header + 1 <= idx <= end
        invariant DetectIndent(lines[header + 1..end]) == DetectIndent(lines[idx..end])
      {
        assert lines[idx..end][1..] == lines[idx + 1..end];
        if DashLine(lines[idx]) {
          dash := Indent(lines[idx]);
          var jdx := idx + 1;
          while jdx < end
            invariant idx + 1 <= jdx <= end
            invariant SubIndent(dash, lines[idx + 1..end]) == SubIndent(dash, lines[jdx..end])
          {
            assert lines[jdx..end][1..] == lines[jdx + 1..end];
            if SubkeyHint(lines[jdx]) {
              if Indent(lines[jdx]) > dash { return dash, Indent(lines[jdx]); }
              break;
            }
            jdx := jdx + 1;
          }
          return dash, dash + 2;
        }
        idx := idx + 1;
      }
      return 2, 4;
    }

    static method RenderListItem(value: Mapping, dash: nat, sub: nat) returns (out: Lines)
      ensures out == RenderItem(value, dash, sub)
    {
      hide FieldText;
      if value == [] {
        return [Spaces(dash) + "- {}\n"];
      }
      out := [Spaces(dash) + "- " + FieldText(value[0]) + "\n"];
      var k := 1;
      while k < |value|
        invariant 1 <= k <= |value|
        invariant out + RenderSubkeys(value[k..], sub) == RenderItem(value, dash, sub)
      {
        assert value[k..][0] == value[k] && value[k..][1..] == value[k + 1..];
        var line := Spaces(sub) + FieldText(value[k]) + "\n";
        assert RenderSubkeys(value[k..], sub) == [line] + RenderSubkeys(value[k + 1..], sub);
        out := out + [line];
        k := k + 1;
      }
      assert out + [] == out;
    }

    method AppendToListSection(section: string, entry: Mapping) returns (ok: bool)
      modifies this
      ensures Now() == Step(old(Now()), Append(section, entry))
      ensures ok <==> HeaderIndex(old(lines), section) < |old(lines)|
    {
      hide DetectIndent, RenderItem, HeaderIndex, BlockEnd, Blank;
      var header := FindTopLevelKey(lines, section);
      if header == -1 { return false; }
      var end := FindBlockEnd(lines, header);
      var dash, sub := DetectListItemIndent(lines, header, end);
      var new_lines := RenderListItem(entry, dash, sub);
      var insert := end;
      while insert > header + 1 && Blank(lines[insert - 1])
        invariant header + 1 <= insert <= end
        invariant WalkBack(lines, header + 1, end) == WalkBack(lines, header + 1, insert)
      {
        insert := insert - 1;
      }
      lines := lines[..insert] + new_lines + lines[insert..];
      var existing := if section in attrs then attrs[section] else [];
      attrs := attrs[section := existing + [entry]];
      ok := true;
    }

    static method RenderAll(entries: seq<Mapping>, dash: nat, sub: nat) returns (rendered: Lines)
      ensures rendered == RenderItems(entries, dash, sub)
    {
      hide RenderItem;
      rendered := [];
      var k := 0;
      while k < |entries|
        invariant 0 <= k <= |entries|
        invariant rendered + RenderItems(entries[k..], dash, sub) == RenderItems(entries, dash, sub)
      {
        var item := RenderListItem(entries[k], dash, sub);
        assert entries[k..][0] == entries[k] && entries[k..][1..] == entries[k + 1..];
        assert rendered + (item + RenderItems(entries[k + 1..], dash, sub))
            == rendered + item + RenderItems(entries[k + 1..], dash, sub);
        rendered := rendered + item;
        k := k + 1;
      }
      assert rendered + [] == rendered;
    }

    method SetListSection(section: string, entries: seq<Mapping>) returns (ok: bool)
      modifies this
      ensures Now() == Step(old(Now()), Set(section, entries))
      ensures !ok ==> Now() == old(Now())
      ensures ProperItems(Existing(old(attrs), section)) && ProperItems(entries) ==>
        && section in attrs && Records(attrs[section]) == Records(entries)
        && (ok <==> !HeldBefore(old(Now()), section, entries))
    {
      hide DetectIndent, RenderItem, HeaderIndex, BlockEnd, Blank, InlineValue, HeaderComment, NewHeader, Ignored, RenderItems, SameList,
           AlreadySet, Step, ProperItems, Records, HeldBefore, Existing;
      SetAsAsked(Now(), section, entries);
      SetSteps(Now(), section, entries);
      SettledExactly(Now(), section, entries);
      var header := FindTopLevelKey(lines, section);
      if section in attrs && SameList(attrs[section], entries) {
        if entries != [] { return false; }
        if header != -1 {
          var end := FindBlockEnd(lines, header);
          var has_block_items := exists l :: l in lines[header + 1..end] && !Ignored(l);
          if InlineValue(lines[header]) == "[]" && !has_block_items { return false; }
        }
      }
      var at: nat, dash: nat, sub: nat := |lines|, 2, 4;
      var rest: Lines := [];
      ghost var front: Lines := lines;
      if header == -1 {
        if lines != [] && !Blank(lines[|lines| - 1]) { lines := lines + ["\n"]; }
        at := |lines|;
        front := lines;
        lines := lines + [NewHeader(section, "", entries == [])];
        HeaderAdded(front, NewHeader(section, "", entries == []));
      } else {
        at := header;
        var end := FindBlockEnd(lines, header);
        dash, sub := DetectListItemIndent(lines, header, end);
        front, rest := lines[..at], lines[end..];
        HeaderReplaced(lines, at, end, NewHeader(section, HeaderComment(lines[header]), entries == []));
        var line := NewHeader(section, HeaderComment(lines[header]), entries == []);
        lines := lines[..header + 1] + lines[end..];
        lines := lines[header := line];
      }
      var rendered := RenderAll(entries, dash, sub);
      assert lines[..at + 1] == front + [lines[at]] && lines[at + 1..] == rest;
      lines := lines[..at + 1] + rendered + lines[at + 1..];
      attrs := attrs[section := entries];
      ok := true;
    }

    static lemma SetSteps(st: State, section: string, entries: seq<Mapping>)
      ensures Step(st, Set(section, entries))
           == if AlreadySet(st, section, entries) then st
              else State(SetLines(st.lines, section, entries), st.attrs[section := entries])
    {
    }

    static lemma SettledExactly(st: State, section: string, entries: seq<Mapping>)
      ensures var h := HeaderIndex(st.lines, section);
        AlreadySet(st, section, entries)
        <==> section in st.attrs && SameList(st.attrs[section], entries)
             && (entries != [] || (h < |st.lines| && InlineValue(st.lines[h]) == "[]"
                                   && !exists l :: l in st.lines[h + 1..BlockEnd(st.lines, h)] && !Ignored(l)))
    {
      hide SameList, InlineValue, HeaderIndex, BlockEnd, Ignored;
    }

    static lemma HeaderAdded(front: Lines, line: string)
      ensures var more := front + [line];
              more[..|front| + 1] == front + [line] && more[|front| + 1..] == [] && more[|front|] == line
    {
    }

    static lemma HeaderReplaced(lines: Lines, h: nat, end: nat, line: string)
      requires h < end <= |lines|
      ensures var cut := (lines[..h + 1] + lines[end..])[h := line];
              cut[..h + 1] == lines[..h] + [line] && cut[h + 1..] == lines[end..] && cut[h] == line
    {
    }

    // The crude scan of one item.
    static method ScanItem(chunk: Lines) returns (fields: map<string, string>)
      ensures fields == Scan(chunk)
    {
      hide Strip, StripQuotes, IndexOf, StartsWith;
      fields := map[];
      var i := 0;
      while i < |chunk|
        invariant 0 <= i <= |chunk|
        invariant fields == Scan(chunk[..i])
      {
        var stripped := Strip(chunk[i]);
        if StartsWith(stripped, "- ") { stripped := Rest(stripped); }
        assert chunk[..i + 1][..i] == chunk[..i];
        var colon := IndexOf(stripped, ':');
        if !(colon == |stripped| || StartsWith(stripped, "#")) {
          fields := fields[Strip(stripped[..colon]) := StripQuotes(Strip(stripped[colon + 1..]))];
        }
        i := i + 1;
      }
      assert chunk[..|chunk|] == chunk;
    }

    static function Rest(s: string): string
      requires StartsWith(s, "- ")
    {
      s[2..]
    }

    static method ItemRanges(lines: Lines, dash: nat, from: nat, stop: nat) returns (ranges: seq<Range>)
      requires from <= stop <= |lines|
      ensures ranges == Ranges(dash, lines, from, stop, -1)
    {
      hide ItemStart;
      ranges := [];
      var start, idx := -1, from;
      while idx < stop
        invariant from <= idx <= stop && -1 <= start < idx
        invariant ranges + Ranges(dash, lines, idx, stop, start) == Ranges(dash, lines, from, stop, -1)
      {
        if ItemStart(dash, lines[idx]) {
          if start != -1 { ranges := ranges + [Range(start, idx)]; }
          start := idx;
        }
        idx := idx + 1;
      }
      if start != -1 { ranges := ranges + [Range(start, stop)]; }
    }

    static method MatchingRanges(lines: Lines, wanted: map<string, string>, ranges: seq<Range>)
      returns (removed: seq<Range>)
      requires InOrder(ranges, 0, |lines|)
      ensures removed == Chosen(wanted, lines, ranges)
    {
      hide Scan, FieldsMatch, Chosen, InOrder;
      removed := [];
      var i := 0;
      assert ranges[0..] == ranges;
      while i < |ranges|
        invariant 0 <= i <= |ranges| && InOrder(ranges[i..], 0, |lines|)
        invariant removed + Chosen(wanted, lines, ranges[i..]) == Chosen(wanted, lines, ranges)
      {
        var r := ranges[i];
        ChosenStep(wanted, lines, ranges, i);
        var fields := ScanItem(lines[r.first..r.end]);
        if FieldsMatch(wanted, fields) {
          removed := removed + [r];
        }
        i := i + 1;
      }
      ChosenOfNone(wanted, lines);
      assert ranges[i..] == [] && removed + [] == removed;
    }

    // From the bottom up, so that earlier indices stay valid.
    static method DeleteRanges(file: Lines, removed: seq<Range>) returns (lines: Lines)
      requires InOrder(removed, 0, |file|)
      ensures lines == DeleteAll(file, removed)
    {
      lines := file;
      var j := |removed|;
      while j > 0
        invariant 0 <= j <= |removed|
        invariant InOrder(removed[j..], 0, |file|) && lines == DeleteAll(file, removed[j..])
      {
        InOrderFrom(removed, j - 1, |file|);
        assert removed[j - 1..][0] == removed[j - 1] && removed[j - 1..][1..] == removed[j..];
        assert removed[j..] != [] ==> removed[j..][0].first >= removed[j - 1].end;
        lines := lines[..removed[j - 1].first] + lines[removed[j - 1].end..];
        j := j - 1;
      }
      assert removed[0..] == removed;
    }

    method RemoveFromListSection(section: string, wanted: map<string, string>) returns (count: nat)
      requires Callable(Now(), Remove(section, wanted))
      modifies this
      ensures Now() == Step(old(Now()), Remove(section, wanted))
      ensures count == if wanted == map[] || HeaderIndex(old(lines), section) == |old(lines)| then 0
                       else RemoveLines(old(lines), section, wanted).1
    {
      hide HeaderIndex, BlockEnd, DetectIndent, Kept, Comparable, ItemMatches, Unmatched, Chosen, DeleteAll, InOrder, Ranges;
      if wanted == map[] { return 0; }
      var header := FindTopLevelKey(lines, section);
      if header == -1 { return 0; }
      var end := FindBlockEnd(lines, header);
      var dash, _ := DetectListItemIndent(lines, header, end);
      var ranges := ItemRanges(lines, dash, header + 1, end);
      DeletedIsKept(dash, wanted, lines, header + 1, end, -1);

      var removed := MatchingRanges(lines, wanted, ranges);
      if removed == [] { return 0; }
      lines := DeleteRanges(lines, removed);
      if section in attrs {
        var kept := KeepUnmatched(wanted, attrs[section]);
        attrs := attrs[section := kept];
      }
      count := |removed|;
    }

    static method KeepUnmatched(wanted: map<string, string>, items: seq<Mapping>) returns (kept: seq<Mapping>)
      requires forall m :: m in items ==> Comparable(wanted, m)
      ensures kept == Unmatched(wanted, items)
    {
      hide Comparable, ItemMatches, Unmatched;
      kept := [];
      var i := 0;
      while i < |items|
        invariant 0 <= i <= |items|
        invariant kept + Unmatched(wanted, items[i..]) == Unmatched(wanted, items)
      {
        NextUnmatched(wanted, items, i, kept);
        if !ItemMatches(wanted, items[i]) {
          kept := kept + [items[i]];
        }
        i := i + 1;
      }
      NoneUnmatchedLeft(wanted, items, kept);
    }
  }

  lemma NextUnmatched(wanted: map<string, string>, items: seq<Mapping>, i: nat, kept: seq<Mapping>)
    requires i < |items| && forall m :: m in items ==> Comparable(wanted, m)
    ensures kept + Unmatched(wanted, items[i..])
         == (if ItemMatches(wanted, items[i]) then kept else kept + [items[i]]) + Unmatched(wanted, items[i + 1..])
  {
    hide Comparable, ItemMatches;
    assert items[i..][0] == items[i] && items[i..][1..] == items[i + 1..];
  }

  lemma NoneUnmatchedLeft(wanted: map<string, string>, items: seq<Mapping>, kept: seq<Mapping>)
    ensures kept + Unmatched(wanted, items[|items|..]) == kept
  {
  }

  lemma {:induction false} InOrderFrom(ranges: seq<Range>, j: nat, hi: nat)
    requires j <= |ranges| && InOrder(ranges, 0, hi)
    ensures InOrder(ranges[j..], 0, hi)
    decreases |ranges|
  {
    if j == 0 {
      assert ranges[0..] == ranges;
    } else {
      OrderWeakens(ranges[1..], ranges[0].end, 0, hi);
      InOrderFrom(ranges[1..], j - 1, hi);
      assert ranges[1..][j - 1..] == ranges[j..];
    }
  }

  lemma EmptyIsIgnored()
    ensures Ignored("")
  {
  }
}
