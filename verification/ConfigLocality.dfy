/** What a run of edits to any sections leaves alone: every line outside their blocks. */
module ConfigLocality {
  import opened Text
  import opened YamlFlow
  import opened YamlSection
  import opened SectionEdits
  import opened SectionRemoval
  import opened ConfigFile

  // The section of the set whose header this line is, if any.
  ghost predicate Heads(line: string, sections: set<string>) {
    exists s :: s in sections && HasHeader(line, s)
  }

  ghost function Headed(line: string, sections: set<string>): (s: string)
    requires Heads(line, sections)
    ensures s in sections && HasHeader(line, s)
  {
    var s :| s in sections && HasHeader(line, s);
    s
  }

  // The lines outside the blocks of these sections, in order. Only the first header of a
  // section is the editor's.
  ghost function Outside(lines: Lines, sections: set<string>): Lines
    decreases |lines|
  {
    if lines == [] then []
    else if Heads(lines[0], sections) then
      Outside(lines[1 + BlockLength(lines[1..])..], sections - {Headed(lines[0], sections)})
    else [lines[0]] + Outside(lines[1..], sections)
  }

  // The sections that have no header in these lines.
  ghost function Left(lines: Lines, sections: set<string>): set<string> {
    set s | s in sections && HeaderIndex(lines, s) == |lines|
  }

  ghost predicate Names(sections: set<string>) {
    forall s :: s in sections ==> SectionName(s)
  }

  lemma HeadsOne(line: string, s: string, sections: set<string>)
    requires Names(sections) && s in sections && HasHeader(line, s)
    ensures Heads(line, sections) && Headed(line, sections) == s
  {
    hide HasHeader, SectionName;
    var t := Headed(line, sections);
    if t != s {
      HeaderNamesOne(line, s, t);
    }
  }

  // A line that heads a section stands in no block.
  lemma StaysHeadsNone(line: string, s: string)
    requires SectionName(s) && Stays(line)
    ensures !HasHeader(line, s)
  {
    hide Stays, SectionName, HasHeader;
    if HasHeader(line, s) {
      NameStart(line, s);
    }
  }

  lemma {:induction false} NoneInBlock(rest: Lines, s: string, n: nat)
    requires SectionName(s) && n <= BlockLength(rest)
    ensures HeaderIndex(rest, s) == n + HeaderIndex(rest[n..], s)
    decreases n
  {
    hide Stays, SectionName, HasHeader;
    if n > 0 {
      StaysHeadsNone(rest[0], s);
      NoneInBlock(rest[1..], s, n - 1);
      assert rest[1..][n - 1..] == rest[n..];
    } else {
      assert rest[0..] == rest;
    }
  }

  // What is outside in the first part does not depend on the part behind it, when that
  // starts with a header of another section.
  lemma {:induction false} OutsideSplits(a: Lines, b: Lines, s: string, sections: set<string>)
    requires Names(sections) && SectionName(s) && b != [] && HasHeader(b[0], s)
    ensures Outside(a + b, sections) == Outside(a, sections) + Outside(b, Left(a, sections))
    decreases |a|
  {
    hide Stays, SectionName, HasHeader, Heads, Headed, HeaderIndex, Left, BlockLength, Names, Outside;
    if a == [] {
      assert a + b == b;
      NothingLeft(sections);
    } else if Heads(a[0], sections) {
      var t, n := Headed(a[0], sections), BlockLength(a[1..]);
      NamesLeft(sections, t);
      OutsideSplits(a[1 + n..], b, s, sections - {t});
      LeftBehindBlock(a, t, sections);
      BlockInFront(a, b, s, sections);
    } else {
      OutsideSplits(a[1..], b, s, sections);
      LeftBehindLine(a, sections);
      LineInFront(a, [], sections);
      LineInFront(a, b, sections);
      assert a[1..] + [] == a[1..] && a + [] == a;
      assert [a[0]] + (Outside(a[1..], sections) + Outside(b, Left(a, sections)))
          == [a[0]] + Outside(a[1..], sections) + Outside(b, Left(a, sections));
    }
  }

  lemma LineInFront(a: Lines, b: Lines, sections: set<string>)
    requires a != [] && !Heads(a[0], sections)
    ensures Outside(a + b, sections) == [a[0]] + Outside(a[1..] + b, sections)
  {
    hide Heads;
    InFront(a, b, 1);
  }

  lemma NamesLeft(sections: set<string>, t: string)
    requires Names(sections)
    ensures Names(sections - {t})
  {
  }

  lemma BlockInFront(a: Lines, b: Lines, s: string, sections: set<string>)
    requires a != [] && Heads(a[0], sections) && SectionName(s) && b != [] && HasHeader(b[0], s)
    ensures var rest := a[1 + BlockLength(a[1..])..];
      && Outside(a, sections) == Outside(rest, sections - {Headed(a[0], sections)})
      && Outside(a + b, sections) == Outside(rest + b, sections - {Headed(a[0], sections)})
  {
    hide Stays, SectionName, HasHeader, Heads, Headed, BlockLength;
    NameStart(b[0], s);
    BlockLengthStops(a[1..], b);
    InFront(a, b, 1);
    InFront(a, b, 1 + BlockLength(a[1..]));
  }

  lemma InFront(a: Lines, b: Lines, k: nat)
    requires a != [] && k <= |a|
    ensures (a + b)[0] == a[0] && (a + b)[k..] == a[k..] + b
  {
  }

  lemma NothingLeft(sections: set<string>)
    ensures Left([], sections) == sections && Outside([], sections) == []
  {
  }

  lemma LeftBehindBlock(a: Lines, t: string, sections: set<string>)
    requires a != [] && Names(sections) && Heads(a[0], sections) && t == Headed(a[0], sections)
    ensures Left(a, sections) == Left(a[1 + BlockLength(a[1..])..], sections - {t})
  {
    hide HasHeader, SectionName, BlockLength, Heads, Headed;
    var n := BlockLength(a[1..]);
    assert a[1..][n..] == a[1 + n..];
    forall s | s in sections
      ensures HeaderIndex(a, s) == |a| <==> s != t && HeaderIndex(a[1 + n..], s) == |a[1 + n..]|
    {
      NoneInBlock(a[1..], s, n);
      if s != t {
        HeaderNamesOne(a[0], t, s);
      }
    }
  }

  lemma LeftBehindLine(a: Lines, sections: set<string>)
    requires a != [] && !Heads(a[0], sections)
    ensures Left(a, sections) == Left(a[1..], sections)
  {
    hide HasHeader;
  }

  // One section's header and block are outside of nothing.
  lemma OutsideOfCut(s: string, before: Lines, header: string, body: Lines, after: Lines, sections: set<string>)
    requires Names(sections) && s in sections && Cut(s, before, header, body, after)
    ensures Outside(Joined(before, header, body, after), sections)
         == Outside(before, sections) + Outside(after, Left(before, sections) - {s})
  {
    hide SectionName, HasHeader, Stays, Outside, Heads, Headed;
    var rest := [header] + body + after;
    assert Joined(before, header, body, after) == before + rest;
    OutsideSplits(before, rest, s, sections);
    HeaderFound(before, [], s);
    assert before + [] == before;
    assert s in Left(before, sections);
    BlockIsDropped(s, header, body, after, Left(before, sections));
  }

  lemma BlockIsDropped(s: string, header: string, body: Lines, after: Lines, sections: set<string>)
    requires Names(sections) && s in sections && HasHeader(header, s)
    requires (forall l :: l in body ==> Stays(l)) && (after != [] ==> !Stays(after[0]))
    ensures Outside([header] + body + after, sections) == Outside(after, sections - {s})
  {
    hide SectionName, HasHeader, Stays, Heads, Headed, BlockLength;
    var rest := [header] + body + after;
    assert rest[1..] == body + after && rest[0] == header;
    BlockFound(body, after);
    assert rest[1 + |body|..] == after;
    HeadsOne(header, s, sections);
  }

  // A blank line at the end is outside, or ends the last block.
  lemma {:induction false} OutsidePadded(lines: Lines, sections: set<string>)
    requires Names(sections)
    ensures Outside(lines + ["\n"], sections) in [Outside(lines, sections), Outside(lines, sections) + ["\n"]]
    decreases |lines|
  {
    hide Stays, SectionName, HasHeader, Headed, BlockLength;
    if lines == [] {
      assert lines + ["\n"] == ["\n"] && ["\n"][1..] == [];
      assert Outside(lines + ["\n"], sections) == if Heads("\n", sections) then [] else ["\n"] by {
        BlankHeadsNone(sections);
      }
    } else {
      assert (lines + ["\n"])[0] == lines[0] && (lines + ["\n"])[1..] == lines[1..] + ["\n"];
      if Heads(lines[0], sections) {
        var n := BlockLength(lines[1..]);
        var rest := lines[1 + n..];
        BlankLengthens(lines[1..]);
        if rest == [] {
          assert (lines + ["\n"])[1 + n + 1..] == [];
        } else {
          assert (lines + ["\n"])[1 + n..] == rest + ["\n"];
          OutsidePadded(rest, sections - {Headed(lines[0], sections)});
        }
      } else {
        OutsidePadded(lines[1..], sections);
        assert [lines[0]] + (Outside(lines[1..], sections) + ["\n"]) == [lines[0]] + Outside(lines[1..], sections) + ["\n"];
      }
    }
  }

  lemma BlankHeadsNone(sections: set<string>)
    requires Names(sections)
    ensures !Heads("\n", sections)
  {
    hide HasHeader;
    forall s | s in sections
      ensures !HasHeader("\n", s)
    {
      BlankLine(s);
    }
  }

  lemma {:induction false} BlankLengthens(rest: Lines)
    ensures BlockLength(rest + ["\n"]) == BlockLength(rest) + if BlockLength(rest) == |rest| then 1 else 0
  {
    hide Stays;
    BlankLine("x");
    if rest == [] {
      assert rest + ["\n"] == ["\n"] && ["\n"][1..] == [];
    } else {
      assert (rest + ["\n"])[1..] == rest[1..] + ["\n"];
      BlankLengthens(rest[1..]);
    }
  }

  // --------------------------------------------------------------- one call, any run

  ghost predicate OnlyBlanks(lines: Lines) {
    forall l :: l in lines ==> l == "\n"
  }

  // Nothing outside goes or moves; only a blank line may come at the end, in front of a
  // section that was added.
  ghost predicate Extends(now: Lines, was: Lines) {
    |was| <= |now| && now[..|was|] == was && OnlyBlanks(now[|was|..])
  }

  lemma StepLeavesTheRest(st: State, edit: Edit, sections: set<string>)
    requires Names(sections) && edit.section in sections && Callable(st, edit)
    ensures Extends(Outside(Step(st, edit).lines, sections), Outside(st.lines, sections))
    ensures HeaderIndex(st.lines, edit.section) < |st.lines| ==>
      Outside(Step(st, edit).lines, sections) == Outside(st.lines, sections)
  {
    hide SectionName, HeaderIndex, BlockEnd, Cut, Outside, Joined, Left, AppendLines, SetLines, RemoveLines,
         AlreadySet, Comparable, Unmatched, NewHeader, RenderItems, Padding;
    var s := edit.section;
    if HeaderIndex(st.lines, s) < |st.lines| {
      var header', body' := EditIsLocal(st, edit);
      var h := HeaderIndex(st.lines, s);
      var e := BlockEnd(st.lines, h);
      OutsideOfCut(s, st.lines[..h], st.lines[h], st.lines[h + 1..e], st.lines[e..], sections);
      OutsideOfCut(s, st.lines[..h], header', body', st.lines[e..], sections);
      assert Outside(Step(st, edit).lines, sections) == Outside(st.lines, sections);
    } else if edit.Set? && !AlreadySet(st, s, edit.entries) {
      AddingLeavesTheRest(st.lines, s, edit.entries, sections);
    }
  }

  lemma AddingLeavesTheRest(lines: Lines, s: string, entries: seq<Mapping>, sections: set<string>)
    requires Names(sections) && s in sections && HeaderIndex(lines, s) == |lines|
    ensures Extends(Outside(SetLines(lines, s, entries), sections), Outside(lines, sections))
  {
    hide SectionName, HeaderIndex, Cut, Outside, Joined, SetLines, NewHeader, RenderItems, Blank;
    var pad := Padding(lines);
    AddedAtEnd(lines, s, entries);
    OutsideOfCut(s, lines + pad, NewHeader(s, "", entries == []), RenderItems(entries, 2, 4), [], sections);
    NothingLeft(Left(lines + pad, sections) - {s});
    if pad == [] {
      assert lines + pad == lines;
    } else {
      OutsidePadded(lines, sections);
    }
  }

  ghost predicate RunCalls(st: State, edits: seq<Edit>, sections: set<string>)
    decreases |edits|
  {
    edits == []
    || (&& edits[0].section in sections && Callable(st, edits[0])
        && RunCalls(Step(st, edits[0]), edits[1..], sections))
  }

  ghost function After(st: State, edits: seq<Edit>, sections: set<string>): State
    requires RunCalls(st, edits, sections)
    decreases |edits|
  {
    if edits == [] then st else After(Step(st, edits[0]), edits[1..], sections)
  }

  // A run of edits to any sections of any file leaves every line outside their blocks, in
  // the same order, whatever the blocks hold. Only in front of a section that a run adds
  // may a blank line join them.
  lemma {:induction false} RunLeavesTheRest(st: State, edits: seq<Edit>, sections: set<string>)
    requires Names(sections) && RunCalls(st, edits, sections)
    ensures Extends(Outside(After(st, edits, sections).lines, sections), Outside(st.lines, sections))
    ensures (forall s :: s in sections ==> HeaderIndex(st.lines, s) < |st.lines|) ==>
      Outside(After(st, edits, sections).lines, sections) == Outside(st.lines, sections)
    decreases |edits|
  {
    hide SectionName, HeaderIndex, Outside, Step, Callable, Extends;
    if edits == [] {
      ExtendsItself(Outside(st.lines, sections));
    } else {
      var next := Step(st, edits[0]);
      StepLeavesTheRest(st, edits[0], sections);
      RunLeavesTheRest(next, edits[1..], sections);
      ExtendsAgain(Outside(After(next, edits[1..], sections).lines, sections), Outside(next.lines, sections),
                   Outside(st.lines, sections));
      forall s | s in sections && HeaderIndex(st.lines, s) < |st.lines|
        ensures HeaderIndex(next.lines, s) < |next.lines|
      {
        SectionsStay(st, edits[0], s);
      }
    }
  }

  lemma ExtendsItself(lines: Lines)
    ensures Extends(lines, lines)
  {
  }

  lemma ExtendsAgain(last: Lines, middle: Lines, first: Lines)
    requires Extends(last, middle) && Extends(middle, first)
    ensures Extends(last, first)
  {
    assert last[..|first|] == last[..|middle|][..|first|];
    forall l | l in last[|first|..]
      ensures l == "\n"
    {
      var i :| |first| <= i < |last| && last[i] == l;
      if i < |middle| {
        assert middle[i] == last[..|middle|][i] && middle[i] in middle[|first|..];
      } else {
        assert l in last[|middle|..];
      }
    }
  }

  // No call takes a section out of the file.
  lemma SectionsStay(st: State, edit: Edit, t: string)
    requires SectionName(edit.section) && SectionName(t) && Callable(st, edit)
    requires HeaderIndex(st.lines, t) < |st.lines|
    ensures HeaderIndex(Step(st, edit).lines, t) < |Step(st, edit).lines|
  {
    hide SectionName, HeaderIndex, BlockEnd, Cut, Joined, AppendLines, SetLines, RemoveLines,
         AlreadySet, Comparable, Unmatched, NewHeader, RenderItems, Padding, ReadSection;
    var s := edit.section;
    if HeaderIndex(st.lines, s) < |st.lines| {
      var header', body' := EditIsLocal(st, edit);
      var h := HeaderIndex(st.lines, s);
      var e := BlockEnd(st.lines, h);
      var before, after := st.lines[..h], st.lines[e..];
      JoinedIsFound(s, before, header', body', after);
      JoinedLength(before, header', body', after);
      if s != t {
        OtherSectionsKeepTheirView(s, t, before, after, st.lines[h], st.lines[h + 1..e], header', body');
      }
    } else if edit.Set? && !AlreadySet(st, s, edit.entries) {
      AddedAtEnd(st.lines, s, edit.entries);
      FoundInFront(st.lines, Padding(st.lines), NewHeader(s, "", edit.entries == []), RenderItems(edit.entries, 2, 4), t);
    }
  }

  lemma JoinedLength(before: Lines, header: string, body: Lines, after: Lines)
    ensures |Joined(before, header, body, after)| > |before|
  {
  }

  lemma FoundInFront(lines: Lines, pad: Lines, header: string, body: Lines, t: string)
    requires HeaderIndex(lines, t) < |lines|
    ensures HeaderIndex(Joined(lines + pad, header, body, []), t) < |Joined(lines + pad, header, body, [])|
  {
    hide HasHeader, HeaderIndex;
    HeaderIndexSkips(lines, pad + [header] + body, t);
    assert Joined(lines + pad, header, body, []) == lines + (pad + [header] + body);
  }
}
