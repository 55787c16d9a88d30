/** What the list-section editor writes is what a reader of the section reads. */
module SectionReadBack {
  import opened Text
  import opened YamlFlow
  import opened YamlPlain
  import opened YamlSection

  // -------------------------------------------------------------- single lines

  lemma FieldReadsBack(f: Field)
    requires PlainKey(f.key) && Clean(f.value)
    ensures ReadField(FieldText(f)) == Some(f)
  {
    var text := FieldText(f);
    assert forall i :: 0 <= i < |f.key| ==> f.key[i] != ':';
    assert text[..|f.key|] == f.key;
    IndexOfIs(text, ':', |f.key|);
    assert text[|f.key| + 2..] == Print(f.value);
    PrintedReadsBackExactlyWhenClean(f.value);
  }

  // A line that starts with `pad` spaces and then something that is neither blank
  // nor a comment.
  lemma PaddedLine(pad: nat, text: string)
    requires text != "" && !IsSpace(text[0]) && text[0] != '#'
    ensures !Ignored(Spaces(pad) + text)
    ensures LStripBlanks(Spaces(pad) + text) == text && Indent(Spaces(pad) + text) == pad
    ensures LStrip(Spaces(pad) + text) == text
  {
    LStripLead(Spaces(pad), text);
    StripIsStripped(Spaces(pad) + text);
    assert (Spaces(pad) + text)[pad] == text[0];
    LStripBlanksLead(Spaces(pad), text);
  }

  lemma {:induction false} LStripBlanksLead(a: string, t: string)
    requires (forall i :: 0 <= i < |a| ==> a[i] == ' ' || a[i] == '\t')
    requires t != "" ==> t[0] != ' ' && t[0] != '\t'
    ensures LStripBlanks(a + t) == t
  {
    if a == "" {
      assert a + t == t;
    } else {
      assert (a + t)[1..] == a[1..] + t;
      LStripBlanksLead(a[1..], t);
    }
  }

  lemma DashLineShape(d: nat, text: string)
    ensures ShapeOf(d, Spaces(d) + "- " + text + "\n") == Item(text)
    ensures ItemStart(d, Spaces(d) + "- " + text + "\n")
    ensures DashLine(Spaces(d) + "- " + text + "\n") && Indent(Spaces(d) + "- " + text + "\n") == d
  {
    var line := Spaces(d) + "- " + text + "\n";
    PaddedLine(d, "- " + text + "\n");
    assert line == Spaces(d) + ("- " + text + "\n");
    assert line[..d + 2] == Spaces(d) + "- ";
    assert line[d + 2..|line| - 1] == text;
  }

  // A sub-key is a sub-key of its item in one column only.
  lemma SubkeyShape(d: nat, sub: nat, f: Field)
    requires d < sub && PlainKey(f.key)
    ensures var line := Spaces(sub) + FieldText(f) + "\n";
            && !ItemStart(d, line)
            && (sub == d + 2 ==> ShapeOf(d, line) == Subkey(FieldText(f)))
            && (sub == d + 1 ==> ShapeOf(d, line) == Foreign)
            && (sub > d + 2 ==> ShapeOf(d, line).Subkey? && ReadField(ShapeOf(d, line).text) == None)
  {
    hide Resolved;
    var line := Spaces(sub) + FieldText(f) + "\n";
    PaddedLine(sub, FieldText(f) + "\n");
    assert line == Spaces(sub) + (FieldText(f) + "\n");
    assert line[sub] == f.key[0];
    assert line[..d + 2][d] == ' ' && (Spaces(d) + "- ")[d] == '-';
    if sub == d + 1 {
      assert line[..d + 2][d + 1] != ' ' && Spaces(d + 2)[d + 1] == ' ';
    } else {
      assert line[..d + 2] == Spaces(d + 2);
      var text := line[d + 2..|line| - 1];
      if sub == d + 2 {
        assert text == FieldText(f);
      } else {
        assert text[0] == ' ';
        assert !PlainKey(text[..IndexOf(text, ':')]);
      }
    }
  }

  // ------------------------------------------------------------ runs of lines

  lemma {:induction false} ReadConcat(d: nat, so: Option<seq<Mapping>>, a: Lines, b: Lines)
    ensures ReadLines(d, so, a + b) == ReadLines(d, ReadLines(d, so, a), b)
    decreases |a|
  {
    if a == [] {
      assert a + b == b;
    } else {
      assert (a + b)[1..] == a[1..] + b;
      ReadConcat(d, ReadLine(d, so, a[0]), a[1..], b);
    }
  }

  lemma {:induction false} ReadNothing(d: nat, body: Lines)
    ensures ReadLines(d, None, body) == None
    decreases |body|
  {
    if body != [] {
      ReadNothing(d, body[1..]);
    }
  }

  lemma {:induction false} ReadIgnored(d: nat, so: Option<seq<Mapping>>, body: Lines)
    requires forall l :: l in body ==> Ignored(l)
    ensures ReadLines(d, so, body) == so
    decreases |body|
  {
    if body != [] {
      assert body[0] in body;
      assert ReadLine(d, so, body[0]) == so;
      ReadIgnored(d, so, body[1..]);
    }
  }

  lemma SubkeyStep(d: nat, items: seq<Mapping>, head: Mapping, f: Field)
    requires head != [] && PlainKey(f.key) && Clean(f.value)
    ensures ReadLine(d, Some(items + [head]), Spaces(d + 2) + FieldText(f) + "\n")
         == Some(items + [head + [f]])
  {
    hide PlainKey, Clean, FieldText, ReadField, ShapeOf;
    SubkeyShape(d, d + 2, f);
    FieldReadsBack(f);
    var all := items + [head];
    assert all[..|all| - 1] == items;
    assert all[|all| - 1] == head;
  }

  lemma HeadStep(d: nat, items: seq<Mapping>, f: Field)
    requires PlainKey(f.key) && Clean(f.value)
    ensures ReadLine(d, Some(items), Spaces(d) + "- " + FieldText(f) + "\n") == Some(items + [[f]])
  {
    DashLineShape(d, FieldText(f));
    FieldReadsBack(f);
    assert FieldText(f)[0] == f.key[0];
  }

  lemma WrongColumnStep(d: nat, sub: nat, so: Option<seq<Mapping>>, f: Field)
    requires d < sub && sub != d + 2 && PlainKey(f.key)
    ensures ReadLine(d, so, Spaces(sub) + FieldText(f) + "\n") == None
  {
    SubkeyShape(d, sub, f);
  }

  lemma {:induction false} SubkeysReadBack(d: nat, items: seq<Mapping>, head: Mapping, m: Mapping)
    requires head != [] && Renderable(m)
    ensures ReadLines(d, Some(items + [head]), RenderSubkeys(m, d + 2)) == Some(items + [head + m])
    decreases |m|
  {
    hide ReadLine, FieldText, PlainKey, Clean;
    if m == [] {
      assert head + m == head;
    } else {
      assert m[0] in m;
      SubkeyStep(d, items, head, m[0]);
      var lines := RenderSubkeys(m, d + 2);
      assert lines[0] == Spaces(d + 2) + FieldText(m[0]) + "\n";
      assert lines[1..] == RenderSubkeys(m[1..], d + 2);
      SubkeysReadBack(d, items, head + [m[0]], m[1..]);
      assert head + [m[0]] + m[1..] == head + m;
    }
  }

  lemma EmptyStep(d: nat, items: seq<Mapping>)
    ensures ReadLine(d, Some(items), Spaces(d) + "- " + "{}" + "\n") == Some(items + [[]])
  {
    DashLineShape(d, "{}");
  }

  // Exactly: a rendered item reads back as itself when its sub-keys stand two
  // columns right of the dash, or when it has none; otherwise nothing reads.
  lemma ItemReadsBack(d: nat, sub: nat, items: seq<Mapping>, m: Mapping)
    requires d < sub && Renderable(m)
    ensures ReadLines(d, Some(items), RenderItem(m, d, sub))
         == if |m| <= 1 || sub == d + 2 then Some(items + [m]) else None
  {
    hide ReadLine, FieldText, PlainKey, Clean;
    var lines := RenderItem(m, d, sub);
    if m == [] {
      EmptyStep(d, items);
      assert lines[0] == Spaces(d) + "- " + "{}" + "\n";
      assert lines[1..] == [];
    } else {
      assert m[0] in m;
      HeadStep(d, items, m[0]);
      assert lines[0] == Spaces(d) + "- " + FieldText(m[0]) + "\n";
      assert lines[1..] == RenderSubkeys(m[1..], sub);
      if sub == d + 2 {
        SubkeysReadBack(d, items, [m[0]], m[1..]);
        assert [m[0]] + m[1..] == m;
      } else if |m| == 1 {
        assert [m[0]] == m;
        assert lines[1..] == [];
      } else {
        SubkeysMisread(d, sub, Some(items + [[m[0]]]), m[1..]);
      }
    }
  }

  lemma SubkeysMisread(d: nat, sub: nat, so: Option<seq<Mapping>>, m: Mapping)
    requires d < sub && sub != d + 2 && m != [] && Renderable(m)
    ensures ReadLines(d, so, RenderSubkeys(m, sub)) == None
  {
    var lines := RenderSubkeys(m, sub);
    assert m[0] in m;
    assert lines[0] == Spaces(sub) + FieldText(m[0]) + "\n";
    WrongColumnStep(d, sub, so, m[0]);
    ReadNothing(d, lines[1..]);
  }

  // Every item of the list has sub-keys that a wrong column would lose.
  predicate OneLiners(items: seq<Mapping>) {
    forall m :: m in items ==> |m| <= 1
  }

  lemma {:induction false} ItemsReadBackInOrder(d: nat, sub: nat, before: seq<Mapping>, items: seq<Mapping>)
    requires d < sub && forall m :: m in items ==> Renderable(m)
    ensures ReadLines(d, Some(before), RenderItems(items, d, sub))
         == if OneLiners(items) || sub == d + 2 then Some(before + items) else None
    decreases |items|
  {
    hide ReadLine, RenderItem, Renderable;
    if items == [] {
      assert before + items == before;
    } else {
      var head := RenderItem(items[0], d, sub);
      var tail := RenderItems(items[1..], d, sub);
      ReadConcat(d, Some(before), head, tail);
      assert items[0] in items;
      ItemReadsBack(d, sub, before, items[0]);
      assert items == [items[0]] + items[1..];
      if |items[0]| <= 1 || sub == d + 2 {
        ItemsReadBackInOrder(d, sub, before + [items[0]], items[1..]);
        assert before + [items[0]] + items[1..] == before + items;
      } else {
        ReadNothing(d, tail);
      }
    }
  }

  // ------------------------------------- where the editor and the reader look

  lemma {:induction false} ColumnOfIgnored(a: Lines, b: Lines)
    requires forall l :: l in a ==> Ignored(l)
    ensures ItemColumn(a + b) == ItemColumn(b)
    decreases |a|
  {
    if a == [] {
      assert a + b == b;
    } else {
      assert a[0] in a;
      assert (a + b)[1..] == a[1..] + b;
      ColumnOfIgnored(a[1..], b);
    }
  }

  // The first line that is not ignored, or |body|.
  function FirstContent(body: Lines): (i: nat)
    ensures i <= |body| && forall l :: l in body[..i] ==> Ignored(l)
    ensures i < |body| ==> !Ignored(body[i])
  {
    if body == [] || !Ignored(body[0]) then 0
    else
      var i := 1 + FirstContent(body[1..]);
      assert body[..i] == [body[0]] + body[1..][..i - 1];
      i
  }

  lemma {:induction false} LStripBlanksSplits(s: string)
    ensures var r := LStripBlanks(s);
            && s == s[..|s| - |r|] + r
            && AllSpace(s[..|s| - |r|])
            && (|r| < |s| ==> s[0] == ' ' || s[0] == '\t')
    ensures LStripBlanks(s) != "" && !IsSpace(LStripBlanks(s)[0]) ==> LStrip(s) == LStripBlanks(s)
  {
    if s != "" && (s[0] == ' ' || s[0] == '\t') {
      LStripBlanksSplits(s[1..]);
      var n := |s| - |LStripBlanks(s)|;
      assert s[..n] == [s[0]] + s[1..][..n - 1];
      assert s == [s[0]] + s[1..];
    }
  }

  // An ignored line is never taken for a dash line.
  lemma IgnoredIsNoDash(line: string)
    requires Ignored(line)
    ensures !DashLine(line)
  {
    LStripBlanksSplits(line);
    StripIsStripped(line);
    LStripSplits(line);
  }

  lemma IgnoredIsNoItemStart(d: nat, line: string)
    requires Ignored(line)
    ensures !ItemStart(d, line)
  {
    if ItemStart(d, line) {
      assert line == Spaces(d) + ("- " + line[d + 2..]);
      PaddedLine(d, "- " + line[d + 2..]);
      assert false;
    }
  }

  lemma {:induction false} DetectSkips(a: Lines, b: Lines)
    requires forall l :: l in a ==> Ignored(l)
    ensures DetectIndent(a + b) == DetectIndent(b)
    decreases |a|
  {
    if a == [] {
      assert a + b == b;
    } else {
      assert a[0] in a;
      IgnoredIsNoDash(a[0]);
      assert (a + b)[1..] == a[1..] + b;
      DetectSkips(a[1..], b);
    }
  }

  // The first telling line of a block that reads is a dash line, and its dash is
  // not in column 0.
  lemma FirstLineIsItem(d: nat, line: string)
    requires ReadLine(d, Some([]), line).Some? && !Ignored(line) && Stays(line)
    ensures DashLine(line) && Indent(line) == d && d >= 1
    ensures ReadLine(d, Some([]), line).value != []
  {
    hide ReadItemHead, ReadField, Ignored, DashLine, Indent;
    assert ShapeOf(d, line).Item?;
    assert line == Spaces(d) + "- " + line[d + 2..|line| - 1] + "\n";
    DashLineShape(d, line[d + 2..|line| - 1]);
  }

  // On a block that reads, the editor finds the reader's column.
  lemma DetectedColumn(body: Lines)
    requires ReadBody(body).Some? && forall l :: l in body ==> Stays(l)
    ensures DetectIndent(body).0 == ItemColumn(body) >= 1
    ensures FirstContent(body) < |body| ==> ReadBody(body).value != []
  {
    hide ReadLine, Stays, DashLine, Ignored, SubIndent, Indent;
    var i := FirstContent(body);
    var a, b := body[..i], body[i..];
    assert body == a + b;
    DetectSkips(a, b);
    ColumnOfIgnored(a, b);
    if b != [] {
      var d := ItemColumn(body);
      ReadConcat(d, Some([]), a, b);
      ReadIgnored(d, Some([]), a);
      assert b[0] in body;
      if ReadLine(d, Some([]), b[0]).None? { ReadNothing(d, b[1..]); }
      FirstLineIsItem(d, b[0]);
      ReadNeverShrinks(d, ReadLine(d, Some([]), b[0]), b[1..]);
    }
  }

  lemma {:induction false} ReadNeverShrinks(d: nat, so: Option<seq<Mapping>>, body: Lines)
    requires ReadLines(d, so, body).Some?
    ensures so.Some? && |ReadLines(d, so, body).value| >= |so.value|
    decreases |body|
  {
    if body != [] {
      ReadNeverShrinks(d, ReadLine(d, so, body[0]), body[1..]);
    }
  }
}
