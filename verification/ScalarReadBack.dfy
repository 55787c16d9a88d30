/** What a rewritten line of the configuration file says to a YAML reader: exactly the value
    that was written, for every value that can stand unquoted, and for no other. */
module ScalarReadBack {
  import opened Text
  import opened YamlFlow
  import opened YamlPlain
  import opened ScalarEdit

  // ------------------------------------------------------------ one line of a block mapping

  function DropBlanks(s: string): (r: string)
    ensures |r| <= |s|
  {
    if s != "" && s[|s| - 1] == ' ' then DropBlanks(s[..|s| - 1]) else s
  }

  // The key in front of the first colon, when it is a plain one that reads as text. Keys
  // that hold a colon themselves are left to other readers.
  function ReadKey(line: string): Option<Key> {
    var i := IndexOf(line, ':');
    var name := DropBlanks(SkipSpaces(line[..i]));
    if i == |line| || (i + 1 < |line| && line[i + 1] !in " \n") || !Unquoted(name) then None
    else Some(Key(i - |SkipSpaces(line[..i])|, name))
  }

  // Key and value of a line that ends in its only line break.
  function ReadLine(line: string): Option<(Key, Value)> {
    if ReadKey(line).None? || line[|line| - 1] != '\n' then None
    else
      match ReadBehind(line[IndexOf(line, ':') + 1..|line| - 1])
      case None => None
      case Some(v) => Some((ReadKey(line).value, v))
  }

  // One line of printable text.
  predicate OneLine(line: string) {
    forall i :: 0 <= i < |line| ==> CommentChar(line[i]) || (line[i] == '\n' && i == |line| - 1)
  }

  // The values that survive: truth values, integers, and texts that read as themselves.
  predicate Survives(v: Leaf) {
    match v
    case Null => false
    case Bool(_) => true
    case Int(_) => true
    case Str(s) => Unquoted(s)
  }

  // The editor and the reader find the same key, when its name has no outer whitespace.
  lemma KeysAgree(line: string)
    requires ReadKey(line).Some? && KeyOf(line).Some? && Stripped(ReadKey(line).value.name)
    ensures KeyOf(line) == ReadKey(line)
  {
    hide Unquoted, Strip, Stripped, KeyIndent;
    var head := line[..IndexOf(line, ':')];
    var inner := SkipSpaces(head);
    var name := DropBlanks(inner);
    SkipSplits(head);
    DropSplits(inner);
    NotEmpty(name);
    HeadParts(|head| - |inner|, name, |inner| - |name|);
  }

  lemma HeadParts(before: nat, name: string, behind: nat)
    requires name != "" && Stripped(name)
    ensures var head := Spaces(before) + (name + Spaces(behind));
      KeyIndent(head) == before && Strip(head[before..]) == name
  {
    hide Strip, LStrip, Stripped, IsSpace;
    var inner := name + Spaces(behind);
    BlanksAreSpace(before);
    BlanksAreSpace(behind);
    StrippedStarts(name);
    LStripLead(Spaces(before), inner);
    assert (Spaces(before) + inner)[before..] == inner;
    assert "" + name + Spaces(behind) == inner;
    StripCore("", name, Spaces(behind));
  }

  lemma StrippedStarts(name: string)
    requires name != "" && Stripped(name)
    ensures !IsSpace(name[0])
  {
  }

  lemma NotEmpty(name: string)
    requires Unquoted(name)
    ensures name != ""
  {
  }

  lemma BlanksAreSpace(n: nat)
    ensures AllSpace(Spaces(n))
  {
  }

  lemma {:induction false} DropSplits(s: string)
    ensures s == DropBlanks(s) + Spaces(|s| - |DropBlanks(s)|)
  {
    if s != "" && s[|s| - 1] == ' ' {
      DropSplits(s[..|s| - 1]);
      assert s == s[..|s| - 1] + [' '];
    }
  }

  // ------------------------------------------------------------ what is written

  lemma CommentFollows(line: string)
    requires OneLine(line)
    ensures Follows(CommentOf(line))
  {
    hide CommentChar, Strip, IsSpace;
    var i := IndexOf(line, '#');
    if i < |line| {
      var x := line[i + 1..];
      var a := StripIsPart(x);
      StripIsStripped(x);
      forall j | 0 <= j < |Strip(x)|
        ensures CommentChar(Strip(x)[j])
      {
        assert Strip(x)[j] == line[i + 1 + a + j];
        BreakIsSpace();
      }
      Visible();
    }
  }

  lemma BreakIsSpace()
    ensures IsSpace('\n')
  {
  }

  lemma Visible()
    ensures CommentChar(' ') && CommentChar('#')
  {
  }

  lemma StripIsPart(x: string) returns (a: nat)
    ensures a + |Strip(x)| <= |x| && Strip(x) == x[a..a + |Strip(x)|]
  {
    hide LStrip, RStrip, IsSpace;
    LStripSplits(x);
    RStripSplits(LStrip(x));
    a := |x| - |LStrip(x)|;
    assert LStrip(x) == x[a..];
    assert Strip(x) == LStrip(x)[..|Strip(x)|];
  }

  // What the reader sees of a rewritten line.
  lemma RewrittenReads(line: string, text: string)
    requires KeyOf(line).Some? && ReadKey(line).Some?
    ensures ReadLine(Rewritten(line, text))
         == match ReadBehind(" " + text + CommentOf(line)) case None => None case Some(v) => Some((ReadKey(line).value, v))
  {
    hide KeyOf, CommentOf, Rewritten, ReadBehind, Unquoted;
    RewrittenParts(line, text);
    var new', i := Rewritten(line, text), IndexOf(line, ':');
    var behind := ": " + text + CommentOf(line) + "\n";
    assert new' == line[..i] + behind;
    assert new'[i + 1] == behind[1] && new'[|new'| - 1] == behind[|behind| - 1];
    assert new'[i + 1..|new'| - 1] == behind[1..|behind| - 1] == " " + text + CommentOf(line);
  }

  lemma NumberIsUnmarked(t: string)
    requires t != "" && (forall c :: c in t ==> IsPlainChar(c)) && (t[0] == '-' ==> |t| > 1)
    ensures PlainText(t)
  {
    assert t[0] in t && t[|t| - 1] in t;
    assert forall i :: 0 <= i < |t| ==> t[i] in t;
  }

  // Truth values, integers and None are written as plain texts.
  lemma FormatIsPlain(v: Leaf)
    requires !v.Str?
    ensures PlainText(FormatScalar(v))
    ensures !v.Null? ==> Resolved(FormatScalar(v)) == Some(v)
    ensures v.Null? ==> Resolved(FormatScalar(v)) == Some(Str("None"))
    ensures !v.Null? ==> FormatScalar(v) == Print(v)
  {
    if v.Int? {
      hide ResolvePlain, PlainText;
      IntReadsBack(v.n);
      NatReadsBack(if v.n < 0 then -v.n else v.n);
      NumberIsUnmarked(PrintInt(v.n));
      IntIsNoWord(v.n);
    } else {
      hide PlainText, ResolvePlain;
      NumberIsUnmarked(FormatScalar(v));
      if v.Null? { LetterBegins("None"); }
    }
  }

  lemma IntIsNoWord(n: int)
    ensures var t := PrintInt(n); !NullWord(t) && !TrueWord(t) && !FalseWord(t)
  {
    hide NullWord, TrueWord, FalseWord, AllDigits, PrintInt;
    var t := PrintInt(n);
    IntReadsBack(n);
    IntBegins(n);
    if NullWord(t) || TrueWord(t) || FalseWord(t) {
      WordsBegin(t);
      assert false;
    }
  }

  lemma IntBegins(n: int)
    ensures PrintInt(n) != "" && PrintInt(n)[0] !in "~nNyYtToOfF"
  {
    var m := if n < 0 then -n else n;
    NatReadsBack(m);
    assert PrintNat(m)[0] in PrintNat(m);
  }

  // Exactly: whatever the line and its comment, the rewritten line reads as the value that
  // was written if and only if the value survives.
  lemma ReadsBackExactly(line: string, v: Leaf)
    requires KeyOf(line).Some? && ReadKey(line).Some? && OneLine(line)
    ensures ReadLine(Rewritten(line, FormatScalar(v))) == Some((ReadKey(line).value, v)) <==> Survives(v)
  {
    hide KeyOf, ReadKey, ReadLine, OneLine, CommentOf, Rewritten, ReadBehind, PlainText, Resolved;
    RewrittenReads(line, FormatScalar(v));
    CommentFollows(line);
    FollowsIsTail(CommentOf(line));
    if !v.Str? {
      FormatIsPlain(v);
      PlainReads(FormatScalar(v), CommentOf(line));
    } else if Unquoted(v.s) {
      PlainReads(v.s, CommentOf(line));
    } else if ReadBehind(" " + v.s + CommentOf(line)) == Some(v) {
      OnlyPlainReads(v.s, CommentOf(line));
    }
  }

  // A text with ` #` in it reads as the part in front.
  lemma HashCutsOff(line: string, front: string, rest: string)
    requires KeyOf(line).Some? && ReadKey(line).Some? && OneLine(line)
    requires PlainText(front) && Resolved(front).Some? && forall c :: c in rest ==> CommentChar(c)
    ensures ReadLine(Rewritten(line, front + " #" + rest)) == Some((ReadKey(line).value, Resolved(front).value))
  {
    hide KeyOf, ReadKey, ReadLine, OneLine, CommentOf, Rewritten, ReadBehind, PlainText, Resolved;
    var text, c := front + " #" + rest, CommentOf(line);
    RewrittenReads(line, text);
    CommentFollows(line);
    assert " " + text + c == " " + front + (" #" + rest + c);
    HashIsTail(rest, c);
    PlainReads(front, " #" + rest + c);
  }

  lemma HashIsTail(rest: string, c: string)
    requires (forall x :: x in rest ==> CommentChar(x)) && Follows(c)
    ensures Tail(" #" + rest + c)
  {
    var s := " #" + rest + c;
    assert s[0] == ' ' && s[1..] == "#" + rest + c;
    assert SkipSpaces(s[1..]) == s[1..] && s[1..][0] == '#';
  }

  // ------------------------------------------------------------ a batch

  lemma {:induction false} PatchKeepsKeys(lines: Lines, batch: seq<Assignment>)
    ensures SameKeys(lines, Patch(lines, batch))
    decreases |batch|
  {
    hide Replace, KeyOf;
    if batch != [] {
      ReplaceKeepsKeys(lines, batch[0].path, batch[0].value);
      PatchKeepsKeys(Replace(lines, batch[0].path, batch[0].value), batch[1..]);
    }
  }

  lemma PatchedOnce(lines: Lines, batch: seq<Assignment>, a: Assignment)
    requires Batch(batch) && a in batch && a.path != [] && Resolve(lines, a.path).Some?
    ensures var i, after := Resolve(lines, a.path).value, Patch(lines, batch);
      Resolve(after, a.path) == Some(i) && after[i] == Rewritten(lines[i], FormatScalar(a.value)) && KeyOf(lines[i]).Some?
  {
    hide Patch, KeyOf, Rewritten, FormatScalar, Batch, SameKeys, Resolve;
    var i, after := Resolve(lines, a.path).value, Patch(lines, batch);
    PatchKeepsKeys(lines, batch);
    ResolveAlike(lines, after, a.path);
    ResolvedKey(lines, a.path);
    PatchIsPointwise(lines, batch);
    assert PatchedLine(lines, batch, i, after[i]);
    var b :| b in batch && b.path != [] && Resolve(lines, b.path) == Some(i) && after[i] == Rewritten(lines[i], FormatScalar(b.value));
    PathsAreInjective(lines, a.path, b.path);
    SamePathSameValue(batch, a, b);
  }

  // After a batch every path leads where it led, and a line that one of the batch's paths
  // leads to reads as that path's value, exactly when the value survives.
  lemma PatchReadsBackExactly(lines: Lines, batch: seq<Assignment>, a: Assignment)
    requires Batch(batch) && a in batch && a.path != [] && Resolve(lines, a.path).Some?
    requires var line := lines[Resolve(lines, a.path).value]; ReadKey(line).Some? && OneLine(line)
    ensures var i, after := Resolve(lines, a.path).value, Patch(lines, batch);
      && Resolve(after, a.path) == Some(i)
      && (ReadLine(after[i]) == Some((ReadKey(lines[i]).value, a.value)) <==> Survives(a.value))
  {
    hide Patch, KeyOf, ReadKey, ReadLine, OneLine, Rewritten, Survives, FormatScalar, Batch, Resolve;
    PatchedOnce(lines, batch, a);
    ReadsBackExactly(lines[Resolve(lines, a.path).value], a.value);
  }

  // It fails for texts that the setters take unchecked: a mode name `a #b` reads as `a`,
  // and `x: y` leaves a line that no longer reads.
  lemma UncheckedTextIsLost(line: string)
    requires KeyOf(line).Some? && ReadKey(line).Some? && OneLine(line)
    ensures ReadLine(Rewritten(line, "a #b")) == Some((ReadKey(line).value, Str("a")))
    ensures ReadLine(Rewritten(line, "x: y")) == None
  {
    hide KeyOf, ReadKey, ReadLine, OneLine, Rewritten, Resolved, CommentOf, ReadBehind;
    LetterBegins("a");
    assert "a" + " #" + "b" == "a #b";
    HashCutsOff(line, "a", "b");
    RewrittenReads(line, "x: y");
    ColonStops("x", " y" + CommentOf(line));
    assert " " + "x: y" + CommentOf(line) == " " + "x" + (":" + (" y" + CommentOf(line)));
  }

  lemma ColonStops(x: string, behind: string)
    requires x == "x" && behind != "" && behind[0] == ' '
    ensures ReadBehind(" " + x + (":" + behind)) == None
  {
    var s := "x:" + behind;
    assert " " + x + (":" + behind) == " " + s;
    assert (" " + s)[1..] == s && SkipSpaces(" " + s) == s;
    assert s[1..] == ":" + behind;
    assert ScanPlain(s[1..]) == ("", s[1..]);
  }
}
