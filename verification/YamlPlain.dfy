/** Scalars that stand unquoted behind a key: what str() writes for a value, and a reader of
    the rest of a block mapping's line (plain scalars of section 7.3.3 of YAML 1.2.2), with
    words, numbers and times resolved as in the YAML 1.1 types that the program's loader
    implements. */
module YamlPlain {
  import opened Text
  import opened YamlFlow

  predicate Scalar(v: Value) {
    !v.List? && !v.Dict?
  }

  // str()
  function PyStr(v: Value): string
    requires Scalar(v)
  {
    match v
    case Null => "None"
    case Bool(b) => if b then "True" else "False"
    case Int(n) => PrintInt(n)
    case Str(s) => s
  }

  // ------------------------------------------------------------ what a word stands for

  predicate Over(s: string, chars: string) {
    forall c :: c in s ==> c in chars
  }

  const DIGITS := "0123456789_"

  function Unsigned(t: string): string {
    if t != "" && t[0] in "+-" then t[1..] else t
  }

  // (:[0-5]?[0-9])+
  predicate Sixtieths(s: string)
    decreases |s|
  {
    && s != "" && s[0] == ':'
    && var i := 1 + IndexOf(s[1..], ':');
       && ((i == 2 && IsDigit(s[1])) || (i == 3 && '0' <= s[1] <= '5' && IsDigit(s[2])))
       && (i == |s| || Sixtieths(s[i..]))
  }

  predicate IntegerForm(t: string) {
    var u := Unsigned(t);
    && u != ""
    && (|| u == "0"
        || (|u| > 1 && u[0] == '0' && Over(u[1..], "01234567_"))
        || (|u| > 2 && u[..2] == "0b" && Over(u[2..], "01_"))
        || (|u| > 2 && u[..2] == "0x" && Over(u[2..], "0123456789abcdefABCDEF_"))
        || ('1' <= u[0] <= '9' && Over(u[1..], DIGITS))
        || ('1' <= u[0] <= '9' && Over(u[1..IndexOf(u, ':')], DIGITS) && Sixtieths(u[IndexOf(u, ':')..])))
  }

  // What follows the point: [0-9_]*([eE][-+][0-9]+)?
  predicate Fraction(s: string) {
    var e := if 'e' in s then IndexOf(s, 'e') else IndexOf(s, 'E');
    && Over(s[..e], DIGITS)
    && (e == |s| || (e + 2 < |s| && s[e + 1] in "+-" && AllDigits(s[e + 2..])))
  }

  predicate FloatForm(t: string) {
    var u := Unsigned(t);
    var point, colon := IndexOf(u, '.'), IndexOf(u, ':');
    || u in [".inf", ".Inf", ".INF"] || t in [".nan", ".NaN", ".NAN"]
    || (|t| > 1 && t[0] == '.' && IsDigit(t[1]) && Fraction(t[1..]))
    || (&& 0 < point < |u| && IsDigit(u[0])
        && (|| (Over(u[..point], DIGITS) && Fraction(u[point + 1..]))
            || (colon < point && Over(u[..colon], DIGITS) && Sixtieths(u[colon..point]) && Over(u[point + 1..], DIGITS))))
  }

  // How many digits stand in front.
  function LeadingDigits(s: string): (n: nat)
    ensures n <= |s|
  {
    if s == "" || !IsDigit(s[0]) then 0 else 1 + LeadingDigits(s[1..])
  }

  predicate ZoneForm(z: string) {
    || z == "" || z == "Z"
    || (z[0] in "+-"
        && var n := LeadingDigits(z[1..]);
           1 <= n <= 2 && (|z| == 1 + n || (|z| == n + 4 && z[1 + n] == ':' && AllDigits(z[n + 2..]))))
  }

  predicate ClockForm(s: string) {
    var h := LeadingDigits(s);
    && 1 <= h <= 2 && |s| >= h + 6
    && s[h] == ':' && AllDigits(s[h + 1..h + 3]) && s[h + 3] == ':' && AllDigits(s[h + 4..h + 6])
    && var rest := s[h + 6..];
       ZoneForm(SkipSpaces(if rest != "" && rest[0] == '.' then rest[1 + LeadingDigits(rest[1..])..] else rest))
  }

  // A date, or a date and a time.
  predicate TimeForm(t: string) {
    && |t| > 7 && AllDigits(t[..4]) && t[4] == '-'
    && var m := LeadingDigits(t[5..]);
       && 1 <= m <= 2 && 6 + m < |t| && t[5 + m] == '-'
       && var d := LeadingDigits(t[6 + m..]);
          var rest := t[6 + m + d..];
          && 1 <= d <= 2
          && (if rest == "" then m == d == 2
              else if rest[0] in "Tt" then ClockForm(rest[1..])
              else rest[0] == ' ' && ClockForm(SkipSpaces(rest)))
  }

  predicate NullWord(t: string) {
    t in ["", "~", "null", "Null", "NULL"]
  }

  predicate TrueWord(t: string) {
    t in ["yes", "Yes", "YES", "true", "True", "TRUE", "on", "On", "ON"]
  }

  predicate FalseWord(t: string) {
    t in ["no", "No", "NO", "false", "False", "FALSE", "off", "Off", "OFF"]
  }

  // The value of a plain scalar. None for the numbers and times that are not modelled, and
  // for the marks of merging and default, which no value can be.
  function Resolved(t: string): Option<Value> {
    if NullWord(t) then Some(Null)
    else if TrueWord(t) then Some(Bool(true))
    else if FalseWord(t) then Some(Bool(false))
    else if ResolvePlain(t).Some? then ResolvePlain(t)
    else if IntegerForm(t) || FloatForm(t) || TimeForm(t) || t == "<<" || t == "=" then None
    else Some(Str(t))
  }

  // A text that begins with a letter and is no word reads as text.
  lemma LetterBegins(t: string)
    requires t != "" && ('a' <= t[0] <= 'z' || 'A' <= t[0] <= 'Z')
    requires !NullWord(t) && !TrueWord(t) && !FalseWord(t)
    ensures Resolved(t) == Some(Str(t))
  {
    hide Sixtieths, Over, Fraction, ClockForm, ZoneForm, LeadingDigits, IndexOf;
    assert t[0] in t;
    assert |t| > 7 ==> t[..4][0] == t[0] && t[0] in t[..4];
  }

  lemma WordsBegin(t: string)
    requires NullWord(t) || TrueWord(t) || FalseWord(t)
    ensures t == "" || t[0] in "~nNyYtToOfF"
  {
  }

  // ------------------------------------------------------------ reading behind a colon

  // Printable and neither a tab nor any line break.
  predicate PlainChar(c: char) {
    ' ' <= c <= '~' || ('\U{a0}' <= c && c !in "\U{2028}\U{2029}\U{feff}\U{fffe}\U{ffff}")
  }

  predicate CommentChar(c: char) {
    PlainChar(c) || c == '\t'
  }

  // The rest of a line after a value: blanks, and a comment set off by one.
  predicate Tail(s: string) {
    s == "" || (s[0] == ' ' && (SkipSpaces(s) == "" || SkipSpaces(s)[0] == '#') && forall c :: c in s ==> CommentChar(c))
  }

  // A plain scalar ends before a comment or blanks that end the line, before a colon that a
  // blank or the end follows, and before characters it cannot hold.
  predicate Stops(s: string) {
    || s == "" || !PlainChar(s[0])
    || (s[0] == ' ' && (SkipSpaces(s) == "" || SkipSpaces(s)[0] == '#'))
    || (s[0] == ':' && (|s| == 1 || s[1] == ' '))
  }

  function ScanPlain(s: string): (string, string) {
    if Stops(s) then ("", s)
    else
      var (t, rest) := ScanPlain(s[1..]);
      ([s[0]] + t, rest)
  }

  // Section 5.3; a dash, a question mark or a colon may begin a plain scalar when no blank
  // follows it.
  predicate Opens(s: string)
    requires s != ""
  {
    if s[0] in "-?:" then |s| > 1 && s[1] != ' ' else s[0] !in ",[]{}#&*!|>'\"%@`"
  }

  // What stands behind the colon, up to the end of the line. Single quotes, tags, anchors
  // and block scalars are left to other readers: none of them is a plain scalar.
  function ReadBehind(s: string): Option<Value> {
    var x := SkipSpaces(s);
    if x == "" then Some(Null)
    else if x[0] == '#' then if Tail(s) then Some(Null) else None
    else if x[0] in "\"[{" then
      match ReadValue(x)
      case None => None
      case Some((v, rest)) => if Tail(rest) then Some(v) else None
    else if !Opens(x) then None
    else
      var (t, rest) := ScanPlain(x);
      if Tail(rest) then Resolved(t) else None
  }

  // ------------------------------------------------------------ which texts are plain

  // No blank at either end, no `: ` and no ` #` inside, no colon at the end, no indicator
  // at the start.
  predicate PlainText(s: string) {
    && s != "" && Opens(s) && PlainInside(s) && s[0] != ' '
  }

  predicate PlainInside(s: string) {
    && (forall c :: c in s ==> PlainChar(c))
    && (s != "" ==> s[|s| - 1] != ' ' && s[|s| - 1] != ':')
    && (forall i :: 0 <= i < |s| - 1 ==> !(s[i] == ':' && s[i + 1] == ' ') && !(s[i] == ' ' && s[i + 1] == '#'))
  }

  // A text that reads as itself: plain, and no word, number or time of another type.
  predicate Unquoted(s: string) {
    PlainText(s) && Resolved(s) == Some(Str(s))
  }

  // What may stand behind a written value.
  predicate Follows(c: string) {
    c == "" || (|c| > 2 && c[..3] == "  #" && forall x :: x in c ==> CommentChar(x))
  }

  lemma {:induction false} SkipInside(s: string, c: string)
    requires s != "" && s[|s| - 1] != ' '
    ensures SkipSpaces(s) != "" && SkipSpaces(s + c) == SkipSpaces(s) + c
    ensures |SkipSpaces(s)| < |s| ==> s[|s| - |SkipSpaces(s)| - 1] == ' ' && SkipSpaces(s) == s[|s| - |SkipSpaces(s)|..]
  {
    if s[0] == ' ' {
      assert (s + c)[1..] == s[1..] + c;
      SkipInside(s[1..], c);
    }
  }

  lemma FollowsIsTail(c: string)
    requires Follows(c)
    ensures Tail(c)
  {
    if c != "" {
      assert c[..3] == "  #";
      assert c[0] == ' ' && c[1] == ' ' && c[2] == '#';
      assert c[1..][0] == ' ' && c[1..][1..][0] == '#';
      assert SkipSpaces(c[1..][1..]) == c[1..][1..];
    }
  }

  lemma {:induction false} InsideIsScanned(s: string, c: string)
    requires PlainInside(s) && Tail(c)
    ensures ScanPlain(s + c) == (s, c)
  {
    if s == "" {
      assert s + c == c;
    } else {
      hide Stops, PlainInside;
      assert (s + c)[1..] == s[1..] + c && (s + c)[0] == s[0];
      InsideShrinks(s);
      InsideIsScanned(s[1..], c);
      GoesOn(s, c);
      assert [s[0]] + s[1..] == s;
    }
  }

  lemma InsideShrinks(s: string)
    requires s != "" && PlainInside(s)
    ensures PlainInside(s[1..])
  {
    var r := s[1..];
    forall i | 0 <= i < |r| - 1
      ensures !(r[i] == ':' && r[i + 1] == ' ') && !(r[i] == ' ' && r[i + 1] == '#')
    {
      assert r[i] == s[i + 1] && r[i + 1] == s[i + 1 + 1];
    }
  }

  lemma GoesOn(s: string, c: string)
    requires s != "" && PlainInside(s)
    ensures !Stops(s + c)
  {
    hide SkipSpaces, PlainChar;
    SkipInside(s, c);
    assert s[0] in s && (s + c)[0] == s[0];
    if s[0] == ':' {
      assert |s| > 1 && (s + c)[1] == s[1];
      assert !(s[0] == ':' && s[0 + 1] == ' ');
    } else if s[0] == ' ' {
      BlankSkips(s);
      var n := |s| - |SkipSpaces(s)|;
      assert !(s[n - 1] == ' ' && s[n - 1 + 1] == '#');
    }
  }

  lemma BlankSkips(s: string)
    requires s != "" && s[0] == ' '
    ensures |SkipSpaces(s)| < |s|
  {
  }

  // A plain text reads as what it resolves to, whatever comment follows it.
  lemma PlainReads(s: string, c: string)
    requires PlainText(s) && Tail(c)
    ensures ReadBehind(" " + s + c) == Resolved(s)
  {
    hide Resolved, ScanPlain, ReadValue, PlainInside, PlainChar;
    assert (" " + s + c)[1..] == s + c;
    assert SkipSpaces(" " + s + c) == s + c;
    InsideIsScanned(s, c);
    assert |s| == 1 || (s + c)[1] == s[1];
  }

  // ------------------------------------------------------------ and no other text

  lemma {:induction false} ScannedIsInside(x: string)
    requires Tail(ScanPlain(x).1)
    ensures var (t, rest) := ScanPlain(x); x == t + rest && PlainInside(t)
  {
    hide Tail, PlainChar;
    if !Stops(x) {
      ScannedIsInside(x[1..]);
      var (t, rest) := ScanPlain(x[1..]);
      assert x == [x[0]] + x[1..];
      TailStarts(rest);
      assert t == "" ==> x[1..] == rest;
      InsideGrows(x, t, rest);
    } else {
      assert "" + x == x;
    }
  }

  lemma TailStarts(rest: string)
    requires Tail(rest)
    ensures rest == "" || (rest[0] == ' ' && (SkipSpaces(rest) == "" || SkipSpaces(rest)[0] == '#'))
  {
  }

  lemma InsideGrows(x: string, t: string, rest: string)
    requires !Stops(x) && x[1..] == t + rest && PlainInside(t)
    requires rest == "" || (rest[0] == ' ' && (SkipSpaces(rest) == "" || SkipSpaces(rest)[0] == '#'))
    ensures PlainInside([x[0]] + t)
  {
    hide PlainChar;
    var s := [x[0]] + t;
    assert SkipSpaces(x) == if x[0] == ' ' then SkipSpaces(x[1..]) else x;
    if t == "" {
      assert x[1..] == rest;
    } else {
      assert x[1] == x[1..][0] == t[0];
      assert x[0] == ' ' && t[0] != ' ' ==> SkipSpaces(x[1..]) == x[1..];
      forall i | 0 <= i < |s| - 1
        ensures !(s[i] == ':' && s[i + 1] == ' ') && !(s[i] == ' ' && s[i + 1] == '#')
      {
        if i > 0 {
          assert s[i] == t[i - 1] && s[i + 1] == t[i - 1 + 1];
        }
      }
    }
  }

  lemma {:induction false} IndexIn(a: string, b: string, ch: char)
    ensures IndexOf(a + b, ch) == if ch in a then IndexOf(a, ch) else |a| + IndexOf(b, ch)
  {
    if a == "" {
      assert a + b == b;
    } else {
      assert (a + b)[1..] == a[1..] + b;
      assert a == [a[0]] + a[1..];
      IndexIn(a[1..], b, ch);
    }
  }

  // Decoding a quoted text moves every character that needs no escape forwards.
  lemma {:induction false} DecodedEarlier(y: string, ch: char)
    requires ch == ' ' || ch == '#'
    requires ReadQuoted(y).Some?
    ensures var t := ReadQuoted(y).value.0;
      IndexOf(t, ch) <= IndexOf(y, ch) && (ch !in t ==> |t| < IndexOf(y, ch))
  {
    hide IndexOf;
    if y[0] == '"' {
      IndexIn("\"", y[1..], ch);
      assert y == "\"" + y[1..];
      IndexOfFacts("", ch);
    } else {
      var n := if y[0] == '\\' then 2 else 1;
      DecodedEarlier(y[n..], ch);
      var t, u := ReadQuoted(y).value.0, ReadQuoted(y[n..]).value.0;
      assert t == [t[0]] + u;
      assert y == y[..n] + y[n..];
      assert ch in y[..n] <==> t[0] == ch;
      OneDecoded(t[0], u, y[..n], y[n..], ch);
    }
  }

  lemma OneDecoded(a: char, u: string, p: string, y: string, ch: char)
    requires p != "" && (ch in p <==> a == ch)
    requires IndexOf(u, ch) <= IndexOf(y, ch) && (ch !in u ==> |u| < IndexOf(y, ch))
    ensures var t := [a] + u; IndexOf(t, ch) <= IndexOf(p + y, ch) && (ch !in t ==> |t| < IndexOf(p + y, ch))
  {
    hide IndexOf;
    IndexIn([a], u, ch);
    IndexIn(p, y, ch);
    IndexOfFacts([a], ch);
    IndexOfFacts(p, ch);
  }

  // So a quoted text never decodes to the very text that was written.
  lemma QuotedIsShorter(s: string, k: nat, c: string)
    requires k < |s| && s[..k] == Spaces(k) && s[k] == '"' && Follows(c)
    requires ReadQuoted((s + c)[k + 1..]).Some?
    ensures ReadQuoted((s + c)[k + 1..]).value.0 != s
  {
    hide ReadQuoted, PlainChar, IndexOf;
    var ch := if k == 0 then ' ' else '#';
    var inner := s[k + 1..];
    DecodedEarlier((s + c)[k + 1..], ch);
    assert (s + c)[k + 1..] == inner + c;
    IndexIn(inner, c, ch);
    FollowsAt(c, ch);
    var lead := s[..k] + ['"'];
    assert s == lead + inner;
    IndexIn(lead, inner, ch);
    assert ch !in lead;
    IndexOfFacts(inner, ch);
    assert ch in s <==> ch in inner;
  }

  lemma FollowsAt(c: string, ch: char)
    requires Follows(c) && (ch == ' ' || ch == '#')
    ensures IndexOf(c, ch) == if c == "" then 0 else if ch == ' ' then 0 else 2
  {
    if c != "" {
      assert c[..3] == "  #";
      assert c[0] == ' ' && c[1] == ' ' && c[2] == '#';
      IndexOfIs(c, ch, if ch == ' ' then 0 else 2);
    }
  }

  lemma {:induction false} SkipSplits(x: string)
    ensures var r := SkipSpaces(x); x == Spaces(|x| - |r|) + r && (r != "" ==> r[0] != ' ')
  {
    if x != "" && x[0] == ' ' {
      SkipSplits(x[1..]);
      assert x == [' '] + x[1..];
    }
  }

  lemma ResolvesToText(t: string, s: string)
    requires Resolved(t) == Some(Str(s))
    ensures t == s && s != ""
  {
    hide IntegerForm, FloatForm, TimeForm;
  }

  // A value begins within the text that was written, if anywhere.
  lemma BeginsInText(s: string, c: string)
    requires Follows(c)
    ensures var x := SkipSpaces(s + c); x != "" && x[0] != '#' ==> |s + c| - |x| < |s|
  {
    hide SkipSpaces, PlainChar;
    var x := SkipSpaces(s + c);
    SkipSplits(s + c);
    var k := |s + c| - |x|;
    if c != "" {
      assert c[..3] == "  #";
      assert c[0] == ' ' && c[1] == ' ' && c[2] == '#';
      assert (s + c)[|s| + 2] == '#';
      assert k <= |s| + 2;
      assert k >= |s| && x != "" ==> x[0] == (s + c)[k] == c[k - |s|];
    }
  }

  lemma NoOtherNode(s: string, c: string)
    requires Follows(c)
    requires var x := SkipSpaces(s + c); x != "" && x[0] in "\"[{" && ReadValue(x).Some?
    ensures ReadValue(SkipSpaces(s + c)).value.0 != Str(s)
  {
    hide SkipSpaces, ReadQuoted, ReadItems, ReadEntries, Follows;
    var x := SkipSpaces(s + c);
    if x[0] == '"' {
      BeginsInText(s, c);
      SkipSplits(s + c);
      var k := |s + c| - |x|;
      assert s[..k] == (s + c)[..k] == Spaces(k);
      assert x == (s + c)[k..] && s[k] == (s + c)[k] == x[0];
      assert x[1..] == (s + c)[k + 1..];
      QuotedIsShorter(s, k, c);
    }
  }

  lemma OpensAlone(s: string, rest: string)
    requires s != "" && Opens(s + rest) && (rest == "" || rest[0] == ' ')
    ensures Opens(s)
  {
    assert (s + rest)[0] == s[0];
    if |s| == 1 {
      assert rest != "" ==> (s + rest)[1] == rest[0];
    } else {
      assert (s + rest)[1] == s[1];
    }
  }

  // Exactly: of all texts only the plain ones read as themselves.
  lemma OnlyPlainReads(s: string, c: string)
    requires Follows(c) && ReadBehind(" " + s + c) == Some(Str(s))
    ensures Unquoted(s)
  {
    hide Resolved, ScanPlain, ReadValue, PlainInside, PlainChar, Follows, Tail;
    var x := SkipSpaces(" " + s + c);
    assert (" " + s + c)[1..] == s + c;
    assert x == SkipSpaces(s + c);
    SkipSplits(s + c);
    if x[0] in "\"[{" {
      NoOtherNode(s, c);
    } else {
      var (t, rest) := ScanPlain(x);
      ScannedIsInside(x);
      ResolvesToText(t, s);
      TailStarts(rest);
      OpensAlone(s, rest);
    }
  }
}
