/** The few string operations of the program that the YAML editor leans on, with
    Python's meaning: `strip`, `lstrip`, `startswith`, `find` and padding. */
module Text {

  datatype Option<+T> = None | Some(value: T)

  // str.isspace(): the characters that strip() removes and that `\s` matches.
  predicate IsSpace(c: char) {
    || c == ' '
    || '\t' <= c <= '\r'
    || '\U{1c}' <= c <= '\U{1f}'
    || c == '\U{85}' || c == '\U{a0}' || c == '\U{1680}'
    || '\U{2000}' <= c <= '\U{200a}'
    || c == '\U{2028}' || c == '\U{2029}' || c == '\U{202f}' || c == '\U{205f}' || c == '\U{3000}'
  }

  predicate AllSpace(s: string) {
    forall i :: 0 <= i < |s| ==> IsSpace(s[i])
  }

  function LStrip(s: string): (r: string)
    ensures |r| <= |s|
  {
    if s == "" || !IsSpace(s[0]) then s else LStrip(s[1..])
  }

  function RStrip(s: string): (r: string)
    ensures |r| <= |s|
  {
    if s == "" || !IsSpace(s[|s| - 1]) then s else RStrip(s[..|s| - 1])
  }

  function Strip(s: string): string {
    RStrip(LStrip(s))
  }

  // True of the strings that strip() leaves alone.
  predicate Stripped(s: string) {
    s == "" || (!IsSpace(s[0]) && !IsSpace(s[|s| - 1]))
  }

  predicate StartsWith(s: string, p: string) {
    |p| <= |s| && s[..|p|] == p
  }

  function Spaces(n: nat): (r: string)
    ensures |r| == n && forall i :: 0 <= i < n ==> r[i] == ' '
  {
    seq(n, _ => ' ')
  }

  // The index of the first occurrence of `c`, or |s| when there is none.
  function IndexOf(s: string, c: char): (i: nat)
    ensures i <= |s| && c !in s[..i]
    ensures i < |s| ==> s[i] == c
  {
    if s == "" || s[0] == c then 0
    else
      var i := 1 + IndexOf(s[1..], c);
      assert s[..i] == [s[0]] + s[1..][..i - 1];
      i
  }

  lemma IndexOfFacts(s: string, c: char)
    ensures IndexOf(s, c) <= |s| && c !in s[..IndexOf(s, c)]
    ensures IndexOf(s, c) < |s| ==> s[IndexOf(s, c)] == c
    ensures IndexOf(s, c) < |s| <==> c in s
  {
    assert s[..|s|] == s;
  }

  lemma {:induction false} IndexOfIs(s: string, c: char, i: nat)
    requires i < |s| && s[i] == c && c !in s[..i]
    ensures IndexOf(s, c) == i
  {
    if i > 0 {
      assert s[..i][0] == s[0];
      assert s[1..][..i - 1] == s[..i][1..];
      IndexOfIs(s[1..], c, i - 1);
    }
  }

  lemma {:induction false} IndexOfAbsent(s: string, c: char)
    requires c !in s
    ensures IndexOf(s, c) == |s|
  {
    if s != "" {
      IndexOfAbsent(s[1..], c);
    }
  }

  lemma {:induction false} LStripSplits(s: string)
    ensures var r := LStrip(s);
            && s == s[..|s| - |r|] + r
            && AllSpace(s[..|s| - |r|])
            && (r != "" ==> !IsSpace(r[0]))
            && (r == "" <==> AllSpace(s))
  {
    if s != "" && IsSpace(s[0]) {
      LStripSplits(s[1..]);
      var n := |s| - |LStrip(s)|;
      assert s[..n] == [s[0]] + s[1..][..n - 1];
      assert s == [s[0]] + s[1..];
    }
  }

  lemma {:induction false} RStripSplits(s: string)
    ensures var r := RStrip(s);
            && s == r + s[|r|..]
            && AllSpace(s[|r|..])
            && (r != "" ==> !IsSpace(r[|r| - 1]))
            && (r == "" <==> AllSpace(s))
  {
    if s != "" && IsSpace(s[|s| - 1]) {
      RStripSplits(s[..|s| - 1]);
      var n := |RStrip(s)|;
      assert s[n..] == s[..|s| - 1][n..] + [s[|s| - 1]];
    }
  }

  // Whitespace around a stripped core goes, the core stays.
  lemma StripCore(a: string, core: string, b: string)
    requires AllSpace(a) && AllSpace(b) && Stripped(core)
    ensures Strip(a + core + b) == core
  {
    if core == "" {
      assert AllSpace(a + core + b);
      StripAllSpace(a + core + b);
    } else {
      LStripLead(a, core + b);
      assert a + (core + b) == a + core + b;
      RStripTrail(core, b);
    }
  }

  lemma StripAllSpace(s: string)
    requires AllSpace(s)
    ensures LStrip(s) == "" && Strip(s) == ""
  {
    LStripSplits(s);
  }

  lemma {:induction false} LStripLead(a: string, t: string)
    requires AllSpace(a) && (t != "" ==> !IsSpace(t[0]))
    ensures LStrip(a + t) == t
  {
    if a == "" {
      assert a + t == t;
    } else {
      assert (a + t)[1..] == a[1..] + t;
      LStripLead(a[1..], t);
    }
  }

  lemma {:induction false} RStripTrail(core: string, b: string)
    requires AllSpace(b) && (core != "" ==> !IsSpace(core[|core| - 1]))
    ensures RStrip(core + b) == core
  {
    if b == "" {
      assert core + b == core;
    } else {
      assert (core + b)[..|core + b| - 1] == core + b[..|b| - 1];
      RStripTrail(core, b[..|b| - 1]);
    }
  }

  lemma StripIsStripped(s: string)
    ensures Stripped(Strip(s)) && |Strip(s)| <= |s|
    ensures Strip(s) == "" <==> AllSpace(s)
  {
    LStripSplits(s);
    RStripSplits(LStrip(s));
  }

  lemma StripOfStripped(s: string)
    requires Stripped(s)
    ensures Strip(s) == s
  {
    StripCore("", s, "");
    assert "" + s + "" == s;
  }

  lemma StripAtHash(t: string)
    requires t != "" && t[0] == '#'
    ensures Strip(t) != "" && Strip(t)[0] == '#'
  {
    hide RStrip;
    assert LStrip(t) == t;
    RStripStart(t);
  }

  lemma RStripStart(t: string)
    requires t != "" && !IsSpace(t[0])
    ensures RStrip(t) != "" && RStrip(t)[0] == t[0]
  {
    hide RStrip, IsSpace;
    RStripSplits(t);
  }
}
