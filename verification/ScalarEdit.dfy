/** Rewriting single scalars of the configuration file by their key path. */
module ScalarEdit {
  import opened Text
  import opened YamlFlow
  import opened YamlPlain

  type Leaf = v: Value | Scalar(v) witness Null
  type Lines = seq<string>
  type Path = seq<string>

  // ------------------------------------------------------------- the line pattern

  // `^\s*[^:#]+:` : the text before the first colon, when no `#` stands in it and it
  // is not empty.
  function KeyPart(line: string): Option<string> {
    var i := IndexOf(line, ':');
    if i == |line| || i == 0 || '#' in line[..i] then None else Some(line[..i])
  }

  // The whitespace that the greedy `\s*` takes, leaving one character for the key.
  function KeyIndent(part: string): nat {
    var core := LStrip(part);
    if core == "" && part != "" then |part| - 1 else |part| - |core|
  }

  datatype Key = Key(indent: nat, name: string)

  function KeyOf(line: string): Option<Key> {
    match KeyPart(line)
    case None => None
    case Some(part) => Some(Key(KeyIndent(part), Strip(part[KeyIndent(part)..])))
  }

  // The indent never takes the whole text in front of the colon.
  lemma KeyLeavesACharacter(line: string)
    requires KeyOf(line).Some?
    ensures KeyOf(line).value.indent < IndexOf(line, ':')
  {
    hide IndexOf, IsSpace;
    LStripSplits(line[..IndexOf(line, ':')]);
  }

  // ------------------------------------------------------------ resolving a path

  // The first line from `idx` on with this key at this indent, before the block of
  // the parent ends. `floor` is the parent's indent, or -1 at the top level.
  function FindKey(lines: Lines, idx: nat, floor: int, indent: nat, name: string): Option<nat>
    requires idx <= |lines|
    decreases |lines| - idx
  {
    if idx == |lines| then None
    else
      match KeyOf(lines[idx])
      case None => FindKey(lines, idx + 1, floor, indent, name)
      case Some(k) =>
        if k.indent <= floor then None
        else if k.indent == indent && k.name == name then Some(idx)
        else FindKey(lines, idx + 1, floor, indent, name)
  }

  // The line that a path leads to.
  function Resolve(lines: Lines, path: Path): (r: Option<nat>)
    requires path != []
    ensures r.Some? ==> r.value < |lines|
    decreases |path|
  {
    var depth := |path| - 1;
    if depth == 0 then BoundedFind(lines, 0, -1, 0, path[0])
    else
      match Resolve(lines, path[..depth])
      case None => None
      case Some(parent) => BoundedFind(lines, parent + 1, 2 * (depth - 1), 2 * depth, path[depth])
  }

  function BoundedFind(lines: Lines, idx: nat, floor: int, indent: nat, name: string): (r: Option<nat>)
    requires idx <= |lines|
    ensures r.Some? ==> idx <= r.value < |lines|
  {
    FindKeyFacts(lines, idx, floor, indent, name);
    FindKey(lines, idx, floor, indent, name)
  }

  lemma {:induction false} FindKeyFacts(lines: Lines, idx: nat, floor: int, indent: nat, name: string)
    requires idx <= |lines|
    ensures var r := FindKey(lines, idx, floor, indent, name);
            r.Some? ==> && idx <= r.value < |lines| && KeyOf(lines[r.value]) == Some(Key(indent, name))
                        && indent > floor
                        && forall j :: idx <= j < r.value && KeyOf(lines[j]).Some? ==> KeyOf(lines[j]).value.indent > floor
    decreases |lines| - idx
  {
    hide KeyOf;
    if idx < |lines| {
      FindKeyFacts(lines, idx + 1, floor, indent, name);
    }
  }

  // ---------------------------------------------------------------- the rewrite

  // The comment is what follows the first `#` of the line, wherever it stands.
  function CommentOf(line: string): string {
    var i := IndexOf(line, '#');
    if i == |line| then "" else "  #" + Strip(line[i + 1..])
  }

  // _format_yaml_scalar
  function FormatScalar(v: Leaf): string {
    if v.Bool? then (if v.b then "true" else "false") else PyStr(v)
  }

  function Rewritten(line: string, value: string): string {
    line[..IndexOf(line, ':')] + ": " + value + CommentOf(line) + "\n"
  }

  function Replace(lines: Lines, path: Path, value: Leaf): Lines {
    if path == [] || Resolve(lines, path).None? then lines
    else
      var i := Resolve(lines, path).value;
      lines[i := Rewritten(lines[i], FormatScalar(value))]
  }

  // ------------------------------------------------------------ one rewritten line

  lemma RewrittenParts(line: string, value: string)
    requires KeyOf(line).Some?
    ensures var head := line[..IndexOf(line, ':')];
            && IndexOf(Rewritten(line, value), ':') == |head|
            && Rewritten(line, value)[..|head|] == head && '#' !in head
            && Rewritten(line, value)[|head|..] == ": " + value + CommentOf(line) + "\n"
  {
    hide CommentOf, Strip, LStrip, IndexOf, KeyIndent;
    var head := line[..IndexOf(line, ':')];
    var new' := Rewritten(line, value);
    assert new' == head + (": " + value + CommentOf(line) + "\n");
    assert new'[..|head|] == head;
    IndexOfFacts(line, ':');
    IndexOfIs(new', ':', |head|);
  }

  // The key and its indent stay, whatever is written.
  lemma RewritingKeepsTheKey(line: string, value: string)
    requires KeyOf(line).Some?
    ensures KeyOf(Rewritten(line, value)) == KeyOf(line)
  {
    hide Rewritten, Strip, LStrip;
    RewrittenParts(line, value);
  }

  // The comment of the rewritten line: kept, or joined by the part of the value
  // behind its `#`.
  lemma CommentAfter(line: string, value: string)
    requires KeyOf(line).Some?
    ensures CommentOf(Rewritten(line, value))
         == if '#' in value then "  #" + Strip(value[IndexOf(value, '#') + 1..] + CommentOf(line) + "\n")
            else CommentOf(line)
  {
    hide Strip, KeyOf, Rewritten, IndexOf, CommentOf;
    RewrittenParts(line, value);
    var head, c := line[..IndexOf(line, ':')], CommentOf(line);
    CommentForm(line);
    assert Rewritten(line, value) == head + (": " + value + c + "\n");
    assert head + (": " + value + c + "\n") == (head + ": ") + value + (c + "\n");
    CommentBehind(head + ": ", value, c);
  }

  lemma CommentBehind(head: string, value: string, c: string)
    requires '#' !in head && (c == "" || (|c| >= 3 && c[..3] == "  #" && Stripped(c[3..])))
    ensures CommentOf(head + value + (c + "\n"))
         == if '#' in value then "  #" + Strip(value[IndexOf(value, '#') + 1..] + c + "\n") else c
  {
    hide Strip, IndexOf, CommentOf;
    IndexOfFacts(value, '#');
    if '#' in value {
      HashSplits(head, value, c + "\n");
      assert value[IndexOf(value, '#') + 1..] + (c + "\n") == value[IndexOf(value, '#') + 1..] + c + "\n";
    } else if c == "" {
      NoComment(head + value + (c + "\n"));
    } else {
      assert c == "  " + ("#" + c[3..]);
      assert head + value + (c + "\n") == (head + value) + c + "\n";
      CommentKept(head + value, c);
    }
  }

  lemma HashSplits(head: string, value: string, tail: string)
    requires '#' !in head && '#' in value
    ensures CommentOf(head + value + tail) == "  #" + Strip(value[IndexOf(value, '#') + 1..] + tail)
  {
    hide Strip, IndexOf, CommentOf;
    var i := IndexOf(value, '#');
    IndexOfFacts(value, '#');
    assert value == value[..i] + ("#" + value[i + 1..]);
    assert head + value + tail == head + value[..i] + ("#" + (value[i + 1..] + tail));
    CommentFrom(head + value[..i], value[i + 1..] + tail);
  }

  lemma CommentKept(head: string, c: string)
    requires '#' !in head && |c| >= 3 && c == "  " + ("#" + c[3..]) && Stripped(c[3..])
    ensures CommentOf(head + c + "\n") == c
  {
    hide Strip, CommentOf;
    assert head + c + "\n" == head + "  " + ("#" + (c[3..] + "\n"));
    CommentFrom(head + "  ", c[3..] + "\n");
    StripCore("", c[3..], "\n");
    assert "" + c[3..] + "\n" == c[3..] + "\n";
  }

  lemma CommentFrom(before: string, rest: string)
    requires '#' !in before
    ensures CommentOf(before + ("#" + rest)) == "  #" + Strip(rest)
  {
    hide Strip;
    var line := before + ("#" + rest);
    assert line[..|before|] == before;
    IndexOfIs(line, '#', |before|);
    assert line[|before| + 1..] == rest;
  }

  lemma NoComment(line: string)
    requires '#' !in line
    ensures CommentOf(line) == ""
  {
    IndexOfAbsent(line, '#');
  }

  lemma CommentForm(line: string)
    ensures var c := CommentOf(line);
            c == "" || (|c| >= 3 && c[..3] == "  #" && Stripped(c[3..]))
  {
    var i := IndexOf(line, '#');
    if i < |line| {
      StripIsStripped(line[i + 1..]);
      assert CommentOf(line)[3..] == Strip(line[i + 1..]);
    }
  }

  // Exactly: writing the same value again changes nothing when it holds no `#`. With
  // a `#` in it the rest of the value turns into a comment that grows at every write.
  lemma IdempotentExactly(line: string, value: string)
    requires KeyOf(line).Some?
    ensures Rewritten(Rewritten(line, value), value) == Rewritten(line, value) <==> '#' !in value
  {
    hide Strip, KeyOf;
    RewritingKeepsTheKey(line, value);
    RewrittenParts(line, value);
    CommentAfter(line, value);
    var once := Rewritten(line, value);
    RewrittenParts(once, value);
    var head, c, c' := line[..IndexOf(line, ':')], CommentOf(line), CommentOf(once);
    assert once == head + ": " + value + c + "\n";
    assert Rewritten(once, value) == head + ": " + value + c' + "\n";
    if '#' in value {
      var tail := value[IndexOf(value, '#') + 1..];
      CommentForm(line);
      if c != "" { CommentGrows(tail, c); }
      assert |c'| > |c|;
    }
  }

  lemma CommentGrows(tail: string, c: string)
    requires |c| >= 3 && c[..3] == "  #" && Stripped(c[3..])
    ensures |Strip(tail + c + "\n")| + 3 > |c|
  {
    hide LStrip, RStrip, IsSpace;
    var s, core := tail + c + "\n", "#" + c[3..];
    assert s == tail + "  " + (core + "\n");
    // the `#` of the old comment is not whitespace, so stripping stops before it
    HashIsSolid();
    assert s[|tail| + 2] == '#';
    LStripStopsAt(s, |tail| + 2);
    var l := LStrip(s);
    assert l == s[|s| - |l|..];
    assert l[|l| - |core| - 1..] == core + "\n";
    LastIsSolid(c[3..]);
    RStripKeeps(l, core, "\n");
  }

  lemma HashIsSolid()
    ensures !IsSpace('#') && AllSpace("\n")
  {
  }

  lemma LastIsSolid(text: string)
    requires Stripped(text)
    ensures !IsSpace(("#" + text)[|text|])
  {
  }

  lemma LStripStopsAt(s: string, k: nat)
    requires k < |s| && !IsSpace(s[k])
    ensures |LStrip(s)| >= |s| - k && LStrip(s) == s[|s| - |LStrip(s)|..]
  {
    hide IsSpace, LStrip;
    LStripSplits(s);
    var n := |s| - |LStrip(s)|;
    forall i | 0 <= i < n
      ensures IsSpace(s[i])
    {
      assert s[..n][i] == s[i];
    }
  }

  lemma RStripKeeps(l: string, core: string, b: string)
    requires AllSpace(b) && core != "" && !IsSpace(core[|core| - 1])
    requires |l| >= |core| + |b| && l[|l| - |core| - |b|..] == core + b
    ensures |RStrip(l)| >= |core|
  {
    var a := l[..|l| - |core| - |b|] + core;
    assert l == a + b;
    assert a[|a| - 1] == core[|core| - 1];
    RStripTrail(a, b);
  }

  // ---------------------------------------------------------- paths and their lines

  // A path's line carries the path's last key, at the indent of its depth.
  lemma {:induction false} ResolvedKey(lines: Lines, path: Path)
    requires path != [] && Resolve(lines, path).Some?
    ensures KeyOf(lines[Resolve(lines, path).value]) == Some(Key(2 * (|path| - 1), path[|path| - 1]))
  {
    hide KeyOf, FindKey;
    var depth := |path| - 1;
    if depth == 0 {
      FindKeyFacts(lines, 0, -1, 0, path[0]);
    } else {
      FindKeyFacts(lines, Resolve(lines, path[..depth]).value + 1, 2 * (depth - 1), 2 * depth, path[depth]);
    }
  }

  // Distinct paths lead to distinct lines.
  lemma {:induction false} PathsAreInjective(lines: Lines, p: Path, q: Path)
    requires p != [] && q != []
    requires Resolve(lines, p).Some? && Resolve(lines, p) == Resolve(lines, q)
    ensures p == q
    decreases |p|
  {
    hide KeyOf, FindKey;
    ResolvedKey(lines, p);
    ResolvedKey(lines, q);
    var depth := |p| - 1;
    assert |q| == |p| && p[depth] == q[depth];
    assert p == p[..depth] + [p[depth]] && q == q[..depth] + [q[depth]];
    if depth > 0 {
      var a, b := Resolve(lines, p[..depth]).value, Resolve(lines, q[..depth]).value;
      ResolvedKey(lines, p[..depth]);
      ResolvedKey(lines, q[..depth]);
      FindKeyFacts(lines, a + 1, 2 * (depth - 1), 2 * depth, p[depth]);
      FindKeyFacts(lines, b + 1, 2 * (depth - 1), 2 * depth, q[depth]);
      assert a == b;
      PathsAreInjective(lines, p[..depth], q[..depth]);
    }
  }

  // Files whose lines carry the same keys resolve every path alike.
  ghost predicate SameKeys(a: Lines, b: Lines) {
    |a| == |b| && forall j :: 0 <= j < |a| ==> KeyOf(a[j]) == KeyOf(b[j])
  }

  lemma {:induction false} FindAlike(a: Lines, b: Lines, idx: nat, floor: int, indent: nat, name: string)
    requires SameKeys(a, b) && idx <= |a|
    ensures FindKey(a, idx, floor, indent, name) == FindKey(b, idx, floor, indent, name)
    decreases |a| - idx
  {
    hide KeyOf;
    if idx < |a| {
      FindAlike(a, b, idx + 1, floor, indent, name);
    }
  }

  lemma {:induction false} ResolveAlike(a: Lines, b: Lines, path: Path)
    requires SameKeys(a, b) && path != []
    ensures Resolve(a, path) == Resolve(b, path)
    decreases |path|
  {
    hide SameKeys, FindKey;
    var depth := |path| - 1;
    if depth == 0 {
      FindAlike(a, b, 0, -1, 0, path[0]);
    } else {
      ResolveAlike(a, b, path[..depth]);
      if Resolve(a, path[..depth]).Some? {
        SameLength(a, b);
        FindAlike(a, b, Resolve(a, path[..depth]).value + 1, 2 * (depth - 1), 2 * depth, path[depth]);
      }
    }
  }

  lemma SameLength(a: Lines, b: Lines)
    requires SameKeys(a, b)
    ensures |a| == |b|
  {
  }

  lemma ReplaceKeepsKeys(lines: Lines, path: Path, value: Leaf)
    ensures SameKeys(lines, Replace(lines, path, value))
  {
    hide KeyOf, FormatScalar, Rewritten;
    if path != [] && Resolve(lines, path).Some? {
      ResolvedKey(lines, path);
      RewritingKeepsTheKey(lines[Resolve(lines, path).value], FormatScalar(value));
    }
  }

  // An edit never changes where any path leads.
  lemma PathsSurviveEdits(lines: Lines, path: Path, value: Leaf, other: Path)
    requires other != []
    ensures Resolve(Replace(lines, path, value), other) == Resolve(lines, other)
  {
    hide SameKeys, Replace;
    ReplaceKeepsKeys(lines, path, value);
    ResolveAlike(lines, Replace(lines, path, value), other);
  }

  // ------------------------------------------------------------------- a batch

  datatype Assignment = Assignment(path: Path, value: Leaf)

  function Patch(lines: Lines, batch: seq<Assignment>): Lines
    decreases |batch|
  {
    if batch == [] then lines else Patch(Replace(lines, batch[0].path, batch[0].value), batch[1..])
  }

  // The keys of a dict: no path twice. None is empty.
  ghost predicate Batch(batch: seq<Assignment>) {
    && (forall j :: 0 <= j < |batch| ==> batch[j].path != [])
    && (forall j, k :: 0 <= j < k < |batch| ==> batch[j].path != batch[k].path)
  }

  // What a batch makes of a file, line by line and without an order: a line that one
  // of the paths leads to is rewritten from the line as it was, every other stays.
  ghost predicate PatchedLine(lines: Lines, batch: seq<Assignment>, i: nat, line: string)
    requires i < |lines|
  {
    || (exists a :: a in batch && a.path != [] && Resolve(lines, a.path) == Some(i) && line == Rewritten(lines[i], FormatScalar(a.value)))
    || (line == lines[i] && forall a :: a in batch && a.path != [] ==> Resolve(lines, a.path) != Some(i))
  }

  ghost predicate PatchedBy(lines: Lines, batch: seq<Assignment>, result: Lines) {
    |result| == |lines| && forall i :: 0 <= i < |lines| ==> PatchedLine(lines, batch, i, result[i])
  }

  lemma {:induction false} PatchIsPointwise(lines: Lines, batch: seq<Assignment>)
    requires Batch(batch)
    ensures PatchedBy(lines, batch, Patch(lines, batch))
    decreases |batch|
  {
    hide Resolve, Rewritten, PatchedLine, Batch, Replace;
    if batch == [] {
      forall i | 0 <= i < |lines|
        ensures PatchedLine(lines, batch, i, lines[i])
      {
        UnpatchedLine(lines, i);
      }
    } else {
      var a, rest := batch[0], batch[1..];
      var once := Replace(lines, a.path, a.value);
      BatchRest(batch);
      PatchIsPointwise(once, rest);
      var result := Patch(once, rest);
      ReplaceIsPointwise(lines, a.path, a.value);
      forall i | 0 <= i < |lines|
        ensures PatchedLine(lines, batch, i, result[i])
      {
        LinePatchedFirst(lines, batch, i, result[i]);
      }
    }
  }

  lemma UnpatchedLine(lines: Lines, i: nat)
    requires i < |lines|
    ensures PatchedLine(lines, [], i, lines[i])
  {
    hide Resolve, Rewritten;
  }

  lemma BatchRest(batch: seq<Assignment>)
    requires batch != [] && Batch(batch)
    ensures Batch(batch[1..]) && batch[0].path != []
    ensures forall b :: b in batch ==> b.path != []
    ensures forall b :: b in batch[1..] ==> b.path != batch[0].path && b.path != []
    ensures forall b :: b in batch <==> b == batch[0] || b in batch[1..]
  {
    assert batch == [batch[0]] + batch[1..];
  }

  lemma ReplaceIsPointwise(lines: Lines, path: Path, value: Leaf)
    requires path != []
    ensures var once := Replace(lines, path, value);
      |once| == |lines|
      && forall i :: 0 <= i < |lines| ==> once[i] == if Resolve(lines, path) == Some(i) then Rewritten(lines[i], FormatScalar(value)) else lines[i]
  {
    hide Resolve, Rewritten;
  }

  // A line patched by the rest of the batch, after its first assignment.
  lemma LinePatchedFirst(lines: Lines, batch: seq<Assignment>, i: nat, line: string)
    requires batch != [] && Batch(batch) && i < |lines|
    requires |Replace(lines, batch[0].path, batch[0].value)| == |lines|
    requires PatchedLine(Replace(lines, batch[0].path, batch[0].value), batch[1..], i, line)
    ensures PatchedLine(lines, batch, i, line)
  {
    hide Resolve, Rewritten, Batch, Replace;
    var a, rest := batch[0], batch[1..];
    var once := Replace(lines, a.path, a.value);
    BatchRest(batch);
    ReplaceIsPointwise(lines, a.path, a.value);
    forall b | b in rest
      ensures Resolve(once, b.path) == Resolve(lines, b.path)
    {
      PathsSurviveEdits(lines, a.path, a.value, b.path);
    }
    if Resolve(lines, a.path) == Some(i) {
      forall b | b in rest
        ensures Resolve(lines, b.path) != Some(i)
      {
        if Resolve(lines, b.path) == Some(i) {
          PathsAreInjective(lines, a.path, b.path);
        }
      }
    }
  }

  // The order in which a batch is applied does not matter.
  lemma BatchOrderIsImmaterial(lines: Lines, one: seq<Assignment>, two: seq<Assignment>)
    requires Batch(one) && Batch(two)
    requires forall a :: a in one <==> a in two
    ensures Patch(lines, one) == Patch(lines, two)
  {
    hide Resolve, Rewritten;
    PatchIsPointwise(lines, one);
    PatchIsPointwise(lines, two);
    var r, r' := Patch(lines, one), Patch(lines, two);
    forall i | 0 <= i < |lines| ensures r[i] == r'[i] {
      if a, b :| a in one && b in two && a.path != [] && b.path != []
                 && Resolve(lines, a.path) == Some(i) && Resolve(lines, b.path) == Some(i)
                 && r[i] == Rewritten(lines[i], FormatScalar(a.value)) && r'[i] == Rewritten(lines[i], FormatScalar(b.value)) {
        PathsAreInjective(lines, a.path, b.path);
        SamePathSameValue(one, a, b);
      }
    }
  }

  lemma SamePathSameValue(batch: seq<Assignment>, a: Assignment, b: Assignment)
    requires Batch(batch) && a in batch && b in batch && a.path == b.path
    ensures a == b
  {
    var j :| 0 <= j < |batch| && batch[j] == a;
    var k :| 0 <= k < |batch| && batch[k] == b;
  }

  // ------------------------------------------------------ the loops of the program

  // _replace_yaml_scalar_line: one scan per key of the path, then the rewrite in place.
  method ReplaceYamlScalarLine(lines: array<string>, path: Path, value: Leaf) returns (changed: bool)
    modifies lines
    ensures lines[..] == Replace(old(lines[..]), path, value)
    ensures changed <==> path != [] && Resolve(old(lines[..]), path).Some?
  {
    hide KeyOf, FormatScalar, Rewritten;
    var parent, parentIndent := -1, -2;
    var depth := 0;
    while depth < |path|
      invariant 0 <= depth <= |path| && lines[..] == old(lines[..])
      invariant -1 <= parent < lines.Length
      invariant depth == 0 ==> parent == -1 && parentIndent == -2
      invariant depth > 0 ==> parent >= 0 && parentIndent == 2 * (depth - 1)
                              && Resolve(lines[..], path[..depth]) == Some(parent as nat)
    {
      var indent := parentIndent + 2;
      var found := false;
      var idx := parent + 1;
      ghost var floor := if parent >= 0 then parentIndent else -1;
      while idx < lines.Length
        invariant parent + 1 <= idx <= lines.Length && !found && lines[..] == old(lines[..])
        invariant FindKey(lines[..], parent + 1, floor, indent, path[depth])
               == FindKey(lines[..], idx, floor, indent, path[depth])
        decreases lines.Length - idx
      {
        var match' := KeyOf(lines[idx]);
        if match'.Some? {
          if parent >= 0 && match'.value.indent <= parentIndent { break; }
          if match'.value.indent == indent && match'.value.name == path[depth] {
            found := true;
            break;
          }
        }
        idx := idx + 1;
      }
      assert path[..depth + 1][..depth] == path[..depth];
      assert found ==> Resolve(lines[..], path[..depth + 1]) == Some(idx as nat);
      if !found {
        ResolveFails(lines[..], path, depth + 1);
        return false;
      }
      parent, parentIndent := idx, indent;
      depth := depth + 1;
    }
    assert path[..|path|] == path;
    if path == [] { return false; }
    lines[parent] := Rewritten(lines[parent], FormatScalar(value));
    changed := true;
  }

  lemma {:induction false} ResolveFails(lines: Lines, path: Path, depth: nat)
    requires 1 <= depth <= |path| && Resolve(lines, path[..depth]) == None
    ensures Resolve(lines, path) == None
    decreases |path|
  {
    if depth == |path| {
      assert path[..depth] == path;
    } else {
      assert path[..|path| - 1][..depth] == path[..depth];
      ResolveFails(lines, path[..|path| - 1], depth);
    }
  }

  // _patch_limit_policy_yaml, up to writing the file.
  method PatchLines(lines: array<string>, batch: seq<Assignment>) returns (changed: bool)
    modifies lines
    ensures lines[..] == Patch(old(lines[..]), batch)
    ensures !changed ==> lines[..] == old(lines[..])
  {
    hide Replace, Resolve;
    changed := false;
    var i := 0;
    while i < |batch|
      invariant 0 <= i <= |batch|
      invariant Patch(lines[..], batch[i..]) == Patch(old(lines[..]), batch)
      invariant !changed ==> lines[..] == old(lines[..])
    {
      assert batch[i..][0] == batch[i] && batch[i..][1..] == batch[i + 1..];
      ghost var before := lines[..];
      var hit := ReplaceYamlScalarLine(lines, batch[i].path, batch[i].value);
      if !hit { Unresolved(before, batch[i].path, batch[i].value); }
      changed := hit || changed;
      i := i + 1;
    }
  }

  lemma Unresolved(lines: Lines, path: Path, value: Leaf)
    requires !(path != [] && Resolve(lines, path).Some?)
    ensures Replace(lines, path, value) == lines
  {
  }
}
