/** Inline YAML values: the printer that every list edit goes through, and a reader
    for the flow subset of YAML 1.2.2 (double-quoted scalars of section 7.3.1, flow
    collections of section 7.4), written without looking at the printer. */
module YamlFlow {
  import opened Text

  datatype Value =
    | Null
    | Bool(b: bool)
    | Int(n: int)
    | Str(s: string)
    | List(items: seq<Value>)
    | Dict(entries: seq<Entry>)

  datatype Entry = Entry(key: Value, value: Value)

  // ---------------------------------------------------------------- printer

  // str.replace for a one-character pattern
  function ReplaceChar(s: string, c: char, with: string): string {
    if s == "" then "" else (if s[0] == c then with else [s[0]]) + ReplaceChar(s[1..], c, with)
  }

  // The two replacements in the order the program makes them.
  function Escape(s: string): string {
    ReplaceChar(ReplaceChar(s, '\\', "\\\\"), '"', "\\\"")
  }

  function Digit(d: nat): char
    requires d < 10
  {
    "0123456789"[d]
  }

  function PrintNat(n: nat): string {
    if n < 10 then [Digit(n)] else PrintNat(n / 10) + [Digit(n % 10)]
  }

  function PrintInt(n: int): string {
    if n < 0 then "-" + PrintNat(-n) else PrintNat(n)
  }

  function Print(v: Value): string
    decreases v, 1
  {
    match v
    case Null => "null"
    case Bool(b) => if b then "true" else "false"
    case Int(n) => PrintInt(n)
    case List(items) => "[" + JoinItems(items) + "]"
    case Dict(entries) => "{" + JoinEntries(entries) + "}"
    case Str(s) => "\"" + Escape(s) + "\""
  }

  // ", ".join over the items
  function JoinItems(items: seq<Value>): string
    decreases items, 0
  {
    if items == [] then ""
    else if |items| == 1 then Print(items[0])
    else Print(items[0]) + ", " + JoinItems(items[1..])
  }

  function PrintEntry(e: Entry): string
    decreases e, 0
  {
    Print(e.key) + ": " + Print(e.value)
  }

  function JoinEntries(entries: seq<Entry>): string
    decreases entries, 0
  {
    if entries == [] then ""
    else if |entries| == 1 then PrintEntry(entries[0])
    else PrintEntry(entries[0]) + ", " + JoinEntries(entries[1..])
  }

  // ----------------------------------------------------------------- reader

  function SkipSpaces(s: string): (r: string)
    ensures |r| <= |s|
  {
    if s != "" && s[0] == ' ' then SkipSpaces(s[1..]) else s
  }

  // nb-json, section 5.1: what a double-quoted scalar may hold on one line
  predicate NbJson(c: char) {
    c == '\t' || ' ' <= c
  }

  // The rest of a double-quoted scalar, after the opening quote.
  function ReadQuoted(s: string): (r: Option<(string, string)>)
    ensures r.Some? ==> |r.value.1| < |s|
  {
    if s == "" || !NbJson(s[0]) then None
    else if s[0] == '"' then Some(("", s[1..]))
    else if s[0] == '\\' then
      if |s| < 2 || Unescaped(s[1]).None? then None
      else
        match ReadQuoted(s[2..])
        case None => None
        case Some((t, rest)) => Some(([Unescaped(s[1]).value] + t, rest))
    else
      match ReadQuoted(s[1..])
      case None => None
      case Some((t, rest)) => Some(([s[0]] + t, rest))
  }

  // The single-character escapes of section 5.7.
  function Unescaped(c: char): Option<char> {
    match c
    case '\\' => Some('\\')
    case '"' => Some('"')
    case '/' => Some('/')
    case 'n' => Some('\n')
    case 't' => Some('\t')
    case 'r' => Some('\r')
    case '0' => Some('\0')
    case ' ' => Some(' ')
    case _ => None
  }

  predicate IsDigit(c: char) {
    '0' <= c <= '9'
  }

  predicate IsPlainChar(c: char) {
    IsDigit(c) || 'a' <= c <= 'z' || 'A' <= c <= 'Z' || c == '-' || c == '+' || c == '.' || c == '_'
  }

  // A plain scalar: the longest run of plain characters.
  function ReadPlain(s: string): (r: (string, string))
    ensures |r.0| + |r.1| == |s|
  {
    if s == "" || !IsPlainChar(s[0]) then ("", s)
    else
      var (t, rest) := ReadPlain(s[1..]);
      ([s[0]] + t, rest)
  }

  predicate AllDigits(s: string) {
    s != "" && forall c :: c in s ==> IsDigit(c)
  }

  function NatOf(s: string): nat
    requires AllDigits(s)
  {
    assert s[|s| - 1] in s;
    var d := s[|s| - 1] as int - '0' as int;
    if |s| == 1 then d else NatOf(s[..|s| - 1]) * 10 + d
  }

  // Section 10.3.2, decimal form. A leading zero is left to other readers.
  function ResolvePlain(t: string): Option<Value> {
    if t == "null" then Some(Null)
    else if t == "true" then Some(Bool(true))
    else if t == "false" then Some(Bool(false))
    else if AllDigits(t) then
      if |t| > 1 && t[0] == '0' then None else Some(Int(NatOf(t)))
    else if t != "" && t[0] in "+-" && AllDigits(t[1..]) then
      if |t| > 2 && t[1] == '0' then None
      else 
        var n: int := NatOf(t[1..]);
        Some(Int(if t[0] == '-' then -n else n))
    else None
  }

  // One flow node and what follows it.
  function ReadValue(s: string): (r: Option<(Value, string)>)
    ensures r.Some? ==> |r.value.1| < |s|
    decreases |s|, 0
  {
    if s == "" then None
    else if s[0] == '"' then
      match ReadQuoted(s[1..])
      case None => None
      case Some((t, rest)) => Some((Str(t), rest))
    else if s[0] == '[' then
      match ReadItems(SkipSpaces(s[1..]))
      case None => None
      case Some((items, rest)) => Some((List(items), rest))
    else if s[0] == '{' then
      match ReadEntries(SkipSpaces(s[1..]))
      case None => None
      case Some((entries, rest)) => Some((Dict(entries), rest))
    else
      var (t, rest) := ReadPlain(s);
      if t == "" then None
      else
        match ResolvePlain(t)
        case None => None
        case Some(v) => Some((v, rest))
  }

  // A flow sequence after `[`, up to and including `]`.
  function ReadItems(s: string): (r: Option<(seq<Value>, string)>)
    ensures r.Some? ==> |r.value.1| < |s|
    decreases |s|, 1
  {
    if s != "" && s[0] == ']' then Some(([], s[1..]))
    else
      match ReadValue(s)
      case None => None
      case Some((v, rest)) =>
        var next := SkipSpaces(rest);
        if next == "" then None
        else if next[0] == ']' then Some(([v], next[1..]))
        else if next[0] == ',' then
          match ReadItems(SkipSpaces(next[1..]))
          case None => None
          case Some((vs, end)) => Some(([v] + vs, end))
        else None
  }

  // `key: value` inside a flow mapping; the colon needs a space after it.
  function ReadEntry(s: string): (r: Option<(Entry, string)>)
    ensures r.Some? ==> |r.value.1| < |s|
    decreases |s|, 1
  {
    match ReadValue(s)
    case None => None
    case Some((k, rest)) =>
      var colon := SkipSpaces(rest);
      if |colon| < 2 || colon[..2] != ": " then None
      else
        match ReadValue(SkipSpaces(colon[2..]))
        case None => None
        case Some((v, end)) => Some((Entry(k, v), end))
  }

  function ReadEntries(s: string): (r: Option<(seq<Entry>, string)>)
    ensures r.Some? ==> |r.value.1| < |s|
    decreases |s|, 2
  {
    if s != "" && s[0] == '}' then Some(([], s[1..]))
    else
      match ReadEntry(s)
      case None => None
      case Some((e, rest)) =>
        var next := SkipSpaces(rest);
        if next == "" then None
        else if next[0] == '}' then Some(([e], next[1..]))
        else if next[0] == ',' then
          match ReadEntries(SkipSpaces(next[1..]))
          case None => None
          case Some((es, end)) => Some(([e] + es, end))
        else None
  }

  // A whole inline value, with nothing but blanks after it.
  function Read(s: string): Option<Value> {
    match ReadValue(SkipSpaces(s))
    case None => None
    case Some((v, rest)) => if SkipSpaces(rest) == "" then Some(v) else None
  }

  // ------------------------------------------------- printing is undone by reading

  // No string anywhere in the value holds a control character or a line break.
  predicate Clean(v: Value)
    decreases v, 1
  {
    match v
    case Null => true
    case Bool(_) => true
    case Int(_) => true
    case Str(s) => forall c :: c in s ==> NbJson(c)
    case List(items) => CleanItems(items)
    case Dict(entries) => CleanEntries(entries)
  }

  predicate CleanItems(items: seq<Value>)
    decreases items, 0
  {
    items == [] || (Clean(items[0]) && CleanItems(items[1..]))
  }

  predicate CleanEntries(entries: seq<Entry>)
    decreases entries, 0
  {
    entries == [] || (CleanEntry(entries[0]) && CleanEntries(entries[1..]))
  }

  predicate CleanEntry(e: Entry)
    decreases e, 0
  {
    Clean(e.key) && Clean(e.value)
  }

  // What may follow a printed value: nothing that could extend a plain scalar.
  predicate Ends(rest: string) {
    rest == "" || !IsPlainChar(rest[0])
  }

  function EscapeEach(s: string): string {
    if s == "" then ""
    else (if s[0] == '\\' || s[0] == '"' then "\\" + [s[0]] else [s[0]]) + EscapeEach(s[1..])
  }

  lemma {:induction false} ReplaceConcat(a: string, b: string, c: char, with: string)
    ensures ReplaceChar(a + b, c, with) == ReplaceChar(a, c, with) + ReplaceChar(b, c, with)
  {
    if a == "" {
      assert a + b == b;
    } else {
      ReplaceConcat(a[1..], b, c, with);
      assert (a + b)[1..] == a[1..] + b;
      Regroup(if a[0] == c then with else [a[0]], ReplaceChar(a[1..], c, with), ReplaceChar(b, c, with));
    }
  }

  lemma Regroup(a: string, b: string, c: string)
    ensures a + (b + c) == (a + b) + c
  {
  }

  // The two sequential replacements escape each character once: the backslashes
  // that the second one adds are never escaped again.
  lemma {:induction false} EscapeIsPerCharacter(s: string)
    ensures Escape(s) == EscapeEach(s)
  {
    if s != "" {
      EscapeIsPerCharacter(s[1..]);
      var head := if s[0] == '\\' then "\\\\" else [s[0]];
      ReplaceConcat(head, ReplaceChar(s[1..], '\\', "\\\\"), '"', "\\\"");
      assert head[1..] == if s[0] == '\\' then "\\" else "";
      if s[0] == '\\' {
        assert ReplaceChar(head[1..], '"', "\\\"") == "\\" + ReplaceChar("", '"', "\\\"");
      }
    }
  }

  lemma {:induction false} QuotedReadsBack(s: string, rest: string)
    ensures ReadQuoted(EscapeEach(s) + "\"" + rest)
         == if forall c :: c in s ==> NbJson(c) then Some((s, rest)) else None
  {
    var text := EscapeEach(s) + "\"" + rest;
    if s == "" {
      assert text == "\"" + rest;
    } else {
      QuotedReadsBack(s[1..], rest);
      var tail := EscapeEach(s[1..]) + "\"" + rest;
      assert s == [s[0]] + s[1..];
      if s[0] == '\\' || s[0] == '"' {
        assert text == "\\" + [s[0]] + tail;
        assert text[2..] == tail;
      } else {
        assert text == [s[0]] + tail;
        assert text[1..] == tail;
      }
    }
  }

  lemma {:induction false} NatReadsBack(n: nat)
    ensures AllDigits(PrintNat(n)) && NatOf(PrintNat(n)) == n
    ensures |PrintNat(n)| > 1 ==> PrintNat(n)[0] != '0'
    ensures n > 0 ==> PrintNat(n)[0] != '0'
  {
    if n >= 10 {
      NatReadsBack(n / 10);
      assert PrintNat(n)[..|PrintNat(n)| - 1] == PrintNat(n / 10);
    }
  }

  lemma {:induction false} PlainStops(t: string, rest: string)
    requires (forall c :: c in t ==> IsPlainChar(c)) && Ends(rest)
    ensures ReadPlain(t + rest) == (t, rest)
  {
    if t == "" {
      assert t + rest == rest;
    } else {
      PlainStops(t[1..], rest);
      assert (t + rest)[1..] == t[1..] + rest;
      assert t == [t[0]] + t[1..];
    }
  }

  lemma IntReadsBack(n: int)
    ensures ResolvePlain(PrintInt(n)) == Some(Int(n))
    ensures PrintInt(n) != "" && forall c :: c in PrintInt(n) ==> IsPlainChar(c)
  {
    hide AllDigits, PrintNat, NatOf, ResolvePlain;
    var m := if n < 0 then -n else n;
    NatReadsBack(m);
    DigitsResolve(PrintNat(m));
    if n < 0 {
      assert PrintInt(n) == "-" + PrintNat(m);
    }
  }

  lemma DigitsResolve(t: string)
    requires AllDigits(t) && (|t| > 1 ==> t[0] != '0')
    ensures t != "" && ResolvePlain(t) == Some(Int(NatOf(t)))
    ensures var n: int := NatOf(t); t[0] != '0' ==> ResolvePlain("-" + t) == Some(Int(-n))
    ensures forall c :: c in "-" + t ==> IsPlainChar(c)
  {
    hide NatOf;
    assert t[0] in t;
    var signed := "-" + t;
    assert signed[1..] == t && signed[0] == '-' && signed[0] in signed;
    NotAWord(t);
    NotAWord(signed);
    if |t| > 1 {
      assert signed[1] == t[0];
    }
  }

  lemma NotAWord(t: string)
    requires t != "" && (IsDigit(t[0]) || t[0] == '-')
    ensures t != "null" && t != "true" && t != "false"
  {
  }

  // The first character of a printed value: never a blank, never a closing bracket.
  lemma PrintHead(v: Value)
    ensures Print(v) != "" && Print(v)[0] != ' ' && Print(v)[0] != ']' && Print(v)[0] != '}'
  {
    if v.Int? {
      IntReadsBack(v.n);
      assert IsPlainChar(PrintInt(v.n)[0]);
    }
  }

  lemma SkipNothing(s: string)
    requires s == "" || s[0] != ' '
    ensures SkipSpaces(s) == s
  {
  }

  lemma JoinHead(items: seq<Value>)
    requires items != []
    ensures JoinItems(items) != "" && JoinItems(items)[0] == Print(items[0])[0]
  {
    PrintHead(items[0]);
  }

  lemma JoinEntriesHead(entries: seq<Entry>)
    requires entries != []
    ensures JoinEntries(entries) != "" && JoinEntries(entries)[0] == Print(entries[0].key)[0]
  {
    PrintHead(entries[0].key);
  }

  // ", " between two printed nodes is skipped whole.
  lemma SkipSeparator(tail: string)
    requires tail != "" && tail[0] != ' '
    ensures SkipSpaces((", " + tail)[1..]) == tail
    ensures SkipSpaces(", " + tail) == ", " + tail
  {
    assert (", " + tail)[1..] == " " + tail;
    assert (" " + tail)[1..] == tail;
  }

  lemma ScalarReadsBack(v: Value, rest: string)
    requires Ends(rest) && !v.List? && !v.Dict?
    ensures ReadValue(Print(v) + rest) == if Clean(v) then Some((v, rest)) else None
  {
    if v.Str? {
      hide ReadQuoted, ReadPlain, ResolvePlain;
      EscapeIsPerCharacter(v.s);
      QuotedReadsBack(v.s, rest);
      assert (Print(v) + rest)[1..] == EscapeEach(v.s) + "\"" + rest;
      assert (Print(v) + rest)[0] == '"';
    } else {
      hide ReadQuoted, ReadPlain, ResolvePlain, Print;
      var t := Print(v);
      PlainResolves(v);
      PlainStops(t, rest);
      assert t[0] in t && (t + rest)[0] == t[0];
    }
  }

  lemma PlainResolves(v: Value)
    requires !v.List? && !v.Dict? && !v.Str?
    ensures var t := Print(v); t != "" && ResolvePlain(t) == Some(v) && forall c :: c in t ==> IsPlainChar(c)
  {
    if v.Int? {
      hide ResolvePlain;
      IntReadsBack(v.n);
    }
  }

  // Exactly: a printed value reads back, whatever follows it, unless it holds a
  // character that no one-line scalar can hold, and then it does not read at all.
  lemma {:induction false} ValueReadsBack(v: Value, rest: string)
    requires Ends(rest)
    ensures ReadValue(Print(v) + rest) == if Clean(v) then Some((v, rest)) else None
    decreases v, 1
  {
    hide ReadQuoted, ReadPlain, ResolvePlain, PrintInt, Escape;
    match v {
      case List(items) =>
        var text := JoinItems(items) + "]" + rest;
        ItemsReadBack(items, rest);
        if items != [] { JoinHead(items); PrintHead(items[0]); }
        SkipNothing(text);
        assert (Print(v) + rest)[1..] == text;
        assert (Print(v) + rest)[0] == '[';
      case Dict(entries) =>
        var text := JoinEntries(entries) + "}" + rest;
        EntriesReadBack(entries, rest);
        if entries != [] { JoinEntriesHead(entries); PrintHead(entries[0].key); }
        SkipNothing(text);
        assert (Print(v) + rest)[1..] == text;
        assert (Print(v) + rest)[0] == '{';
      case _ => ScalarReadsBack(v, rest);
    }
  }

  lemma {:induction false} ItemsReadBack(items: seq<Value>, rest: string)
    ensures ReadItems(JoinItems(items) + "]" + rest) == if CleanItems(items) then Some((items, rest)) else None
    decreases items, 0
  {
    hide Print, ReadValue, Clean;
    var text := JoinItems(items) + "]" + rest;
    if items == [] {
      assert text == "]" + rest;
    } else {
      JoinHead(items);
      PrintHead(items[0]);
      if |items| == 1 {
        ValueReadsBack(items[0], "]" + rest);
        assert text == Print(items[0]) + ("]" + rest);
        assert items == [items[0]];
      } else {
        var tail := JoinItems(items[1..]) + "]" + rest;
        ValueReadsBack(items[0], ", " + tail);
        assert text == Print(items[0]) + (", " + tail);
        ItemsReadBack(items[1..], rest);
        JoinHead(items[1..]);
        PrintHead(items[1]);
        SkipSeparator(tail);
        assert items == [items[0]] + items[1..];
      }
    }
  }

  lemma {:induction false} EntryReadsBack(e: Entry, rest: string)
    requires Ends(rest)
    ensures ReadEntry(PrintEntry(e) + rest) == if CleanEntry(e) then Some((e, rest)) else None
    decreases e, 0
  {
    var tail := Print(e.value) + rest;
    ValueReadsBack(e.key, ": " + tail);
    assert PrintEntry(e) + rest == Print(e.key) + (": " + tail);
    PrintHead(e.value);
    assert (": " + tail)[2..] == tail;
    assert (": " + tail)[..2] == ": ";
    ValueReadsBack(e.value, rest);
  }

  lemma {:induction false} EntriesReadBack(entries: seq<Entry>, rest: string)
    ensures ReadEntries(JoinEntries(entries) + "}" + rest)
         == if CleanEntries(entries) then Some((entries, rest)) else None
    decreases entries, 0
  {
    hide Print, PrintEntry, ReadEntry, CleanEntry;
    var text := JoinEntries(entries) + "}" + rest;
    if entries == [] {
      assert text == "}" + rest;
    } else {
      JoinEntriesHead(entries);
      PrintHead(entries[0].key);
      if |entries| == 1 {
        EntryReadsBack(entries[0], "}" + rest);
        assert text == PrintEntry(entries[0]) + ("}" + rest);
        assert entries == [entries[0]];
      } else {
        var tail := JoinEntries(entries[1..]) + "}" + rest;
        EntryReadsBack(entries[0], ", " + tail);
        assert text == PrintEntry(entries[0]) + (", " + tail);
        EntriesReadBack(entries[1..], rest);
        JoinEntriesHead(entries[1..]);
        PrintHead(entries[1].key);
        SkipSeparator(tail);
        assert entries == [entries[0]] + entries[1..];
      }
    }
  }

  lemma PrintedReadsBackExactlyWhenClean(v: Value)
    ensures Read(Print(v)) == if Clean(v) then Some(v) else None
  {
    ValueReadsBack(v, "");
    PrintHead(v);
    assert Print(v) + "" == Print(v);
  }

  lemma PrintingIsInjective(v: Value, w: Value)
    requires Clean(v) && Clean(w) && Print(v) == Print(w)
    ensures v == w
  {
    PrintedReadsBackExactlyWhenClean(v);
    PrintedReadsBackExactlyWhenClean(w);
  }

  // A printed clean value stays on its line.
  lemma {:induction false} PrintedIsOneLine(v: Value)
    requires Clean(v)
    ensures forall c :: c in Print(v) ==> NbJson(c)
    decreases v, 1
  {
    match v {
      case Str(s) => EscapeIsPerCharacter(s); EscapeIsOneLine(s);
      case Int(n) => IntReadsBack(n);
      case List(items) => ItemsAreOneLine(items);
      case Dict(entries) => EntriesAreOneLine(entries);
      case _ =>
    }
  }

  lemma {:induction false} EscapeIsOneLine(s: string)
    requires forall c :: c in s ==> NbJson(c)
    ensures forall c :: c in EscapeEach(s) ==> NbJson(c)
  {
    if s != "" {
      EscapeIsOneLine(s[1..]);
    }
  }

  lemma {:induction false} ItemsAreOneLine(items: seq<Value>)
    requires CleanItems(items)
    ensures forall c :: c in JoinItems(items) ==> NbJson(c)
    decreases items, 0
  {
    if items != [] {
      PrintedIsOneLine(items[0]);
      ItemsAreOneLine(items[1..]);
    }
  }

  lemma {:induction false} EntriesAreOneLine(entries: seq<Entry>)
    requires CleanEntries(entries)
    ensures forall c :: c in JoinEntries(entries) ==> NbJson(c)
    decreases entries, 0
  {
    if entries != [] {
      EntryIsOneLine(entries[0]);
      EntriesAreOneLine(entries[1..]);
    }
  }

  lemma {:induction false} EntryIsOneLine(e: Entry)
    requires CleanEntry(e)
    ensures forall c :: c in PrintEntry(e) ==> NbJson(c)
    decreases e, 0
  {
    PrintedIsOneLine(e.key);
    PrintedIsOneLine(e.value);
  }
}
