/** A top-level list of mappings inside a YAML file that is kept as a list of lines.

    The first half follows the editor of config/config.py line by line. The second
    half is a reader of such a section that knows nothing of the editor, and the
    lemmas say that what the editor writes is what the reader reads. */
module YamlSection {
  import opened Text
  import opened YamlFlow
  import opened YamlPlain

  datatype Field = Field(key: string, value: Value)
  type Mapping = seq<Field>
  type Lines = seq<string>

  // ------------------------------------------------------- locating a section

  predicate HasHeader(line: string, section: string) {
    var prefix := section + ":";
    && StartsWith(line, prefix)
    && (|line| == |prefix| || line[|prefix|] in " \t\n\r#")
  }

  // The first header line, or |lines| when the section is missing.
  function HeaderIndex(lines: Lines, section: string): (h: nat)
    ensures h <= |lines|
  {
    if lines == [] || HasHeader(lines[0], section) then 0 else 1 + HeaderIndex(lines[1..], section)
  }

  predicate Blank(line: string) {
    Strip(line) == ""
  }

  predicate Comment(line: string) {
    StartsWith(LStrip(line), "#")
  }

  predicate Ignored(line: string) {
    Blank(line) || Comment(line)
  }

  // Lines that do not end the block of the header above them.
  predicate Stays(line: string) {
    Ignored(line) || (line != "" && (line[0] == ' ' || line[0] == '\t'))
  }

  function BlockLength(rest: Lines): (n: nat)
    ensures n <= |rest|
  {
    if rest == [] || !Stays(rest[0]) then 0 else 1 + BlockLength(rest[1..])
  }

  function BlockEnd(lines: Lines, h: nat): (e: nat)
    requires h < |lines|
    ensures h < e <= |lines|
  {
    h + 1 + BlockLength(lines[h + 1..])
  }

  // -------------------------------------------------------- indentation in use

  // lstrip(" \t")
  function LStripBlanks(s: string): (r: string)
    ensures |r| <= |s|
  {
    if s != "" && (s[0] == ' ' || s[0] == '\t') then LStripBlanks(s[1..]) else s
  }

  function Indent(line: string): nat {
    |line| - |LStripBlanks(line)|
  }

  predicate DashLine(line: string) {
    StartsWith(LStripBlanks(line), "- ")
  }

  predicate SubkeyHint(line: string) {
    var stripped := LStripBlanks(line);
    stripped != "" && !StartsWith(stripped, "#")
  }

  // The indentation of sub-keys below an item, from the lines after its dash line.
  function SubIndent(dash: nat, below: Lines): (sub: nat)
    ensures dash < sub
  {
    if below == [] then dash + 2
    else if !SubkeyHint(below[0]) then SubIndent(dash, below[1..])
    else if Indent(below[0]) > dash then Indent(below[0])
    else dash + 2
  }

  function DetectIndent(body: Lines): (indents: (nat, nat))
    ensures indents.0 < indents.1
  {
    if body == [] then (2, 4)
    else if DashLine(body[0]) then (Indent(body[0]), SubIndent(Indent(body[0]), body[1..]))
    else DetectIndent(body[1..])
  }

  // ------------------------------------------------------------------ rendering

  function FieldText(f: Field): string {
    f.key + ": " + Print(f.value)
  }

  function RenderSubkeys(m: Mapping, sub: nat): Lines {
    if m == [] then [] else [Spaces(sub) + FieldText(m[0]) + "\n"] + RenderSubkeys(m[1..], sub)
  }

  function RenderItem(m: Mapping, dash: nat, sub: nat): Lines {
    if m == [] then [Spaces(dash) + "- {}\n"]
    else [Spaces(dash) + "- " + FieldText(m[0]) + "\n"] + RenderSubkeys(m[1..], sub)
  }

  function RenderItems(items: seq<Mapping>, dash: nat, sub: nat): Lines {
    if items == [] then [] else RenderItem(items[0], dash, sub) + RenderItems(items[1..], dash, sub)
  }

  // ---------------------------------------------------------------- the edits

  // Back over the blank lines that end lines[lo..i].
  function WalkBack(lines: Lines, lo: nat, i: nat): (r: nat)
    requires lo <= i <= |lines|
    ensures lo <= r <= i
  {
    if i > lo && Blank(lines[i - 1]) then WalkBack(lines, lo, i - 1) else i
  }

  function AppendLines(lines: Lines, section: string, entry: Mapping): Lines
    requires HeaderIndex(lines, section) < |lines|
  {
    var h := HeaderIndex(lines, section);
    AppendBetween(lines, h + 1, BlockEnd(lines, h), entry)
  }

  // Into the block lines[lo..hi], before the blank lines that end it.
  function AppendBetween(lines: Lines, lo: nat, hi: nat, entry: Mapping): Lines
    requires lo <= hi <= |lines|
  {
    var (dash, sub) := DetectIndent(lines[lo..hi]);
    var i := WalkBack(lines, lo, hi);
    lines[..i] + RenderItem(entry, dash, sub) + lines[i..]
  }

  // partition(":")[2]
  function AfterColon(line: string): string {
    var i := IndexOf(line, ':');
    if i < |line| then line[i + 1..] else ""
  }

  // split("#", 1)[0].strip() of what follows the colon
  function InlineValue(header: string): string {
    var after := AfterColon(header);
    Strip(after[..IndexOf(after, '#')])
  }

  // rstrip("\n")
  function ChopNewlines(s: string): (r: string)
    ensures |r| <= |s|
  {
    if s != "" && s[|s| - 1] == '\n' then ChopNewlines(s[..|s| - 1]) else s
  }

  function HeaderComment(header: string): string {
    var after := AfterColon(ChopNewlines(header));
    var i := IndexOf(after, '#');
    if i < |after| then "  " + Strip(after[i..]) else ""
  }

  function NewHeader(section: string, comment: string, empty: bool): string {
    section + (if empty then ": []" else ":") + comment + "\n"
  }

  function SetLines(lines: Lines, section: string, entries: seq<Mapping>): Lines {
    var h := HeaderIndex(lines, section);
    if h == |lines| then
      var pad := if lines != [] && !Blank(lines[|lines| - 1]) then ["\n"] else [];
      lines + pad + [NewHeader(section, "", entries == [])] + RenderItems(entries, 2, 4)
    else
      var e := BlockEnd(lines, h);
      var (dash, sub) := DetectIndent(lines[h + 1..e]);
      lines[..h] + [NewHeader(section, HeaderComment(lines[h]), entries == [])]
      + RenderItems(entries, dash, sub) + lines[e..]
  }

  predicate ItemStart(dash: nat, line: string) {
    StartsWith(line, Spaces(dash) + "- ")
  }

  // strip("\"'")
  function StripQuotes(s: string): string {
    if s != "" && s[0] in "\"'" then StripQuotes(s[1..])
    else if s != "" && s[|s| - 1] in "\"'" then StripQuotes(s[..|s| - 1])
    else s
  }

  // One line of the crude `key: value` scan inside an item.
  function ScanLine(fields: map<string, string>, line: string): map<string, string> {
    var s0 := Strip(line);
    var s := if StartsWith(s0, "- ") then s0[2..] else s0;
    var i := IndexOf(s, ':');
    if i == |s| || StartsWith(s, "#") then fields
    else fields[Strip(s[..i]) := StripQuotes(Strip(s[i + 1..]))]
  }

  function Scan(chunk: Lines): map<string, string> {
    if chunk == [] then map[] else ScanLine(Scan(chunk[..|chunk| - 1]), chunk[|chunk| - 1])
  }

  predicate FieldsMatch(wanted: map<string, string>, fields: map<string, string>) {
    forall k :: k in wanted ==> (if k in fields then fields[k] else "") == wanted[k]
  }

  predicate ChunkMatches(wanted: map<string, string>, chunk: Lines) {
    FieldsMatch(wanted, Scan(chunk))
  }

  // The dash line at the head of `body` and the lines up to the next dash line.
  function ChunkLength(dash: nat, body: Lines): (n: nat)
    requires body != []
    ensures 1 <= n <= |body|
  {
    if |body| == 1 || ItemStart(dash, body[1]) then 1 else 1 + ChunkLength(dash, body[1..])
  }

  // What is left of a block, and how many items went.
  function Kept(dash: nat, wanted: map<string, string>, body: Lines): (Lines, nat)
    decreases |body|
  {
    if body == [] then ([], 0)
    else if !ItemStart(dash, body[0]) then
      var (rest, count) := Kept(dash, wanted, body[1..]);
      ([body[0]] + rest, count)
    else
      var n := ChunkLength(dash, body);
      var (rest, count) := Kept(dash, wanted, body[n..]);
      if ChunkMatches(wanted, body[..n]) then (rest, count + 1) else (body[..n] + rest, count)
  }

  function RemoveLines(lines: Lines, section: string, wanted: map<string, string>): (Lines, nat)
    requires HeaderIndex(lines, section) < |lines|
  {
    var h := HeaderIndex(lines, section);
    var e := BlockEnd(lines, h);
    var (kept, count) := Kept(DetectIndent(lines[h + 1..e]).0, wanted, lines[h + 1..e]);
    (lines[..h + 1] + kept + lines[e..], count)
  }

  // ------------------------------------------------------------- the reader

  predicate KeyChar(c: char) {
    'a' <= c <= 'z' || 'A' <= c <= 'Z' || '0' <= c <= '9' || c == '_' || c == '-' || c == '.' || c == '/'
  }

  // A key that needs no quotes and reads as text, not as a number, a time or a word.
  predicate PlainKey(k: string) {
    k != "" && k[0] != '-' && Resolved(k) == Some(Str(k)) && forall i :: 0 <= i < |k| ==> KeyChar(k[i])
  }

  // `key: value` with a plain key and an inline value.
  function ReadField(text: string): Option<Field> {
    var i := IndexOf(text, ':');
    if i + 1 < |text| && text[i + 1] == ' ' && PlainKey(text[..i]) then
      match Read(text[i + 2..])
      case None => None
      case Some(v) => Some(Field(text[..i], v))
    else None
  }

  datatype Shape = Skipped | Item(text: string) | Subkey(text: string) | Foreign

  // The part a line plays in a block sequence whose dashes stand at column `d`.
  // The mapping of an item starts right after its dash, so the sub-keys of that
  // item stand exactly two columns further (section 8.2.1 of YAML 1.2.2).
  function ShapeOf(d: nat, line: string): Shape {
    if Ignored(line) then Skipped
    else if |line| <= d + 2 || line[|line| - 1] != '\n' then Foreign
    else if StartsWith(line, Spaces(d) + "- ") then Item(line[d + 2..|line| - 1])
    else if StartsWith(line, Spaces(d + 2)) then Subkey(line[d + 2..|line| - 1])
    else Foreign
  }

  function ReadItemHead(text: string): Option<Mapping> {
    if text == "{}" then Some([])
    else
      match ReadField(text)
      case None => None
      case Some(f) => Some([f])
  }

  function ReadLine(d: nat, so: Option<seq<Mapping>>, line: string): Option<seq<Mapping>> {
    match (so, ShapeOf(d, line))
    case (None, _) => None
    case (Some(items), Skipped) => so
    case (Some(items), Foreign) => None
    case (Some(items), Item(text)) =>
      (match ReadItemHead(text)
       case None => None
       case Some(m) => Some(items + [m]))
    case (Some(items), Subkey(text)) =>
      if items == [] || items[|items| - 1] == [] then None
      else
        match ReadField(text)
        case None => None
        case Some(f) => Some(items[..|items| - 1] + [items[|items| - 1] + [f]])
  }

  function ReadLines(d: nat, so: Option<seq<Mapping>>, body: Lines): Option<seq<Mapping>>
    decreases |body|
  {
    if body == [] then so else ReadLines(d, ReadLine(d, so, body[0]), body[1..])
  }

  // The column of the first line that says something.
  function ItemColumn(body: Lines): nat {
    if body == [] then 2 else if Ignored(body[0]) then ItemColumn(body[1..]) else Indent(body[0])
  }

  function ReadBody(body: Lines): Option<seq<Mapping>> {
    ReadLines(ItemColumn(body), Some([]), body)
  }

  // A section, from its header on. A dash in column 0 below the block would still
  // belong to the list, and is not read.
  function ReadAt(suffix: Lines): Option<seq<Mapping>>
    requires suffix != []
  {
    var n := BlockLength(suffix[1..]);
    var body := suffix[1..1 + n];
    var inline := InlineValue(suffix[0]);
    if 1 + n < |suffix| && StartsWith(suffix[1 + n], "-") then None
    else if inline == "" then ReadBody(body)
    else if inline == "[]" && (forall l :: l in body ==> Ignored(l)) then Some([])
    else None
  }

  function ReadSection(lines: Lines, section: string): Option<seq<Mapping>> {
    var h := HeaderIndex(lines, section);
    if h == |lines| then None else ReadAt(lines[h..])
  }

  // ------------------------------------------------------------ what is edited

  // An attribute name of the configuration class.
  predicate SectionName(s: string) {
    s != "" && forall i :: 0 <= i < |s| ==> 'a' <= s[i] <= 'z' || s[i] == '_'
  }

  predicate Renderable(m: Mapping) {
    forall f :: f in m ==> PlainKey(f.key) && Clean(f.value)
  }

  // One line of text: the file splits back into the same lines.
  predicate Terminated(lines: Lines) {
    forall l :: l in lines ==> l != "" && IndexOf(l, '\n') == |l| - 1
  }
}
