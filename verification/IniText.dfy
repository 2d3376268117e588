/** What the INI reader and writer do to text, as functions on strings. Text may hold NULs: a line, once in the
    line buffer, ends at its first. */
module IniText {

  const MAX_LINE := 200        // size of the line buffer, terminator included
  const MAX_PARSED := 50       // size of the parser's section and previous-name buffers
  const ABYSS := 16            // size of the buffer that swallows the rest of an overlong line
  const MAX_CONFIGS := 128
  const MAX_SECTION := 32
  const MAX_NAME := 32
  const MAX_VALUE := 128

  datatype Item = Item(section: string, key: string, value: string)

  /** The state of one parse: current section, name a continuation line belongs to, number of the last line
      read, number of the first faulty line (0: none), and the store that the handler fills. */
  datatype Parser = Parser(section: string, prev: string, lineno: nat, error: nat, items: seq<Item>)

  predicate IsSpace(c: char) {
    c == ' ' || '\t' <= c <= '\r'
  }

  const NUL := '\0'

  /** Position of the first terminator from `i` on, or the end. */
  function End(a: seq<char>, i: nat): (e: nat)
    requires i <= |a|
    ensures i <= e <= |a|
    decreases |a| - i
  {
    if i == |a| || a[i] == NUL then i else End(a, i + 1)
  }

  /** What a C string shows of the text. */
  function CStr(s: string): (r: string)
    ensures r <= s
  {
    s[..End(s, 0)]
  }

  function Truncated(s: string, size: nat): (r: string)
    requires size > 0
    ensures r <= s && |r| < size
    ensures |s| < size ==> r == s
  {
    if |s| < size then s else s[..size - 1]
  }

  function RStrip(s: string): (r: string)
    ensures r <= s
  {
    if s != "" && IsSpace(s[|s| - 1]) then RStrip(s[..|s| - 1]) else s
  }

  /** Number of leading white-space characters. */
  function Blanks(s: string): (n: nat)
    ensures n <= |s|
  {
    if s != "" && IsSpace(s[0]) then 1 + Blanks(s[1..]) else 0
  }

  /** An inline comment starts at a ';' that follows white space. */
  predicate CommentAt(s: string, i: nat)
    requires i < |s|
  {
    i > 0 && IsSpace(s[i - 1]) && s[i] == ';'
  }

  /** Position of the first of `chars` or inline comment from `i` on, or the end of the string. */
  function Find(s: string, chars: string, i: nat): (r: nat)
    requires i <= |s|
    ensures i <= r <= |s|
    decreases |s| - i
  {
    if i == |s| || s[i] in chars || CommentAt(s, i) then i else Find(s, chars, i + 1)
  }

  predicate StartsWithBom(s: string) {
    |s| >= 3 && s[0] == '\U{EF}' && s[1] == '\U{BB}' && s[2] == '\U{BF}'
  }

  // ---- parsing -----------------------------------------------------------------------------------

  function Fault(p: Parser): Parser {
    if p.error == 0 then p.(error := p.lineno) else p
  }

  /** The handler that collects pairs into a zeroed store. */
  function Handled(p: Parser, name: string, value: string): Parser {
    if |p.items| >= MAX_CONFIGS then Fault(p)
    else p.(items := p.items + [Item(Truncated(p.section, MAX_SECTION), Truncated(name, MAX_NAME),
                                     Truncated(value, MAX_VALUE))])
  }

  /** Where the text of a line starts, past a byte-order mark on line 1 and leading white space. */
  function StartOf(lineno: nat, line: string): (n: nat)
    ensures n <= |line|
  {
    var b := if lineno == 1 && StartsWithBom(line) then 3 else 0;
    b + Blanks(line[b..])
  }

  function SectionLine(p: Parser, start: string): Parser
    requires start != ""
  {
    var e := Find(start[1..], "]", 0) + 1;
    if e < |start| && start[e] == ']'
    then p.(section := Truncated(start[1..e], MAX_PARSED), prev := "")
    else Fault(p)
  }

  function ValueOf(rest: string): string {
    var cut := rest[..Find(rest, "", 0)];
    RStrip(cut[Blanks(cut)..])
  }

  function PairLine(p: Parser, start: string): Parser {
    var e := Find(start, "=:", 0);
    if e < |start| && start[e] in "=:" then
      var name := RStrip(start[..e]);
      Handled(p.(prev := Truncated(name, MAX_PARSED)), name, ValueOf(start[e + 1..]))
    else Fault(p)
  }

  function TrimmedLine(p: Parser, start: string, indented: bool): Parser {
    if start == "" || start[0] in ";#" then p
    else if p.prev != "" && indented then Handled(p, p.prev, RStrip(start[..Find(start, "", 0)]))
    else if start[0] == '[' then SectionLine(p, start)
    else PairLine(p, start)
  }

  /** The effect of one line; `p.lineno` already counts it. */
  function ParseLine(p: Parser, line: string): Parser {
    var n := StartOf(p.lineno, line);
    TrimmedLine(p, RStrip(line[n..]), n > 0)
  }

  /** A line of its own: counted, then parsed. */
  function ReadLine(p: Parser, l: string): Parser {
    ParseLine(p.(lineno := p.lineno + 1), l + "\n")
  }

  /** How much a read into a buffer of `max + 1` characters takes: up to and including a newline. */
  function Taken(text: string, max: nat): (n: nat)
    ensures n <= |text| && n <= max
    ensures text != "" && max > 0 ==> n > 0
  {
    if text == "" || max == 0 then 0 else if text[0] == '\n' then 1 else 1 + Taken(text[1..], max - 1)
  }

  /** What is left after swallowing the rest of an overlong line. */
  function Discard(text: string): (r: string)
    ensures |r| <= |text|
    decreases |text|
  {
    if text == "" then ""
    else
      var n := Taken(text, ABYSS - 1);
      if EndsLine(CStr(text[..n])) then text[n..] else Discard(text[n..])
  }

  predicate EndsLine(s: string) {
    s != "" && s[|s| - 1] == '\n'
  }

  /** No piece that is swallowed begins with a NUL: the source looks at the last character of each piece. */
  predicate Swallowable(text: string)
    decreases |text|
  {
    text == ""
    || (var n := Taken(text, ABYSS - 1);
        text[0] != NUL && (EndsLine(CStr(text[..n])) || Swallowable(text[n..])))
  }

  /** Does reading the next line fill the buffer without reaching a newline? */
  predicate Overlong(text: string)
    requires text != ""
  {
    |LineOf(text)| == MAX_LINE - 1 && !EndsLine(LineOf(text))
  }

  function LineOf(text: string): string {
    CStr(text[..Taken(text, MAX_LINE - 1)])
  }

  function AfterLine(text: string): (rest: string)
    requires text != ""
    ensures |rest| < |text|
  {
    var rest := text[Taken(text, MAX_LINE - 1)..];
    if Overlong(text) then Discard(rest) else rest
  }

  /** The line is counted; an overlong line is a fault unless the text ends right after it. */
  function Counted(p: Parser, text: string): Parser
    requires text != ""
  {
    var q := p.(lineno := p.lineno + 1);
    if Overlong(text) && |text| > MAX_LINE - 1 then Fault(q) else q
  }

  function NextLine(p: Parser, text: string): (r: (Parser, string))
    requires text != ""
    ensures |r.1| < |text|
  {
    (ParseLine(Counted(p, text), LineOf(text)), AfterLine(text))
  }

  function ParseText(p: Parser, text: string): Parser
    decreases |text|
  {
    if text == "" then p
    else
      var (q, rest) := NextLine(p, text);
      ParseText(q, rest)
  }

  /** The texts on which the source is defined: the rest of an overlong line is swallowable. */
  predicate Readable(text: string)
    decreases |text|
  {
    text == ""
    || ((Overlong(text) ==> Swallowable(text[Taken(text, MAX_LINE - 1)..])) && Readable(AfterLine(text)))
  }

  const FRESH := Parser("", "", 0, 0, [])

  // ---- saving ------------------------------------------------------------------------------------

  function HeaderText(section: string): string {
    "[" + section + "]"
  }

  function PairText(it: Item): string {
    it.key + "=" + it.value
  }

  predicate NeedsHeader(section: string, current: string) {
    section != current && section != ""
  }

  function Saved(items: seq<Item>, current: string): string {
    if items == [] then ""
    else
      var it := items[0];
      var body := PairText(it) + "\n" + Saved(items[1..], it.section);
      if NeedsHeader(it.section, current) then HeaderText(it.section) + "\n" + body else body
  }
}
