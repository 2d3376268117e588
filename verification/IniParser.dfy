/** The INI parser at work on its line buffer: characters are overwritten by terminators in place, and
    strings are read up to the first terminator. Each method is proved to do what its function on text does. */
module IniParser {
  import opened IniText

  // ---- C strings in a buffer ---------------------------------------------------------------------

  predicate Terminated(a: seq<char>, i: nat) {
    i <= |a| && End(a, i) < |a|
  }

  function Str(a: seq<char>, i: nat): string
    requires i <= |a|
  {
    a[i..End(a, i)]
  }

  lemma {:induction false} EndIs(a: seq<char>, i: nat)
    requires i <= |a|
    ensures forall k :: i <= k < End(a, i) ==> a[k] != NUL
    ensures End(a, i) < |a| ==> a[End(a, i)] == NUL
    decreases |a| - i
  {
    if !(i == |a| || a[i] == NUL) { EndIs(a, i + 1); }
  }

  lemma {:induction false} EndFound(a: seq<char>, i: nat, e: nat)
    requires i <= e < |a| && a[e] == NUL
    requires forall k :: i <= k < e ==> a[k] != NUL
    ensures End(a, i) == e && Terminated(a, i) && Str(a, i) == a[i..e]
    decreases e - i
  {
    if i < e { EndFound(a, i + 1, e); }
  }

  lemma StrFrom(a: seq<char>, i: nat, j: nat)
    requires i <= j && Terminated(a, i) && j <= End(a, i)
    ensures End(a, j) == End(a, i) && Terminated(a, j) && Str(a, j) == Str(a, i)[j - i..]
  {
    EndIs(a, i);
    EndFound(a, j, End(a, i));
  }

  /** Equal cells from `i` to the terminator make equal strings. */
  lemma StrKept(a: seq<char>, b: seq<char>, i: nat)
    requires Terminated(a, i) && |b| == |a|
    requires forall k :: i <= k <= End(a, i) ==> b[k] == a[k]
    ensures Terminated(b, i) && End(b, i) == End(a, i) && Str(b, i) == Str(a, i)
  {
    EndIs(a, i);
    EndFound(b, i, End(a, i));
  }

  method StrLen(line: array<char>, s: nat) returns (e: nat)
    requires Terminated(line[..], s)
    ensures e == End(line[..], s)
  {
    e := s;
    while line[e] != NUL
      invariant s <= e <= End(line[..], s) == End(line[..], e)
      decreases line.Length - e
    {
      e := e + 1;
    }
  }

  method RStripLine(line: array<char>, s: nat)
    requires Terminated(line[..], s)
    modifies line
    ensures Terminated(line[..], s) && Str(line[..], s) == RStrip(old(Str(line[..], s)))
    ensures forall k :: 0 <= k < line.Length && !(s <= k < old(End(line[..], s))) ==> line[k] == old(line[k])
  {
    hide End;
    ghost var a := line[..];
    ghost var str := Str(a, s);
    var e := StrLen(line, s);
    EndIs(a, s);
    assert str[..e - s] == str;
    var p := e;
    while p > s && IsSpace(line[p - 1])
      invariant s <= p <= e
      invariant RStrip(str) == RStrip(str[..p - s])
      invariant line[p] == NUL
      invariant forall k :: 0 <= k < line.Length && !(p <= k < e) ==> line[k] == a[k]
    {
      p := p - 1;
      line[p] := NUL;
      assert str[..p + 1 - s][..p - s] == str[..p - s];
    }
    EndFound(line[..], s, p);
    assert forall k :: s <= k < p ==> line[k] == a[k] == str[k - s];
    assert line[..][s..p] == str[..p - s];
    assert p > s ==> line[p - 1] == str[..p - s][p - s - 1];
  }

  method LSkip(line: array<char>, s: nat) returns (p: nat)
    requires Terminated(line[..], s)
    ensures s <= p <= End(line[..], s) && p == s + Blanks(Str(line[..], s))
    ensures Terminated(line[..], p) && Str(line[..], p) == Str(line[..], s)[p - s..]
  {
    ghost var a := line[..];
    ghost var e := End(a, s);
    EndIs(a, s);
    p := s;
    while line[p] != NUL && IsSpace(line[p])
      invariant s <= p <= e
      invariant Blanks(a[s..e]) == p - s + Blanks(a[p..e])
      decreases e - p
    {
      assert a[p..e][0] == a[p] && a[p..e][1..] == a[p + 1..e];
      p := p + 1;
    }
    StrFrom(a, s, p);
  }

  method FindCharsOrComment(line: array<char>, s: nat, chars: string) returns (e: nat)
    requires Terminated(line[..], s)
    ensures s <= e <= End(line[..], s) && e == s + Find(Str(line[..], s), chars, 0)
  {
    ghost var str := Str(line[..], s);
    EndIs(line[..], s);
    var wasSpace := false;
    e := s;
    while line[e] != NUL && line[e] !in chars && !(wasSpace && line[e] == ';')
      invariant s <= e <= End(line[..], s)
      invariant wasSpace == (e > s && IsSpace(str[e - s - 1]))
      invariant Find(str, chars, 0) == Find(str, chars, e - s)
      decreases line.Length - e
    {
      wasSpace := IsSpace(line[e]);
      e := e + 1;
    }
  }

  /** Overwriting position `e` of the string at `s` by a terminator cuts it there. */
  method Cut(line: array<char>, s: nat, e: nat)
    requires Terminated(line[..], s) && s <= e <= End(line[..], s)
    modifies line
    ensures line[..] == old(line[..])[e := NUL]
    ensures Terminated(line[..], s) && End(line[..], s) == e
    ensures Str(line[..], s) == old(Str(line[..], s))[..e - s]
  {
    EndIs(line[..], s);
    line[e] := NUL;
    EndFound(line[..], s, e);
  }

  // ---- the parser object -------------------------------------------------------------------------

  class IniParser {
    var section: string
    var prevName: string
    var lineno: nat
    var error: nat
    var items: seq<Item>

    ghost function View(): Parser
      reads this
    {
      Parser(section, prevName, lineno, error, items)
    }

    constructor ()
      ensures View() == FRESH
    {
      section, prevName, lineno, error, items := "", "", 0, 0, [];
    }

    method NoteFault()
      modifies this`error
      ensures View() == Fault(old(View()))
    {
      if error == 0 { error := lineno; }
    }

    method Handle(name: string, value: string)
      modifies this`error, this`items
      ensures View() == Handled(old(View()), name, value)
    {
      if |items| >= MAX_CONFIGS {
        NoteFault();
      } else {
        items := items + [Item(Truncated(section, MAX_SECTION), Truncated(name, MAX_NAME),
                               Truncated(value, MAX_VALUE))];
      }
    }

    /** `line` holds the string from `s` to its first terminator `e`. */
    method Text(line: array<char>, s: nat) returns (t: string)
      requires Terminated(line[..], s)
      ensures t == Str(line[..], s)
    {
      var e := StrLen(line, s);
      t := line[s..e];
    }

    /** The value part of a pair line: inline comment cut off, then stripped on both sides. */
    static method TakeValue(line: array<char>, at: nat) returns (v: string)
      requires Terminated(line[..], at)
      modifies line
      ensures v == ValueOf(old(Str(line[..], at)))
    {
      hide RStrip, Find, Blanks, End;
      var value := at;
      var e := FindCharsOrComment(line, value, "");
      Cut(line, value, e);
      value := LSkip(line, value);
      RStripLine(line, value);
      var l := StrLen(line, value);
      v := line[value..l];
    }

    /** The name part, which ends where the separator stood; what follows it stays as it is. */
    static method TakeName(line: array<char>, start: nat, e: nat) returns (name: string)
      requires Terminated(line[..], start) && start <= e < End(line[..], start)
      modifies line
      ensures name == RStrip(old(Str(line[..], start))[..e - start])
      ensures Terminated(line[..], e + 1) && Str(line[..], e + 1) == old(Str(line[..], start))[e - start + 1..]
    {
      hide RStrip, End;
      StrFrom(line[..], start, e + 1);
      ghost var b := line[..];
      Cut(line, start, e);
      RStripLine(line, start);
      StrKept(b, line[..], e + 1);
      var l := StrLen(line, start);
      name := line[start..l];
    }

    method ParsePair(line: array<char>, start: nat)
      requires Terminated(line[..], start)
      modifies this, line
      ensures View() == PairLine(old(View()), old(Str(line[..], start)))
    {
      hide ValueOf, RStrip, Find, Truncated;
      ghost var str := Str(line[..], start);
      var e := FindCharsOrComment(line, start, "=:");
      EndIs(line[..], start);
      assert e < End(line[..], start) ==> line[e] == str[e - start];
      if line[e] != '=' && line[e] != ':' {
        NoteFault();
        return;
      }
      var name := TakeName(line, start, e);
      var value := TakeValue(line, e + 1);
      assert value == ValueOf(str[e - start + 1..]);
      prevName := Truncated(name, MAX_PARSED);
      Handle(name, value);
    }

    method ParseSection(line: array<char>, start: nat)
      requires Terminated(line[..], start) && Str(line[..], start) != ""
      modifies this, line
      ensures View() == SectionLine(old(View()), old(Str(line[..], start)))
    {
      hide Find, Truncated;
      ghost var str := Str(line[..], start);
      EndIs(line[..], start);
      StrFrom(line[..], start, start + 1);
      var e := FindCharsOrComment(line, start + 1, "]");
      if line[e] == ']' {
        Cut(line, start + 1, e);
        var name := Text(line, start + 1);
        assert name == str[1..][..e - start - 1] == str[1..e - start];
        section := Truncated(name, MAX_PARSED);
        prevName := "";
      } else {
        NoteFault();
      }
    }

    /** The line goes on with the value of the previous name. */
    method ParseContinuation(line: array<char>, start: nat)
      requires Terminated(line[..], start)
      modifies this, line
      ensures var str := old(Str(line[..], start));
              View() == Handled(old(View()), old(prevName), RStrip(str[..Find(str, "", 0)]))
    {
      var e := FindCharsOrComment(line, start, "");
      Cut(line, start, e);
      RStripLine(line, start);
      var v := Text(line, start);
      Handle(prevName, v);
    }

    method ParseTrimmed(line: array<char>, start: nat)
      requires Terminated(line[..], start)
      modifies this, line
      ensures View() == TrimmedLine(old(View()), old(Str(line[..], start)), start > 0)
    {
      EndIs(line[..], start);
      var c := line[start];
      if c == NUL || c == ';' || c == '#' {
        // blank line or start-of-line comment
      } else if prevName != "" && start > 0 {
        ParseContinuation(line, start);
      } else if c == '[' {
        ParseSection(line, start);
      } else {
        ParsePair(line, start);
      }
    }

    method ParseBuffer(line: array<char>)
      requires Terminated(line[..], 0)
      modifies this, line
      ensures View() == ParseLine(old(View()), old(Str(line[..], 0)))
    {
      hide RStrip, Blanks, TrimmedLine;
      ghost var str := Str(line[..], 0);
      EndIs(line[..], 0);
      var start := 0;
      if lineno == 1 && line[0] == '\U{EF}' && line[1] == '\U{BB}' && line[2] == '\U{BF}' {
        start := 3;
      }
      StrFrom(line[..], 0, start);
      start := LSkip(line, start);
      RStripLine(line, start);
      assert start == StartOf(lineno, str);
      ParseTrimmed(line, start);
    }

    /** Reads one line, or as much of it as the buffer takes. */
    static method GetLine(line: array<char>, size: nat, text: string, pos: nat) returns (n: nat)
      requires 2 <= size <= line.Length && pos < |text|
      modifies line
      ensures n == Taken(text[pos..], size - 1) && 0 < n && pos + n <= |text|
      ensures Terminated(line[..], 0) && Str(line[..], 0) == CStr(text[pos..pos + n])
    {
      n := 0;
      var num := size;
      var done := false;
      hide End;
      while num > 1 && pos + n < |text| && !done
        invariant n <= size - 1 && pos + n <= |text| && num >= 1
        invariant !done ==> num == size - n
        invariant forall k :: 0 <= k < n ==> line[k] == text[pos + k]
        invariant Taken(text[pos..], size - 1) == n + if done then 0 else Taken(text[pos + n..], num - 1)
        decreases |text| - pos - n, !done
      {
        var c := text[pos + n];
        assert text[pos + n..][1..] == text[pos + n + 1..];
        line[n] := c;
        n := n + 1;
        if c == '\n' { done := true; } else { num := num - 1; }
      }
      line[n] := NUL;
      StrOfPiece(line[..], text[pos..pos + n]);
    }

    /** A buffer that begins with a piece of text and a terminator holds what a C string shows of the piece. */
    static lemma StrOfPiece(a: seq<char>, t: string)
      requires |t| < |a| && a[|t|] == NUL && forall k :: 0 <= k < |t| ==> a[k] == t[k]
      ensures Terminated(a, 0) && Str(a, 0) == CStr(t)
    {
      EndIs(t, 0);
      var e := End(t, 0);
      assert a[e] == NUL;
      EndFound(a, 0, e);
      assert a[..e] == t[..e];
    }

    /** Where swallowing the rest of a line stops. */
    static ghost function DiscardEnd(text: string, pos: nat): (e: nat)
      requires pos <= |text|
      ensures pos <= e <= |text|
      decreases |text| - pos
    {
      if pos == |text| then pos
      else
        var m := Taken(text[pos..], ABYSS - 1);
        if EndsLine(CStr(text[pos..pos + m])) then pos + m else DiscardEnd(text, pos + m)
    }

    static lemma {:induction false} DiscardEndIs(text: string, pos: nat)
      requires pos <= |text|
      ensures text[DiscardEnd(text, pos)..] == Discard(text[pos..])
      decreases |text| - pos
    {
      hide Taken, CStr, EndsLine;
      if pos < |text| {
        var m := Taken(text[pos..], ABYSS - 1);
        assert text[pos..][m..] == text[pos + m..];
        assert text[pos..][..m] == text[pos..pos + m];
        DiscardEndIs(text, pos + m);
      }
    }

    static lemma NextPiece(text: string, pos: nat, m: nat)
      requires pos < |text| && Swallowable(text[pos..]) && m == Taken(text[pos..], ABYSS - 1)
      ensures CStr(text[pos..pos + m]) != ""
      ensures !EndsLine(CStr(text[pos..pos + m])) ==> Swallowable(text[pos + m..])
    {
      hide Taken;
      assert text[pos..][m..] == text[pos + m..];
      assert text[pos..][..m] == text[pos..pos + m];
    }

    /** Swallows the rest of an overlong line; a fault if there is any. */
    method DiscardRest(text: string, from: nat) returns (pos: nat)
      requires from <= |text| && Swallowable(text[from..])
      modifies this`error
      ensures pos == DiscardEnd(text, from)
      ensures error == if from == |text| || old(error) != 0 then old(error) else lineno
    {
      hide Taken, Terminated, Str, Swallowable, CStr;
      var abyss := new char[ABYSS](_ => NUL);
      pos := from;
      var more := true;
      while more && pos < |text|
        invariant from <= pos <= |text|
        invariant more ==> Swallowable(text[pos..])
        invariant error == if pos == from || old(error) != 0 then old(error) else lineno
        invariant pos == from ==> more
        invariant DiscardEnd(text, from) == if more then DiscardEnd(text, pos) else pos
        decreases |text| - pos
      {
        var m := GetLine(abyss, ABYSS, text, pos);
        NextPiece(text, pos, m);
        NoteFault();
        var l := Length(abyss);
        if abyss[l - 1] == '\n' { more := false; }
        pos := pos + m;
      }
    }

    /** The length of the string in the buffer. */
    static method Length(line: array<char>) returns (l: nat)
      requires Terminated(line[..], 0)
      ensures l == |Str(line[..], 0)| < line.Length
      ensures l > 0 ==> line[l - 1] == Str(line[..], 0)[l - 1]
    {
      l := StrLen(line, 0);
    }

    /** Reads the next line into the buffer and counts it; what it leaves of an overlong line is swallowed. */
    method FetchLine(line: array<char>, text: string, from: nat) returns (pos: nat)
      requires line.Length == MAX_LINE && from < |text|
      requires Overlong(text[from..]) ==> Swallowable(text[from..][Taken(text[from..], MAX_LINE - 1)..])
      modifies this`lineno, this`error, line
      ensures from < pos <= |text| && text[pos..] == AfterLine(text[from..])
      ensures View() == Counted(old(View()), text[from..])
      ensures Terminated(line[..], 0) && Str(line[..], 0) == LineOf(text[from..])
    {
      hide Taken, DiscardEnd, Swallowable, CStr, Str, Terminated, Discard;
      ghost var todo := text[from..];
      var n := GetLine(line, MAX_LINE, text, from);
      assert todo[..n] == text[from..from + n] && todo[n..] == text[from + n..];
      assert Str(line[..], 0) == LineOf(todo);
      var offset := Length(line);
      lineno := lineno + 1;
      pos := from + n;
      if offset == MAX_LINE - 1 && line[offset - 1] != '\n' {
        pos := DiscardRest(text, pos);
        DiscardEndIs(text, from + n);
      }
      assert text[pos..] == AfterLine(todo);
    }

    /** Reads and parses the next line. */
    method ParseNext(line: array<char>, text: string, from: nat) returns (pos: nat)
      requires line.Length == MAX_LINE && from < |text| && Readable(text[from..])
      modifies this, line
      ensures from < pos <= |text| && Readable(text[pos..])
      ensures (View(), text[pos..]) == NextLine(old(View()), text[from..])
    {
      hide ParseLine, Taken, Swallowable, LineOf, Str, Terminated, Counted, AfterLine;
      pos := FetchLine(line, text, from);
      ParseBuffer(line);
    }

    /** Parses a whole text and returns the number of its first faulty line, or 0. */
    method ParseStream(text: string) returns (rc: nat)
      requires Readable(text)
      modifies this
      ensures View() == ParseText(old(View()), text) && rc == error
    {
      hide Readable;
      var line := new char[MAX_LINE](_ => NUL);
      var pos := 0;
      assert text[0..] == text;
      while pos < |text|
        invariant pos <= |text| && Readable(text[pos..])
        invariant ParseText(old(View()), text) == ParseText(View(), text[pos..])
      {
        pos := ParseNext(line, text, pos);
      }
      rc := error;
    }
  }
}
