/** What a text written by hand means, line by line: white space around names and values, comments, continuation
    lines, either separator, and lines that are too long. */
module IniLines {
  import opened Common
  import opened IniText
  import opened IniRoundTrip

  predicate AllSpace(s: string) {
    forall i :: 0 <= i < |s| ==> IsSpace(s[i])
  }

  /** What may follow a value: white space, or white space and a comment. */
  predicate IsTail(s: string) {
    AllSpace(s) || exists i :: 0 < i < |s| && AllSpace(s[..i]) && s[i] == ';'
  }

  lemma {:induction false} BlanksOf(a: string, b: string)
    requires AllSpace(a) && (b == "" || !IsSpace(b[0]))
    ensures Blanks(a + b) == |a|
    decreases |a|
  {
    if a == "" {
      assert a + b == b;
    } else {
      assert (a + b)[1..] == a[1..] + b;
      BlanksOf(a[1..], b);
    }
  }

  lemma {:induction false} RStripOf(a: string, b: string)
    requires AllSpace(b) && (a == "" || !IsSpace(a[|a| - 1]))
    ensures RStrip(a + b) == a
    decreases |b|
  {
    if b == "" {
      assert a + b == a;
    } else {
      assert (a + b)[..|a + b| - 1] == a + b[..|b| - 1];
      RStripOf(a, b[..|b| - 1]);
    }
  }

  /** White space only, and comments behind any white space, mean nothing. */
  lemma CommentsMeanNothing(p: Parser, indent: string, text: string)
    requires p.lineno > 1 && AllSpace(indent)
    requires text == "" || (text[0] in ";#" && NoLineEnd(text))
    ensures ParseLine(p, indent + text + "\n") == p
  {
    var line := indent + text + "\n";
    assert line[0..] == line;
    if text == "" {
      assert line == (indent + "\n") + "";
      assert AllSpace(indent + "\n");
      BlanksOf(indent + "\n", "");
      assert line[|line|..] == "";
    } else {
      assert line == indent + (text + "\n");
      BlanksOf(indent, text + "\n");
      assert line[|indent|..] == text + "\n";
      FirstOfStripped(text + "\n");
    }
  }

  lemma {:induction false} FirstOfStripped(s: string)
    requires s != "" && !IsSpace(s[0])
    ensures RStrip(s) != "" && RStrip(s)[0] == s[0]
    decreases |s|
  {
    if IsSpace(s[|s| - 1]) { FirstOfStripped(s[..|s| - 1]); }
  }

  /** A string up to a tail: nothing before the tail stops the search, and a comment does. */
  lemma FindToTail(v: string, tail: string)
    requires !Commented(v) && (v == "" || !IsSpace(v[|v| - 1])) && IsTail(tail)
    ensures RStrip((v + tail)[..Find(v + tail, "", 0)]) == v
  {
    hide RStrip, Find;
    var s := v + tail;
    var f := Find(s, "", 0);
    FindIs(s, "", 0);
    assert forall i :: 0 <= i < |v| ==> s[i] == v[i];
    forall i | 0 <= i < |v| ensures !CommentAt(s, i) { assert !CommentAt(v, i); }
    assert f >= |v| || f == |s|;
    if !AllSpace(tail) {
      var i :| 0 < i < |tail| && AllSpace(tail[..i]) && tail[i] == ';';
      assert s[|v| + i] == ';' && s[|v| + i - 1] == tail[..i][i - 1];
      assert CommentAt(s, |v| + i);
      forall j | |v| <= j < f ensures IsSpace(s[j]) { assert s[j] == tail[..i][j - |v|]; }
    }
    assert s[..f] == v + s[|v|..f];
    forall j | 0 <= j < f - |v| ensures IsSpace(s[|v|..f][j]) {}
    RStripOf(v, s[|v|..f]);
  }

  /** One more item with this key and value, or a fault if the store is full. */
  ghost predicate OneMore(p: Parser, q: Parser, key: string, value: string) {
    if |p.items| < 128
    then q.items == p.items + [Item(Truncated(p.section, 32), Truncated(key, 32), Truncated(value, 128))]
         && q.error == p.error
    else q.items == p.items && q.error == if p.error == 0 then p.lineno else p.error
  }

  /** An indented line behind a pair goes on with the same section and key: it is one more value, up to a comment. */
  lemma ContinuationMeans(p: Parser, indent: string, v: string, tail: string)
    requires p.lineno > 1 && p.prev != "" && indent != "" && AllSpace(indent)
    requires v != "" && Trimmed(v) && !Commented(v) && v[0] !in ";#" && IsTail(tail)
    ensures var q := ParseLine(p, indent + v + tail + "\n");
            OneMore(p, q, p.prev, v) && q.section == p.section && q.prev == p.prev && q.lineno == p.lineno
  {
    ContinuationBody(p, indent, v, tail);
    CutBody(v, tail);
  }

  lemma ContinuationBody(p: Parser, indent: string, v: string, tail: string)
    requires p.lineno > 1 && p.prev != "" && indent != "" && AllSpace(indent)
    requires v != "" && Trimmed(v) && v[0] !in ";#"
    ensures var body := RStrip(v + tail);
            ParseLine(p, indent + v + tail + "\n") == Handled(p, p.prev, RStrip(body[..Find(body, "", 0)]))
  {
    var line := indent + v + tail + "\n";
    assert line == indent + (v + tail + "\n") && line[0..] == line;
    BlanksOf(indent, v + tail + "\n");
    assert line[|indent|..] == v + tail + "\n";
    StripNewline(v + tail);
    FirstOfStripped(v + tail);
    hide Handled, RStrip, Find;
  }

  lemma StripNewline(s: string)
    ensures RStrip(s + "\n") == RStrip(s)
  {
    assert (s + "\n")[..|s|] == s;
  }

  /** A tail with a comment: white space, and the comment as far as it is not stripped. */
  lemma TailParts(a: string, tail: string) returns (blank: string, text: string)
    requires IsTail(tail) && !AllSpace(tail)
    ensures RStrip(a + tail) == a + (blank + text)
    ensures blank != "" && AllSpace(blank) && text != "" && text[0] == ';'
  {
    hide RStrip, Commented;
    var i :| 0 < i < |tail| && AllSpace(tail[..i]) && tail[i] == ';';
    blank, text := tail[..i], RStrip(tail[i..]);
    FirstOfStripped(tail[i..]);
    RStripOfSum(a + blank, tail[i..]);
    hide AllSpace;
    assert a + tail == a + blank + tail[i..];
    assert a + blank + text == a + (blank + text);
  }

  lemma PartsAreTail(blank: string, text: string)
    requires blank != "" && AllSpace(blank) && text != "" && text[0] == ';'
    ensures IsTail(blank + text)
  {
    var tail, i := blank + text, |blank|;
    assert tail[..i] == blank && tail[i] == ';';
  }

  /** Stripping first does not change where the value ends. */
  lemma CutBody(v: string, tail: string)
    requires v != "" && !Commented(v) && !IsSpace(v[|v| - 1]) && IsTail(tail)
    ensures var body := RStrip(v + tail); RStrip(body[..Find(body, "", 0)]) == v
  {
    hide RStrip, Find, Commented, IsTail;
    if AllSpace(tail) {
      RStripOf(v, tail);
      assert IsTail("") by { SpaceIsTail(""); }
      assert v + "" == v;
      FindToTail(v, "");
    } else {
      var blank, text := TailParts(v, tail);
      PartsAreTail(blank, text);
      FindToTail(v, blank + text);
    }
  }

  lemma SpaceIsTail(s: string)
    requires AllSpace(s)
    ensures IsTail(s)
  {
  }

  lemma {:induction false} RStripRest(s: string)
    ensures forall i :: |RStrip(s)| <= i < |s| ==> IsSpace(s[i])
    decreases |s|
  {
    if s != "" && IsSpace(s[|s| - 1]) {
      RStripRest(s[..|s| - 1]);
      forall i | |RStrip(s)| <= i < |s| - 1 ensures IsSpace(s[i]) { assert s[i] == s[..|s| - 1][i]; }
    }
  }

  /** A value is found between white space and a tail. */
  lemma ValueAmid(c: string, v: string, tail: string)
    requires AllSpace(c) && Trimmed(v) && !Commented(v) && IsTail(tail)
    requires c == "" || v == "" || v[0] != ';'
    ensures ValueOf(RStrip(c + v + tail)) == v
  {
    hide RStrip, Blanks, Find, AllSpace, IsTail, Commented;
    var body := RStrip(c + v + tail);
    var cut := body[..Find(body, "", 0)];
    if v == "" {
      NothingAmid(c, tail);
      BlankOnly(cut);
    } else {
      var trail := CutAmid(c, v, tail);
      assert c + v + trail == c + (v + trail);
      BlanksOf(c, v + trail);
      assert cut[|c|..] == v + trail;
      RStripOf(v, trail);
    }
  }

  lemma BlankOnly(s: string)
    requires AllSpace(s)
    ensures RStrip(s[Blanks(s)..]) == ""
  {
    BlanksAre(s);
    assert s[Blanks(s)..] == "";
  }

  lemma CutAmid(c: string, v: string, tail: string) returns (trail: string)
    requires AllSpace(c) && v != "" && Trimmed(v) && !Commented(v) && IsTail(tail) && (c == "" || v[0] != ';')
    ensures var body := RStrip(c + v + tail); body[..Find(body, "", 0)] == c + v + trail
    ensures AllSpace(trail)
  {
    hide RStrip, Find;
    var w := c + v;
    forall i | 0 <= i < |w| ensures !CommentAt(w, i) {
      if i >= |c| { assert !CommentAt(v, i - |c|) && w[i] == v[i - |c|]; }
    }
    CutBody(w, tail);
    var body := RStrip(w + tail);
    var cut := body[..Find(body, "", 0)];
    RStripRest(cut);
    trail := cut[|w|..];
  }

  lemma NothingAmid(c: string, tail: string)
    requires AllSpace(c) && IsTail(tail)
    ensures var body := RStrip(c + "" + tail); AllSpace(body[..Find(body, "", 0)])
  {
    hide RStrip, Find, IsTail;
    assert c + "" + tail == c + tail;
    if AllSpace(tail) {
      AllStripped(c + tail);
    } else {
      var blank, text := TailParts(c, tail);
      assert c + (blank + text) == c + blank + text;
      BlankToComment(c + blank, text);
    }
  }

  lemma BlankToComment(a: string, text: string)
    requires AllSpace(a) && a != "" && text != "" && text[0] == ';'
    ensures AllSpace((a + text)[..Find(a + text, "", 0)])
  {
    var s := a + text;
    FindIs(s, "", 0);
    hide Find;
    assert CommentAt(s, |a|);
    assert forall j :: 0 <= j < |a| ==> s[j] == a[j];
  }

  lemma {:induction false} AllStripped(s: string)
    requires AllSpace(s)
    ensures RStrip(s) == ""
    decreases |s|
  {
    if s != "" { AllStripped(s[..|s| - 1]); }
  }

  /** A pair as one may write it: white space around name and value, either separator, a comment behind. Indented it
      is one only if there is no name to go on with. */
  lemma PairLineMeans(p: Parser, indent: string, k: string, b: string, sep: char, c: string, v: string, tail: string)
    requires p.lineno > 1 && AllSpace(indent) && AllSpace(b) && AllSpace(c) && IsTail(tail) && sep in "=:"
    requires KeyOk(k) && k != "" && ValueOk(v) && (indent == "" || p.prev == "")
    requires c == "" || v == "" || v[0] != ';'
    ensures var q := ParseLine(p, indent + (k + b + [sep] + c + v + tail) + "\n");
            OneMore(p, q, k, v) && q.section == p.section && q.prev == Truncated(k, 50) && q.lineno == p.lineno
  {
    hide Find, RStrip, ValueOf, ParseLine, AllSpace, IsTail, Commented;
    var head, rest := k + b, c + v + tail;
    var line := indent + (k + b + [sep] + c + v + tail) + "\n";
    PairBody(p, indent, head, sep, rest);
    assert k + b + [sep] + c + v + tail == head + [sep] + rest;
    var start := head + [sep] + RStrip(rest);
    FindOfSum(head, sep, RStrip(rest), "=:");
    HeadIsClean(k, b);
    RStripOf(k, b);
    ValueAmid(c, v, tail);
    assert start[..|head|] == head && start[|head| + 1..] == RStrip(rest);
    assert start[0] == k[0];
  }

  lemma HeadIsClean(k: string, b: string)
    requires KeyOk(k) && AllSpace(b)
    ensures !Commented(k + b) && forall x :: x in k + b ==> x !in "=:"
  {
    var s := k + b;
    forall i | 0 <= i < |s| ensures !CommentAt(s, i) && s[i] !in "=:" {
      if i < |k| {
        assert !CommentAt(k, i) && s[i] == k[i] && k[i] in k;
      } else {
        assert s[i] == b[i - |k|];
      }
    }
  }

  lemma KeepsSeparator(head: string, sep: char)
    requires !IsSpace(sep)
    ensures RStrip(head + [sep]) == head + [sep]
  {
  }

  lemma PairBody(p: Parser, indent: string, head: string, sep: char, rest: string)
    requires p.lineno > 1 && AllSpace(indent) && head != "" && !IsSpace(head[0]) && !IsSpace(sep)
    ensures ParseLine(p, indent + (head + [sep] + rest) + "\n")
            == TrimmedLine(p, head + [sep] + RStrip(rest), indent != "")
  {
    hide TrimmedLine, RStrip, Blanks;
    var body := head + [sep] + rest;
    var line := indent + body + "\n";
    assert line == indent + (body + "\n") && line[0..] == line;
    BlanksOf(indent, body + "\n");
    assert line[|indent|..] == body + "\n";
    StripNewline(body);
    RStripOfSum(head + [sep], rest);
    KeepsSeparator(head, sep);
    assert RStrip(rest) == "" ==> head + [sep] + RStrip(rest) == head + [sep];
  }

  /** A section line, whatever follows the bracket. Without a bracket it is a fault. */
  lemma SectionLineMeans(p: Parser, indent: string, s: string, after: string)
    requires p.lineno > 1 && AllSpace(indent) && (indent == "" || p.prev == "") && SectionOk(s)
    ensures ParseLine(p, indent + ("[" + s + [']'] + after) + "\n") == p.(section := Truncated(s, 50), prev := "")
  {
    PairBody(p, indent, "[" + s, ']', after);
    var start := "[" + s + [']'] + RStrip(after);
    assert start[1..] == s + [']'] + RStrip(after);
    FindOfSum(s, ']', RStrip(after), "]");
    assert start[1..|s| + 1] == s;
    hide Find, RStrip, ParseLine;
  }

  lemma OpenSectionIsAFault(p: Parser, s: string)
    requires p.lineno > 1 && p.error == 0 && ']' !in s
    ensures ParseLine(p, "[" + s + "\n") == p.(error := p.lineno)
  {
    hide RStrip, Find;
    var line := "[" + s + "\n";
    assert line == "[" + (s + "\n") && line[0..] == line;
    RStripOfSum("[", s);
    StripNewline("[" + s);
    FirstOfStripped("[" + s);
    var start := RStrip("[" + s);
    FindIs(start[1..], "]", 0);
    assert forall x :: x in start[1..] ==> x in s by { assert start <= "[" + s; }
  }

  /** A byte-order mark at the beginning of the text is skipped. */
  lemma BomMeansNothing(p: Parser, l: string)
    requires p.lineno == 1 && p.prev == "" && !StartsWithBom(l)
    ensures ParseLine(p, "\U{EF}\U{BB}\U{BF}" + l) == ParseLine(p, l)
  {
    var line := "\U{EF}\U{BB}\U{BF}" + l;
    assert line[3..] == l && l[0..] == l && StartsWithBom(line);
    var b := Blanks(l);
    assert line[3 + b..] == l[b..];
    hide RStrip, PairLine, SectionLine;
  }

  // ---- the lines of a text -----------------------------------------------------------------------

  /** The last line needs no newline. */
  lemma LastLine(p: Parser, l: string)
    requires '\n' !in l && NUL !in l && l != "" && |l| <= 199
    ensures ParseText(p, l) == ParseLine(p.(lineno := p.lineno + 1), l)
  {
    TakesAll(l, 199);
    assert l[..|l|] == l;
    EndOfNulFree(l, 0);
    hide ParseLine, Taken, End;
    assert LineOf(l) == l && l[|l|..] == "";
    assert AfterLine(l) == "";
    EmptyText(NextLine(p, l).0);
  }

  lemma EmptyText(p: Parser)
    ensures ParseText(p, "") == p
  {
  }

  lemma {:induction false} TakesAll(l: string, max: nat)
    requires '\n' !in l && |l| <= max
    ensures Taken(l, max) == |l|
    decreases |l|
  {
    if l != "" {
      assert l[0] in l;
      TakesAll(l[1..], max - 1);
    }
  }

  lemma {:induction false} TakesMax(l: string, rest: string, max: nat)
    requires '\n' !in l && |l| >= max
    ensures Taken(l + rest, max) == max
    decreases max
  {
    if max > 0 {
      assert l[0] in l && (l + rest)[0] == l[0] && (l + rest)[1..] == l[1..] + rest;
      TakesMax(l[1..], rest, max - 1);
    }
  }

  lemma {:induction false} DiscardsLine(m: string, rest: string)
    requires '\n' !in m && NUL !in m
    ensures Discard(m + "\n" + rest) == rest
    decreases |m|
  {
    var text := m + "\n" + rest;
    if |m| < 15 {
      TakesWholeLine(m, rest, 15);
      assert text[..|m| + 1] == m + "\n" && text[|m| + 1..] == rest;
      EndOfNulFree(m + "\n", 0);
    } else {
      TakesMax(m, "\n" + rest, 15);
      assert text == m + ("\n" + rest);
      assert text[..15] == m[..15] && text[15..] == m[15..] + "\n" + rest;
      EndOfNulFree(m[..15], 0);
      assert m[..15][14] in m;
      DiscardsLine(m[15..], rest);
    }
  }

  /** A line of more than 198 characters is a fault; its first 199 characters are parsed, and the rest is swallowed. */
  lemma LongLine(p: Parser, l: string, rest: string)
    requires '\n' !in l && NUL !in l && |l| >= 199
    ensures var q := p.(lineno := p.lineno + 1, error := if p.error == 0 then p.lineno + 1 else p.error);
            ParseText(p, l + "\n" + rest) == ParseText(ParseLine(q, l[..199]), rest)
  {
    hide Taken, Discard, End, ParseLine, ParseText;
    var text := l + "\n" + rest;
    TakesMax(l, "\n" + rest, 199);
    assert text == l + ("\n" + rest);
    assert text[..199] == l[..199] && text[199..] == l[199..] + "\n" + rest;
    EndOfNulFree(l[..199], 0);
    DiscardsLine(l[199..], rest);
    assert LineOf(text) == l[..199];
    assert Overlong(text) by { assert l[..199][198] in l; }
    var q := p.(lineno := p.lineno + 1, error := if p.error == 0 then p.lineno + 1 else p.error);
    ParseFrom(p, text, ParseLine(q, l[..199]), rest);
  }
}
