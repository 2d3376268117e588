/** Saving a store and loading it again: exactly which stores come back unchanged. */
module IniRoundTrip {
  import opened IniText

  predicate NoLineEnd(s: string) {
    '\n' !in s && NUL !in s
  }

  /** A C string of less than `size` characters. */
  predicate FitsIn(s: string, size: nat) {
    NUL !in s && |s| < size
  }

  predicate ItemFits(it: Item) {
    FitsIn(it.section, MAX_SECTION) && FitsIn(it.key, MAX_NAME) && FitsIn(it.value, MAX_VALUE)
  }

  /** The store fits its fields: C strings that the fixed-size buffers can hold. */
  predicate Fits(items: seq<Item>) {
    forall i :: 0 <= i < |items| ==> ItemFits(items[i])
  }

  predicate OneLine(it: Item) {
    '\n' !in it.section && '\n' !in it.key && '\n' !in it.value
  }

  predicate OneLineEach(items: seq<Item>) {
    forall i :: 0 <= i < |items| ==> OneLine(items[i])
  }

  predicate Commented(s: string) {
    exists i :: 0 <= i < |s| && CommentAt(s, i)
  }

  predicate Trimmed(s: string) {
    s == "" || (!IsSpace(s[0]) && !IsSpace(s[|s| - 1]))
  }

  predicate SectionOk(s: string) {
    ']' !in s && !Commented(s)
  }

  predicate KeyOk(k: string) {
    Trimmed(k) && '=' !in k && ':' !in k && !Commented(k) && (k == "" || k[0] !in ";#[")
  }

  predicate ValueOk(v: string) {
    Trimmed(v) && !Commented(v)
  }

  /** May `it` be written where the current section is `current`? `first`: nothing has been written yet. */
  predicate ItemOk(it: Item, current: string, first: bool) {
    && OneLine(it)
    && (it.section == current || (it.section != "" && SectionOk(it.section)))
    && KeyOk(it.key) && ValueOk(it.value)
    && !(first && it.section == current && StartsWithBom(it.key))
  }

  predicate WellFormed(items: seq<Item>, current: string, first: bool) {
    items == [] || (ItemOk(items[0], current, first) && WellFormed(items[1..], items[0].section, false))
  }

  /** What the parser keeps between the lines of a saved store. */
  predicate Sane(p: Parser) {
    && (p.prev == "" || !IsSpace(p.prev[0]))
    && (p.lineno == 0 ==> p.prev == "")
  }

  /** `q` is `p` with exactly the pair added, and no line was faulty. */
  predicate Stored(p: Parser, q: Parser, k: string, v: string) {
    q.error == 0 && q.items == p.items + [Item(p.section, k, v)]
  }

  /** The same, once the next line has been counted. */
  predicate LineReady(p: Parser) {
    && p.lineno > 0
    && |p.section| < MAX_SECTION
    && (p.prev == "" || !IsSpace(p.prev[0]))
    && (p.lineno == 1 ==> p.prev == "")
  }

  // ---- strings -----------------------------------------------------------------------------------

  lemma {:induction false} RStripEnd(s: string)
    ensures RStrip(s) == "" || !IsSpace(RStrip(s)[|RStrip(s)| - 1])
    decreases |s|
  {
    if s != "" && IsSpace(s[|s| - 1]) { RStripEnd(s[..|s| - 1]); }
  }

  lemma {:induction false} BlanksAre(s: string)
    ensures Blanks(s) < |s| ==> !IsSpace(s[Blanks(s)])
    ensures forall i :: 0 <= i < Blanks(s) ==> IsSpace(s[i])
    decreases |s|
  {
    if s != "" && IsSpace(s[0]) {
      BlanksAre(s[1..]);
      forall i | 0 <= i < Blanks(s) ensures IsSpace(s[i]) {
        assert i > 0 ==> s[i] == s[1..][i - 1];
      }
    }
  }

  lemma {:induction false} FindIs(s: string, chars: string, i: nat)
    requires i <= |s|
    ensures var r := Find(s, chars, i);
            && (forall k :: i <= k < r ==> s[k] !in chars && !CommentAt(s, k))
            && (r < |s| ==> s[r] in chars || CommentAt(s, r))
    decreases |s| - i
  {
    if !(i == |s| || s[i] in chars || CommentAt(s, i)) { FindIs(s, chars, i + 1); }
  }

  lemma {:induction false} RStripOfSum(a: string, b: string)
    ensures RStrip(a + b) == if RStrip(b) == "" then RStrip(a) else a + RStrip(b)
    decreases |b|
  {
    if b == "" {
      assert a + b == a;
    } else if IsSpace(b[|b| - 1]) {
      assert (a + b)[..|a + b| - 1] == a + b[..|b| - 1];
      RStripOfSum(a, b[..|b| - 1]);
    }
  }

  lemma RStripLine(a: string, v: string)
    ensures RStrip(a + "=" + v + "\n") == a + "=" + RStrip(v)
  {
    RStripOfSum(v, "\n");
    assert RStrip("") == "";
    assert RStrip("\n") == "";
    RStripOfSum(a + "=", v + "\n");
    assert a + "=" + v + "\n" == (a + "=") + (v + "\n");
  }

  lemma FindOfSum(a: string, c: char, b: string, chars: string)
    requires c in chars && c != ';'
    ensures Find(a + [c] + b, chars, 0) <= |a|
    ensures Find(a + [c] + b, chars, 0) == |a| <==> (forall x :: x in a ==> x !in chars) && !Commented(a)
  {
    var s := a + [c] + b;
    var r := Find(s, chars, 0);
    FindIs(s, chars, 0);
    assert s[|a|] == c;
    forall i | 0 <= i < |a| ensures s[i] == a[i] && (CommentAt(s, i) <==> CommentAt(a, i)) {}
    if r == |a| {
      forall x | x in a ensures x !in chars {
        var i :| 0 <= i < |a| && a[i] == x;
        assert s[i] !in chars;
      }
    } else {
      assert s[r] == a[r];
    }
  }

  lemma RStripTrimmed(v: string)
    requires Trimmed(v)
    ensures RStrip(v) == v && Blanks(v) == 0
  {
  }

  lemma ValueSurvives(v: string)
    ensures ValueOf(RStrip(v)) == v <==> ValueOk(v)
  {
    var w := RStrip(v);
    var f := Find(w, "", 0);
    var cut := w[..f];
    FindIs(w, "", 0);
    RStripEnd(v);
    RStripEnd(cut[Blanks(cut)..]);
    BlanksAre(cut);
    if ValueOf(w) == v {
      assert |v| <= f <= |w| <= |v|;
      assert w == v && cut == v;
    }
    if ValueOk(v) {
      RStripTrimmed(v);
      assert f == |v|;
    }
  }

  // ---- one line ----------------------------------------------------------------------------------

  lemma {:induction false} TakesWholeLine(l: string, rest: string, max: nat)
    requires '\n' !in l && |l| < max
    ensures Taken(l + "\n" + rest, max) == |l| + 1
    decreases |l|
  {
    var t := l + "\n" + rest;
    if l != "" {
      assert t[0] == l[0];
      assert t[1..] == l[1..] + "\n" + rest;
      TakesWholeLine(l[1..], rest, max - 1);
    }
  }

  lemma NextLineIs(p: Parser, l: string, rest: string)
    requires '\n' !in l && |l| < MAX_LINE - 1
    ensures NextLine(p, l + "\n" + rest) == (ParseLine(p.(lineno := p.lineno + 1), CStr(l + "\n")), rest)
  {
    var t := l + "\n" + rest;
    TakesWholeLine(l, rest, MAX_LINE - 1);
    hide Taken, End;
    assert t[..|l| + 1] == l + "\n" && t[|l| + 1..] == rest;
    assert LineOf(t) == CStr(l + "\n") && !Overlong(t);
  }

  lemma {:induction false} EndOfNulFree(s: string, i: nat)
    requires i <= |s| && NUL !in s
    ensures End(s, i) == |s|
    decreases |s| - i
  {
    if i < |s| { EndOfNulFree(s, i + 1); }
  }

  lemma ParseFrom(p: Parser, text: string, q: Parser, rest: string)
    requires text != "" && NextLine(p, text) == (q, rest)
    ensures ParseText(p, text) == ParseText(q, rest)
  {
  }

  lemma LineByLine(p: Parser, l: string, rest: string)
    requires '\n' !in l && |l| < MAX_LINE - 1
    ensures ParseText(p, l + "\n" + rest) == ParseText(ParseLine(p.(lineno := p.lineno + 1), CStr(l + "\n")), rest)
    ensures NUL !in l ==> ParseText(p, l + "\n" + rest) == ParseText(ReadLine(p, l), rest)
  {
    hide ParseText, ParseLine, End;
    NextLineIs(p, l, rest);
    ParseFrom(p, l + "\n" + rest, ParseLine(p.(lineno := p.lineno + 1), CStr(l + "\n")), rest);
    if NUL !in l {
      EndOfNulFree(l + "\n", 0);
      assert CStr(l + "\n") == l + "\n";
    }
  }

  /** A header line: the section is taken over exactly if it is well formed; nothing is stored. */
  lemma {:induction false} HeaderLine(p: Parser, s: string)
    requires |s| < MAX_SECTION && p.lineno > 0
    ensures var q := ParseLine(p, HeaderText(s) + "\n");
            && q.items == p.items && q.lineno == p.lineno && (p.error != 0 ==> q.error != 0)
            && (SectionOk(s) ==> q == p.(section := s, prev := ""))
            && (!SectionOk(s) ==> q.error != 0 || (|q.section| < |s| && q.prev == ""))
  {
    var start := HeaderText(s);
    var line := HeaderText(s) + "\n";
    HeaderStart(p.lineno, s);
    assert ParseLine(p, line) == TrimmedLine(p, start, false);
    assert start[0] == '[' && start[1..] == s + [']'] + "";
    FindOfSum(s, ']', "", "]");
    var e := Find(start[1..], "]", 0) + 1;
    if SectionOk(s) {
      assert e == |s| + 1 && start[1..e] == s;
    } else {
      assert e <= |s|;
    }
  }

  lemma {:induction false} HeaderStart(lineno: nat, s: string)
    ensures StartOf(lineno, HeaderText(s) + "\n") == 0
    ensures var line := HeaderText(s) + "\n"; RStrip(line[0..]) == HeaderText(s)
  {
  }

  /** A pair line adds at most one item, and adds the pair itself without a fault exactly if key and value are
      well formed and no byte-order mark is taken off the key. */
  lemma {:induction false} PairIsStored(p: Parser, k: string, v: string)
    requires LineReady(p) && |k| < MAX_NAME && |v| < MAX_VALUE
    requires p.error == 0 && |p.items| < MAX_CONFIGS
    ensures var q := ParseLine(p, k + "=" + v + "\n");
            var ok := KeyOk(k) && ValueOk(v) && !(p.lineno == 1 && StartsWithBom(k));
            && (Stored(p, q, k, v) <==> ok)
            && (ok ==> q.section == p.section && q.lineno == p.lineno && Sane(q))
  {
    var line := k + "=" + v + "\n";
    assert line[|k|] == '=';
    BomOfLine(k, v);
    if StartOf(p.lineno, line) == 0 {
      UnindentedPair(p, k, v);
    } else {
      IndentedPair(p, k, v);
    }
  }

  lemma BomOfLine(k: string, v: string)
    ensures StartsWithBom(k + "=" + v + "\n") <==> StartsWithBom(k)
  {
  }

  lemma {:induction false} UnindentedPair(p: Parser, k: string, v: string)
    requires LineReady(p) && |k| < MAX_NAME && |v| < MAX_VALUE
    requires p.error == 0 && |p.items| < MAX_CONFIGS
    requires StartOf(p.lineno, k + "=" + v + "\n") == 0
    ensures var q := ParseLine(p, k + "=" + v + "\n");
            var ok := KeyOk(k) && ValueOk(v) && !(p.lineno == 1 && StartsWithBom(k));
            && (Stored(p, q, k, v) <==> ok)
            && (ok ==> q.section == p.section && q.lineno == p.lineno && Sane(q))
  {
    UnindentedStart(p, k, v);
    UnindentedTrimmed(p, k, v);
  }

  lemma UnindentedStart(p: Parser, k: string, v: string)
    requires StartOf(p.lineno, k + "=" + v + "\n") == 0
    ensures ParseLine(p, k + "=" + v + "\n") == TrimmedLine(p, k + "=" + RStrip(v), false)
    ensures k != "" ==> !IsSpace(k[0])
    ensures !(p.lineno == 1 && StartsWithBom(k))
  {
    var line := k + "=" + v + "\n";
    BomOfLine(k, v);
    assert line[0..] == line;
    RStripLine(k, v);
    assert k != "" ==> line[0] == k[0];
  }

  lemma {:induction false} UnindentedTrimmed(p: Parser, k: string, v: string)
    requires LineReady(p) && |k| < MAX_NAME && |v| < MAX_VALUE
    requires p.error == 0 && |p.items| < MAX_CONFIGS
    requires k != "" ==> !IsSpace(k[0])
    ensures var q := TrimmedLine(p, k + "=" + RStrip(v), false);
            var ok := KeyOk(k) && ValueOk(v);
            && (Stored(p, q, k, v) <==> ok)
            && (ok ==> q.section == p.section && q.lineno == p.lineno && Sane(q))
  {
    var start := k + "=" + RStrip(v);
    assert start[0] == if k == "" then '=' else k[0];
    if start[0] in ";#[" {
      NotAPair(p, start, false);
      assert !KeyOk(k);
    } else {
      assert TrimmedLine(p, start, false) == PairLine(p, start);
      PairKept(p, k, v);
    }
  }

  lemma NotAPair(p: Parser, start: string, indented: bool)
    requires start != "" && start[0] in ";#["
    requires p.error == 0
    ensures forall k, v :: !(p.prev != "" && indented) ==> !Stored(p, TrimmedLine(p, start, indented), k, v)
  {
  }

  lemma {:induction false} PairKept(p: Parser, k: string, v: string)
    requires LineReady(p) && |k| < MAX_NAME && |v| < MAX_VALUE
    requires p.error == 0 && |p.items| < MAX_CONFIGS
    requires k == "" || (!IsSpace(k[0]) && k[0] !in ";#[")
    ensures var q := PairLine(p, k + "=" + RStrip(v));
            var ok := KeyOk(k) && ValueOk(v);
            && (Stored(p, q, k, v) <==> ok)
            && (ok ==> q.section == p.section && q.lineno == p.lineno && Sane(q))
  {
    var start := k + "=" + RStrip(v);
    var e := Find(start, "=:", 0);
    NameSurvives(k, RStrip(v));
    ValueSurvives(v);
    PairStored(p, start, e, k, v);
  }

  /** The parser finds the name `k` before the first separator exactly if nothing in `k` gets in the way. */
  lemma {:induction false} NameSurvives(k: string, w: string)
    requires |k| < MAX_NAME
    ensures var start := k + "=" + w;
            var e := Find(start, "=:", 0);
            && e <= |k|
            && (Truncated(RStrip(start[..e]), MAX_NAME) == k <==>
                  (k == "" || !IsSpace(k[|k| - 1])) && '=' !in k && ':' !in k && !Commented(k))
            && (e == |k| ==> start[e] == '=' && start[e + 1..] == w)
  {
    var start := k + "=" + w;
    assert start == k + ['='] + w;
    FindOfSum(k, '=', w, "=:");
    var e := Find(start, "=:", 0);
    assert start[..|k|] == k && start[|k| + 1..] == w;
    assert (forall x :: x in k ==> x !in "=:") <==> '=' !in k && ':' !in k;
    assert e < |k| ==> |RStrip(start[..e])| < |k|;
    assert e == |k| ==> start[..e] == k;
  }

  lemma {:induction false} PairStored(p: Parser, start: string, e: nat, k: string, v: string)
    requires |k| < MAX_NAME && |v| < MAX_VALUE && |p.section| < MAX_SECTION
    requires p.error == 0 && |p.items| < MAX_CONFIGS && p.lineno > 0
    requires e == Find(start, "=:", 0)
    ensures var q := PairLine(p, start);
            && (Stored(p, q, k, v) <==>
                  e < |start| && start[e] in "=:"
                  && Truncated(RStrip(start[..e]), MAX_NAME) == k
                  && Truncated(ValueOf(start[e + 1..]), MAX_VALUE) == v)
            && (q.error == 0 ==> q.section == p.section && q.lineno == p.lineno
                                 && q.prev == Truncated(RStrip(start[..e]), MAX_PARSED))
  {
    var q := PairLine(p, start);
    if q.error == 0 {
      assert q.items[|p.items|] == Item(p.section, Truncated(RStrip(start[..e]), MAX_NAME),
                                        Truncated(ValueOf(start[e + 1..]), MAX_VALUE));
    }
  }

  lemma {:induction false} IndentedPair(p: Parser, k: string, v: string)
    requires LineReady(p) && |k| < MAX_NAME && |v| < MAX_VALUE
    requires p.error == 0 && |p.items| < MAX_CONFIGS
    requires StartOf(p.lineno, k + "=" + v + "\n") > 0
    ensures var q := ParseLine(p, k + "=" + v + "\n");
            !Stored(p, q, k, v)
    ensures !(KeyOk(k) && !(p.lineno == 1 && StartsWithBom(k)))
  {
    var n := IndentedStart(p, k, v);
    var k' := k[n..];
    var start := k' + "=" + RStrip(v);
    assert start == k' + ['='] + RStrip(v);
    FindOfSum(k', '=', RStrip(v), "=:");
    var e := Find(start, "=:", 0);
    assert |RStrip(start[..e])| < |k|;
    if p.prev != "" {
      ContinuationIsNoPair(p, start, k, v);
    } else if start[0] in ";#[" {
      NotAPair(p, start, true);
    } else {
      PairStored(p, start, e, k, v);
      assert TrimmedLine(p, start, true) == PairLine(p, start);
    }
  }

  lemma ContinuationIsNoPair(p: Parser, start: string, k: string, v: string)
    requires p.prev != "" && start != "" && k != "" && p.prev[0] != k[0] && |p.items| < MAX_CONFIGS
    ensures !Stored(p, TrimmedLine(p, start, true), k, v)
  {
    var q := TrimmedLine(p, start, true);
    if q.items != p.items {
      assert q.items[|p.items|].key[0] == p.prev[0];
    }
  }

  lemma IndentedStart(p: Parser, k: string, v: string) returns (n: nat)
    requires LineReady(p) && StartOf(p.lineno, k + "=" + v + "\n") > 0
    ensures 0 < n <= |k|
    ensures ParseLine(p, k + "=" + v + "\n") == TrimmedLine(p, k[n..] + "=" + RStrip(v), true)
    ensures p.prev == "" || p.prev[0] != k[0]
    ensures !(KeyOk(k) && !(p.lineno == 1 && StartsWithBom(k)))
  {
    var line := k + "=" + v + "\n";
    BomOfLine(k, v);
    n := StartOf(p.lineno, line);
    var b := if p.lineno == 1 && StartsWithBom(line) then 3 else 0;
    assert line[|k|] == '=' && b <= |k|;
    BlanksAre(line[b..]);
    assert n > |k| ==> IsSpace(line[b..][|k| - b]);
    assert line[n..] == k[n..] + "=" + v + "\n";
    RStripLine(k[n..], v);
    if b == 0 {
      assert line[0..] == line;
      assert k != "" && IsSpace(line[0]) && line[0] == k[0];
    }
  }

  // ---- what any text leaves ----------------------------------------------------------------------

  predicate SectionLike(s: string) {
    NoLineEnd(s) && SectionOk(s)
  }

  predicate KeyLike(k: string) {
    && NoLineEnd(k) && '=' !in k && ':' !in k && !Commented(k)
    && (k == "" || (!IsSpace(k[0]) && k[0] !in ";#["))
  }

  predicate ValueLike(v: string) {
    NoLineEnd(v) && !Commented(v) && (v == "" || !IsSpace(v[0]))
  }

  predicate ItemLike(it: Item) {
    ItemFits(it) && SectionLike(it.section) && KeyLike(it.key) && ValueLike(it.value)
  }

  /** What the parser keeps between any lines. */
  predicate Tidy(p: Parser) {
    SectionLike(p.section) && KeyLike(p.prev) && (p.lineno == 0 ==> p.prev == "")
  }

  /** `q` has added items to those of `p`, which all look like what a line can hold. */
  predicate Added(p: Parser, q: Parser) {
    && p.items <= q.items && (forall i :: |p.items| <= i < |q.items| ==> ItemLike(q.items[i]))
    && (|p.items| <= MAX_CONFIGS ==> |q.items| <= MAX_CONFIGS)
  }

  lemma FreshIsTidy()
    ensures Tidy(FRESH)
  {
  }

  lemma TidyIsSane(p: Parser)
    requires Tidy(p)
    ensures Sane(p)
  {
  }

  lemma LikeIsOneLine(it: Item)
    requires ItemLike(it)
    ensures OneLine(it)
  {
  }

  /** Cutting off the end of a string, or its beginning, starts no comment. */
  lemma PartHasNoComment(s: string, i: nat, j: nat)
    requires i <= j <= |s| && forall k :: i <= k < j ==> !CommentAt(s, k)
    ensures !Commented(s[i..j])
  {
    var t := s[i..j];
    forall k | 0 <= k < |t| ensures !CommentAt(t, k) {
      assert !CommentAt(s, i + k);
      assert t[k] == s[i + k] && (k > 0 ==> t[k - 1] == s[i + k - 1]);
    }
  }

  lemma PrefixIsLike(s: string, t: string)
    requires t <= s
    ensures SectionLike(s) ==> SectionLike(t)
    ensures KeyLike(s) ==> KeyLike(t)
    ensures ValueLike(s) ==> ValueLike(t)
  {
    if !Commented(s) { PartHasNoComment(s, 0, |t|); }
    assert t == s[0..|t|];
  }

  /** A line holds a newline at its end only, so what is left of it without trailing white space holds none. */
  predicate LineLike(line: string) {
    NUL !in line && forall i :: 0 <= i < |line| - 1 ==> line[i] != '\n'
  }

  lemma StrippedLine(line: string, n: nat)
    requires LineLike(line) && n <= |line|
    ensures NoLineEnd(RStrip(line[n..]))
  {
    var s := line[n..];
    RStripEnd(s);
    forall i | 0 <= i < |RStrip(s)| ensures RStrip(s)[i] !in "\n\0" {
      assert RStrip(s)[i] == line[n + i];
    }
  }

  lemma HandledIsTidy(p: Parser, name: string, value: string)
    requires Tidy(p) && KeyLike(name) && ValueLike(value)
    ensures Tidy(Handled(p, name, value)) && Added(p, Handled(p, name, value))
  {
    PrefixIsLike(p.section, Truncated(p.section, MAX_SECTION));
    PrefixIsLike(name, Truncated(name, MAX_NAME));
    PrefixIsLike(value, Truncated(value, MAX_VALUE));
    hide SectionLike, KeyLike, ValueLike, Commented;
    LikeFits(Truncated(p.section, MAX_SECTION), Truncated(name, MAX_NAME), Truncated(value, MAX_VALUE));
  }

  lemma LikeFits(section: string, key: string, value: string)
    requires SectionLike(section) && KeyLike(key) && ValueLike(value)
    requires |section| < MAX_SECTION && |key| < MAX_NAME && |value| < MAX_VALUE
    ensures ItemLike(Item(section, key, value))
  {
  }

  lemma SectionIsTidy(p: Parser, start: string)
    requires Tidy(p) && start != "" && NoLineEnd(start) && p.lineno > 0
    ensures Tidy(SectionLine(p, start)) && Added(p, SectionLine(p, start))
  {
    var t := start[1..];
    var e := Find(t, "]", 0);
    FindIs(t, "]", 0);
    PartHasNoComment(t, 0, e);
    assert start[1..e + 1] == t[0..e];
    PrefixIsLike(t[0..e], Truncated(t[0..e], MAX_PARSED));
  }

  lemma NameIsLike(start: string)
    requires NoLineEnd(start) && (start == "" || (!IsSpace(start[0]) && start[0] !in ";#["))
    ensures KeyLike(RStrip(start[..Find(start, "=:", 0)]))
  {
    var e := Find(start, "=:", 0);
    FindIs(start, "=:", 0);
    PartHasNoComment(start, 0, e);
    assert start[..e] == start[0..e];
    PrefixIsLike(start[..e], RStrip(start[..e]));
  }

  lemma ValueIsLike(rest: string)
    requires NoLineEnd(rest)
    ensures ValueLike(ValueOf(rest))
  {
    var f := Find(rest, "", 0);
    FindIs(rest, "", 0);
    var b := Blanks(rest[..f]);
    BlanksAre(rest[..f]);
    PartHasNoComment(rest, b, f);
    assert rest[..f][b..] == rest[b..f];
    PrefixIsLike(rest[b..f], RStrip(rest[b..f]));
  }

  lemma PairIsTidy(p: Parser, start: string)
    requires Tidy(p) && NoLineEnd(start) && p.lineno > 0
    requires start == "" || (!IsSpace(start[0]) && start[0] !in ";#[")
    ensures Tidy(PairLine(p, start)) && Added(p, PairLine(p, start))
  {
    var e := Find(start, "=:", 0);
    if e < |start| && start[e] in "=:" {
      var name := RStrip(start[..e]);
      NameIsLike(start);
      ValueIsLike(start[e + 1..]);
      PrefixIsLike(name, Truncated(name, MAX_PARSED));
      HandledIsTidy(p.(prev := Truncated(name, MAX_PARSED)), name, ValueOf(start[e + 1..]));
    }
  }

  lemma ContinuationIsTidy(p: Parser, start: string)
    requires Tidy(p) && NoLineEnd(start) && start != "" && !IsSpace(start[0])
    ensures var q := Handled(p, p.prev, RStrip(start[..Find(start, "", 0)])); Tidy(q) && Added(p, q)
  {
    var f := Find(start, "", 0);
    FindIs(start, "", 0);
    PartHasNoComment(start, 0, f);
    assert start[..f] == start[0..f];
    PrefixIsLike(start[..f], RStrip(start[..f]));
    HandledIsTidy(p, p.prev, RStrip(start[..f]));
  }

  lemma LineIsTidy(p: Parser, line: string)
    requires Tidy(p) && p.lineno > 0 && LineLike(line)
    ensures Tidy(ParseLine(p, line)) && Added(p, ParseLine(p, line))
  {
    var b := if p.lineno == 1 && StartsWithBom(line) then 3 else 0;
    var n := StartOf(p.lineno, line);
    var start := RStrip(line[n..]);
    BlanksAre(line[b..]);
    StrippedLine(line, n);
    assert start != "" ==> start[0] == line[n] == line[b..][n - b];
    hide Tidy, Added, NoLineEnd;
    TrimmedIsTidy(p, start, n > 0);
  }

  lemma TrimmedIsTidy(p: Parser, start: string, indented: bool)
    requires Tidy(p) && p.lineno > 0 && NoLineEnd(start) && (start == "" || !IsSpace(start[0]))
    ensures Tidy(TrimmedLine(p, start, indented)) && Added(p, TrimmedLine(p, start, indented))
  {
    hide Tidy, NoLineEnd, Handled, PairLine, SectionLine;
    if start != "" && start[0] !in ";#" {
      if p.prev != "" && indented {
        ContinuationIsTidy(p, start);
      } else if start[0] == '[' {
        SectionIsTidy(p, start);
      } else {
        PairIsTidy(p, start);
      }
    }
  }

  lemma {:induction false} TakenStops(text: string, max: nat)
    ensures forall i :: 0 <= i < Taken(text, max) - 1 ==> text[i] != '\n'
    decreases max
  {
    if text != "" && max > 0 && text[0] != '\n' {
      TakenStops(text[1..], max - 1);
      forall i | 0 <= i < Taken(text, max) - 1 ensures text[i] != '\n' {
        assert i > 0 ==> text[i] == text[1..][i - 1];
      }
    }
  }

  lemma {:induction false} EndIsFirst(s: string, i: nat)
    requires i <= |s|
    ensures forall k :: i <= k < End(s, i) ==> s[k] != NUL
    decreases |s| - i
  {
    if !(i == |s| || s[i] == NUL) { EndIsFirst(s, i + 1); }
  }

  lemma LineOfIsLike(text: string)
    ensures LineLike(LineOf(text))
  {
    TakenStops(text, MAX_LINE - 1);
    EndIsFirst(text[..Taken(text, MAX_LINE - 1)], 0);
  }

  /** Whatever the text, the parser ends tidy, and every item it adds fits its fields and has a section, a key and
      a value such as a line can hold. */
  lemma {:induction false} TextIsTidy(p: Parser, text: string)
    requires Tidy(p)
    ensures Tidy(ParseText(p, text)) && Added(p, ParseText(p, text))
    decreases |text|
  {
    hide ParseLine, LineOf, AfterLine, SectionLike, KeyLike, ItemLike, LineLike;
    if text != "" {
      LineOfIsLike(text);
      LineIsTidy(Counted(p, text), LineOf(text));
      TextIsTidy(NextLine(p, text).0, NextLine(p, text).1);
    }
  }

  // ---- a whole store -----------------------------------------------------------------------------

  /** Any line adds at most one item, in the current section, and never clears a fault. */
  lemma {:induction false} LineGrowth(p: Parser, line: string)
    ensures Grown(p, ParseLine(p, line))
  {
    hide Grown, TrimmedLine, StartOf, RStrip;
    var n := StartOf(p.lineno, line);
    TrimmedGrowth(p, RStrip(line[n..]), n > 0);
  }

  predicate Grown(p: Parser, q: Parser) {
    && (p.error != 0 ==> q.error != 0)
    && (q.items == p.items
        || (|q.items| == |p.items| + 1 && p.items <= q.items
            && q.items[|p.items|].section == Truncated(p.section, MAX_SECTION)))
  }

  lemma TrimmedGrowth(p: Parser, start: string, indented: bool)
    ensures Grown(p, TrimmedLine(p, start, indented))
  {
    hide RStrip, Find, ValueOf;
  }

  /** The parser after the lines that one item is saved as. */
  function ItemRead(p: Parser, it: Item, current: string): Parser {
    if NeedsHeader(it.section, current)
    then ReadLine(ReadLine(p, HeaderText(it.section)), PairText(it))
    else ReadLine(p, PairText(it))
  }

  lemma TextsFit(it: Item)
    requires ItemFits(it) && OneLine(it)
    ensures NoLineEnd(HeaderText(it.section)) && |HeaderText(it.section)| < MAX_LINE - 2
    ensures NoLineEnd(PairText(it)) && |PairText(it)| < MAX_LINE - 2
  {
  }

  lemma ItemByItem(p: Parser, items: seq<Item>, current: string)
    requires items != [] && ItemFits(items[0]) && OneLine(items[0])
    ensures ParseText(p, Saved(items, current))
            == ParseText(ItemRead(p, items[0], current), Saved(items[1..], items[0].section))
  {
    var it := items[0];
    TextsFit(it);
    var rest := Saved(items[1..], it.section);
    if NeedsHeader(it.section, current) {
      LineByLine(p, HeaderText(it.section), PairText(it) + "\n" + rest);
      LineByLine(ReadLine(p, HeaderText(it.section)), PairText(it), rest);
    } else {
      LineByLine(p, PairText(it), rest);
    }
  }

  lemma {:induction false} ItemGrowth(p: Parser, it: Item, current: string)
    requires |it.section| < MAX_SECTION
    ensures var q := ItemRead(p, it, current);
            (p.error != 0 ==> q.error != 0) && p.items <= q.items && |q.items| <= |p.items| + 1
  {
    hide ParseLine, SectionOk;
    if NeedsHeader(it.section, current) {
      var h := ReadLine(p, HeaderText(it.section));
      HeaderLine(p.(lineno := p.lineno + 1), it.section);
      LineGrowth(h.(lineno := h.lineno + 1), PairText(it) + "\n");
    } else {
      LineGrowth(p.(lineno := p.lineno + 1), PairText(it) + "\n");
    }
  }

  lemma {:induction false} StoreGrowth(p: Parser, items: seq<Item>, current: string)
    requires Fits(items) && OneLineEach(items)
    ensures var q := ParseText(p, Saved(items, current));
            (p.error != 0 ==> q.error != 0) && p.items <= q.items && |q.items| <= |p.items| + |items|
    decreases |items|
  {
    if items != [] {
      ItemByItem(p, items, current);
      ItemGrowth(p, items[0], current);
      StoreGrowth(ItemRead(p, items[0], current), items[1..], items[0].section);
    }
  }

  /** One saved item without newlines is read back as itself exactly if it is well formed where it stands. */
  lemma {:induction false} LinesSurvive(p: Parser, it: Item, current: string)
    requires Sane(p) && p.error == 0 && p.section == current && |p.items| < MAX_CONFIGS
    requires ItemFits(it) && OneLine(it)
    ensures var q := ItemRead(p, it, current);
            var ok := ItemOk(it, current, p.lineno == 0);
            && (q.error == 0 && q.items == p.items + [it] <==> ok)
            && (ok ==> Sane(q) && q.section == it.section && q.lineno > 0)
  {
    hide ParseLine;
    if NeedsHeader(it.section, current) {
      ItemUnderHeader(p, it, current);
    } else {
      NoHeader(p, it);
    }
  }

  lemma {:induction false} NoHeader(p: Parser, it: Item)
    requires Sane(p) && p.error == 0 && |p.items| < MAX_CONFIGS && ItemFits(it) && OneLine(it)
    requires !NeedsHeader(it.section, p.section)
    ensures var q := ReadLine(p, PairText(it));
            var ok := ItemOk(it, p.section, p.lineno == 0);
            && (q.error == 0 && q.items == p.items + [it] <==> ok)
            && (ok ==> Sane(q) && q.section == it.section && q.lineno > 0)
  {
    hide ParseLine, KeyOk, ValueOk, SectionOk;
    var r := p.(lineno := p.lineno + 1);
    if it.section == p.section {
      PairIsStored(r, it.key, it.value);
    } else {
      LineGrowth(r, PairText(it) + "\n");
    }
  }

  lemma {:induction false} ItemUnderHeader(p: Parser, it: Item, current: string)
    requires Sane(p) && p.error == 0 && p.section == current && |p.items| < MAX_CONFIGS
    requires ItemFits(it) && OneLine(it) && NeedsHeader(it.section, current)
    ensures var q := ReadLine(ReadLine(p, HeaderText(it.section)), PairText(it));
            var ok := ItemOk(it, current, p.lineno == 0);
            && (q.error == 0 && q.items == p.items + [it] <==> ok)
            && (ok ==> Sane(q) && q.section == it.section && q.lineno > 0)
  {
    hide ParseLine;
    var h := ReadLine(p, HeaderText(it.section));
    HeaderLine(p.(lineno := p.lineno + 1), it.section);
    UnderHeader(h.(lineno := h.lineno + 1), it);
  }

  /** A pair right after its header: `p` has taken over the section, or has noted a fault, or has a shorter
      section. */
  lemma {:induction false} UnderHeader(p: Parser, it: Item)
    requires |it.section| < MAX_SECTION && |it.key| < MAX_NAME && |it.value| < MAX_VALUE
    requires |p.items| < MAX_CONFIGS && p.lineno > 1
    requires SectionOk(it.section) ==> p.error == 0 && p.section == it.section && p.prev == ""
    requires !SectionOk(it.section) ==> p.error != 0 || |p.section| < |it.section|
    ensures var q := ParseLine(p, PairText(it) + "\n");
            var ok := SectionOk(it.section) && KeyOk(it.key) && ValueOk(it.value);
            && (q.error == 0 && q.items == p.items + [it] <==> ok)
            && (ok ==> Sane(q) && q.section == it.section && q.lineno > 0)
  {
    LineGrowth(p, PairText(it) + "\n");
    if SectionOk(it.section) {
      PairIsStored(p, it.key, it.value);
    }
  }

  /** The whole store survives exactly if its first item does and then the others do. */
  lemma FirstThenRest(p: Parser, r: Parser, q: Parser, items: seq<Item>, itemOk: bool, restOk: bool)
    requires items != []
    requires r.error == 0 && r.items == p.items + [items[0]] <==> itemOk
    requires p.items <= r.items <= q.items && |r.items| <= |p.items| + 1
    requires |q.items| < |r.items| + |items| && (r.error != 0 ==> q.error != 0)
    requires itemOk ==> (q.error == 0 && q.items == r.items + items[1..] <==> restOk)
    ensures q.error == 0 && q.items == p.items + items <==> itemOk && restOk
  {
  }

  /** The same for the rest of a store without newlines. */
  lemma {:induction false} AllLinesSurvive(p: Parser, items: seq<Item>, current: string)
    requires Sane(p) && p.error == 0 && p.section == current && Fits(items) && OneLineEach(items)
    requires |p.items| + |items| <= MAX_CONFIGS
    ensures var q := ParseText(p, Saved(items, current));
            q.error == 0 && q.items == p.items + items <==> WellFormed(items, current, p.lineno == 0)
    decreases |items|
  {
    if items != [] {
      var it := items[0];
      var ok := ItemOk(it, current, p.lineno == 0);
      var r := ItemRead(p, it, current);
      ItemByItem(p, items, current);
      LinesSurvive(p, it, current);
      ItemGrowth(p, it, current);
      StoreGrowth(r, items[1..], it.section);
      if ok { AllLinesSurvive(r, items[1..], it.section); }
      FirstThenRest(p, r, ParseText(p, Saved(items, current)), items, ok,
                    WellFormed(items[1..], it.section, false));
    }
  }

  lemma {:induction false} WellFormedIsOneLine(items: seq<Item>, current: string, first: bool)
    requires WellFormed(items, current, first)
    ensures OneLineEach(items)
    decreases |items|
  {
    if items != [] {
      WellFormedIsOneLine(items[1..], items[0].section, false);
      forall i | 0 <= i < |items| ensures OneLine(items[i]) {
        assert i > 0 ==> items[i] == items[1..][i - 1];
      }
    }
  }

  /** The rest of a store behind any text: it survives exactly if it is well formed there. A newline in a field
      never survives, as no text leaves one in a field. */
  lemma {:induction false} StoreSurvives(p: Parser, items: seq<Item>, current: string)
    requires Tidy(p) && p.error == 0 && p.section == current && Fits(items)
    requires |p.items| + |items| <= MAX_CONFIGS
    ensures var q := ParseText(p, Saved(items, current));
            q.error == 0 && q.items == p.items + items <==> WellFormed(items, current, p.lineno == 0)
  {
    hide ParseText, WellFormed, Saved, SectionLike, KeyLike, ItemLike;
    if OneLineEach(items) {
      TidyIsSane(p);
      AllLinesSurvive(p, items, current);
    } else {
      var q := ParseText(p, Saved(items, current));
      if WellFormed(items, current, p.lineno == 0) { WellFormedIsOneLine(items, current, p.lineno == 0); }
      TextIsTidy(p, Saved(items, current));
      if q.items == p.items + items {
        forall i | 0 <= i < |items| ensures OneLine(items[i]) {
          assert items[i] == q.items[|p.items| + i];
          LikeIsOneLine(items[i]);
        }
      }
    }
  }

  lemma {:induction false} ItemSurvives(p: Parser, it: Item)
    requires Tidy(p) && p.error == 0 && ItemFits(it) && |p.items| < MAX_CONFIGS
    ensures var q := ParseText(p, Saved([it], p.section));
            q.error == 0 && q.items == p.items + [it] <==> ItemOk(it, p.section, p.lineno == 0)
  {
    hide ParseText, Saved, ItemOk, Tidy;
    assert [it][0] == it && [it][1..] == [];
    StoreSurvives(p, [it], p.section);
  }

  /** Saving a store of at most 128 items that fits its fields and loading the text into a zeroed store gives
      back status 0 and the same items in the same order exactly when the store is well formed. */
  lemma {:induction false} SaveThenLoad(items: seq<Item>)
    requires Fits(items) && |items| <= MAX_CONFIGS
    ensures var q := ParseText(FRESH, Saved(items, ""));
            q.error == 0 && q.items == items <==> WellFormed(items, "", true)
  {
    FreshIsTidy();
    hide ParseText, Saved, WellFormed, Tidy;
    StoreSurvives(FRESH, items, "");
  }
}
