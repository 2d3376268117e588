/** Which stores a text can leave, what becomes of newlines in a store, and when a loaded store is settled. */
module IniLoaded {
  import opened IniText
  import opened IniRoundTrip

  // ---- newlines in fields ------------------------------------------------------------------------

  /** A value with a newline can pass for two items: the saved texts are the same. */
  lemma NewlineForgesAnItem(section: string, k: string, v: string, a: string, b: string)
    ensures Saved([Item(section, k, v + "\n" + a + "=" + b)], "")
            == Saved([Item(section, k, v), Item(section, a, b)], "")
  {
    hide Saved, NeedsHeader;
    SavedOne(Item(section, k, v + "\n" + a + "=" + b), "");
    SavedTwo(Item(section, k, v), Item(section, a, b));
    ForgedText(k, v, a, b);
  }

  lemma ForgedText(k: string, v: string, a: string, b: string)
    ensures k + "=" + (v + "\n" + a + "=" + b) + "\n" == k + "=" + v + "\n" + (a + "=" + b + "\n")
  {
  }

  lemma SavedOne(it: Item, current: string)
    ensures var body := PairText(it) + "\n";
            Saved([it], current)
            == if NeedsHeader(it.section, current) then HeaderText(it.section) + "\n" + body else body
  {
    assert [it][1..] == [];
    assert PairText(it) + "\n" + "" == PairText(it) + "\n";
  }

  lemma SavedTwo(x: Item, y: Item)
    requires x.section == y.section
    ensures var body := PairText(x) + "\n" + (PairText(y) + "\n");
            Saved([x, y], "") == if NeedsHeader(x.section, "") then HeaderText(x.section) + "\n" + body else body
  {
    SavedOne(y, x.section);
    assert [x, y][1..] == [y];
  }

  /** So a store can come back without a fault and with one item more. */
  lemma {:induction false} ForgedItemReturns(k: string, v: string, a: string, b: string)
    requires WellFormed([Item("", k, v), Item("", a, b)], "", true)
    requires Fits([Item("", k, v), Item("", a, b)])
    ensures var q := ParseText(FRESH, Saved([Item("", k, v + "\n" + a + "=" + b)], ""));
            q.error == 0 && q.items == [Item("", k, v), Item("", a, b)]
  {
    hide ParseText, Saved, WellFormed;
    NewlineForgesAnItem("", k, v, a, b);
    SaveThenLoad([Item("", k, v), Item("", a, b)]);
  }

  /** Or it makes a line of its own, which is no pair. */
  lemma {:induction false} BrokenValueIsAFault(k: string, v: string, w: string)
    requires ItemFits(Item("", k, v)) && ItemOk(Item("", k, v), "", true)
    requires KeyLike(w) && w != "" && |w| < MAX_VALUE
    ensures ParseText(FRESH, Saved([Item("", k, v + "\n" + w)], "")).error == 2
  {
    hide ParseText, ParseLine, Saved, Sane, KeyLike, ItemOk, Commented;
    var it := Item("", k, v);
    BrokenText(k, v, w);
    FirstLineReads(it);
    LikeFitsALine(w);
    TextsFit(it);
    var q := ReadLine(FRESH, PairText(it));
    LineByLine(FRESH, PairText(it), w + "\n");
    assert w + "\n" == w + "\n" + "";
    LineByLine(q, w, "");
    NoPairIsAFault(q.(lineno := 2), w);
    NothingMore(ReadLine(q, w));
  }

  lemma BrokenText(k: string, v: string, w: string)
    ensures Saved([Item("", k, v + "\n" + w)], "") == PairText(Item("", k, v)) + "\n" + (w + "\n")
  {
    SavedOne(Item("", k, v + "\n" + w), "");
    assert k + "=" + (v + "\n" + w) + "\n" == k + "=" + v + "\n" + (w + "\n");
  }

  lemma LikeFitsALine(w: string)
    requires KeyLike(w)
    ensures NoLineEnd(w)
  {
  }

  lemma {:induction false} FirstLineReads(it: Item)
    requires ItemFits(it) && ItemOk(it, "", true) && it.section == ""
    ensures var q := ReadLine(FRESH, PairText(it)); q.error == 0 && q.lineno == 1
    ensures OneLine(it)
  {
    hide ParseLine;
    PairIsStored(FRESH.(lineno := 1), it.key, it.value);
  }

  lemma NothingMore(p: Parser)
    ensures ParseText(p, "") == p
  {
  }

  lemma NoPairIsAFault(p: Parser, w: string)
    requires p.lineno > 1 && p.error == 0 && KeyLike(w) && w != ""
    ensures ParseLine(p, w + "\n").error == p.lineno
  {
    var line := w + "\n";
    assert line[0] == w[0] && StartOf(p.lineno, line) == 0 && line[0..] == line;
    RStripOfSum(w, "\n");
    assert RStrip("\n") == "" by { assert RStrip("") == ""; }
    var start := RStrip(w);
    BlanksAre(w);
    FirstStays(w);
    PrefixIsLike(w, start);
    FindIs(start, "=:", 0);
  }

  lemma {:induction false} FirstStays(w: string)
    requires w != "" && !IsSpace(w[0])
    ensures RStrip(w) != ""
    decreases |w|
  {
    if IsSpace(w[|w| - 1]) { FirstStays(w[..|w| - 1]); }
  }

  predicate IsLetter(c: char) {
    'a' <= c <= 'z'
  }

  lemma LetterPair(k: char, v: char, first: bool)
    requires IsLetter(k) && IsLetter(v)
    ensures ItemOk(Item("", [k], [v]), "", first) && ItemFits(Item("", [k], [v])) && KeyLike([k])
  {
    assert !Commented([k]) && !Commented([v]);
  }

  lemma TwoWellFormed(x: Item, y: Item)
    requires ItemOk(x, "", true) && ItemOk(y, x.section, false) && ItemFits(x) && ItemFits(y)
    ensures WellFormed([x, y], "", true) && Fits([x, y])
  {
    hide ItemOk, ItemFits;
    assert [x, y][1..] == [y] && [y][1..] == [];
    assert WellFormed([y], x.section, false);
  }

  /** The shortest such stores, both within their fields. */
  lemma {:induction false} ForgedByLetters(k: char, v: char, a: char, b: char)
    requires IsLetter(k) && IsLetter(v) && IsLetter(a) && IsLetter(b)
    ensures ItemFits(Item("", [k], [v] + "\n" + [a] + "=" + [b]))
    ensures var q := ParseText(FRESH, Saved([Item("", [k], [v] + "\n" + [a] + "=" + [b])], ""));
            q.error == 0 && q.items == [Item("", [k], [v]), Item("", [a], [b])]
  {
    LetterPair(k, v, true);
    LetterPair(a, b, false);
    TwoWellFormed(Item("", [k], [v]), Item("", [a], [b]));
    hide ParseText, Saved, ItemOk, KeyLike, WellFormed, Fits;
    ForgedItemReturns([k], [v], [a], [b]);
  }

  lemma {:induction false} BrokenByLetters(k: char, v: char, w: char)
    requires IsLetter(k) && IsLetter(v) && IsLetter(w)
    ensures ItemFits(Item("", [k], [v] + "\n" + [w]))
    ensures ParseText(FRESH, Saved([Item("", [k], [v] + "\n" + [w])], "")).error == 2
  {
    LetterPair(k, v, true);
    LetterPair(w, w, false);
    hide ParseText, Saved, ItemOk, KeyLike;
    BrokenValueIsAFault([k], [v], [w]);
  }

  // ---- loaded stores -----------------------------------------------------------------------------

  predicate NoSpaceAtEnd(s: string) {
    s == "" || !IsSpace(s[|s| - 1])
  }

  /** No key or value was cut off behind white space, no item without a section follows one with a section, and
      the text of the first item does not begin with a byte-order mark. */
  predicate Settled(items: seq<Item>, current: string, first: bool) {
    && (forall i :: 0 <= i < |items| ==> NoSpaceAtEnd(items[i].key) && NoSpaceAtEnd(items[i].value))
    && (forall i :: 0 <= i < |items| && items[i].section == "" ==> SectionBefore(items, i, current) == "")
    && !(first && items != [] && items[0].section == current && StartsWithBom(items[0].key))
  }

  function SectionBefore(items: seq<Item>, i: nat, current: string): string
    requires i < |items|
  {
    if i == 0 then current else items[i - 1].section
  }

  lemma {:induction false} SettledIsWellFormed(items: seq<Item>, current: string, first: bool)
    requires forall i :: 0 <= i < |items| ==> ItemLike(items[i])
    ensures WellFormed(items, current, first) <==> Settled(items, current, first)
    decreases |items|
  {
    if items != [] {
      var rest := items[1..];
      assert ItemLike(items[0]);
      SettledIsWellFormed(rest, items[0].section, false);
      SettledStep(items, current, first);
    }
  }

  lemma SettledStep(items: seq<Item>, current: string, first: bool)
    requires items != []
    ensures Settled(items, current, first)
            <==> && NoSpaceAtEnd(items[0].key) && NoSpaceAtEnd(items[0].value)
                 && (items[0].section == "" ==> current == "")
                 && !(first && items[0].section == current && StartsWithBom(items[0].key))
                 && Settled(items[1..], items[0].section, false)
  {
    var rest := items[1..];
    forall i | 0 <= i < |rest|
      ensures rest[i] == items[i + 1]
      ensures SectionBefore(rest, i, items[0].section) == SectionBefore(items, i + 1, current)
    {
    }
    if Settled(items, current, first) {
      assert SectionBefore(items, 0, current) == current;
      forall i | 0 <= i < |rest| ensures NoSpaceAtEnd(rest[i].key) && NoSpaceAtEnd(rest[i].value) {
        assert rest[i] == items[i + 1];
      }
    }
    if Settled(rest, items[0].section, false) && NoSpaceAtEnd(items[0].key) && NoSpaceAtEnd(items[0].value) {
      forall i | 0 <= i < |items| ensures NoSpaceAtEnd(items[i].key) && NoSpaceAtEnd(items[i].value) {
        assert i > 0 ==> items[i] == rest[i - 1];
      }
    }
  }

  /** Whatever text a store has been loaded from, it fits its fields, and saving and loading it again gives the same
      items exactly if it is settled. */
  lemma {:induction false} LoadThenSave(text: string)
    ensures var items := ParseText(FRESH, text).items;
            var q := ParseText(FRESH, Saved(items, ""));
            && Fits(items) && |items| <= MAX_CONFIGS
            && (q.error == 0 && q.items == items <==> Settled(items, "", true))
  {
    hide ParseText, Saved, WellFormed, Settled, SectionLike, KeyLike, ValueLike;
    var items := ParseText(FRESH, text).items;
    FreshIsTidy();
    TextIsTidy(FRESH, text);
    SaveThenLoad(items);
    SettledIsWellFormed(items, "", true);
  }

  /** A text that leaves an unsettled store: an empty header ends the section, but no saved text has one. */
  lemma {:induction false} EmptyHeaderUnsettles(x: Item, y: Item)
    requires ItemFits(x) && ItemOk(x, "", true) && x.section != ""
    requires ItemFits(y) && ItemOk(y, "", false) && y.section == ""
    ensures var text := HeaderText(x.section) + "\n" + (PairText(x) + "\n" + ("[]" + "\n" + (PairText(y) + "\n" + "")));
            var q := ParseText(FRESH, text);
            q.error == 0 && q.items == [x, y] && !Settled(q.items, "", true)
  {
    hide ParseText, ParseLine, KeyOk, ValueOk, SectionOk;
    var p1 := ReadLine(FRESH, HeaderText(x.section));
    var p2 := ReadLine(p1, PairText(x));
    var p3 := ReadLine(p2, "[]");
    var p4 := ReadLine(p3, PairText(y));
    TextsFit(x);
    TextsFit(y);
    LineByLine(FRESH, HeaderText(x.section), PairText(x) + "\n" + ("[]" + "\n" + (PairText(y) + "\n" + "")));
    LineByLine(p1, PairText(x), "[]" + "\n" + (PairText(y) + "\n" + ""));
    LineByLine(p2, "[]", PairText(y) + "\n" + "");
    LineByLine(p3, PairText(y), "");
    NothingMore(p4);
    HeaderLine(FRESH.(lineno := 1), x.section);
    PairIsStored(p1.(lineno := 2), x.key, x.value);
    EmptyHeader(p2.(lineno := 3));
    PairIsStored(p3.(lineno := 4), y.key, y.value);
    assert SectionBefore([x, y], 1, "") == x.section;
  }

  lemma EmptyHeader(p: Parser)
    requires p.lineno > 0
    ensures ParseLine(p, "[]" + "\n") == p.(section := "", prev := "")
  {
    HeaderLine(p, "");
    assert HeaderText("") == "[]";
  }
}
