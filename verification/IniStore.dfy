/** The in-memory INI store: lookup, update-or-append, saving and loading. */
module IniStore {
  import opened IniText
  import opened IniRoundTrip
  import IniParser

  datatype Found = NotFound | Found(value: string)

  predicate Matches(it: Item, section: string, key: string) {
    it.section == section && it.key == key
  }

  /** Index of the first item with this section and key, or the number of items. */
  function IndexOf(items: seq<Item>, section: string, key: string): (i: nat)
    ensures i <= |items|
    ensures i < |items| ==> Matches(items[i], section, key)
    ensures forall j :: 0 <= j < i ==> !Matches(items[j], section, key)
  {
    if items == [] || Matches(items[0], section, key) then 0 else 1 + IndexOf(items[1..], section, key)
  }

  function ValueAt(items: seq<Item>, section: string, key: string): Found {
    var i := IndexOf(items, section, key);
    if i < |items| then Found(items[i].value) else NotFound
  }

  /** The items after setting a value, and whether there was room. */
  function WithValue(items: seq<Item>, section: string, key: string, value: string): (seq<Item>, bool) {
    var i := IndexOf(items, section, key);
    if i < |items| then (items[i := items[i].(value := Truncated(value, MAX_VALUE))], true)
    else if |items| >= MAX_CONFIGS then (items, false)
    else (items + [Item(Truncated(section, MAX_SECTION), Truncated(key, MAX_NAME), Truncated(value, MAX_VALUE))],
          true)
  }

  lemma IndexIsFirst(items: seq<Item>, section: string, key: string, i: nat)
    requires i <= |items|
    requires i < |items| ==> Matches(items[i], section, key)
    requires forall j :: 0 <= j < i ==> !Matches(items[j], section, key)
    ensures IndexOf(items, section, key) == i
  {
  }

  /** A set value is found again exactly if the pair was there before or its names fit their fields (a longer
      name is stored cut off and never matches again); no other pair is affected then. */
  lemma {:induction false} SetThenLookup(items: seq<Item>, section: string, key: string, value: string)
    ensures var (r, ok) := WithValue(items, section, key, value);
            var fits := |section| < MAX_SECTION && |key| < MAX_NAME;
            var known := ValueAt(items, section, key) != NotFound;
            && (!ok <==> !known && |items| >= 128) && (!ok ==> r == items)
            && (ok ==> |r| == |items| + if known then 0 else 1)
            && (ok ==> (ValueAt(r, section, key) == Found(Truncated(value, MAX_VALUE)) <==> known || fits))
            && (ok && (known || fits) ==>
                  forall s, k :: s != section || k != key ==> ValueAt(r, s, k) == ValueAt(items, s, k))
  {
    var (r, ok) := WithValue(items, section, key, value);
    var i := IndexOf(items, section, key);
    if ok {
      forall j | 0 <= j < i ensures r[j] == items[j] {}
      if i < |items| || (|section| < MAX_SECTION && |key| < MAX_NAME) {
        IndexIsFirst(r, section, key, i);
        forall s, k | s != section || k != key ensures ValueAt(r, s, k) == ValueAt(items, s, k) {
          OtherLookup(items, r, i, s, k);
        }
      } else {
        assert !Matches(r[i], section, key);
        IndexIsFirst(r, section, key, |r|);
      }
    }
  }

  lemma OtherLookup(items: seq<Item>, r: seq<Item>, i: nat, s: string, k: string)
    requires i < |r| && !Matches(r[i], s, k) && (i < |items| ==> !Matches(items[i], s, k))
    requires |items| <= |r| <= |items| + 1 && i <= |items| && (i == |items| <==> |r| == |items| + 1)
    requires forall j :: 0 <= j < |items| && j != i ==> r[j] == items[j]
    ensures ValueAt(r, s, k) == ValueAt(items, s, k)
  {
  }

  class IniStore {
    var items: seq<Item>

    constructor ()
      ensures items == []
    {
      items := [];
    }

    method Lookup(section: string, key: string) returns (r: Found)
      ensures r == ValueAt(items, section, key)
    {
      var i := 0;
      while i < |items|
        invariant i <= |items|
        invariant forall j :: 0 <= j < i ==> !Matches(items[j], section, key)
      {
        if items[i].section == section && items[i].key == key {
          IndexIsFirst(items, section, key, i);
          return Found(items[i].value);
        }
        i := i + 1;
      }
      IndexIsFirst(items, section, key, i);
      return NotFound;
    }

    method SetString(section: string, key: string, value: string) returns (rc: int)
      modifies this
      ensures items == WithValue(old(items), section, key, value).0
      ensures rc == if WithValue(old(items), section, key, value).1 then 0 else -1
    {
      var i := 0;
      while i < |items|
        invariant i <= |items| && items == old(items)
        invariant forall j :: 0 <= j < i ==> !Matches(items[j], section, key)
      {
        if items[i].section == section && items[i].key == key {
          IndexIsFirst(items, section, key, i);
          items := items[i := items[i].(value := Truncated(value, MAX_VALUE))];
          return 0;
        }
        i := i + 1;
      }
      IndexIsFirst(items, section, key, i);
      if |items| >= MAX_CONFIGS { return -1; }
      items := items + [Item(Truncated(section, MAX_SECTION), Truncated(key, MAX_NAME),
                             Truncated(value, MAX_VALUE))];
      return 0;
    }

    static lemma SavedStep(todo: seq<Item>, current: string)
      requires todo != []
      ensures var it := todo[0];
              Saved(todo, current) == (if NeedsHeader(it.section, current) then HeaderText(it.section) + "\n" else "")
                                      + (PairText(it) + "\n" + Saved(todo[1..], it.section))
    {
    }

    static lemma SavedNothing(current: string)
      ensures Saved([], current) == ""
    {
    }

    static lemma Appended(text: string, header: string, pair: string, rest: string)
      ensures text + (header + (pair + rest)) == text + header + pair + rest
    {
    }

    method Save() returns (text: string)
      ensures text == Saved(items, "")
    {
      hide Saved;
      text := "";
      var current := "";
      var i := 0;
      assert items[0..] == items;
      while i < |items|
        invariant i <= |items|
        invariant text + Saved(items[i..], current) == Saved(items, "")
      {
        SavedStep(items[i..], current);
        assert items[i..][1..] == items[i + 1..];
        var header := "";
        if items[i].section != current {
          if items[i].section != "" { header := "[" + items[i].section + "]" + "\n"; }
        }
        var pair := items[i].key + "=" + items[i].value + "\n";
        Appended(text, header, pair, Saved(items[i + 1..], items[i].section));
        text := text + header + pair;
        current := items[i].section;
        i := i + 1;
      }
      SavedNothing(current);
      assert items[i..] == [];
    }

    /** Replaces the content by what the text holds. */
    method Load(text: string) returns (rc: nat)
      requires Readable(text)
      modifies this
      ensures items == ParseText(FRESH, text).items && rc == ParseText(FRESH, text).error
    {
      var p := new IniParser.IniParser();
      rc := p.ParseStream(text);
      items := p.items;
    }
  }

  lemma {:induction false} SavedTextHasNoNul(items: seq<Item>, current: string)
    requires Fits(items)
    ensures NUL !in Saved(items, current)
    decreases |items|
  {
    if items != [] { SavedTextHasNoNul(items[1..], items[0].section); }
  }

  /** All texts without NULs are readable. */
  lemma {:induction false} NulFreeIsReadable(text: string)
    requires NUL !in text
    ensures Readable(text)
    decreases |text|
  {
    hide Taken, Discard, Swallowable, End;
    if text != "" {
      NulFreeIsSwallowable(text[Taken(text, MAX_LINE - 1)..]);
      NulFreeRest(text);
      NulFreeIsReadable(AfterLine(text));
    }
  }

  lemma {:induction false} NulFreeIsSwallowable(text: string)
    requires NUL !in text
    ensures Swallowable(text) && NUL !in Discard(text)
    decreases |text|
  {
    hide Taken, End;
    if text != "" { NulFreeIsSwallowable(text[Taken(text, ABYSS - 1)..]); }
  }

  lemma NulFreeRest(text: string)
    requires text != "" && NUL !in text
    ensures NUL !in AfterLine(text)
  {
    hide Taken, Discard, Swallowable, End;
    NulFreeIsSwallowable(text[Taken(text, MAX_LINE - 1)..]);
  }

  /** One store saves, another loads: status 0 and equal contents exactly for well-formed stores. */
  method Transfer(from: IniStore, to: IniStore) returns (rc: nat)
    requires Fits(from.items) && |from.items| <= MAX_CONFIGS && from != to
    modifies to
    ensures rc == 0 && to.items == from.items <==> WellFormed(from.items, "", true)
  {
    var text := from.Save();
    SavedTextHasNoNul(from.items, "");
    NulFreeIsReadable(text);
    rc := to.Load(text);
    SaveThenLoad(from.items);
  }
}
