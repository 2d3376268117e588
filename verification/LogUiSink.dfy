/** The log sink for a UI client: an overwriting ring of numbered lines, streaming to the attached client, and
    the replay of missed lines to a client that attaches while the writer keeps running. */
module LogUiSink {
  import opened Common
  import opened Modular

  type Line = seq<byte>

  const DEFAULT_SLOTS := 1024
  const DEFAULT_LINE_MAX := 256

  /** Outcome of sending one line: success, EAGAIN, an error that means the client is gone, another error. */
  datatype SendRc = Delivered | TryLater | Broken | OtherError

  datatype Config = Config(notify: bool, whenNoUi: bool, slots: nat, lineMax: nat)

  /** A line of the ring with its number, as copied for the replay; and a line sent on a descriptor. Number 0
      is a line too short to be kept. */
  datatype Entry = Entry(num: nat, text: Line)
  datatype Msg = Msg(fd: int, num: nat, text: Line)

  datatype Stats = Stats(written: nat, writtenBytes: nat, dropped: nat, errors: nat)

  /** `lines[k - 1]` is the line numbered `k`, whether or not the ring still holds it. */
  datatype Core = Core(lines: seq<Line>, fd: int, hasSub: bool, stats: Stats)

  // ---- critical sections as functions ------------------------------------------------------------

  /** What a C string shows of the bytes. */
  function CText(s: Line): Line {
    if s == [] || s[0] == 0 then [] else [s[0]] + CText(s[1..])
  }

  function Clipped(buf: Line, lineMax: nat): Line
    requires lineMax > 0
  {
    if |buf| >= lineMax then buf[..lineMax - 1] else buf
  }

  function AfterPush(c: Core, line: Line): Core {
    if line == [] then c else c.(lines := c.lines + [line])
  }

  function NumberOf(c: Core, line: Line): nat {
    if line == [] then 0 else |c.lines| + 1
  }

  /** Storing a line, and what is then to be sent to the client attached at that moment. */
  function AfterWrite(c: Core, cfg: Config, buf: Line): (Core, Option<Msg>)
    requires cfg.lineMax > 0
  {
    if buf == [] then (c, None)
    else if !c.hasSub && !cfg.whenNoUi then (c.(stats := c.stats.(dropped := c.stats.dropped + 1)), None)
    else
      var line := Clipped(buf, cfg.lineMax);
      var st := c.stats.(written := c.stats.written + 1, writtenBytes := c.stats.writtenBytes + |line|);
      (AfterPush(c, line).(stats := st),
       if cfg.notify && c.hasSub && c.fd >= 0 then Some(Msg(c.fd, NumberOf(c, line), CText(line))) else None)
  }

  function AfterLiveSend(c: Core, rc: SendRc): Core {
    var st := c.stats.(errors := c.stats.errors + 1);
    match rc
    case Delivered => c
    case TryLater => c.(stats := st.(dropped := st.dropped + 1))
    case Broken => c.(stats := st, hasSub := false, fd := -1)
    case OtherError => c.(stats := st)
  }

  function AfterReplaySend(c: Core, rc: SendRc): Core {
    var st := c.stats.(errors := c.stats.errors + 1);
    match rc
    case Delivered => c
    case Broken => c.(stats := st, hasSub := false, fd := -1)
    case _ => c.(stats := st)
  }

  function Kept(c: Core, cfg: Config): nat {
    if |c.lines| < cfg.slots then |c.lines| else cfg.slots
  }

  /** The lines numbered above `lo` up to `hi`, in order. */
  function Entries(lines: seq<Line>, lo: nat, hi: nat): seq<Entry>
    requires lo <= hi <= |lines|
  {
    seq(hi - lo, i requires 0 <= i < hi - lo => Entry(lo + i + 1, CText(lines[lo + i])))
  }

  function Backlog(c: Core, cfg: Config): seq<Entry> {
    Entries(c.lines, |c.lines| - Kept(c, cfg), |c.lines|)
  }

  function AfterAttach(c: Core, cfg: Config, fd: nat, allocOk: bool): (Core, seq<Entry>) {
    if Kept(c, cfg) > 0 && !allocOk then
      (c.(fd := fd, hasSub := true, stats := c.stats.(errors := c.stats.errors + 1)), [])
    else (c.(fd := fd, hasSub := true), Backlog(c, cfg))
  }

  function AfterDetach(c: Core): Core {
    c.(fd := -1, hasSub := false)
  }

  predicate IsDue(e: Entry, lastSeen: nat) {
    e.num != 0 && e.num > lastSeen && e.text != []
  }

  /** What the replay sends: entries the client has not seen and that have any text. */
  function Due(es: seq<Entry>, lastSeen: nat): seq<Entry> {
    if es == [] then [] else (if IsDue(es[0], lastSeen) then [es[0]] else []) + Due(es[1..], lastSeen)
  }

  /** The replay of all entries under given send outcomes: messages delivered, and the outcome that ended it. */
  function Replayed(fd: int, due: seq<Entry>, rcs: seq<SendRc>): (seq<Msg>, SendRc)
    requires |rcs| >= |due|
  {
    if due == [] then ([], Delivered)
    else if rcs[0] != Delivered then ([], rcs[0])
    else
      var (ms, rc) := Replayed(fd, due[1..], rcs[1..]);
      ([Msg(fd, due[0].num, due[0].text)] + ms, rc)
  }

  // ---- the sink ----------------------------------------------------------------------------------

  lemma {:induction false} CTextIs(s: Line, n: nat)
    requires n <= |s| && (forall i :: 0 <= i < n ==> s[i] != 0) && (n == |s| || s[n] == 0)
    ensures CText(s) == s[..n]
    decreases n
  {
    if n > 0 {
      CTextIs(s[1..], n - 1);
      assert s[..n] == [s[0]] + s[1..][..n - 1];
    }
  }

  class UiSink {
    const cfg: Config
    const mem: array2<byte>
    const nums: array<nat>
    var widx: nat
    var depth: nat
    var wseq: nat
    var udsFd: int
    var hasSub: bool
    var stats: Stats
    ghost var lines: seq<Line>

    ghost function View(): Core
      reads this
    {
      Core(lines, udsFd, hasSub, stats)
    }

    /** Cell `cell` holds the line with its number and a closing NUL; what follows may be of an older line. */
    ghost predicate Holds(cell: nat, num: nat, line: Line)
      requires mem.Length0 == nums.Length && cell < nums.Length
      reads mem, nums
    {
      && nums[cell] == num
      && |line| < mem.Length1
      && mem[cell, |line|] == 0
      && forall j :: 0 <= j < |line| ==> mem[cell, j] == line[j]
    }

    /** Line number `k + 1` is in cell `k % slots` for the newest lines the ring has room for. */
    ghost predicate Valid()
      reads this, mem, nums
    {
      && cfg.slots > 0 && cfg.lineMax > 0
      && mem.Length0 == nums.Length == cfg.slots && mem.Length1 == cfg.lineMax
      && wseq == |lines|
      && depth == Kept(View(), cfg)
      && widx == wseq % cfg.slots
      && forall k :: wseq - depth <= k < wseq ==> Holds(k % cfg.slots, k + 1, lines[k])
    }

    constructor (notify: bool, whenNoUi: bool, slots: nat, lineMax: nat)
      ensures Valid() && fresh(mem) && fresh(nums)
      ensures cfg == Config(notify, whenNoUi, if slots == 0 then DEFAULT_SLOTS else slots,
                            if lineMax == 0 then DEFAULT_LINE_MAX else lineMax)
      ensures View() == Core([], -1, false, Stats(0, 0, 0, 0))
    {
      var n := if slots == 0 then DEFAULT_SLOTS else slots;
      var m := if lineMax == 0 then DEFAULT_LINE_MAX else lineMax;
      cfg := Config(notify, whenNoUi, n, m);
      mem := new byte[n, m]((_, _) => 0);
      nums := new nat[n](_ => 0);
      widx, depth, wseq, udsFd, hasSub := 0, 0, 0, -1, false;
      stats := Stats(0, 0, 0, 0);
      lines := [];
    }

    /** Writes a line into a cell, over whatever was there. */
    method StoreCell(cell: nat, num: nat, line: Line)
      requires mem.Length0 == nums.Length && cell < nums.Length && |line| < mem.Length1
      modifies mem, nums
      ensures Holds(cell, num, line)
      ensures forall c :: 0 <= c < nums.Length && c != cell
                ==> nums[c] == old(nums[c]) && forall j :: 0 <= j < mem.Length1 ==> mem[c, j] == old(mem[c, j])
    {
      forall j | 0 <= j < |line| { mem[cell, j] := line[j]; }
      mem[cell, |line|] := 0;
      nums[cell] := num;
    }

    method Push(line: Line)
      requires Valid() && |line| < cfg.lineMax
      modifies this`widx, this`depth, this`wseq, this`lines, mem, nums
      ensures Valid() && View() == AfterPush(old(View()), line)
    {
      hide CText, Entries;
      if line == [] { return; }
      var idx := widx;
      forall k | wseq - depth <= k < wseq && k > wseq - cfg.slots ensures k % cfg.slots != idx {
        DistinctCells(k, wseq, cfg.slots);
      }
      wseq := wseq + 1;
      StoreCell(idx, wseq, line);
      Advance(wseq - 1, cfg.slots);
      widx := (idx + 1) % cfg.slots;
      if depth < cfg.slots { depth := depth + 1; }
      lines := lines + [line];
      forall k | wseq - depth <= k < wseq ensures Holds(k % cfg.slots, k + 1, lines[k]) {
        if k < wseq - 1 { assert old(Holds(k % cfg.slots, k + 1, lines[k])); }
      }
    }

    method OldestIdx() returns (idx: nat)
      requires Valid()
      ensures idx == (wseq - depth) % cfg.slots || depth == 0
      ensures idx < cfg.slots
    {
      if depth == 0 { return 0; }
      Behind(wseq, depth, cfg.slots);
      idx := if widx >= depth then widx - depth else cfg.slots - (depth - widx);
    }

    /** The cell `d` places before the cell of `i`. */
    static lemma Behind(i: nat, d: nat, n: nat)
      requires 0 < d <= n && d <= i
      ensures (i - d) % n == if i % n >= d then i % n - d else n - (d - i % n)
    {
      var q, r := i / n, i % n;
      if r >= d {
        assert i - d == q * n + (r - d);
        Remainder(q, r - d, n);
      } else {
        assert i - d == (q - 1) * n + (n - (d - r));
        assert q == 0 ==> i == r;
        Remainder(q - 1, n - (d - r), n);
      }
    }

    /** The text in a cell up to its first NUL. */
    method ReadCell(cell: nat, ghost num: nat, ghost line: Line) returns (text: Line)
      requires Valid() && cell < cfg.slots && Holds(cell, num, line)
      ensures text == CText(line)
    {
      text := [];
      while |text| < cfg.lineMax - 1 && mem[cell, |text|] != 0
        invariant |text| <= |line| && text == line[..|text|]
        invariant forall i :: 0 <= i < |text| ==> line[i] != 0
        decreases cfg.lineMax - |text|
      {
        text := text + [mem[cell, |text|]];
      }
      CTextIs(line, |text|);
    }

    /** Copies the whole ring, oldest line first. */
    method CopyBacklog() returns (copy: seq<Entry>)
      requires Valid()
      ensures copy == Backlog(View(), cfg)
    {
      hide CText;
      var start := OldestIdx();
      copy := [];
      ghost var lo := wseq - depth;
      for i := 0 to depth
        invariant copy == Entries(lines, lo, lo + i)
      {
        var idx := (start + i) % cfg.slots;
        Ahead(lo, i, cfg.slots);
        assert Holds((lo + i) % cfg.slots, lo + i + 1, lines[lo + i]);
        var text := ReadCell(idx, lo + i + 1, lines[lo + i]);
        copy := copy + [Entry(nums[idx], text)];
      }
    }

    static lemma Ahead(k: nat, i: nat, n: nat)
      requires i < n
      ensures (k % n + i) % n == (k + i) % n
    {
      var q, r := (k % n + i) / n, (k % n + i) % n;
      assert k + i == (k / n + q) * n + r;
      Remainder(k / n + q, r, n);
    }

    /** The first critical section of a write. */
    method WriteBegin(buf: Line) returns (toSend: Option<Msg>)
      requires Valid()
      modifies this`widx, this`depth, this`wseq, this`lines, this`stats, mem, nums
      ensures Valid() && (View(), toSend) == AfterWrite(old(View()), cfg, buf)
    {
      if buf == [] { return None; }
      var line := if |buf| >= cfg.lineMax then buf[..cfg.lineMax - 1] else buf;
      if !hasSub && !cfg.whenNoUi {
        stats := stats.(dropped := stats.dropped + 1);
        return None;
      }
      ghost var num := NumberOf(View(), line);
      Push(line);
      stats := stats.(written := stats.written + 1, writtenBytes := stats.writtenBytes + |line|);
      if !(cfg.notify && hasSub && udsFd >= 0) { return None; }
      var n := 0;
      while n < |line| && line[n] != 0
        invariant n <= |line| && forall i :: 0 <= i < n ==> line[i] != 0
      {
        n := n + 1;
      }
      CTextIs(line, n);
      return Some(Msg(udsFd, if line == [] then 0 else wseq, line[..n]));
    }

    /** The second one, after sending. */
    method WriteEnd(rc: SendRc)
      requires Valid()
      modifies this`udsFd, this`hasSub, this`stats
      ensures Valid() && View() == AfterLiveSend(old(View()), rc)
    {
      if rc == Delivered { return; }
      stats := stats.(errors := stats.errors + 1);
      if rc == TryLater {
        stats := stats.(dropped := stats.dropped + 1);
        return;
      }
      if rc == Broken { hasSub, udsFd := false, -1; }
    }

    method AttachBegin(fd: nat, allocOk: bool) returns (copy: seq<Entry>)
      requires Valid()
      modifies this`udsFd, this`hasSub, this`stats
      ensures Valid() && (View(), copy) == AfterAttach(old(View()), cfg, fd, allocOk)
    {
      udsFd, hasSub := fd, true;
      copy := [];
      assert depth == 0 ==> Backlog(View(), cfg) == [];
      if depth > 0 {
        if !allocOk {
          stats := stats.(errors := stats.errors + 1);
        } else {
          copy := CopyBacklog();
        }
      }
    }

    /** The critical section after a replayed line that could not be sent. */
    method ReplayFailed(rc: SendRc)
      requires Valid() && rc != Delivered
      modifies this`udsFd, this`hasSub, this`stats
      ensures Valid() && View() == AfterReplaySend(old(View()), rc)
    {
      stats := stats.(errors := stats.errors + 1);
      if rc == Broken { hasSub, udsFd := false, -1; }
    }

    /** The replay loop; it ends at the first line that cannot be sent. */
    method Replay(fd: nat, copy: seq<Entry>, lastSeen: nat, rcs: seq<SendRc>) returns (sent: seq<Msg>)
      requires Valid() && |rcs| >= |Due(copy, lastSeen)|
      modifies this`udsFd, this`hasSub, this`stats
      ensures Valid()
      ensures cfg.notify ==> sent == Replayed(fd, Due(copy, lastSeen), rcs).0
                             && View() == AfterReplaySend(old(View()), Replayed(fd, Due(copy, lastSeen), rcs).1)
      ensures !cfg.notify ==> sent == [] && View() == old(View())
    {
      sent := [];
      if !cfg.notify { return; }
      var i, n := 0, 0;
      assert copy[0..] == copy && rcs[0..] == rcs;
      ghost var total := Replayed(fd, Due(copy, lastSeen), rcs);
      assert sent + total.0 == total.0;
      hide Valid, Due, Replayed;
      while i < |copy|
        invariant i <= |copy| && n <= |rcs|
        invariant Valid() && View() == old(View())
        invariant |Due(copy[i..], lastSeen)| <= |rcs| - n
        invariant total == (sent + Replayed(fd, Due(copy[i..], lastSeen), rcs[n..]).0,
                            Replayed(fd, Due(copy[i..], lastSeen), rcs[n..]).1)
      {
        var e := copy[i];
        ReplayStep(fd, copy[i..], lastSeen, rcs[n..], sent);
        assert copy[i..][1..] == copy[i + 1..];
        i := i + 1;
        if e.num == 0 || e.num <= lastSeen || e.text == [] { continue; }
        assert rcs[n..][1..] == rcs[n + 1..];
        if rcs[n] != Delivered {
          ReplayFailed(rcs[n]);
          return;
        }
        sent := sent + [Msg(fd, e.num, e.text)];
        n := n + 1;
      }
      assert copy[i..] == [];
      ReplayEnd(fd, lastSeen, rcs[n..], sent);
    }

    static lemma {:induction false} ReplayStep(fd: int, es: seq<Entry>, lastSeen: nat, rcs: seq<SendRc>, sent: seq<Msg>)
      requires es != [] && |rcs| >= |Due(es, lastSeen)|
      ensures !IsDue(es[0], lastSeen) ==> Due(es, lastSeen) == Due(es[1..], lastSeen)
      ensures IsDue(es[0], lastSeen) ==>
                && |rcs| >= 1 + |Due(es[1..], lastSeen)|
                && var (ms, rc) := Replayed(fd, Due(es, lastSeen), rcs);
                   if rcs[0] != Delivered then (sent + ms, rc) == (sent, rcs[0])
                   else
                     var (ms', rc') := Replayed(fd, Due(es[1..], lastSeen), rcs[1..]);
                     (sent + ms, rc) == (sent + [Msg(fd, es[0].num, es[0].text)] + ms', rc')
    {
      var due := Due(es[1..], lastSeen);
      if IsDue(es[0], lastSeen) {
        assert Due(es, lastSeen)[1..] == due;
        assert sent + [] == sent;
        assert forall ms: seq<Msg>, m: Msg :: sent + ([m] + ms) == sent + [m] + ms;
      } else {
        assert [] + due == due;
      }
    }

    static lemma ReplayEnd(fd: int, lastSeen: nat, rcs: seq<SendRc>, sent: seq<Msg>)
      ensures Due([], lastSeen) == []
      ensures (sent + Replayed(fd, [], rcs).0, Replayed(fd, [], rcs).1) == (sent, Delivered)
    {
      assert sent + [] == sent;
    }

    method Detach()
      requires Valid()
      modifies this`udsFd, this`hasSub
      ensures Valid() && View() == AfterDetach(old(View()))
    {
      udsFd, hasSub := -1, false;
    }
  }
}
