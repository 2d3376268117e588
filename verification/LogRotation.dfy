/** The rotating log file: a buffered append to the current file, and the renaming chain that keeps the newest
    segments. The file system is a map from names to contents. */
module LogRotation {
  import opened Common

  type Bytes = seq<byte>

  const DEFAULT_MAX_FILES := 3

  /** The log's path, the path with a number appended, and the temporary names of a rotation. */
  datatype Name = Base | Rot(i: nat) | Tmp(stamp: nat)

  type FileSystem = map<Name, Bytes>

  /** `pending` is what the C library still buffers of the current file. */
  datatype File = File(fs: FileSystem, isOpen: bool, pending: Bytes, curSz: nat, lineCnt: nat)

  datatype Config = Config(maxFiles: nat, flushLines: nat, fsyncLines: nat)

  function Limit(cfg: Config): nat {
    if cfg.maxFiles == 0 then DEFAULT_MAX_FILES else cfg.maxFiles
  }

  function ContentOf(fs: FileSystem, n: Name): Bytes {
    if n in fs then fs[n] else []
  }

  // ---- file operations ---------------------------------------------------------------------------

  /** A missing source leaves everything as it is; an existing target is replaced. */
  function Renamed(fs: FileSystem, from: Name, to: Name): FileSystem {
    if from !in fs || from == to then fs else (fs - {from})[to := fs[from]]
  }

  /** Opening for append creates the file if it is missing. */
  function OpenedForAppend(fs: FileSystem): FileSystem {
    fs[Base := ContentOf(fs, Base)]
  }

  /** Renames number `i` to `i + 1`, then `i - 1` to `i`, down to number 1. */
  function Shifted(fs: FileSystem, i: nat): FileSystem
    decreases i
  {
    if i == 0 then fs else Shifted(Renamed(fs, Rot(i), Rot(i + 1)), i - 1)
  }

  function Flushed(v: File): File
    requires v.isOpen ==> Base in v.fs
  {
    if v.isOpen then v.(fs := v.fs[Base := v.fs[Base] + v.pending], pending := []) else v
  }

  /** Opening a sink that is open already loses its handle, and with it what that handle buffers. */
  function AfterOpen(v: File): File {
    var fs := OpenedForAppend(v.fs);
    v.(fs := fs, isOpen := true, pending := [], curSz := |fs[Base]|, lineCnt := 0)
  }

  function AfterClose(v: File): File
    requires v.isOpen ==> Base in v.fs
  {
    Flushed(v).(isOpen := false)
  }

  predicate FlushDue(cfg: Config, lineCnt: nat) {
    (cfg.flushLines != 0 && lineCnt % cfg.flushLines == 0) || (cfg.fsyncLines != 0 && lineCnt % cfg.fsyncLines == 0)
  }

  /** The C library takes the first `took` bytes and passes on the first `settled` of those it buffers. */
  function Taken(v: File, buf: Bytes, took: nat, settled: nat): File
    requires v.isOpen && Base in v.fs && took <= |buf| && settled <= |v.pending| + took
  {
    var p := v.pending + buf[..took];
    v.(fs := v.fs[Base := v.fs[Base] + p[..settled]], pending := p[settled..])
  }

  function AfterWrite(v: File, cfg: Config, buf: Bytes, took: nat, settled: nat): (File, int)
    requires v.isOpen ==> Base in v.fs
    requires took <= |buf| && settled <= |v.pending| + took
  {
    if !v.isOpen then (v, -1)
    else
      var w := Taken(v, buf, took, settled);
      if took != |buf| then (w, -1)
      else
        var x := w.(curSz := w.curSz + took, lineCnt := w.lineCnt + 1);
        var y := if FlushDue(cfg, x.lineCnt) then Flushed(x) else x;
        (if y.lineCnt % 128 == 0 then y.(curSz := |y.fs[Base]|) else y, 0)
  }

  /** The current file becomes number 1 by way of a temporary name. */
  function MovedAway(fs: FileSystem, stamp: nat): FileSystem {
    Renamed(Renamed(fs, Base, Tmp(stamp)), Tmp(stamp), Rot(1))
  }

  /** Without a current file nothing can be moved away: the attempt to copy leaves an empty temporary file. */
  function AfterRotate(v: File, cfg: Config, stamp: nat): (File, int)
    requires v.isOpen ==> Base in v.fs
  {
    var c := AfterClose(v);
    var fs := Shifted(c.fs, Limit(cfg) - 1);
    if Base !in fs then
      var r := OpenedForAppend(fs[Tmp(stamp) := []]);
      (c.(fs := r, isOpen := true, curSz := |r[Base]|), -1)
    else
      (AfterOpen(c.(fs := MovedAway(fs, stamp))), 0)
  }

  // ---- exact effect of the renaming chain --------------------------------------------------------

  predicate SameAt(fs: FileSystem, a: Name, gs: FileSystem, b: Name) {
    (a in fs <==> b in gs) && (a in fs ==> fs[a] == gs[b])
  }

  /** What the chain leaves under each name: number `j` is the former number `j - 1`; the last one keeps its
      content if there was no number to replace it; number 1 is free. */
  ghost predicate ShiftedAt(fs: FileSystem, gs: FileSystem, i: nat, n: Name) {
    match n
    case Rot(j) =>
      if 2 <= j <= i || (j == i + 1 && j >= 2 && Rot(i) in fs) then SameAt(gs, n, fs, Rot(j - 1))
      else if j == 1 && i >= 1 then n !in gs
      else SameAt(gs, n, fs, n)
    case _ => SameAt(gs, n, fs, n)
  }

  lemma {:induction false} ShiftEffect(fs: FileSystem, i: nat, n: Name)
    ensures ShiftedAt(fs, Shifted(fs, i), i, n)
    decreases i
  {
    if i > 0 {
      var hs := Renamed(fs, Rot(i), Rot(i + 1));
      ShiftEffect(hs, i - 1, n);
    }
  }

  // ---- history -----------------------------------------------------------------------------------

  function Concat(segs: seq<Bytes>): Bytes {
    if segs == [] then [] else Concat(segs[..|segs| - 1]) + segs[|segs| - 1]
  }

  /** Rotated file `j` is the `j`-th newest of the segments `segs`. */
  ghost predicate RotatedAt(fs: FileSystem, limit: nat, segs: seq<Bytes>, j: nat) {
    && (Rot(j) in fs <==> 1 <= j <= Min(|segs|, limit))
    && (1 <= j <= Min(|segs|, limit) ==> Rot(j) in fs && fs[Rot(j)] == segs[|segs| - j])
  }

  /** `all` are the bytes in the file at the start and all bytes accepted since; `segs` are the segments rotated
      away since the start, oldest first. */
  ghost predicate HistoryOk(v: File, limit: nat, all: Bytes, segs: seq<Bytes>) {
    && (!v.isOpen ==> v.pending == [])
    && (v.isOpen ==> Base in v.fs)
    && all == Concat(segs) + ContentOf(v.fs, Base) + v.pending
    && forall j: nat :: RotatedAt(v.fs, limit, segs, j)
  }

  lemma FlushKeepsHistory(v: File, limit: nat, all: Bytes, segs: seq<Bytes>)
    requires HistoryOk(v, limit, all, segs)
    ensures HistoryOk(Flushed(v), limit, all, segs)
  {
    var w := Flushed(v);
    forall j: nat ensures RotatedAt(w.fs, limit, segs, j) {
      assert RotatedAt(v.fs, limit, segs, j);
    }
  }

  lemma TakenKeepsHistory(v: File, limit: nat, all: Bytes, segs: seq<Bytes>, buf: Bytes, took: nat, settled: nat)
    requires HistoryOk(v, limit, all, segs) && v.isOpen && took <= |buf| && settled <= |v.pending| + took
    ensures HistoryOk(Taken(v, buf, took, settled), limit, all + buf[..took], segs)
  {
    var w := Taken(v, buf, took, settled);
    var p := v.pending + buf[..took];
    assert p[..settled] + p[settled..] == p;
    assert Concat(segs) + v.fs[Base] + v.pending + buf[..took]
           == Concat(segs) + (v.fs[Base] + p[..settled]) + p[settled..];
    forall j: nat ensures RotatedAt(w.fs, limit, segs, j) {
      assert RotatedAt(v.fs, limit, segs, j);
    }
  }

  lemma WriteKeepsHistory(v: File, cfg: Config, all: Bytes, segs: seq<Bytes>, buf: Bytes, took: nat, settled: nat)
    requires HistoryOk(v, Limit(cfg), all, segs) && took <= |buf| && settled <= |v.pending| + took
    ensures HistoryOk(AfterWrite(v, cfg, buf, took, settled).0, Limit(cfg),
                      if v.isOpen then all + buf[..took] else all, segs)
  {
    if v.isOpen {
      var w := Taken(v, buf, took, settled);
      TakenKeepsHistory(v, Limit(cfg), all, segs, buf, took, settled);
      var x := w.(curSz := w.curSz + took, lineCnt := w.lineCnt + 1);
      FlushKeepsHistory(x, Limit(cfg), all + buf[..took], segs);
    }
  }

  /** Opening keeps the history but for the bytes an open handle buffers: exactly these are lost. */
  lemma OpenKeepsHistory(v: File, limit: nat, all: Bytes, segs: seq<Bytes>)
    requires HistoryOk(v, limit, all, segs)
    ensures |v.pending| <= |all| && HistoryOk(AfterOpen(v), limit, all[..|all| - |v.pending|], segs)
    ensures HistoryOk(AfterOpen(v), limit, all, segs) <==> v.pending == []
  {
    assert all[..|all| - |v.pending|] == Concat(segs) + ContentOf(v.fs, Base);
    forall j: nat ensures RotatedAt(AfterOpen(v).fs, limit, segs, j) {
      assert RotatedAt(v.fs, limit, segs, j);
    }
  }

  lemma RotatedMovesUp(fs: FileSystem, m: nat, stamp: nat, segs: seq<Bytes>, j: nat)
    requires Base in fs && m >= 1 && RotatedAt(fs, m, segs, j) && (j > 0 ==> RotatedAt(fs, m, segs, j - 1))
    ensures RotatedAt(OpenedForAppend(MovedAway(Shifted(fs, m - 1), stamp)), m, segs + [fs[Base]], j)
  {
    hide Shifted;
    ShiftEffect(fs, m - 1, Base);
    ShiftEffect(fs, m - 1, Rot(j));
  }

  /** A rotation with a current file makes that file the newest segment. */
  lemma {:induction false} RotateKeepsHistory(v: File, cfg: Config, stamp: nat, all: Bytes, segs: seq<Bytes>)
    requires HistoryOk(v, Limit(cfg), all, segs) && Base in v.fs
    ensures var (w, rc) := AfterRotate(v, cfg, stamp);
            rc == 0 && HistoryOk(w, Limit(cfg), all, segs + [v.fs[Base] + v.pending])
  {
    var m, seg := Limit(cfg), v.fs[Base] + v.pending;
    var c := AfterClose(v);
    FlushKeepsHistory(v, m, all, segs);
    assert c.fs[Base] == seg;
    RotateShape(v, cfg, stamp);
    assert (segs + [seg])[..|segs|] == segs;
    hide Shifted, MovedAway, AfterRotate, RotatedAt;
    var w := AfterRotate(v, cfg, stamp).0;
    forall j: nat ensures RotatedAt(w.fs, m, segs + [seg], j) {
      assert RotatedAt(c.fs, m, segs, j);
      if j > 0 { assert RotatedAt(c.fs, m, segs, j - 1); }
      RotatedMovesUp(c.fs, m, stamp, segs, j);
    }
  }

  /** A rotation leaves an empty current file, open, with nothing buffered. */
  lemma {:induction false} RotateShape(v: File, cfg: Config, stamp: nat)
    requires v.isOpen ==> Base in v.fs
    requires !v.isOpen ==> v.pending == []
    ensures var (w, rc) := AfterRotate(v, cfg, stamp);
            && w.isOpen && w.pending == [] && Base in w.fs && w.fs[Base] == []
            && (Base in v.fs ==>
                  rc == 0 && w.fs == OpenedForAppend(MovedAway(Shifted(AfterClose(v).fs, Limit(cfg) - 1), stamp)))
  {
    hide Shifted;
    ShiftEffect(AfterClose(v).fs, Limit(cfg) - 1, Base);
  }

  /** Without one, the newest segments move up and leave a gap: that does no harm just when there is nothing to
      move. */
  lemma RotateWithoutCurrentFile(v: File, cfg: Config, stamp: nat, all: Bytes, segs: seq<Bytes>)
    requires HistoryOk(v, Limit(cfg), all, segs) && Base !in v.fs
    ensures AfterRotate(v, cfg, stamp).1 == -1
    ensures HistoryOk(AfterRotate(v, cfg, stamp).0, Limit(cfg), all, segs) <==> segs == [] || Limit(cfg) == 1
  {
    var m := Limit(cfg);
    var w := AfterRotate(v, cfg, stamp).0;
    var fs := Shifted(v.fs, m - 1);
    ShiftEffect(v.fs, m - 1, Base);
    ShiftEffect(v.fs, m - 1, Rot(1));
    assert RotatedAt(v.fs, m, segs, 1);
    if segs == [] || m == 1 {
      forall j: nat ensures RotatedAt(w.fs, m, segs, j) {
        ShiftEffect(v.fs, m - 1, Rot(j));
        assert RotatedAt(v.fs, m, segs, j);
        if j > 0 { assert RotatedAt(v.fs, m, segs, j - 1); }
      }
    } else {
      assert Rot(1) !in w.fs;
      assert !RotatedAt(w.fs, m, segs, 1);
    }
  }

  /** Reading number `i` down to number 1. */
  function ReadDown(fs: FileSystem, i: nat): Bytes {
    if i == 0 then [] else ContentOf(fs, Rot(i)) + ReadDown(fs, i - 1)
  }

  lemma {:induction false} ConcatOfTail(segs: seq<Bytes>, k: nat)
    requires k < |segs|
    ensures Concat(segs[k..]) == segs[k] + Concat(segs[k + 1..])
    decreases |segs|
  {
    var tail := segs[k..];
    if k + 1 == |segs| {
      assert tail[..0] == [] && segs[k + 1..] == [];
      assert Concat(tail) == Concat(tail[..0]) + segs[k];
    } else {
      var front := segs[..|segs| - 1];
      ConcatOfTail(front, k);
      assert tail[..|tail| - 1] == front[k..];
      assert segs[k + 1..][..|segs| - k - 2] == front[k + 1..];
      assert segs[k] + (Concat(front[k + 1..]) + segs[|segs| - 1])
             == segs[k] + Concat(front[k + 1..]) + segs[|segs| - 1];
    }
  }

  lemma {:induction false} ConcatSplits(segs: seq<Bytes>, k: nat)
    requires k <= |segs|
    ensures Concat(segs) == Concat(segs[..k]) + Concat(segs[k..])
    decreases |segs| - k
  {
    if k == |segs| {
      assert segs[..k] == segs && segs[k..] == [];
    } else {
      ConcatSplits(segs, k + 1);
      ConcatOfTail(segs, k);
      assert segs[..k + 1][..k] == segs[..k];
      var front, rest := Concat(segs[..k]), Concat(segs[k + 1..]);
      assert front + segs[k] + rest == front + (segs[k] + rest);
    }
  }

  lemma RotatedOk(v: File, limit: nat, all: Bytes, segs: seq<Bytes>, j: nat)
    requires HistoryOk(v, limit, all, segs)
    ensures RotatedAt(v.fs, limit, segs, j)
  {
  }

  lemma {:induction false} ReadDownIs(v: File, limit: nat, all: Bytes, segs: seq<Bytes>, i: nat)
    requires HistoryOk(v, limit, all, segs)
    ensures var k := Min(i, Min(|segs|, limit)); ReadDown(v.fs, i) == Concat(segs[|segs| - k..])
    decreases i
  {
    var none: seq<Bytes> := [];
    assert Concat(none) == [];
    hide Concat, HistoryOk;
    if i == 0 {
      assert segs[|segs|..] == [];
    } else {
      ReadDownIs(v, limit, all, segs, i - 1);
      RotatedOk(v, limit, all, segs, i);
      if i <= Min(|segs|, limit) {
        ConcatOfTail(segs, |segs| - i);
      }
    }
  }

  /** Reading the numbers from the highest down and then the current file gives a suffix of everything ever in
      the log: exactly the newest `limit` rotated segments, or all there are, and the current file, but for the
      bytes still buffered. */
  lemma {:induction false} ReadingBack(v: File, limit: nat, all: Bytes, segs: seq<Bytes>)
    requires HistoryOk(v, limit, all, segs)
    ensures var k := Min(|segs|, limit);
            && ReadDown(v.fs, limit) == Concat(segs[|segs| - k..])
            && all == Concat(segs[..|segs| - k]) + (ReadDown(v.fs, limit) + ContentOf(v.fs, Base) + v.pending)
    ensures forall j: nat :: Rot(j) in v.fs ==> 1 <= j <= limit
  {
    hide Concat, ReadDown;
    var k := Min(|segs|, limit);
    ReadDownIs(v, limit, all, segs, limit);
    ConcatSplits(segs, |segs| - k);
    forall j: nat ensures Rot(j) in v.fs ==> 1 <= j <= limit {
      assert RotatedAt(v.fs, limit, segs, j);
    }
  }

  /** The size that decides about rotating counts what is on disk and what is buffered. */
  ghost predicate SizeOk(v: File)
    requires Base in v.fs
  {
    v.curSz == |v.fs[Base]| + |v.pending|
  }

  /** A write keeps it exact unless it is cut short after some bytes, or every 128th write finds bytes still
      buffered: the size is then re-read from disk without them. */
  lemma {:induction false} SizeStaysExact(v: File, cfg: Config, buf: Bytes, took: nat, settled: nat)
    requires v.isOpen && Base in v.fs && SizeOk(v) && took <= |buf| && settled <= |v.pending| + took
    ensures var w := AfterWrite(v, cfg, buf, took, settled).0;
            SizeOk(w) <==> if took != |buf| then took == 0 else w.lineCnt % 128 != 0 || w.pending == []
  {
  }

  // ---- what each call does -----------------------------------------------------------------------

  /** A write succeeds exactly if the file is open and the C library takes everything. The bytes taken follow those
      on disk and in the buffer; a write that succeeds is counted, and leaves the buffer empty if its number is a
      multiple of one of the intervals asked for. Every 128th reads the size back from disk. */
  lemma {:induction false} WriteMeans(v: File, cfg: Config, buf: Bytes, took: nat, settled: nat)
    requires Sound(v) && took <= |buf| && settled <= |v.pending| + took
    ensures var (w, rc) := AfterWrite(v, cfg, buf, took, settled);
            && rc == (if v.isOpen && took == |buf| then 0 else -1)
            && (!v.isOpen ==> w == v)
            && (v.isOpen ==>
                  && w.isOpen && w.fs.Keys == v.fs.Keys && (forall n :: n in v.fs && n != Base ==> w.fs[n] == v.fs[n])
                  && v.fs[Base] <= w.fs[Base] && w.fs[Base] + w.pending == v.fs[Base] + v.pending + buf[..took])
            && (v.isOpen && rc != 0 ==> w.curSz == v.curSz && w.lineCnt == v.lineCnt
                                        && |w.fs[Base]| == |v.fs[Base]| + settled)
            && (rc == 0 ==>
                  && var n, f, g := v.lineCnt + 1, cfg.flushLines, cfg.fsyncLines;
                     var due := (f != 0 && n % f == 0) || (g != 0 && n % g == 0);
                     && w.lineCnt == n
                     && w.curSz == (if n % 128 == 0 then |w.fs[Base]| else v.curSz + took)
                     && (due ==> w.pending == [])
                     && (!due ==> |w.fs[Base]| == |v.fs[Base]| + settled))
  {
    if v.isOpen {
      var p := v.pending + buf[..took];
      assert p[..settled] + p[settled..] == p;
      assert v.fs[Base] + p == v.fs[Base] + v.pending + buf[..took];
      assert v.fs[Base] + p[..settled] + p[settled..] == v.fs[Base] + p;
    }
  }

  /** Opening creates the file if need be, and starts counting lines anew; closing puts what is buffered on disk. */
  lemma OpenMeans(v: File)
    requires Sound(v)
    ensures var w := AfterOpen(v);
            && w.isOpen && w.pending == [] && w.lineCnt == 0 && Base in w.fs && w.curSz == |w.fs[Base]|
            && w.fs == v.fs[Base := if Base in v.fs then v.fs[Base] else []]
    ensures var w := AfterClose(v);
            && w == v.(fs := w.fs, isOpen := false, pending := [])
            && w.fs == if v.isOpen then v.fs[Base := v.fs[Base] + v.pending] else v.fs
  {
  }

  /** A rotation always ends with the sink open on an empty current file; it reports success exactly if there was
      one to move away, and starts counting lines anew only then. It never leaves its temporary name behind. */
  lemma {:induction false} RotateMeans(v: File, cfg: Config, stamp: nat)
    requires Sound(v) && Tmp(stamp) !in v.fs
    ensures var (w, rc) := AfterRotate(v, cfg, stamp);
            && w.isOpen && w.pending == [] && w.curSz == 0 && Base in w.fs && w.fs[Base] == []
            && rc == (if Base in v.fs then 0 else -1)
            && w.lineCnt == (if Base in v.fs then 0 else v.lineCnt)
            && (Base in v.fs ==> Rot(1) in w.fs && w.fs[Rot(1)] == v.fs[Base] + v.pending)
            && (forall i :: Tmp(i) in w.fs <==> Tmp(i) in v.fs || (Base !in v.fs && i == stamp))
            && (forall i :: Tmp(i) in v.fs ==> w.fs[Tmp(i)] == v.fs[Tmp(i)])
  {
    hide Shifted;
    var fs := AfterClose(v).fs;
    ShiftEffect(fs, Limit(cfg) - 1, Base);
    forall i ensures SameAt(Shifted(fs, Limit(cfg) - 1), Tmp(i), fs, Tmp(i)) {
      ShiftEffect(fs, Limit(cfg) - 1, Tmp(i));
    }
  }

  // ---- runs --------------------------------------------------------------------------------------

  /** `took` bytes are taken by the C library, which passes on the first `settled` of those it buffers. */
  datatype Call =
    | CallOpen
    | CallWrite(buf: Bytes, took: nat, settled: nat)
    | CallRotate(stamp: nat)
    | CallClose

  /** What any use needs: an open file exists, and only an open file has anything buffered. */
  predicate Sound(v: File) {
    if v.isOpen then Base in v.fs else v.pending == []
  }

  function TakenOf(call: Call): Bytes
    requires call.CallWrite?
  {
    call.buf[..Min(call.took, |call.buf|)]
  }

  function Next(v: File, cfg: Config, call: Call): (w: File)
    requires Sound(v)
    ensures Sound(w)
  {
    match call
    case CallOpen => AfterOpen(v)
    case CallWrite(buf, took, settled) =>
      var n := Min(took, |buf|);
      AfterWrite(v, cfg, buf, n, Min(settled, |v.pending| + n)).0
    case CallRotate(stamp) => AfterRotate(v, cfg, stamp).0
    case CallClose => AfterClose(v)
  }

  function Exec(v: File, cfg: Config, calls: seq<Call>): (w: File)
    requires Sound(v)
    ensures Sound(w)
    decreases |calls|
  {
    if calls == [] then v else Exec(Next(v, cfg, calls[0]), cfg, calls[1..])
  }

  /** The log as its writer means it: the segments cut off so far, the current one, whether the sink is open and
      whether the current file has ever been made. */
  datatype Ledger = Ledger(open: bool, present: bool, segs: seq<Bytes>, cur: Bytes)

  /** A call in terms of the ledger; `lost` bytes are buffered by a handle that opening would lose. */
  function Entered(l: Ledger, call: Call, lost: nat): Ledger {
    match call
    case CallOpen =>
      l.(open := true, present := true, cur := if lost <= |l.cur| then l.cur[..|l.cur| - lost] else [])
    case CallWrite(_, _, _) => if l.open then l.(cur := l.cur + TakenOf(call)) else l
    case CallRotate(_) =>
      if l.present then Ledger(true, true, l.segs + [l.cur], []) else l.(open := true, present := true)
    case CallClose => l.(open := false)
  }

  function LedgerAfter(l: Ledger, v: File, cfg: Config, calls: seq<Call>): Ledger
    requires Sound(v)
    decreases |calls|
  {
    if calls == [] then l
    else LedgerAfter(Entered(l, calls[0], |v.pending|), Next(v, cfg, calls[0]), cfg, calls[1..])
  }

  /** Files and buffer are those the ledger speaks of. */
  ghost predicate Agrees(v: File, limit: nat, l: Ledger) {
    && Sound(v) && l.open == v.isOpen && l.present == (Base in v.fs)
    && l.cur == ContentOf(v.fs, Base) + v.pending
    && HistoryOk(v, limit, Concat(l.segs) + l.cur, l.segs)
    && (!l.present ==> l.segs == [])
  }

  lemma CallAgrees(v: File, cfg: Config, l: Ledger, call: Call)
    requires Agrees(v, Limit(cfg), l)
    ensures Agrees(Next(v, cfg, call), Limit(cfg), Entered(l, call, |v.pending|))
  {
    hide RotatedAt, AfterRotate, AfterWrite, Concat;
    var m, all := Limit(cfg), Concat(l.segs) + l.cur;
    match call
    case CallOpen => OpenAgrees(v, m, l);
    case CallWrite(buf, took, settled) =>
      var n := Min(took, |buf|);
      WriteAgrees(v, cfg, l, buf, n, Min(settled, |v.pending| + n));
    case CallRotate(stamp) => RotateAgrees(v, cfg, l, stamp);
    case CallClose => FlushKeepsHistory(v, m, all, l.segs);
  }

  lemma OpenAgrees(v: File, limit: nat, l: Ledger)
    requires Agrees(v, limit, l)
    ensures Agrees(AfterOpen(v), limit, Entered(l, CallOpen, |v.pending|))
  {
    hide Concat, RotatedAt;
    var all := Concat(l.segs) + l.cur;
    OpenKeepsHistory(v, limit, all, l.segs);
    assert l.cur[..|l.cur| - |v.pending|] == ContentOf(v.fs, Base);
    assert all[..|all| - |v.pending|] == Concat(l.segs) + ContentOf(v.fs, Base);
    assert ContentOf(v.fs, Base) + [] == ContentOf(v.fs, Base);
  }

  lemma WriteAgrees(v: File, cfg: Config, l: Ledger, buf: Bytes, took: nat, settled: nat)
    requires Agrees(v, Limit(cfg), l) && took <= |buf| && settled <= |v.pending| + took
    ensures Agrees(AfterWrite(v, cfg, buf, took, settled).0, Limit(cfg),
                   if l.open then l.(cur := l.cur + buf[..took]) else l)
  {
    if !v.isOpen { return; }
    var w := AfterWrite(v, cfg, buf, took, settled).0;
    var all, more := Concat(l.segs) + l.cur, buf[..took];
    hide Concat, RotatedAt, AfterWrite, HistoryOk, Limit;
    WriteKeepsHistory(v, cfg, all, l.segs, buf, took, settled);
    WriteKeepsOpen(v, cfg, buf, took, settled);
    assert all + more == Concat(l.segs) + (l.cur + more);
    StillAgrees(w, Limit(cfg), l.(cur := l.cur + more));
  }

  lemma WriteKeepsOpen(v: File, cfg: Config, buf: Bytes, took: nat, settled: nat)
    requires (v.isOpen ==> Base in v.fs) && took <= |buf| && settled <= |v.pending| + took
    ensures AfterWrite(v, cfg, buf, took, settled).0.isOpen == v.isOpen
    ensures Base in AfterWrite(v, cfg, buf, took, settled).0.fs <==> Base in v.fs
  {
    hide FlushDue;
  }

  lemma StillAgrees(v: File, limit: nat, l: Ledger)
    requires Sound(v) && l.open == v.isOpen && l.present == (Base in v.fs) && (!l.present ==> l.segs == [])
    requires HistoryOk(v, limit, Concat(l.segs) + l.cur, l.segs)
    ensures Agrees(v, limit, l)
  {
    hide Concat, RotatedAt;
    var before, after := Concat(l.segs), ContentOf(v.fs, Base) + v.pending;
    assert before + ContentOf(v.fs, Base) + v.pending == before + after;
    SameTail(before, l.cur, after);
  }

  lemma SameTail(a: Bytes, b: Bytes, c: Bytes)
    requires a + b == a + c
    ensures b == c
  {
    assert b == (a + b)[|a|..] && c == (a + c)[|a|..];
  }

  lemma RotateAgrees(v: File, cfg: Config, l: Ledger, stamp: nat)
    requires Agrees(v, Limit(cfg), l)
    ensures Agrees(AfterRotate(v, cfg, stamp).0, Limit(cfg), Entered(l, CallRotate(stamp), |v.pending|))
  {
    hide RotatedAt, Shifted;
    var all := Concat(l.segs) + l.cur;
    if Base in v.fs {
      RotateKeepsHistory(v, cfg, stamp, all, l.segs);
      assert (l.segs + [l.cur])[..|l.segs|] == l.segs;
      assert Concat(l.segs + [l.cur]) + [] == all;
      RotateShape(v, cfg, stamp);
    } else {
      RotateWithoutCurrentFile(v, cfg, stamp, all, l.segs);
      RotateShape(v, cfg, stamp);
    }
  }

  lemma {:induction false} RunAgrees(v: File, cfg: Config, l: Ledger, calls: seq<Call>)
    requires Agrees(v, Limit(cfg), l)
    ensures Agrees(Exec(v, cfg, calls), Limit(cfg), LedgerAfter(l, v, cfg, calls))
    decreases |calls|
  {
    hide Next, Entered, Agrees;
    if calls != [] {
      SoundIfAgrees(v, Limit(cfg), l);
      CallAgrees(v, cfg, l, calls[0]);
      RunAgrees(Next(v, cfg, calls[0]), cfg, Entered(l, calls[0], |v.pending|), calls[1..]);
    }
  }

  lemma SoundIfAgrees(v: File, limit: nat, l: Ledger)
    requires Agrees(v, limit, l)
    ensures Sound(v)
  {
  }

  // ---- the ledger as a function of the calls alone -----------------------------------------------

  /** The number of rotations that find a current file: all but one that comes before anything has made it. */
  function Cuts(present: bool, calls: seq<Call>): nat
    decreases |calls|
  {
    if calls == [] then 0
    else
      (if calls[0].CallRotate? && present then 1 else 0)
      + Cuts(present || calls[0].CallOpen? || calls[0].CallRotate?, calls[1..])
  }

  predicate OpenAfter(open: bool, call: Call) {
    call.CallOpen? || call.CallRotate? || (call.CallWrite? && open)
  }

  /** The sink is not opened while it is open. */
  predicate Orderly(open: bool, calls: seq<Call>)
    decreases |calls|
  {
    calls == [] || ((calls[0].CallOpen? ==> !open) && Orderly(OpenAfter(open, calls[0]), calls[1..]))
  }

  /** The bytes taken by the writes that find the sink open. */
  function Accepted(open: bool, calls: seq<Call>): Bytes
    decreases |calls|
  {
    if calls == [] then []
    else
      (if calls[0].CallWrite? && open then TakenOf(calls[0]) else [])
      + Accepted(OpenAfter(open, calls[0]), calls[1..])
  }

  /** Each rotation of a current file cuts one segment, and in an orderly run no byte taken is missing. */
  lemma {:induction false} LedgerCounts(l: Ledger, v: File, cfg: Config, calls: seq<Call>)
    requires Sound(v) && l.open == v.isOpen
    ensures var r := LedgerAfter(l, v, cfg, calls);
            && |r.segs| == |l.segs| + Cuts(l.present, calls) && l.segs <= r.segs
            && (Orderly(l.open, calls) ==>
                  Concat(r.segs) + r.cur == Concat(l.segs) + l.cur + Accepted(l.open, calls))
    decreases |calls|
  {
    hide Concat, Next, Entered, OpenAfter, TakenOf;
    var base := Concat(l.segs) + l.cur;
    if calls == [] {
      assert base + [] == base;
    } else {
      var call, rest := calls[0], calls[1..];
      var m, w := Entered(l, call, |v.pending|), Next(v, cfg, call);
      OpenIs(v, cfg, call);
      EnteredShape(l, call, |v.pending|);
      LedgerCounts(m, w, cfg, rest);
      var taken := if call.CallWrite? && l.open then TakenOf(call) else [];
      if call.CallOpen? ==> !l.open {
        EnteredBytes(l, call, |v.pending|, taken);
        assert base + taken + Accepted(m.open, rest) == base + (taken + Accepted(m.open, rest));
      }
    }
  }

  lemma EnteredShape(l: Ledger, call: Call, lost: nat)
    ensures var m := Entered(l, call, lost);
            && m.open == OpenAfter(l.open, call)
            && m.present == (l.present || call.CallOpen? || call.CallRotate?)
            && m.segs == l.segs + if call.CallRotate? && l.present then [l.cur] else []
  {
  }

  lemma OpenIs(v: File, cfg: Config, call: Call)
    requires Sound(v)
    ensures Next(v, cfg, call).isOpen == OpenAfter(v.isOpen, call)
  {
    hide Shifted;
  }

  lemma EnteredBytes(l: Ledger, call: Call, lost: nat, taken: Bytes)
    requires call.CallOpen? ==> lost == 0
    requires taken == if call.CallWrite? && l.open then TakenOf(call) else []
    ensures var m := Entered(l, call, lost); Concat(m.segs) + m.cur == Concat(l.segs) + l.cur + taken
  {
    var m := Entered(l, call, lost);
    match call
    case CallOpen => assert l.cur[..|l.cur|] == l.cur;
    case CallWrite(_, _, _) => assert Concat(l.segs) + l.cur + taken == Concat(l.segs) + (l.cur + taken);
    case CallRotate(_) =>
      assert l.present ==> m.segs[..|l.segs|] == l.segs && Concat(m.segs) == Concat(l.segs) + l.cur;
    case CallClose =>
  }

  /** After any run of opens, closes, writes and rotations on a file system without rotated files: reading the
      numbers from the highest down, then the current file and what is buffered of it, gives exactly the newest
      min(N, m) of the N segments cut, and the current one. N is the number of rotations that find a
      current file; if the sink is never opened while open, segments and current file together are the initial
      content and all bytes taken. */
  lemma {:induction false} EveryRunReadsBack(fs: FileSystem, cfg: Config, calls: seq<Call>)
    requires forall j: nat :: Rot(j) !in fs
    ensures var v0, b0 := File(fs, false, [], 0, 0), ContentOf(fs, Base);
            var v, l := Exec(v0, cfg, calls), LedgerAfter(Ledger(false, Base in fs, [], b0), v0, cfg, calls);
            var m := if cfg.maxFiles == 0 then 3 else cfg.maxFiles;
            var n, k := |l.segs|, Min(|l.segs|, m);
            && ReadDown(v.fs, m) == Concat(l.segs[n - k..])
            && ContentOf(v.fs, Base) + v.pending == l.cur
            && (forall j: nat :: Rot(j) in v.fs <==> 1 <= j <= k)
            && n == Cuts(Base in fs, calls)
            && (Orderly(false, calls) ==> Concat(l.segs) + l.cur == b0 + Accepted(false, calls))
  {
    var v0, l0 := File(fs, false, [], 0, 0), Ledger(false, Base in fs, [], ContentOf(fs, Base));
    StartAgrees(v0, Limit(cfg), l0);
    var v, l := Exec(v0, cfg, calls), LedgerAfter(l0, v0, cfg, calls);
    hide Exec, LedgerAfter, ReadDown;
    RunAgrees(v0, cfg, l0, calls);
    ReadingBack(v, Limit(cfg), Concat(l.segs) + l.cur, l.segs);
    forall j: nat ensures Rot(j) in v.fs <==> 1 <= j <= Min(|l.segs|, Limit(cfg)) {
      assert RotatedAt(v.fs, Limit(cfg), l.segs, j);
    }
    LedgerCounts(l0, v0, cfg, calls);
  }

  lemma StartAgrees(v: File, limit: nat, l: Ledger)
    requires (forall j: nat :: Rot(j) !in v.fs) && v.pending == [] && !v.isOpen
    requires l == Ledger(false, Base in v.fs, [], ContentOf(v.fs, Base))
    ensures Agrees(v, limit, l)
    ensures Concat(l.segs) + l.cur == l.cur
  {
    assert l.cur + [] == l.cur;
    forall j: nat ensures RotatedAt(v.fs, limit, l.segs, j) {}
  }

  // ---- the sink ----------------------------------------------------------------------------------

  class LogFile {
    const cfg: Config
    var fs: FileSystem
    var isOpen: bool
    var pending: Bytes
    var curSz: nat
    var lineCnt: nat
    ghost var all: Bytes
    ghost var segs: seq<Bytes>

    ghost function View(): File
      reads this
    {
      File(fs, isOpen, pending, curSz, lineCnt)
    }

    ghost predicate Valid()
      reads this
    {
      Sound(View())
    }

    ghost predicate Inv()
      reads this
    {
      Valid() && HistoryOk(View(), Limit(cfg), all, segs)
    }

    constructor (cfg: Config, fs: FileSystem)
      ensures Valid() && View() == File(fs, false, [], 0, 0) && this.cfg == cfg
      ensures all == ContentOf(fs, Base) && segs == []
      ensures (forall j: nat :: Rot(j) !in fs) ==> Inv()
    {
      this.cfg, this.fs := cfg, fs;
      isOpen, pending, curSz, lineCnt := false, [], 0, 0;
      all, segs := ContentOf(fs, Base), [];
      new;
      if forall j: nat :: Rot(j) !in fs {
        forall j: nat ensures RotatedAt(fs, Limit(cfg), segs, j) {}
      }
    }

    method Rename(from: Name, to: Name)
      modifies this`fs
      ensures fs == Renamed(old(fs), from, to)
    {
      if from in fs && from != to {
        var content := fs[from];
        fs := (fs - {from})[to := content];
      }
    }

    method Open()
      requires Valid()
      modifies this
      ensures Valid() && View() == AfterOpen(old(View())) && segs == old(segs)
      ensures old(Inv()) ==> Inv() && all == old(all[..|all| - |pending|])
    {
      ghost var was := View();
      if Base !in fs { fs := fs[Base := []]; }
      isOpen := true;
      pending := [];
      curSz := |fs[Base]|;
      lineCnt := 0;
      assert fs == OpenedForAppend(was.fs);
      if HistoryOk(was, Limit(cfg), all, segs) {
        OpenKeepsHistory(was, Limit(cfg), all, segs);
        all := all[..|all| - |was.pending|];
      }
    }

    method Flush()
      requires Valid()
      modifies this`fs, this`pending
      ensures Valid() && View() == Flushed(old(View()))
      ensures old(Inv()) ==> Inv()
    {
      ghost var was := View();
      if isOpen {
        fs := fs[Base := fs[Base] + pending];
        pending := [];
      }
      if HistoryOk(was, Limit(cfg), all, segs) { FlushKeepsHistory(was, Limit(cfg), all, segs); }
    }

    method Close()
      requires Valid()
      modifies this`fs, this`pending, this`isOpen
      ensures Valid() && View() == AfterClose(old(View()))
      ensures old(Inv()) ==> Inv()
    {
      Flush();
      isOpen := false;
    }

    /** `took` bytes are taken by the C library, which passes on the first `settled` of those it buffers. */
    method Write(buf: Bytes, took: nat, settled: nat) returns (rc: int)
      requires Valid() && took <= |buf| && settled <= |pending| + took
      modifies this
      ensures Valid() && (View(), rc) == AfterWrite(old(View()), cfg, buf, took, settled)
      ensures all == old(all) + (if old(isOpen) then buf[..took] else []) && segs == old(segs)
      ensures old(Inv()) ==> Inv()
    {
      hide HistoryOk;
      ghost var was := View();
      assert all + [] == all;
      if HistoryOk(was, Limit(cfg), all, segs) { WriteKeepsHistory(was, cfg, all, segs, buf, took, settled); }
      if !isOpen { return -1; }
      var p := pending + buf[..took];
      fs := fs[Base := fs[Base] + p[..settled]];
      pending := p[settled..];
      all := all + buf[..took];
      if took != |buf| { return -1; }
      curSz := curSz + took;
      lineCnt := lineCnt + 1;
      if FlushDue(cfg, lineCnt) {
        fs := fs[Base := fs[Base] + pending];
        pending := [];
      }
      if lineCnt % 128 == 0 { curSz := |fs[Base]|; }
      rc := 0;
    }

    /** The renaming chain. */
    method Shift()
      modifies this`fs
      ensures fs == Shifted(old(fs), Limit(cfg) - 1)
    {
      var i := if cfg.maxFiles != 0 then cfg.maxFiles - 1 else DEFAULT_MAX_FILES - 1;
      while i >= 1
        invariant 0 <= i && Shifted(old(fs), Limit(cfg) - 1) == Shifted(fs, i)
      {
        Rename(Rot(i), Rot(i + 1));
        i := i - 1;
      }
    }

    method Rotate(stamp: nat) returns (rc: int)
      requires Valid()
      modifies this
      ensures Valid() && (View(), rc) == AfterRotate(old(View()), cfg, stamp)
      ensures all == old(all) && segs == old(segs) + if rc == 0 then [old(ContentOf(fs, Base) + pending)] else []
      ensures old(Inv()) && old(Base in fs) ==> Inv() && rc == 0 && Base in fs
    {
      hide HistoryOk, ShiftedAt, Shifted;
      ghost var was := View();
      assert segs + [] == segs;
      if HistoryOk(was, Limit(cfg), all, segs) && Base in fs { RotateKeepsHistory(was, cfg, stamp, all, segs); }
      Close();
      ghost var seg := ContentOf(fs, Base);
      assert seg == ContentOf(was.fs, Base) + was.pending;
      Shift();
      if Base !in fs {
        fs := fs[Tmp(stamp) := []][Base := []];
        isOpen := true;
        curSz := |fs[Base]|;
        return -1;
      }
      Rename(Base, Tmp(stamp));
      Rename(Tmp(stamp), Rot(1));
      assert Base !in fs;
      fs := fs[Base := []];
      isOpen := true;
      curSz := |fs[Base]|;
      lineCnt := 0;
      segs := segs + [seg];
      rc := 0;
    }

    method Perform(call: Call)
      requires Valid()
      modifies this
      ensures Valid() && View() == Next(old(View()), cfg, call)
      ensures old(Inv()) && old(Base in fs) ==>
                && Inv() && Base in fs
                && old(segs) <= segs && |segs| == |old(segs)| + (if call.CallRotate? then 1 else 0)
                && ((call.CallOpen? ==> !old(isOpen)) ==> old(all) <= all)
    {
      hide HistoryOk, AfterRotate, AfterWrite, Limit;
      match call
      case CallOpen => Open();
      case CallClose => Close();
      case CallRotate(stamp) => var _ := Rotate(stamp);
      case CallWrite(buf, took, settled) =>
        var n := Min(took, |buf|);
        WriteKeepsOpen(View(), cfg, buf, n, Min(settled, |pending| + n));
        var _ := Write(buf, n, Min(settled, |pending| + n));
    }

    /** Any run of calls. */
    method Run(calls: seq<Call>)
      requires Valid()
      modifies this
      ensures Valid() && View() == Exec(old(View()), cfg, calls)
      ensures old(Inv()) && old(Base in fs) ==>
                Inv() && Base in fs && old(segs) <= segs && |segs| == |old(segs)| + Cuts(true, calls)
      ensures old(Inv()) && old(Base in fs) && Orderly(old(isOpen), calls) ==> old(all) <= all
    {
      hide HistoryOk, Next;
      assert calls[0..] == calls;
      for i := 0 to |calls|
        invariant Valid() && Exec(old(View()), cfg, calls) == Exec(View(), cfg, calls[i..])
        invariant old(Inv()) && old(Base in fs) ==>
                    Inv() && Base in fs && old(segs) <= segs
                    && |segs| + Cuts(true, calls[i..]) == |old(segs)| + Cuts(true, calls)
        invariant old(Inv()) && old(Base in fs) && Orderly(old(isOpen), calls) ==>
                    Orderly(isOpen, calls[i..]) && old(all) <= all
      {
        assert calls[i..][1..] == calls[i + 1..];
        OpenIs(View(), cfg, calls[i]);
        Perform(calls[i]);
      }
    }
  }
}
