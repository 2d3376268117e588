/** The UI snapshot in shared memory: two payload buffers, the index of the active one and a 32-bit
    sequence number, written by one writer and read without locks by any number of readers.
    Memory is sequentially consistent; payloads are copied one word at a time, in any order. */
module SnapshotShm {

  const SEQ_MODULUS: nat := 0x1_0000_0000

  type Payload = seq<int>

  /** Where the writer is inside a commit. `done` are the words it has copied so far. */
  datatype WriterPc =
    | Ready
    | Copying(payload: Payload, done: set<nat>)
    | IndexSet

  /** `commits[0]` is the initial content. Commit `visible` is the one `active` selects, commit `finished`
      the last one whose sequence number has been written. */
  datatype Shm = Shm(buf: seq<Payload>, active: nat, seqNo: nat, pc: WriterPc,
                     commits: seq<Payload>, visible: nat, finished: nat)

  datatype WriterStep = Begin(payload: Payload) | CopyWord(i: nat) | SetIndex | SetSeq

  function Width(s: Shm): nat
    requires |s.buf| == 2
  {
    |s.buf[0]|
  }

  predicate Shape(s: Shm) {
    |s.buf| == 2 && |s.buf[0]| == |s.buf[1]| && s.active < 2
    && (s.pc.Copying? ==> |s.pc.payload| == |s.buf[0]|)
  }

  function Target(s: Shm): nat {
    if s.active == 0 then 1 else 0
  }

  /** One atomic action of the writer; an action that does not fit its position is skipped. */
  ghost function Act(s: Shm, e: WriterStep): (r: Shm)
    requires Shape(s)
    ensures Shape(r)
  {
    match e
    case Begin(payload) =>
      if s.pc.Ready? && |payload| == Width(s)
      then s.(pc := Copying(payload, {}), commits := s.commits + [payload]) else s
    case CopyWord(i) =>
      if s.pc.Copying? && i < Width(s)
      then s.(buf := s.buf[Target(s) := s.buf[Target(s)][i := s.pc.payload[i]]],
              pc := s.pc.(done := s.pc.done + {i}))
      else s
    case SetIndex =>
      if s.pc.Copying? && (forall i :: 0 <= i < Width(s) ==> i in s.pc.done)
      then s.(active := Target(s), pc := IndexSet, visible := s.visible + 1) else s
    case SetSeq =>
      if s.pc.IndexSet?
      then s.(seqNo := (s.seqNo + 1) % SEQ_MODULUS, pc := Ready, finished := s.finished + 1) else s
  }

  /** The sequence number after `n` commits: it is 32 bits wide. */
  function SeqOf(n: nat): nat {
    n % SEQ_MODULUS
  }

  /** The buffer selected after `n` switches of the index. */
  function IndexOf(n: nat): (i: nat)
    ensures i < 2
  {
    n % 2
  }

  ghost predicate Inv(s: Shm) {
    && Shape(s)
    && s.seqNo == SeqOf(s.finished)
    && s.active == IndexOf(s.visible)
    && s.visible == (if s.pc.IndexSet? then s.finished + 1 else s.finished)
    && |s.commits| == (if s.pc.Ready? then s.finished + 1 else s.finished + 2)
    && s.buf[s.active] == s.commits[s.visible]
    && (s.pc.Copying? ==>
          && s.commits[s.finished + 1] == s.pc.payload
          && forall i :: i in s.pc.done && i < Width(s) ==> s.buf[Target(s)][i] == s.pc.payload[i])
  }

  lemma SeqAdvances(n: nat)
    ensures (SeqOf(n) + 1) % SEQ_MODULUS == SeqOf(n + 1)
  {
  }

  lemma IndexAlternates(n: nat)
    ensures IndexOf(n + 1) == if IndexOf(n) == 0 then 1 else 0
  {
  }

  lemma ActKeepsInv(s: Shm, e: WriterStep)
    requires Inv(s)
    ensures Inv(Act(s, e))
    ensures s.commits <= Act(s, e).commits
    ensures s.visible <= Act(s, e).visible <= s.visible + 1
    ensures s.finished <= Act(s, e).finished <= s.finished + 1
  {
    hide SeqOf, IndexOf;
    var t := Act(s, e);
    IndexAlternates(s.visible);
    if e.SetIndex? && t != s {
      assert t.buf[t.active] == s.pc.payload;
    } else if e.SetSeq? {
      SeqAdvances(s.finished);
    }
  }

  ghost function Exec(s: Shm, es: seq<WriterStep>): (r: Shm)
    requires Shape(s)
    ensures Shape(r)
    decreases |es|
  {
    if es == [] then s else Exec(Act(s, es[0]), es[1..])
  }

  /** What a later state keeps of an earlier one. Until the next sequence number is written, the buffer
      selected now keeps its content, and with the index already switched both buffers do. */
  ghost predicate Later(s: Shm, t: Shm)
    requires Shape(s)
  {
    && Inv(t) && Width(t) == Width(s)
    && s.commits <= t.commits
    && s.visible <= t.visible && s.finished <= t.finished
    && (t.finished == s.finished ==> t.buf[s.active] == s.buf[s.active])
    && (t.finished == s.finished && s.pc.IndexSet? ==> t.pc.IndexSet? && t.buf == s.buf)
  }

  lemma ActIsLater(s: Shm, e: WriterStep)
    requires Inv(s)
    ensures Later(s, Act(s, e))
  {
    ActKeepsInv(s, e);
  }

  lemma LaterIsTransitive(s: Shm, t: Shm, u: Shm)
    requires Inv(s) && Later(s, t) && Later(t, u)
    ensures Later(s, u)
  {
  }

  lemma {:induction false} RunIsLater(s: Shm, es: seq<WriterStep>)
    requires Inv(s)
    ensures Later(s, Exec(s, es))
    decreases |es|
  {
    if es != [] {
      ActIsLater(s, es[0]);
      RunIsLater(Act(s, es[0]), es[1..]);
      LaterIsTransitive(s, Act(s, es[0]), Exec(s, es));
    }
  }

  // ---- one round of the reader's retry loop ----------------------------------------------------

  /** The shared state at each of the reader's accesses: the first read of the sequence number, the read of
      the index, the read of each word (in any order) and the second read of the sequence number. */
  datatype Round = Round(first: Shm, index: Shm, words: seq<Shm>, last: Shm)

  ghost predicate RoundOf(r: Round) {
    && Inv(r.first) && Later(r.first, r.index)
    && |r.words| == Width(r.index)
    && Later(r.index, r.last)
    && (forall i :: 0 <= i < |r.words| ==> WordRead(r.index, r.words[i], r.last))
  }

  /** A word was read in state `w`, after the index and before the second sequence number. */
  ghost predicate WordRead(index: Shm, w: Shm, last: Shm)
    requires Shape(index)
  {
    Later(index, w) && Later(w, last)
  }

  ghost function Copied(r: Round): Payload
    requires RoundOf(r)
  {
    seq(|r.words|, i requires 0 <= i < |r.words| => r.words[i].buf[r.index.active][i])
  }

  lemma EqualSeqNumbers(n: nat, m: nat)
    requires n <= m < n + SEQ_MODULUS
    ensures SeqOf(n) == SeqOf(m) <==> n == m
  {
  }

  /** A round that sees the same sequence number twice, with fewer than 2^32 commits finishing in between,
      has copied one whole committed payload: the one visible when it read the index, which is commit `s` or
      `s + 1` for the sequence number `s` it read. */
  lemma AcceptedRoundIsWhole(r: Round)
    requires RoundOf(r)
    requires r.first.seqNo == r.last.seqNo
    requires r.last.finished - r.first.finished < SEQ_MODULUS
    ensures r.last.finished == r.first.finished
    ensures r.index.visible < |r.last.commits| && Copied(r) == r.last.commits[r.index.visible]
    ensures r.first.finished <= r.index.visible <= r.first.finished + 1
  {
    hide Act;
    EqualSeqNumbers(r.first.finished, r.last.finished);
    forall i | 0 <= i < |r.words|
      ensures Copied(r)[i] == r.index.buf[r.index.active][i]
    {
      assert WordRead(r.index, r.words[i], r.last);
    }
  }

  ghost function StateAt(s: Shm, es: seq<WriterStep>, p: nat): (r: Shm)
    requires Shape(s) && p <= |es|
    ensures Shape(r)
  {
    Exec(s, es[..p])
  }

  lemma {:induction false} ExecConcat(s: Shm, es: seq<WriterStep>, fs: seq<WriterStep>)
    requires Shape(s)
    ensures Exec(s, es + fs) == Exec(Exec(s, es), fs)
    decreases |es|
  {
    if es == [] {
      assert es + fs == fs;
    } else {
      assert (es + fs)[1..] == es[1..] + fs;
      ExecConcat(Act(s, es[0]), es[1..], fs);
    }
  }

  lemma PositionsAreLater(s: Shm, es: seq<WriterStep>, p: nat, q: nat)
    requires Inv(s) && p <= q <= |es|
    ensures Later(StateAt(s, es, p), StateAt(s, es, q)) && Inv(StateAt(s, es, p))
  {
    RunIsLater(s, es[..p]);
    assert es[..q] == es[..p] + es[p..q];
    ExecConcat(s, es[..p], es[p..q]);
    RunIsLater(StateAt(s, es, p), es[p..q]);
  }

  /** Every interleaving: `es` is all the writer does, and the reader reads the sequence number, the index,
      each word and the sequence number again at positions `p0 <= p1 <= pw[i] <= p2` of it. If both sequence
      numbers are equal, and fewer than 2^32 commits finished in between, the reader holds commit `s` or
      `s + 1` as a whole. */
  lemma NoTornRead(s: Shm, es: seq<WriterStep>, p0: nat, p1: nat, pw: seq<nat>, p2: nat, copy: Payload)
    requires Inv(s) && p0 <= p1 <= p2 <= |es|
    requires |pw| == |copy| == Width(s) && forall i :: 0 <= i < |pw| ==> p1 <= pw[i] <= p2
    requires var idx := StateAt(s, es, p1).active;
             forall i :: 0 <= i < |pw| ==> |StateAt(s, es, pw[i]).buf[idx]| == |pw|
                                           && copy[i] == StateAt(s, es, pw[i]).buf[idx][i]
    requires StateAt(s, es, p0).seqNo == StateAt(s, es, p2).seqNo
    requires StateAt(s, es, p2).finished - StateAt(s, es, p0).finished < SEQ_MODULUS
    ensures exists k :: StateAt(s, es, p0).finished <= k <= StateAt(s, es, p0).finished + 1
                        && k < |Exec(s, es).commits| && copy == Exec(s, es).commits[k]
  {
    hide Act, Later, WordRead;
    var r := RoundAt(s, es, p0, p1, pw, p2);
    AcceptedRoundIsWhole(r);
    assert copy == Copied(r);
  }

  /** The round of a reader that accesses memory at these positions. */
  lemma RoundAt(s: Shm, es: seq<WriterStep>, p0: nat, p1: nat, pw: seq<nat>, p2: nat) returns (r: Round)
    requires Inv(s) && p0 <= p1 <= p2 <= |es|
    requires |pw| == Width(s) && forall i :: 0 <= i < |pw| ==> p1 <= pw[i] <= p2
    ensures RoundOf(r) && r.first == StateAt(s, es, p0) && r.index == StateAt(s, es, p1) && r.last == StateAt(s, es, p2)
    ensures |r.words| == |pw| && forall i :: 0 <= i < |pw| ==> r.words[i] == StateAt(s, es, pw[i])
    ensures r.last.commits <= Exec(s, es).commits
  {
    assert es[..0] == [] && es[..|es|] == es;
    assert StateAt(s, es, 0) == s && StateAt(s, es, |es|) == Exec(s, es);
    hide StateAt, Exec, Act;
    PositionsAreLater(s, es, 0, p1);
    PositionsAreLater(s, es, p0, p1);
    PositionsAreLater(s, es, p1, p2);
    PositionsAreLater(s, es, p2, |es|);
    var ws := seq(|pw|, i requires 0 <= i < |pw| => StateAt(s, es, pw[i]));
    r := Round(StateAt(s, es, p0), StateAt(s, es, p1), ws, StateAt(s, es, p2));
    forall i | 0 <= i < |ws| ensures WordRead(r.index, ws[i], r.last) {
      PositionsAreLater(s, es, p1, pw[i]);
      PositionsAreLater(s, es, pw[i], p2);
    }
  }

  /** A round is repeated only if some commit finished while it ran. */
  lemma RepeatedRoundSawACommit(r: Round)
    requires RoundOf(r) && r.first.seqNo != r.last.seqNo
    ensures r.last.finished > r.first.finished
  {
  }

  lemma WordsStayRead(index: Shm, ws: seq<Shm>, s: Shm, t: Shm)
    requires Inv(index) && Later(index, s) && Later(s, t)
    requires forall k :: 0 <= k < |ws| ==> WordRead(index, ws[k], s)
    ensures Later(index, t)
    ensures forall k :: 0 <= k < |ws| ==> WordRead(index, ws[k], t)
  {
  }

  /** One read: a chain of rounds, all but the last repeated. */
  ghost predicate ReadOf(rs: seq<Round>) {
    rs != [] && ReadSoFar(rs, true)
  }

  ghost predicate ReadSoFar(rs: seq<Round>, accepted: bool) {
    && (forall k :: 0 <= k < |rs| ==> RoundOf(rs[k]))
    && (forall k :: 0 <= k < |rs| ==> (rs[k].first.seqNo == rs[k].last.seqNo <==> k == |rs| - 1 && accepted))
    && (forall j, k :: 0 <= j < k < |rs| && k == j + 1 ==> Later(rs[j].last, rs[k].first))
  }

  lemma RoundShape(r: Round)
    requires RoundOf(r)
    ensures Shape(r.last) && r.last.finished >= r.first.finished
  {
  }

  lemma ExtendRead(rs: seq<Round>, r: Round)
    requires rs != [] && ReadSoFar(rs, false) && RoundOf(r) && Later(rs[|rs| - 1].last, r.first)
    ensures ReadSoFar(rs + [r], r.first.seqNo == r.last.seqNo)
    ensures (rs + [r])[0] == rs[0]
    ensures r.first.seqNo != r.last.seqNo ==> r.last.finished > rs[|rs| - 1].last.finished
  {
    assert r.first.finished >= rs[|rs| - 1].last.finished;
    if r.first.seqNo != r.last.seqNo { RepeatedRoundSawACommit(r); }
    hide RoundOf, Inv, Later;
    var q := rs + [r];
    forall k | 0 <= k < |q|
      ensures RoundOf(q[k]) && Shape(q[k].last)
      ensures q[k].first.seqNo == q[k].last.seqNo <==> k == |q| - 1 && r.first.seqNo == r.last.seqNo
    {
      assert q[k] == if k < |rs| then rs[k] else r;
      RoundShape(q[k]);
    }
    forall j, k | 0 <= j < k < |q| && k == j + 1 ensures Later(q[j].last, q[k].first) {
      assert q[j] == rs[j] && q[k] == if k < |rs| then rs[k] else r;
    }
  }

  /** The number of repeated rounds of a read is at most the number of commits that finished during it. */
  lemma {:induction false} RetriesAreCommits(rs: seq<Round>)
    requires ReadOf(rs)
    ensures |rs| - 1 <= rs[|rs| - 1].last.finished - rs[0].first.finished
    decreases |rs|
  {
    if |rs| > 1 {
      RepeatedRoundSawACommit(rs[0]);
      assert rs[1..][0] == rs[1];
      RetriesAreCommits(rs[1..]);
    }
  }

  lemma RoundIsLater(r: Round)
    requires RoundOf(r)
    ensures Later(r.first, r.last) && Inv(r.last)
  {
    LaterIsTransitive(r.first, r.index, r.last);
  }

  /** The last round of a read comes after the beginning of the read. */
  lemma {:induction false} LastRoundIsLater(rs: seq<Round>)
    requires ReadOf(rs)
    ensures RoundOf(rs[|rs| - 1]) && Inv(rs[0].first) && Later(rs[0].first, rs[|rs| - 1].first)
    decreases |rs|
  {
    hide Later;
    var a := rs[0];
    assert RoundOf(a);
    if |rs| == 1 {
      ItselfIsLater(a.first);
    } else {
      var rest := rs[1..];
      assert rest[0] == rs[1] && rest[|rest| - 1] == rs[|rs| - 1];
      LastRoundIsLater(rest);
      RoundIsLater(a);
      assert Later(rs[0].last, rs[1].first);
      LaterIsTransitive(a.first, a.last, rest[0].first);
      LaterIsTransitive(a.first, rest[0].first, rest[|rest| - 1].first);
    }
  }

  lemma InvShape(s: Shm)
    requires Inv(s)
    ensures Shape(s)
  {
  }

  lemma ItselfIsLater(s: Shm)
    requires Inv(s)
    ensures Later(s, s)
  {
  }

  /** What a read returns: the copy of its last round, which is a committed payload. */
  ghost predicate Returns(rs: seq<Round>, k: nat)
    requires ReadOf(rs)
  {
    var r := rs[|rs| - 1];
    && RoundOf(r) && r.index.visible == k < |r.last.commits| && Copied(r) == r.last.commits[k]
    && r.first.finished <= k <= r.first.finished + 1
  }

  /** Fewer than 2^32 commits finish while the last round of the read runs. */
  ghost predicate Timely(rs: seq<Round>)
    requires ReadOf(rs)
  {
    rs[|rs| - 1].last.finished - rs[|rs| - 1].first.finished < SEQ_MODULUS
  }

  lemma ReadReturns(rs: seq<Round>)
    requires ReadOf(rs) && Timely(rs)
    ensures Returns(rs, rs[|rs| - 1].index.visible)
  {
    hide Later, Inv;
    AcceptedRoundIsWhole(rs[|rs| - 1]);
  }

  /** Successive reads of one reader, each with all its retries. */
  ghost predicate Successive(hs: seq<seq<Round>>) {
    && (forall k :: 0 <= k < |hs| ==> ReadOf(hs[k]) && Timely(hs[k]))
    && (forall j, k :: 0 <= j < k < |hs| && k == j + 1 ==> Later(hs[j][|hs[j]| - 1].last, hs[k][0].first))
  }

  /** Of any two of them, the earlier returns some commit `i` of the writer and the other one a commit `j`, not
      older, and neither comes before commit `n` if that had finished when the earlier one began. */
  lemma {:induction false} ReadsNeverGoBack(hs: seq<seq<Round>>, p: nat, q: nat, n: nat)
    requires Successive(hs) && p < q < |hs|
    requires n <= hs[p][0].first.finished
    ensures var ra, rb := hs[p][|hs[p]| - 1], hs[q][|hs[q]| - 1];
            exists i, j :: n <= i <= j < |rb.last.commits|
                           && Copied(ra) == rb.last.commits[i] && Copied(rb) == rb.last.commits[j]
  {
    hide Later, ReadSoFar, Timely, Copied;
    var a, b := hs[p], hs[q];
    var ra, rb := a[|a| - 1], b[|b| - 1];
    ReadsAreLater(hs, p, q);
    ReadReturns(a);
    ReadReturns(b);
    LastRoundIsLater(a);
    LastRoundIsLater(b);
    OneAfterTheOther(a[0].first, ra, b[0].first, rb);
    var i, j := ra.index.visible, rb.index.visible;
    assert ra.last.commits[i] == rb.last.commits[i];
  }

  lemma {:induction false} ReadsAreLater(hs: seq<seq<Round>>, p: nat, q: nat)
    requires Successive(hs) && p < q < |hs|
    ensures Later(hs[p][|hs[p]| - 1].last, hs[q][0].first)
    decreases q
  {
    hide Later, ReadSoFar, Timely;
    if p + 1 < q {
      var m := hs[q - 1];
      ReadsAreLater(hs, p, q - 1);
      LastRoundIsLater(hs[p]);
      LastRoundIsLater(m);
      RoundIsLater(hs[p][|hs[p]| - 1]);
      RoundIsLater(m[|m| - 1]);
      LaterIsTransitive(m[0].first, m[|m| - 1].first, m[|m| - 1].last);
      LaterIsTransitive(hs[p][|hs[p]| - 1].last, m[0].first, m[|m| - 1].last);
      LaterIsTransitive(hs[p][|hs[p]| - 1].last, m[|m| - 1].last, hs[q][0].first);
    }
  }

  lemma OneAfterTheOther(s: Shm, ra: Round, t: Shm, rb: Round)
    requires Inv(s) && Later(s, ra.first) && RoundOf(ra) && Later(ra.last, t) && Later(t, rb.first) && RoundOf(rb)
    ensures s.finished <= ra.index.visible <= rb.index.visible
    ensures ra.last.commits <= rb.last.commits
  {
  }

  // ---- the shared memory object ------------------------------------------------------------------

  /** The mapped region, with the position of its writer. `budget` bounds the commits that finish while a
      reader loops, so that its loop ends. */
  class Region {
    const words: nat
    const buf0: array<int>
    const buf1: array<int>
    var active: nat
    var seqNo: nat
    var pc: WriterPc
    var budget: nat
    ghost var commits: seq<Payload>
    ghost var visible: nat
    ghost var finished: nat

    function Buf(k: nat): array<int> {
      if k == 0 then buf0 else buf1
    }

    ghost function View(): Shm
      reads this, buf0, buf1
    {
      Shm([buf0[..], buf1[..]], active, seqNo, pc, commits, visible, finished)
    }

    ghost predicate Valid()
      reads this, buf0, buf1
    {
      buf0 != buf1 && buf0.Length == words == buf1.Length && Inv(View())
    }

    constructor (words: nat, budget: nat)
      ensures Valid() && fresh(buf0) && fresh(buf1) && this.words == words && this.budget == budget
      ensures pc.Ready? && commits == [seq(words, i => 0)] && visible == finished == 0
    {
      this.words := words;
      this.budget := budget;
      buf0, buf1 := new int[words](i => 0), new int[words](i => 0);
      active, seqNo, pc := 0, 0, Ready;
      commits, visible, finished := [seq(words, i => 0)], 0, 0;
      new;
      assert buf0[..] == commits[0];
    }

    /** One word of the payload goes into the buffer that is not selected. */
    method StoreWord(i: nat)
      requires Valid() && pc.Copying? && i < words
      modifies this`pc, buf0, buf1
      ensures Shape(old(View())) && View() == Act(old(View()), CopyWord(i))
    {
      hide SeqOf, IndexOf;
      ghost var before := View();
      var next := if active == 0 then 1 else 0;
      Buf(next)[i] := pc.payload[i];
      pc := pc.(done := pc.done + {i});
      assert Buf(next)[..] == before.buf[next][i := before.pc.payload[i]];
    }

    /** One atomic action of the writer, in place. */
    method Perform(e: WriterStep)
      requires Valid()
      modifies this`active, this`seqNo, this`pc, this`commits, this`visible, this`finished, buf0, buf1
      ensures Valid() && Later(old(View()), View())
      ensures View() == Act(old(View()), e)
      ensures finished == old(finished) + if e.SetSeq? && old(pc.IndexSet?) then 1 else 0
    {
      ghost var before := View();
      assert Shape(before);
      hide Inv, Later;
      ActIsLater(before, e);
      ActKeepsInv(before, e);
      match e
      case Begin(payload) =>
        if pc.Ready? && |payload| == words {
          pc := Copying(payload, {});
          commits := commits + [payload];
        }
      case CopyWord(i) =>
        if pc.Copying? && i < words { StoreWord(i); }
      case SetIndex =>
        if pc.Copying? && forall i :: 0 <= i < words ==> i in pc.done {
          active := if active == 0 then 1 else 0;
          visible, pc := visible + 1, IndexSet;
        }
      case SetSeq =>
        if pc.IndexSet? {
          seqNo := (seqNo + 1) % SEQ_MODULUS;
          finished, pc := finished + 1, Ready;
        }
    }

    /** A whole commit: copy into the inactive buffer, switch the index, advance the sequence number. */
    method CommitSnapshot(payload: Payload)
      requires Valid() && pc.Ready? && |payload| == words
      modifies this`active, this`seqNo, this`pc, this`commits, this`visible, this`finished, buf0, buf1
      ensures Valid() && pc.Ready?
      ensures commits == old(commits) + [payload] && finished == old(finished) + 1
      ensures seqNo == (old(seqNo) + 1) % SEQ_MODULUS && active == 1 - old(active)
      ensures Buf(active)[..] == payload && Buf(1 - active)[..] == old(Buf(active)[..])
    {
      ghost var before := View();
      assert Buf(active)[..] == before.buf[before.active];
      MidCopy(before, payload);
      hide Act, Inv, Later, SeqOf, IndexOf;
      Perform(Begin(payload));
      var i := 0;
      while i < words
        invariant 0 <= i <= words
        invariant Valid() && IsMid(before, View(), payload, i)
      {
        MidStep(before, View(), payload, i);
        Perform(CopyWord(i));
        i := i + 1;
      }
      MidEnd(before, View(), payload);
      Perform(SetIndex);
      Perform(SetSeq);
      assert View().buf[active] == Buf(active)[..] && View().buf[1 - active] == Buf(1 - active)[..];
    }

    /** The first `i` words have been copied. */
    static ghost predicate IsMid(s: Shm, t: Shm, payload: Payload, i: nat)
      requires Shape(s)
    {
      && Shape(t) && t.pc.Copying? && i <= |payload| == Width(s)
      && t == s.(buf := t.buf, pc := Copying(payload, t.pc.done), commits := s.commits + [payload])
      && t.buf[s.active] == s.buf[s.active]
      && |t.buf[Target(s)]| == |payload| && t.buf[Target(s)][..i] == payload[..i]
      && forall k: nat :: k in t.pc.done <==> k < i
    }

    static lemma MidCopy(s: Shm, payload: Payload)
      requires Inv(s) && s.pc.Ready? && |payload| == Width(s)
      ensures IsMid(s, Act(s, Begin(payload)), payload, 0)
    {
    }

    static lemma MidStep(s: Shm, t: Shm, payload: Payload, i: nat)
      requires Shape(s) && IsMid(s, t, payload, i) && i < Width(s)
      ensures IsMid(s, Act(t, CopyWord(i)), payload, i + 1)
    {
    }

    static lemma MidEnd(s: Shm, t: Shm, payload: Payload)
      requires Inv(s) && s.pc.Ready? && Inv(t) && IsMid(s, t, payload, Width(s))
      ensures var u := Act(Act(t, SetIndex), SetSeq);
              && u.pc.Ready? && u.commits == s.commits + [payload] && u.finished == s.finished + 1
              && u.seqNo == (s.seqNo + 1) % SEQ_MODULUS && u.active == 1 - s.active
              && u.buf[u.active] == payload && u.buf[1 - u.active] == s.buf[s.active]
    {
    }

    /** The writer runs for a while: any number of actions, any payloads. */
    method Interfere()
      requires Valid()
      modifies this, buf0, buf1
      ensures Valid() && Later(old(View()), View())
      ensures finished + budget == old(finished + budget)
    {
      InvShape(View());
      ItselfIsLater(View());
      hide Inv, Later, Act;
      var rounds: nat := *;
      while rounds > 0
        invariant Valid() && Later(old(View()), View())
        invariant finished + budget == old(finished + budget)
      {
        InvShape(View());
        var e: WriterStep := *;
        if !(e.SetSeq? && pc.IndexSet?) || budget > 0 {
          if e.SetSeq? && pc.IndexSet? { budget := budget - 1; }
          LaterIsTransitive(old(View()), View(), Act(View(), e)) by { ActIsLater(View(), e); }
          Perform(e);
        }
        rounds := rounds - 1;
      }
    }

    /** The reader's copy of buffer `idx`, one word at a time. */
    method CopyWords(out: array<int>, idx: nat) returns (ghost ws: seq<Shm>)
      requires Valid() && idx == active
      requires out.Length == words && out != buf0 && out != buf1
      modifies this, buf0, buf1, out
      ensures Valid() && Later(old(View()), View()) && |ws| == words
      ensures forall k :: 0 <= k < words ==> WordRead(old(View()), ws[k], View()) && out[k] == ws[k].buf[idx][k]
      ensures finished + budget == old(finished + budget)
    {
      hide SeqOf, IndexOf, Act;
      ws := [];
      var i := 0;
      while i < words
        invariant 0 <= i == |ws| <= words
        invariant Valid() && Later(old(View()), View())
        invariant finished + budget == old(finished + budget)
        invariant forall k :: 0 <= k < i ==> WordRead(old(View()), ws[k], View())
        invariant forall k :: 0 <= k < i ==> out[k] == ws[k].buf[idx][k]
      {
        ghost var before := View();
        Interfere();
        WordsStayRead(old(View()), ws, before, View());
        ghost var now := View();
        ws := ws + [now];
        var w := Buf(idx)[i];
        assert w == now.buf[idx][i];
        out[i] := w;
        assert View() == now;
        i := i + 1;
      }
    }

    /** One round of the retry loop, with the writer running before every access. */
    method ReadRound(out: array<int>) returns (seq1: nat, seq2: nat, ghost r: Round)
      requires Valid() && out.Length == words && out != buf0 && out != buf1
      modifies this, buf0, buf1, out
      ensures Valid() && Later(old(View()), r.first)
      ensures RoundOf(r) && r.last == View()
      ensures seq1 == r.first.seqNo && seq2 == r.last.seqNo
      ensures out[..] == Copied(r)
      ensures finished + budget == old(finished + budget)
    {
      hide SeqOf, IndexOf, Act;
      Interfere();
      ghost var first := View();
      seq1 := seqNo;
      Interfere();
      ghost var index := View();
      var idx := active;
      ghost var ws := CopyWords(out, idx);
      ghost var copied := View();
      Interfere();
      WordsStayRead(index, ws, copied, View());
      seq2 := seqNo;
      r := Round(first, index, ws, View());
    }

    /** A read: the retry loop of the source, with the writer running before every access. */
    method ReadSnapshot(out: array<int>) returns (seq2: nat, ghost rs: seq<Round>)
      requires Valid() && out.Length == words && out != buf0 && out != buf1
      modifies this, buf0, buf1, out
      ensures Valid()
      ensures ReadOf(rs) && Later(old(View()), rs[0].first) && rs[|rs| - 1].last == View()
      ensures seq2 == rs[|rs| - 1].last.seqNo && out[..] == Copied(rs[|rs| - 1])
      ensures old(budget) < SEQ_MODULUS ==>
                var s, k := rs[|rs| - 1].first.finished, rs[|rs| - 1].index.visible;
                seq2 == SeqOf(s) && s <= k <= s + 1 && k < |commits| && out[..] == commits[k]
    {
      ghost var start := View();
      InvShape(start);
      seq2, rs := ReadRounds(out);
      hide Later, Inv, RoundOf, ReadSoFar, Reading, SeqOf, Copied;
      ReadingGives(start, rs, true);
      if old(budget) < SEQ_MODULUS { Accepted(rs[|rs| - 1]); }
    }

    method ReadRounds(out: array<int>) returns (seq2: nat, ghost rs: seq<Round>)
      requires Valid() && out.Length == words && out != buf0 && out != buf1
      modifies this, buf0, buf1, out
      ensures Valid() && Shape(old(View())) && Reading(old(View()), rs, true)
      ensures finished + budget == old(finished + budget)
      ensures var r := rs[|rs| - 1]; RoundOf(r) && r.last == View() && seq2 == r.last.seqNo && out[..] == Copied(r)
    {
      InvShape(View());
      hide Later, Inv, RoundOf, ReadSoFar, Reading, SeqOf, IndexOf, WordRead, Act, Copied;
      ghost var start := View();
      var seq1;
      ghost var r;
      seq1, seq2, r := ReadRound(out);
      rs := [r];
      Begins(start, r);
      while seq1 != seq2
        invariant Valid() && rs != [] && r == rs[|rs| - 1] && r.last == View()
        invariant RoundOf(r) && Reading(start, rs, seq1 == seq2)
        invariant seq1 == r.first.seqNo && seq2 == r.last.seqNo && out[..] == Copied(r)
        invariant finished + budget == start.finished + old(budget)
        decreases budget, if seq1 == seq2 then 0 else 1
      {
        ghost var was := rs;
        ReadingGives(start, was, false);
        seq1, seq2, r := ReadRound(out);
        Continues(start, was, r);
        rs := was + [r];
      }
    }

    /** `rs` are the rounds of a read so far that began after `start`. */
    static ghost predicate Reading(start: Shm, rs: seq<Round>, accepted: bool)
      requires Shape(start)
    {
      && rs != [] && ReadSoFar(rs, accepted)
      && Later(start, rs[0].first) && start.finished <= rs[|rs| - 1].first.finished
    }

    static lemma ReadingGives(start: Shm, rs: seq<Round>, accepted: bool)
      requires Shape(start) && Reading(start, rs, accepted)
      ensures rs != [] && ReadSoFar(rs, accepted) && Later(start, rs[0].first)
      ensures Shape(rs[|rs| - 1].last) && start.finished <= rs[|rs| - 1].first.finished
    {
      assert RoundOf(rs[|rs| - 1]);
    }

    static lemma Begins(start: Shm, r: Round)
      requires Shape(start) && Later(start, r.first) && RoundOf(r)
      ensures Reading(start, [r], r.first.seqNo == r.last.seqNo)
    {
    }

    static lemma Continues(start: Shm, rs: seq<Round>, r: Round)
      requires Shape(start) && Reading(start, rs, false)
      requires Shape(rs[|rs| - 1].last) && RoundOf(r) && Later(rs[|rs| - 1].last, r.first)
      ensures Reading(start, rs + [r], r.first.seqNo == r.last.seqNo)
      ensures rs[|rs| - 1].last.finished <= r.last.finished
      ensures r.first.seqNo != r.last.seqNo ==> rs[|rs| - 1].last.finished < r.last.finished
    {
      assert RoundOf(rs[|rs| - 1]);
      FinishedGrows(rs[|rs| - 1].last, r);
      hide Later, Inv, ReadSoFar;
      ExtendRead(rs, r);
      FinishedInRound(start, rs[|rs| - 1], r);
    }

    static lemma FinishedGrows(s: Shm, r: Round)
      requires Shape(s) && RoundOf(r) && Later(s, r.first)
      ensures s.finished <= r.first.finished <= r.last.finished
    {
    }

    static lemma FinishedInRound(start: Shm, before: Round, r: Round)
      requires RoundOf(before) && start.finished <= before.first.finished
      requires Shape(before.last) && Later(before.last, r.first)
      ensures start.finished <= r.first.finished
    {
    }

    static lemma Accepted(r: Round)
      requires RoundOf(r) && r.first.seqNo == r.last.seqNo && r.last.finished - r.first.finished < SEQ_MODULUS
      ensures var s, k := r.first.finished, r.index.visible;
              r.last.seqNo == SeqOf(s) && s <= k <= s + 1
              && k < |r.last.commits| && Copied(r) == r.last.commits[k]
    {
      AcceptedRoundIsWhole(r);
    }
  }
}
