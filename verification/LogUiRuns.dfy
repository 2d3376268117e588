/** The writer thread and an attaching thread, interleaved at their critical sections and at each send. The
    theorem at the end says what a client on a fresh descriptor has received when both are done. */
module LogUiRuns {
  import opened Common
  import opened LogUiSink

  /** `Sending`: the line is in the ring, and its message has not been sent. */
  datatype Writer = Quiet | Sending(msg: Msg)

  /** `Replaying`: the ring has been copied, and `todo` is what is still to be sent of the copy. */
  datatype Attacher = Away | Replaying(fd: int, todo: seq<Entry>)

  /** `wire` holds all messages sent so far, on any descriptor. */
  datatype Sys = Sys(core: Core, writer: Writer, attacher: Attacher, wire: seq<Msg>)

  datatype Step =
    | Write(buf: Line)
    | SendLive(rc: SendRc)
    | Attach(fd: nat, lastSeen: nat, allocOk: bool)
    | SendOld(rc: SendRc)
    | DetachFd

  function Rest(fd: int, todo: seq<Entry>): Attacher {
    if todo == [] then Away else Replaying(fd, todo)
  }

  /** A step of a thread that is elsewhere does nothing. */
  function Next(s: Sys, cfg: Config, step: Step): Sys
    requires cfg.lineMax > 0
  {
    match step
    case Write(buf) =>
      if s.writer != Quiet then s
      else
        var (c, msg) := AfterWrite(s.core, cfg, buf);
        s.(core := c, writer := if msg.Some? then Sending(msg.value) else Quiet)
    case SendLive(rc) =>
      if s.writer == Quiet then s
      else
        s.(core := AfterLiveSend(s.core, rc), writer := Quiet,
           wire := if rc == Delivered then s.wire + [s.writer.msg] else s.wire)
    case Attach(fd, lastSeen, allocOk) =>
      if s.attacher != Away then s
      else
        var (c, copy) := AfterAttach(s.core, cfg, fd, allocOk);
        s.(core := c, attacher := Rest(fd, if cfg.notify then Due(copy, lastSeen) else []))
    case SendOld(rc) =>
      if s.attacher == Away || s.attacher.todo == [] then s
      else
        var e := s.attacher.todo[0];
        if rc == Delivered then
          s.(attacher := Rest(s.attacher.fd, s.attacher.todo[1..]),
             wire := s.wire + [Msg(s.attacher.fd, e.num, e.text)])
        else s.(core := AfterReplaySend(s.core, rc), attacher := Away)
    case DetachFd => s.(core := AfterDetach(s.core))
  }

  function Exec(s: Sys, cfg: Config, steps: seq<Step>): Sys
    requires cfg.lineMax > 0
    decreases |steps|
  {
    if steps == [] then s else Exec(Next(s, cfg, steps[0]), cfg, steps[1..])
  }

  /** Whether a message belongs to the lines on `fd` up to number `mark`, or to the newer ones. */
  predicate Counts(m: Msg, fd: int, mark: nat, newer: bool) {
    m.fd == fd && m.num > 0 && (m.num > mark <==> newer)
  }

  /** What a descriptor has received of the lines up to number `mark`, or of the newer ones. */
  function Received(wire: seq<Msg>, fd: int, mark: nat, newer: bool): seq<Entry> {
    if wire == [] then []
    else
      var m := wire[|wire| - 1];
      Received(wire[..|wire| - 1], fd, mark, newer)
      + if Counts(m, fd, mark, newer) then [Entry(m.num, m.text)] else []
  }

  lemma ReceivedMore(wire: seq<Msg>, m: Msg, fd: int, mark: nat, newer: bool)
    ensures Received(wire + [m], fd, mark, newer)
            == Received(wire, fd, mark, newer) + if Counts(m, fd, mark, newer) then [Entry(m.num, m.text)] else []
  {
  }

  lemma {:induction false} NothingReceived(wire: seq<Msg>, fd: int, mark: nat, newer: bool)
    requires forall m :: m in wire ==> m.fd != fd
    ensures Received(wire, fd, mark, newer) == []
  {
    if wire != [] { NothingReceived(wire[..|wire| - 1], fd, mark, newer); }
  }

  /** Writes, sends that succeed, and sends on other descriptors that fail but do not find their client gone. */
  predicate HarmlessStep(s: Sys, fd: int, step: Step) {
    match step
    case Write(_) => true
    case SendOld(rc) => rc == Delivered
    case SendLive(rc) => rc == Delivered || s.writer == Quiet || (s.writer.msg.fd != fd && rc != Broken)
    case _ => false
  }

  predicate Harmless(s: Sys, cfg: Config, fd: int, steps: seq<Step>)
    requires cfg.lineMax > 0
    decreases |steps|
  {
    steps == [] || (HarmlessStep(s, fd, steps[0]) && Harmless(Next(s, cfg, steps[0]), cfg, fd, steps[1..]))
  }

  /** Those of the entries that have any text. */
  function NonEmpty(es: seq<Entry>): seq<Entry> {
    if es == [] then [] else (if es[0].text != [] then [es[0]] else []) + NonEmpty(es[1..])
  }

  lemma DueStep(lines: seq<Line>, lo: nat, hi: nat, lastSeen: nat)
    requires lo < hi <= |lines|
    ensures var e := Entry(lo + 1, CText(lines[lo]));
            Due(Entries(lines, lo, hi), lastSeen)
            == (if lo >= lastSeen && e.text != [] then [e] else []) + Due(Entries(lines, lo + 1, hi), lastSeen)
  {
    hide CText;
    assert Entries(lines, lo, hi)[1..] == Entries(lines, lo + 1, hi);
  }

  lemma NonEmptyStep(lines: seq<Line>, lo: nat, hi: nat)
    requires lo < hi <= |lines|
    ensures var e := Entry(lo + 1, CText(lines[lo]));
            NonEmpty(Entries(lines, lo, hi))
            == (if e.text != [] then [e] else []) + NonEmpty(Entries(lines, lo + 1, hi))
  {
    hide CText;
    assert Entries(lines, lo, hi)[1..] == Entries(lines, lo + 1, hi);
  }

  lemma NothingThere(lines: seq<Line>, lo: nat, lastSeen: nat)
    requires lo <= |lines|
    ensures Due(Entries(lines, lo, lo), lastSeen) == NonEmpty(Entries(lines, lo, lo)) == []
  {
  }

  /** The replay sends the lines in the ring that are newer than the last one seen. */
  lemma {:induction false} DueOfRange(lines: seq<Line>, lo: nat, hi: nat, lastSeen: nat)
    requires lo <= hi <= |lines|
    ensures Due(Entries(lines, lo, hi), lastSeen)
            == NonEmpty(Entries(lines, if lastSeen < lo then lo else if lastSeen < hi then lastSeen else hi, hi))
    decreases hi - lo
  {
    hide CText, Due, Entries, NonEmpty;
    if lo == hi {
      NothingThere(lines, lo, lastSeen);
    } else {
      DueStep(lines, lo, hi, lastSeen);
      DueOfRange(lines, lo + 1, hi, lastSeen);
      if lastSeen <= lo { NonEmptyStep(lines, lo, hi); }
    }
  }

  lemma {:induction false} AllNonEmpty(es: seq<Entry>)
    requires forall e :: e in es ==> e.text != []
    ensures NonEmpty(es) == es
  {
    if es != [] {
      AllNonEmpty(es[1..]);
      assert es == [es[0]] + es[1..];
    }
  }

  // ---- what is stored ----------------------------------------------------------------------------

  /** The longest prefix of at most `n` bytes. */
  function First(buf: Line, n: nat): Line {
    buf[..Min(|buf|, n)]
  }

  /** A write that the policy does not turn away: there is a subscriber, or lines are kept without one. */
  predicate TakenIn(s: Sys, cfg: Config, step: Step) {
    step.Write? && s.writer == Quiet && step.buf != [] && (s.core.hasSub || cfg.whenNoUi)
  }

  /** The lines that a run adds: what fits of each buffer taken in, unless nothing does. */
  function Written(s: Sys, cfg: Config, steps: seq<Step>): seq<Line>
    requires cfg.lineMax > 0
    decreases |steps|
  {
    if steps == [] then []
    else
      (if TakenIn(s, cfg, steps[0]) && cfg.lineMax > 1 then [First(steps[0].buf, cfg.lineMax - 1)] else [])
      + Written(Next(s, cfg, steps[0]), cfg, steps[1..])
  }

  lemma StepWrites(s: Sys, cfg: Config, step: Step)
    requires cfg.lineMax > 0
    ensures Next(s, cfg, step).core.lines
            == s.core.lines
               + if TakenIn(s, cfg, step) && cfg.lineMax > 1 then [First(step.buf, cfg.lineMax - 1)] else []
  {
    hide CText;
    if step.Write? && step.buf != [] {
      assert step.buf[..|step.buf|] == step.buf;
    }
  }

  /** Over every run, the lines stored are, in order, what fits of each buffer taken in. */
  lemma {:induction false} LinesAreWrites(s: Sys, cfg: Config, steps: seq<Step>)
    requires cfg.lineMax > 0
    ensures Exec(s, cfg, steps).core.lines == s.core.lines + Written(s, cfg, steps)
    decreases |steps|
  {
    if steps != [] {
      hide Next, TakenIn, First;
      StepWrites(s, cfg, steps[0]);
      LinesAreWrites(Next(s, cfg, steps[0]), cfg, steps[1..]);
    }
  }

  /** What a write does: a line taken in is counted and, if there is a client to notify, about to be sent to it, up
      to its first NUL and with its number; one turned away is counted as dropped. */
  lemma WriteMeans(s: Sys, cfg: Config, buf: Line)
    requires cfg.lineMax > 0 && s.writer == Quiet
    ensures var t, line := Next(s, cfg, Write(buf)), First(buf, cfg.lineMax - 1);
            var st := s.core.stats;
            && t == s.(core := t.core, writer := t.writer) && t.core.fd == s.core.fd && t.core.hasSub == s.core.hasSub
            && (buf == [] ==> t == s)
            && (buf != [] && !TakenIn(s, cfg, Write(buf)) ==>
                  t == s.(core := s.core.(stats := st.(dropped := st.dropped + 1))))
            && (TakenIn(s, cfg, Write(buf)) ==>
                  && t.core.stats == st.(written := st.written + 1, writtenBytes := st.writtenBytes + |line|)
                  && (t.writer.Sending? <==> cfg.notify && s.core.hasSub && s.core.fd >= 0)
                  && (t.writer.Sending? ==>
                        && t.writer.msg.fd == s.core.fd
                        && t.writer.msg.num == (if line == [] then 0 else |t.core.lines|)
                        && IsText(t.writer.msg.text, line)))
  {
    StepWrites(s, cfg, Write(buf));
    TextIs(First(buf, cfg.lineMax - 1));
    hide CText;
    assert buf[..|buf|] == buf;
  }

  /** `text` is what comes before the first NUL of the line. */
  ghost predicate IsText(text: Line, line: Line) {
    text <= line && 0 !in text && (|text| < |line| ==> line[|text|] == 0)
  }

  lemma {:induction false} TextIs(line: Line)
    ensures IsText(CText(line), line)
  {
    if line != [] && line[0] != 0 { TextIs(line[1..]); }
  }

  /** What the other steps do to the subscription and the counters: an attach takes it over, a detach and a send that
      finds the client gone end it, and each failure is counted. */
  lemma StepCounts(s: Sys, cfg: Config, step: Step)
    requires cfg.lineMax > 0 && !step.Write?
    ensures var c, d := s.core, Next(s, cfg, step).core;
            var live, old' := step.SendLive? && s.writer != Quiet, step.SendOld? && Todo(s.attacher) != [];
            var failed := (live || old') && step.rc != Delivered;
            var begun := step.Attach? && s.attacher == Away;
            var gone := step.DetachFd? || (failed && step.rc == Broken);
            && d.lines == c.lines
            && d.fd == (if begun then step.fd else if gone then -1 else c.fd)
            && d.hasSub == (begun || (c.hasSub && !gone))
            && d.stats == c.stats.(
                 errors := c.stats.errors + (if failed || (begun && !step.allocOk && c.lines != [] && cfg.slots > 0)
                                             then 1 else 0),
                 dropped := c.stats.dropped + if live && step.rc == TryLater then 1 else 0)
  {
    hide Due, Backlog;
  }

  /** What is sent: the message of the write that has begun, and the lines of the replay from the first on; a
      failure sends nothing, and ends a replay. */
  lemma StepSends(s: Sys, cfg: Config, step: Step)
    requires cfg.lineMax > 0 && (step.SendLive? || step.SendOld?)
    ensures var t, todo := Next(s, cfg, step), Todo(s.attacher);
            var live, old' := step.SendLive? && s.writer != Quiet, step.SendOld? && todo != [];
            && t.wire == s.wire + (if step.rc != Delivered then [] else if live then [s.writer.msg]
                                   else if old' then [Msg(s.attacher.fd, todo[0].num, todo[0].text)] else [])
            && t.writer == (if step.SendLive? then Quiet else s.writer)
            && (old' ==> Todo(t.attacher) == if step.rc == Delivered then todo[1..] else [])
            && (step.SendLive? ==> t.attacher == s.attacher)
  {
  }

  function OldSends(rcs: seq<SendRc>): seq<Step> {
    seq(|rcs|, i requires 0 <= i < |rcs| => SendOld(rcs[i]))
  }

  /** The replay loop of the sink runs these steps. */
  lemma {:induction false} ReplayIsRun(s: Sys, cfg: Config, fd: int, todo: seq<Entry>, rcs: seq<SendRc>)
    requires cfg.lineMax > 0 && s.attacher == Rest(fd, todo) && |rcs| >= |todo|
    ensures var t, (ms, rc) := Exec(s, cfg, OldSends(rcs)), Replayed(fd, todo, rcs);
            t == s.(core := AfterReplaySend(s.core, rc), attacher := Away, wire := s.wire + ms)
    decreases |rcs|
  {
    var es := OldSends(rcs);
    if rcs != [] {
      var t, r := Next(s, cfg, es[0]), rcs[1..];
      assert es[0] == SendOld(rcs[0]) && es[1..] == OldSends(r);
      if todo == [] {
        ReplayIsRun(s, cfg, fd, [], r);
      } else if rcs[0] == Delivered {
        ReplayIsRun(t, cfg, fd, todo[1..], r);
      } else {
        ReplayIsRun(t, cfg, fd, [], r);
      }
    }
  }

  // ---- while the client is served ----------------------------------------------------------------

  /** The message a writer is about to send to the client, if its line is newer than the attach. */
  function Pending(w: Writer, fd: int, mark: nat): seq<Entry> {
    if w.Sending? && Counts(w.msg, fd, mark, true) then [Entry(w.msg.num, w.msg.text)] else []
  }

  function Todo(a: Attacher): seq<Entry> {
    if a.Away? then [] else a.todo
  }

  /** `mark` is the number of the last line at the attach. Of the replay, what has been received and what is
      still to be sent make up the whole; of the lines written since, what has been received and what is being
      sent make up the whole. */
  ghost predicate Serving(s: Sys, fd: int, mark: nat, replay: seq<Entry>) {
    && s.core.fd == fd >= 0 && s.core.hasSub
    && mark <= |s.core.lines|
    && (s.attacher.Replaying? ==> s.attacher.fd == fd)
    && (forall e :: e in Todo(s.attacher) ==> 0 < e.num <= mark)
    && (s.writer.Sending? && s.writer.msg.fd == fd ==> s.writer.msg.num == 0 || s.writer.msg.num > mark)
    && Received(s.wire, fd, mark, false) + Todo(s.attacher) == replay
    && Received(s.wire, fd, mark, true) + Pending(s.writer, fd, mark)
       == Entries(s.core.lines, mark, |s.core.lines|)
  }

  lemma WriteKeepsServing(s: Sys, cfg: Config, buf: Line, fd: int, mark: nat, replay: seq<Entry>)
    requires cfg.notify && cfg.lineMax > 0 && Serving(s, fd, mark, replay)
    ensures Serving(Next(s, cfg, Write(buf)), fd, mark, replay)
  {
    if s.writer == Quiet && buf != [] {
      var line := Clipped(buf, cfg.lineMax);
      var t := Next(s, cfg, Write(buf));
      var n := |s.core.lines|;
      if line != [] {
        assert Entries(t.core.lines, mark, n + 1) == Entries(s.core.lines, mark, n) + [Entry(n + 1, CText(line))];
      }
    }
  }

  lemma LiveSendKeepsServing(s: Sys, cfg: Config, rc: SendRc, fd: int, mark: nat, replay: seq<Entry>)
    requires cfg.lineMax > 0 && Serving(s, fd, mark, replay) && HarmlessStep(s, fd, SendLive(rc))
    ensures Serving(Next(s, cfg, SendLive(rc)), fd, mark, replay)
  {
    hide Received, Entries, AfterWrite, CText;
    if s.writer.Sending? {
      ReceivedMore(s.wire, s.writer.msg, fd, mark, true);
      ReceivedMore(s.wire, s.writer.msg, fd, mark, false);
    }
  }

  /** A failing send on another descriptor, which may have begun before the attach: the new client is still served
      afterwards exactly if that send did not find its own client gone. If it did, the new one is forgotten with
      it, and no later line is sent to it. */
  lemma OtherSendFails(s: Sys, cfg: Config, rc: SendRc, fd: int, mark: nat, replay: seq<Entry>, buf: Line)
    requires cfg.lineMax > 0 && Serving(s, fd, mark, replay) && s.writer.Sending? && s.writer.msg.fd != fd
    ensures Serving(Next(s, cfg, SendLive(rc)), fd, mark, replay) <==> rc != Broken
    ensures rc == Broken ==> Next(Next(s, cfg, SendLive(rc)), cfg, Write(buf)).writer == Quiet
  {
    if rc != Broken { LiveSendKeepsServing(s, cfg, rc, fd, mark, replay); }
  }

  lemma ReplaySendKeepsServing(s: Sys, cfg: Config, fd: int, mark: nat, replay: seq<Entry>)
    requires cfg.lineMax > 0 && Serving(s, fd, mark, replay)
    ensures Serving(Next(s, cfg, SendOld(Delivered)), fd, mark, replay)
  {
    var todo := Todo(s.attacher);
    if todo != [] {
      var m := Msg(fd, todo[0].num, todo[0].text);
      ReceivedMore(s.wire, m, fd, mark, true);
      ReceivedMore(s.wire, m, fd, mark, false);
      assert todo == [todo[0]] + todo[1..];
    }
  }

  lemma {:induction false} RunKeepsServing(s: Sys, cfg: Config, steps: seq<Step>, fd: int, mark: nat,
                                           replay: seq<Entry>)
    requires cfg.notify && cfg.lineMax > 0 && Serving(s, fd, mark, replay)
    requires Harmless(s, cfg, fd, steps)
    ensures Serving(Exec(s, cfg, steps), fd, mark, replay)
    ensures s.core.lines <= Exec(s, cfg, steps).core.lines
    decreases |steps|
  {
    if steps != [] {
      if steps[0].Write? {
        WriteKeepsServing(s, cfg, steps[0].buf, fd, mark, replay);
      } else if steps[0].SendLive? {
        LiveSendKeepsServing(s, cfg, steps[0].rc, fd, mark, replay);
      } else {
        ReplaySendKeepsServing(s, cfg, fd, mark, replay);
      }
      assert s.core.lines <= Next(s, cfg, steps[0]).core.lines;
      RunKeepsServing(Next(s, cfg, steps[0]), cfg, steps[1..], fd, mark, replay);
    }
  }

  /** A descriptor nothing has been or is about to be sent on. */
  ghost predicate Fresh(s: Sys, fd: int) {
    && (forall m :: m in s.wire ==> m.fd != fd)
    && (s.writer.Sending? ==> s.writer.msg.fd != fd)
  }

  /** The number above which the replay starts: what the client has seen, or what the ring has lost. */
  function ReplayFrom(c: Core, cfg: Config, lastSeen: nat): nat {
    var lost := if |c.lines| > cfg.slots then |c.lines| - cfg.slots else 0;
    if lastSeen < lost then lost else if lastSeen < |c.lines| then lastSeen else |c.lines|
  }

  lemma DueAtAttach(c: Core, cfg: Config, lastSeen: nat)
    ensures Due(Backlog(c, cfg), lastSeen) == NonEmpty(Entries(c.lines, ReplayFrom(c, cfg, lastSeen), |c.lines|))
    ensures forall e :: e in Due(Backlog(c, cfg), lastSeen) ==> 0 < e.num <= |c.lines|
  {
    hide Due, NonEmpty;
    DueOfRange(c.lines, |c.lines| - Kept(c, cfg), |c.lines|, lastSeen);
    DueUpTo(Backlog(c, cfg), lastSeen, |c.lines|);
  }

  lemma AttachStep(s: Sys, cfg: Config, fd: nat, lastSeen: nat)
    requires cfg.notify && cfg.lineMax > 0 && s.attacher == Away
    ensures Next(s, cfg, Attach(fd, lastSeen, true))
            == s.(core := s.core.(fd := fd, hasSub := true), attacher := Rest(fd, Due(Backlog(s.core, cfg), lastSeen)))
  {
  }

  /** Without notification a client gets no replay, and if the copy fails it gets none either. */
  lemma NoReplay(s: Sys, cfg: Config, fd: nat, lastSeen: nat, allocOk: bool)
    requires cfg.lineMax > 0 && s.attacher == Away && (!cfg.notify || (!allocOk && cfg.slots > 0))
    ensures var t := Next(s, cfg, Attach(fd, lastSeen, allocOk)); t.attacher == Away && t.wire == s.wire
  {
  }

  lemma ServingStarts(s: Sys, fd: nat, due: seq<Entry>)
    requires Fresh(s, fd) && forall e :: e in due ==> 0 < e.num <= |s.core.lines|
    ensures Serving(s.(core := s.core.(fd := fd, hasSub := true), attacher := Rest(fd, due)), fd, |s.core.lines|, due)
  {
    var w := |s.core.lines|;
    assert Entries(s.core.lines, w, w) == [];
    NothingReceived(s.wire, fd, w, true);
    NothingReceived(s.wire, fd, w, false);
    assert Todo(Rest(fd, due)) == due;
  }

  lemma AttachServes(s: Sys, cfg: Config, fd: nat, lastSeen: nat)
    requires cfg.notify && cfg.lineMax > 0 && s.attacher == Away && Fresh(s, fd)
    ensures Serving(Next(s, cfg, Attach(fd, lastSeen, true)), fd, |s.core.lines|,
                    NonEmpty(Entries(s.core.lines, ReplayFrom(s.core, cfg, lastSeen), |s.core.lines|)))
  {
    hide Next, Due, NonEmpty, Entries, Serving, ReplayFrom, Backlog, Rest;
    AttachStep(s, cfg, fd, lastSeen);
    DueAtAttach(s.core, cfg, lastSeen);
    ServingStarts(s, fd, Due(Backlog(s.core, cfg), lastSeen));
  }

  lemma {:induction false} DueUpTo(es: seq<Entry>, lastSeen: nat, w: nat)
    requires forall e :: e in es ==> 0 < e.num <= w
    ensures forall e :: e in Due(es, lastSeen) ==> 0 < e.num <= w
  {
    if es != [] { DueUpTo(es[1..], lastSeen, w); }
  }

  /** The writer may store and send any lines, sends on other descriptors may fail unless they find their client
      gone, and the replay may be interleaved with them in any way: when both
      threads are done, the client that attached on a fresh descriptor has received, once each and in order,
      every line it had not seen that was in the ring at the attach and has any text, and, once each and in
      order, every line stored since. */
  lemma {:induction false} AttachedClientMissesNothing(s: Sys, cfg: Config, fd: nat, lastSeen: nat, steps: seq<Step>)
    requires cfg.notify && cfg.lineMax > 0 && s.attacher == Away && Fresh(s, fd)
    requires Harmless(Next(s, cfg, Attach(fd, lastSeen, true)), cfg, fd, steps)
    ensures var w := |s.core.lines|;
            var t := Exec(Next(s, cfg, Attach(fd, lastSeen, true)), cfg, steps);
            && t.core.lines == s.core.lines + Written(Next(s, cfg, Attach(fd, lastSeen, true)), cfg, steps)
            && (t.attacher == Away ==>
                  Received(t.wire, fd, w, false)
                  == NonEmpty(Entries(s.core.lines, ReplayFrom(s.core, cfg, lastSeen), w)))
            && (t.writer == Quiet ==>
                  Received(t.wire, fd, w, true) == Entries(t.core.lines, w, |t.core.lines|))
  {
    var replay := NonEmpty(Entries(s.core.lines, ReplayFrom(s.core, cfg, lastSeen), |s.core.lines|));
    AttachServes(s, cfg, fd, lastSeen);
    AttachStep(s, cfg, fd, lastSeen);
    RunKeepsServing(Next(s, cfg, Attach(fd, lastSeen, true)), cfg, steps, fd, |s.core.lines|, replay);
    LinesAreWrites(Next(s, cfg, Attach(fd, lastSeen, true)), cfg, steps);
  }

  /** If no line begins with a NUL, nothing is skipped: the replay is every line above `ReplayFrom`. */
  lemma NoLineIsSkipped(s: Sys, cfg: Config, fd: nat, lastSeen: nat, steps: seq<Step>)
    requires cfg.notify && cfg.lineMax > 0 && s.attacher == Away && Fresh(s, fd)
    requires Harmless(Next(s, cfg, Attach(fd, lastSeen, true)), cfg, fd, steps)
    requires forall line :: line in s.core.lines ==> line != [] && line[0] != 0
    requires Exec(Next(s, cfg, Attach(fd, lastSeen, true)), cfg, steps).attacher == Away
    ensures Received(Exec(Next(s, cfg, Attach(fd, lastSeen, true)), cfg, steps).wire, fd, |s.core.lines|, false)
            == Entries(s.core.lines, ReplayFrom(s.core, cfg, lastSeen), |s.core.lines|)
  {
    hide Exec, Next, Received;
    AttachedClientMissesNothing(s, cfg, fd, lastSeen, steps);
    var lo := ReplayFrom(s.core, cfg, lastSeen);
    var es := Entries(s.core.lines, lo, |s.core.lines|);
    forall i | 0 <= i < |es| ensures es[i].text != [] {
      var line := s.core.lines[lo + i];
      assert line in s.core.lines;
      assert CText(line) == [line[0]] + CText(line[1..]);
    }
    AllNonEmpty(es);
  }

  // ---- the order in which the client gets its lines ----------------------------------------------

  /** Later messages on the descriptor have larger numbers. */
  ghost predicate InOrder(wire: seq<Msg>, fd: int) {
    forall i, j :: 0 <= i < j < |wire| && wire[i].fd == fd && wire[j].fd == fd && wire[i].num > 0 && wire[j].num > 0
                   ==> wire[i].num < wire[j].num
  }

  predicate OvertakesAt(s: Sys, fd: int, mark: nat, step: Step) {
    Todo(s.attacher) != [] && step.SendLive? && s.writer.Sending? && Counts(s.writer.msg, fd, mark, true)
  }

  /** Is a newer line sent to the client at some step while its replay has lines left? */
  predicate Overtakes(s: Sys, cfg: Config, fd: int, mark: nat, steps: seq<Step>)
    requires cfg.lineMax > 0
    decreases |steps|
  {
    steps != []
    && (OvertakesAt(s, fd, mark, steps[0]) || Overtakes(Next(s, cfg, steps[0]), cfg, fd, mark, steps[1..]))
  }

  ghost predicate HasNew(wire: seq<Msg>, fd: int, mark: nat) {
    exists m :: m in wire && Counts(m, fd, mark, true)
  }

  ghost predicate Swapped(wire: seq<Msg>, fd: int, mark: nat) {
    exists i, j :: 0 <= i < j < |wire| && Counts(wire[i], fd, mark, true) && Counts(wire[j], fd, mark, false)
  }

  /** No newer line has been sent before an older one, nor will have been when the replay ends. */
  ghost predicate Clean(s: Sys, fd: int, mark: nat) {
    !Swapped(s.wire, fd, mark) && (Todo(s.attacher) != [] ==> !HasNew(s.wire, fd, mark))
  }

  lemma SwappedMore(wire: seq<Msg>, m: Msg, fd: int, mark: nat)
    ensures Swapped(wire + [m], fd, mark)
            <==> Swapped(wire, fd, mark) || (Counts(m, fd, mark, false) && HasNew(wire, fd, mark))
    ensures HasNew(wire + [m], fd, mark) <==> HasNew(wire, fd, mark) || Counts(m, fd, mark, true)
  {
    var w := wire + [m];
    if Swapped(wire, fd, mark) {
      var i, j :| 0 <= i < j < |wire| && Counts(wire[i], fd, mark, true) && Counts(wire[j], fd, mark, false);
      assert w[i] == wire[i] && w[j] == wire[j];
    } else if Counts(m, fd, mark, false) && HasNew(wire, fd, mark) {
      var x :| x in wire && Counts(x, fd, mark, true);
      var i :| 0 <= i < |wire| && wire[i] == x;
      assert w[i] == x && w[|wire|] == m;
    }
    if HasNew(wire, fd, mark) {
      var x :| x in wire && Counts(x, fd, mark, true);
      assert x in w;
    }
    assert m in w;
  }

  lemma CleanStep(s: Sys, cfg: Config, step: Step, fd: int, mark: nat, replay: seq<Entry>)
    requires cfg.lineMax > 0 && Serving(s, fd, mark, replay) && HarmlessStep(s, fd, step)
    ensures Clean(Next(s, cfg, step), fd, mark) <==> Clean(s, fd, mark) && !OvertakesAt(s, fd, mark, step)
  {
    hide Swapped, HasNew, Received, Entries, AfterWrite, AfterLiveSend;
    var todo := Todo(s.attacher);
    if step.SendLive? && s.writer.Sending? {
      SwappedMore(s.wire, s.writer.msg, fd, mark);
    } else if step.SendOld? && todo != [] {
      SwappedMore(s.wire, Msg(fd, todo[0].num, todo[0].text), fd, mark);
    }
  }

  lemma {:induction false} CleanRun(s: Sys, cfg: Config, steps: seq<Step>, fd: int, mark: nat, replay: seq<Entry>)
    requires cfg.notify && cfg.lineMax > 0 && Serving(s, fd, mark, replay) && Harmless(s, cfg, fd, steps)
    ensures Clean(Exec(s, cfg, steps), fd, mark) <==> Clean(s, fd, mark) && !Overtakes(s, cfg, fd, mark, steps)
    decreases |steps|
  {
    hide Next, Clean, Serving, OvertakesAt, HarmlessStep;
    if steps != [] {
      CleanStep(s, cfg, steps[0], fd, mark, replay);
      RunKeepsServing(s, cfg, [steps[0]], fd, mark, replay);
      OneStep(s, cfg, fd, steps);
      CleanRun(Next(s, cfg, steps[0]), cfg, steps[1..], fd, mark, replay);
    }
  }

  lemma OneStep(s: Sys, cfg: Config, fd: int, steps: seq<Step>)
    requires cfg.lineMax > 0 && steps != [] && Harmless(s, cfg, fd, steps)
    ensures Harmless(s, cfg, fd, [steps[0]]) && Exec(s, cfg, [steps[0]]) == Next(s, cfg, steps[0])
  {
    hide Next, HarmlessStep;
    assert [steps[0]][1..] == [];
  }

  ghost predicate Increasing(es: seq<Entry>) {
    forall i, j :: 0 <= i < j < |es| ==> es[i].num < es[j].num
  }

  lemma {:induction false} NonEmptyIncreases(es: seq<Entry>)
    requires Increasing(es)
    ensures Increasing(NonEmpty(es)) && forall e :: e in NonEmpty(es) ==> e in es
  {
    if es != [] {
      var rest := es[1..];
      assert Increasing(rest) by {
        forall i, j | 0 <= i < j < |rest| ensures rest[i].num < rest[j].num {
          assert rest[i] == es[i + 1] && rest[j] == es[j + 1];
        }
      }
      NonEmptyIncreases(rest);
      forall e | e in rest ensures es[0].num < e.num && e in es {
        var k :| 0 <= k < |rest| && rest[k] == e;
        assert es[k + 1] == e;
      }
      IncreasingFrom(es[0], NonEmpty(rest));
    }
  }

  lemma IncreasingFrom(e: Entry, es: seq<Entry>)
    requires Increasing(es) && forall x :: x in es ==> e.num < x.num
    ensures Increasing([e] + es) && Increasing([] + es)
  {
  }

  lemma {:induction false} ReceivedHas(wire: seq<Msg>, fd: int, mark: nat, newer: bool, i: nat)
    requires i < |wire| && Counts(wire[i], fd, mark, newer)
    ensures Entry(wire[i].num, wire[i].text) in Received(wire, fd, mark, newer)
    decreases |wire|
  {
    var r := Received(wire[..|wire| - 1], fd, mark, newer);
    if i < |wire| - 1 {
      ReceivedHas(wire[..|wire| - 1], fd, mark, newer, i);
      var k :| 0 <= k < |r| && r[k] == Entry(wire[i].num, wire[i].text);
      assert Received(wire, fd, mark, newer)[k] == r[k];
    } else {
      assert Received(wire, fd, mark, newer)[|r|] == Entry(wire[i].num, wire[i].text);
    }
  }

  lemma {:induction false} ReceivedInOrder(wire: seq<Msg>, fd: int, mark: nat, newer: bool, i: nat, j: nat)
    requires Increasing(Received(wire, fd, mark, newer)) && i < j < |wire|
    requires Counts(wire[i], fd, mark, newer) && Counts(wire[j], fd, mark, newer)
    ensures wire[i].num < wire[j].num
    decreases |wire|
  {
    var front, m := wire[..|wire| - 1], wire[|wire| - 1];
    var r := Received(front, fd, mark, newer);
    assert r <= Received(wire, fd, mark, newer);
    if j < |wire| - 1 {
      ReceivedInOrder(front, fd, mark, newer, i, j);
    } else {
      ReceivedHas(front, fd, mark, newer, i);
      var k :| 0 <= k < |r| && r[k] == Entry(wire[i].num, wire[i].text);
      var all := Received(wire, fd, mark, newer);
      assert all[k] == r[k] && all[|r|] == Entry(m.num, m.text);
    }
  }

  lemma OrderIsNoSwap(s: Sys, fd: int, mark: nat, replay: seq<Entry>)
    requires Serving(s, fd, mark, replay) && Increasing(replay)
    ensures InOrder(s.wire, fd) <==> !Swapped(s.wire, fd, mark)
  {
    var old', new' := Received(s.wire, fd, mark, false), Received(s.wire, fd, mark, true);
    assert old' <= replay && new' <= Entries(s.core.lines, mark, |s.core.lines|);
    hide Received;
    if !Swapped(s.wire, fd, mark) {
      forall i, j | 0 <= i < j < |s.wire| && s.wire[i].fd == fd && s.wire[j].fd == fd
                    && s.wire[i].num > 0 && s.wire[j].num > 0
        ensures s.wire[i].num < s.wire[j].num
      {
        var a, b := s.wire[i].num > mark, s.wire[j].num > mark;
        assert Counts(s.wire[i], fd, mark, a) && Counts(s.wire[j], fd, mark, b);
        if a == b { ReceivedInOrder(s.wire, fd, mark, a, i, j); }
      }
    }
  }

  /** When its replay is over, the client has got its lines in the order of their numbers exactly if no newer line
      was sent to it while the replay had lines left. */
  lemma {:induction false} OrderUnlessOvertaken(s: Sys, cfg: Config, fd: nat, lastSeen: nat, steps: seq<Step>)
    requires cfg.notify && cfg.lineMax > 0 && s.attacher == Away && Fresh(s, fd)
    requires Harmless(Next(s, cfg, Attach(fd, lastSeen, true)), cfg, fd, steps)
    requires Exec(Next(s, cfg, Attach(fd, lastSeen, true)), cfg, steps).attacher == Away
    ensures var s1 := Next(s, cfg, Attach(fd, lastSeen, true));
            InOrder(Exec(s1, cfg, steps).wire, fd) <==> !Overtakes(s1, cfg, fd, |s.core.lines|, steps)
  {
    var w := |s.core.lines|;
    var all := Entries(s.core.lines, ReplayFrom(s.core, cfg, lastSeen), w);
    var s1 := Next(s, cfg, Attach(fd, lastSeen, true));
    AttachStep(s, cfg, fd, lastSeen);
    assert s1.wire == s.wire;
    assert Clean(s1, fd, w);
    assert Increasing(all);
    NonEmptyIncreases(all);
    hide Next, Exec, Serving, Swapped, InOrder, Overtakes, Harmless, Entries, Due, NonEmpty;
    AttachServes(s, cfg, fd, lastSeen);
    CleanRun(s1, cfg, steps, fd, w, NonEmpty(all));
    RunKeepsServing(s1, cfg, steps, fd, w, NonEmpty(all));
    OrderIsNoSwap(Exec(s1, cfg, steps), fd, w, NonEmpty(all));
  }

  /** Such a run: a new line overtakes the replay. */
  lemma {:induction false} NewLinesMayOvertakeTheReplay(cfg: Config, fd: nat, a: byte, b: byte)
    requires cfg.notify && cfg.slots > 0 && cfg.lineMax > 1 && a != 0 && b != 0
    ensures var s := Sys(Core([[a]], -1, false, Stats(1, 1, 0, 0)), Quiet, Away, []);
            Exec(s, cfg, [Attach(fd, 0, true), Write([b]), SendLive(Delivered), SendOld(Delivered)]).wire
            == [Msg(fd, 2, [b]), Msg(fd, 1, [a])]
  {
    var s := Sys(Core([[a]], -1, false, Stats(1, 1, 0, 0)), Quiet, Away, []);
    hide Due, Backlog, CText;
    OneByteText(b);
    ReplayOfOne(s.core, cfg, a);
    var s1 := Next(s, cfg, Attach(fd, 0, true));
    assert s1 == s.(core := s.core.(fd := fd, hasSub := true), attacher := Replaying(fd, [Entry(1, [a])])) by {
      AttachStep(s, cfg, fd, 0);
    }
    var s2 := Next(s1, cfg, Write([b]));
    assert s2.writer == Sending(Msg(fd, 2, [b]));
    var s3 := Next(s2, cfg, SendLive(Delivered));
    var s4 := Next(s3, cfg, SendOld(Delivered));
    FourSteps(s, cfg, Attach(fd, 0, true), Write([b]), SendLive(Delivered), SendOld(Delivered));
  }

  lemma OneByteText(a: byte)
    requires a != 0
    ensures CText([a]) == [a]
  {
    assert CText([a][1..]) == [];
  }

  lemma ReplayOfOne(c: Core, cfg: Config, a: byte)
    requires c.lines == [[a]] && a != 0 && cfg.slots > 0
    ensures Due(Backlog(c, cfg), 0) == [Entry(1, [a])]
  {
    var copy := [Entry(1, [a])];
    OneByteText(a);
    assert Backlog(c, cfg) == copy;
    AllNonEmpty(copy);
  }

  lemma ExecStep(s: Sys, cfg: Config, step: Step, rest: seq<Step>)
    requires cfg.lineMax > 0
    ensures Exec(s, cfg, [step] + rest) == Exec(Next(s, cfg, step), cfg, rest)
  {
  }

  lemma FourSteps(s: Sys, cfg: Config, a: Step, b: Step, c: Step, d: Step)
    requires cfg.lineMax > 0
    ensures Exec(s, cfg, [a, b, c, d]) == Next(Next(Next(Next(s, cfg, a), cfg, b), cfg, c), cfg, d)
  {
    hide Next;
    assert [a, b, c, d] == [a] + ([b] + ([c] + ([d] + [])));
    var t := Next(s, cfg, a);
    ExecStep(s, cfg, a, [b] + ([c] + ([d] + [])));
    ExecStep(t, cfg, b, [c] + ([d] + []));
    ExecStep(Next(t, cfg, b), cfg, c, [d] + []);
    ExecStep(Next(Next(t, cfg, b), cfg, c), cfg, d, []);
  }
}
