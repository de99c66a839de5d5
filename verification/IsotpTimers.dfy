/** When the transport times out, over whole runs: N_As, N_Bs, N_Cr and N_Ar, in true time. */
module IsotpTimers {
  import opened Bytes
  import opened IsotpFrames
  import opened IsotpTx
  import opened IsotpRx
  import opened IsotpSenderRuns

  /** A wait of `ms` that began at `since` is over at `t`: never before that time has passed, always in the half turn
      of the clock after it. */
  predicate Due(since: nat, ms: nat, t: nat) { (t - since - ms) % 0x1_0000_0000 < 0x8000_0000 }

  lemma DueIsReached(since: nat, ms: nat, t: nat)
    ensures Reached(Tick(t), Later(Tick(since), ms)) <==> Due(since, ms, t)
  {
    ReachedExactly(since, ms, t);
  }

  lemma DueInTrueTime(since: nat, ms: nat, t: nat)
    requires since <= t < since + ms + 0x8000_0000 && ms < 0x8000_0000
    ensures Due(since, ms, t) <==> t >= since + ms
  {
    if t < since + ms { WholeTurns(t - since - ms, 1); }
  }

  // ---- The sender ----

  /** When the frame in hand was built, when the driver last accepted a frame, and when the wait for flow control
      began or was last prolonged. */
  datatype TxClocks = TxClocks(frame: nat, wire: nat, wait: nat)

  /** How long flow control is waited for: N_Cr after a block, N_Bs after the first frame. */
  function WaitLimit(s: TxState): nat { if s.waitingAfterBlock then s.config.nCr else s.config.nBs }

  /** Flow control that asks to wait, while flow control is expected. */
  predicate AsksToWait(s: TxState, f: Frame) {
    s.ongoing && (s.waitingFc || BlockFull(s)) && f[0] == 0x31
  }

  function AfterEvent(c: TxClocks, s: TxState, e: TxEvent, t: nat): TxClocks
    requires Sendable(s)
  {
    var step := Apply(s, e);
    match e
    case Received(_, f) => if AsksToWait(s, f) then c.(wait := t) else c
    case Polled(_, _, _, _) =>
      TxClocks(if Builds(s, e) then t else c.frame,
               if step.sent != [] then t else c.wire,
               if step.state.waitingFc && !s.waitingFc then t else c.wait)
  }

  ghost predicate TxClocked(s: TxState, c: TxClocks) {
    s.ongoing ==>
      && (s.waitingEnqueue ==> s.enqueueDeadline == Later(Tick(c.frame), s.config.nAs))
      && (s.framePending && !s.waitingEnqueue ==> s.asDeadline == Later(Tick(c.wire), s.config.nAs))
      && (s.waitingFc ==> s.deadline == Later(Tick(c.wait), WaitLimit(s)))
      && (s.waitingFc && !s.waitingAfterBlock ==> s.sentInBlock == 0)
  }

  function ClocksAt(s: TxState, c: TxClocks, events: seq<TxEvent>, times: seq<nat>, n: nat): TxClocks
    requires Sendable(s) && n <= |events| == |times|
    decreases n
  {
    if n == 0 then c
    else AfterEvent(ClocksAt(s, c, events, times, n - 1), StateAt(s, events, n - 1), events[n - 1], times[n - 1])
  }

  lemma ReceivedKeepsClocks(s: TxState, c: TxClocks, e: TxEvent, t: nat)
    requires Sendable(s) && TxClocked(s, c) && e.Received? && e.now == Tick(t)
    ensures TxClocked(Apply(s, e).state, AfterEvent(c, s, e, t))
  {
    hide Later, Tick, Poll, Apply;
    assert Apply(s, e) == OnFrame(s, e.frame, e.now) by { AppliedFrame(s, e); }
  }

  lemma AppliedFrame(s: TxState, e: TxEvent)
    requires Sendable(s) && e.Received?
    ensures Apply(s, e) == OnFrame(s, e.frame, e.now)
  {}

  /** What a driver attempt means for the clocks. */
  function Offered(c: TxClocks, sent: seq<Frame>, t: nat): TxClocks { if sent != [] then c.(wire := t) else c }

  lemma JustSet(t: nat, ms: Timer)
    ensures !Reached(Tick(t), Later(Tick(t), ms))
  {
    ReachedExactly(t, ms, t);
  }

  lemma EnqueueClocks(s: TxState, c: TxClocks, t: nat, can: CanReply)
    requires s.ongoing && TxClocked(s, c)
    ensures var step := Enqueue(s, Tick(t), can);
            && (step.result == Timeout <==> s.waitingEnqueue && !can.accepted && Due(c.frame, s.config.nAs, t))
            && (step.result == Timeout ==> !step.state.ongoing)
            && (step.result != Timeout ==>
                  TxClocked(step.state, Offered(c, step.sent, t)) && step.state.ongoing
                  && (s.waitingEnqueue && !step.state.waitingEnqueue ==>
                        step.state.asDeadline == Later(Tick(t), s.config.nAs) && step.state.framePending == can.pending))
            && (step.state.waitingEnqueue <==> s.waitingEnqueue && !can.accepted && step.result != Timeout)
            && step.state.waitingFc == s.waitingFc && step.state.waitingAfterBlock == s.waitingAfterBlock
            && step.state.sentInBlock == s.sentInBlock && step.state.deadline == s.deadline && step.state.config == s.config
            && (!s.waitingEnqueue ==> step.state == s && step.sent == [])
  {
    hide Later, Reached, Tick, Due;
    DueIsReached(c.frame, s.config.nAs, t);
  }

  lemma ScheduleClocks(s: TxState, c: TxClocks, frame: Frame, t: nat, can: CanReply)
    requires s.ongoing && TxClocked(s.(waitingEnqueue := false, framePending := false), c)
    ensures var step := Schedule(s, frame, Tick(t), can);
            && step.state.ongoing && step.state.waitingFc == s.waitingFc
            && TxClocked(step.state, Offered(c.(frame := t), step.sent, t))
  {
    hide Later, Reached, Tick, Due, Enqueue;
    var waiting := s.(pendingFrame := frame, waitingEnqueue := true, enqueueDeadline := Later(Tick(t), s.config.nAs));
    EnqueueClocks(waiting, c.(frame := t), t, can);
    JustSet(t, s.config.nAs);
    DueIsReached(t, s.config.nAs, t);
  }

  lemma AdvanceClocks(s: TxState, c: TxClocks, t: nat, can: CanReply)
    requires Sendable(s) && s.ongoing && !s.waitingEnqueue && !s.framePending && TxClocked(s, c)
    ensures var step := Advance(s, Tick(t), can);
            var built := if step.state.offset > s.offset then c.(frame := t) else c;
            var waits := if step.state.waitingFc && !s.waitingFc then built.(wait := t) else built;
            && (step.result == Timeout <==> s.waitingFc && Due(c.wait, WaitLimit(s), t))
            && TxClocked(step.state, Offered(waits, step.sent, t))
  {
    hide Later, Reached, Tick, Due, Schedule, ConsecutiveFrame, TooSoon;
    DueIsReached(c.wait, WaitLimit(s), t);
    if !s.waitingFc && !BlockFull(s) && s.offset < |s.payload| && !TooSoon(s, Tick(t)) {
      var chunk := CfChunk(s);
      var built := s.(offset := s.offset + |chunk|, sn := (s.sn + 1) % 16,
                      sentInBlock := (s.sentInBlock + 1) % 0x1_0000, hasSentCf := true, lastCf := Tick(t));
      ScheduleClocks(built, c, ConsecutiveFrame(s.sn, chunk, s.config.padding), t, can);
    }
  }

  /** A frame is still with the driver: refused again, or accepted and still being transmitted. */
  predicate WithDriver(s: TxState, retry: CanReply, onWire: bool) {
    if s.waitingEnqueue then !retry.accepted || (retry.pending && onWire) else s.framePending && onWire
  }

  /** Whether a poll at `t` ends the transfer for want of time. */
  predicate TimeIsOver(s: TxState, c: TxClocks, retry: CanReply, onWire: bool, t: nat) {
    if s.waitingEnqueue && !retry.accepted then Due(c.frame, s.config.nAs, t)
    else if WithDriver(s, retry, onWire) then !s.waitingEnqueue && Due(c.wire, s.config.nAs, t)
    else s.waitingFc && Due(c.wait, WaitLimit(s), t)
  }

  lemma PollClocks(s: TxState, c: TxClocks, e: TxEvent, t: nat)
    requires Sendable(s) && s.ongoing && TxClocked(s, c) && e.Polled? && e.now == Tick(t)
    ensures Apply(s, e).result == Timeout <==> TimeIsOver(s, c, e.retry, e.onWire, t)
    ensures TxClocked(Apply(s, e).state, AfterEvent(c, s, e, t))
  {
    hide Later, Reached, Tick, Due, Enqueue, Advance;
    EnqueueClocks(s, c, t, e.retry);
    var first := Enqueue(s, e.now, e.retry);
    if first.result != Timeout && !first.state.waitingEnqueue {
      var c1 := Offered(c, first.sent, t);
      DueIsReached(c1.wire, s.config.nAs, t);
      JustSet(t, s.config.nAs);
      if !(first.state.framePending && e.onWire) {
        var ready := first.state.(framePending := false);
        AdvanceClocks(ready, c1, t, e.can);
        var rest := Advance(ready, e.now, e.can);
        assert first.sent + rest.sent == [] <==> first.sent == [] && rest.sent == [];
      }
    }
  }

  /** From the first call of a transfer on, however polls, frames, refusals and waits go, the deadlines that the sender
      keeps are those of its clocks. */
  lemma {:induction false} RunsStayClocked(s: TxState, c: TxClocks, events: seq<TxEvent>, times: seq<nat>, n: nat)
    requires Sendable(s) && TxClocked(s, c) && n <= |events| == |times|
    requires forall i :: 0 <= i < n ==> events[i].now == Tick(times[i])
    ensures TxClocked(StateAt(s, events, n), ClocksAt(s, c, events, times, n))
    decreases n
  {
    hide TxClocked, Apply, AfterEvent;
    if n > 0 {
      RunsStayClocked(s, c, events, times, n - 1);
      var a, b, e := StateAt(s, events, n - 1), ClocksAt(s, c, events, times, n - 1), events[n - 1];
      EventKeepsClocks(a, b, e, times[n - 1]);
    }
  }

  lemma EventKeepsClocks(s: TxState, c: TxClocks, e: TxEvent, t: nat)
    requires Sendable(s) && TxClocked(s, c) && e.now == Tick(t)
    ensures TxClocked(Apply(s, e).state, AfterEvent(c, s, e, t))
  {
    hide Apply, AfterEvent;
    if e.Received? {
      ReceivedKeepsClocks(s, c, e, t);
    } else if s.ongoing {
      PollClocks(s, c, e, t);
    } else {
      StaysEnded(s, c, e, t);
    }
  }

  lemma StaysEnded(s: TxState, c: TxClocks, e: TxEvent, t: nat)
    requires Sendable(s) && !s.ongoing
    ensures TxClocked(Apply(s, e).state, AfterEvent(c, s, e, t))
  {
    hide Later, Reached, Advance, Enqueue;
  }

  lemma StartClocks(idle: TxState, data: seq<Byte>, t: nat, can: CanReply)
    requires !idle.ongoing && 1 <= |data| <= MAX_TOTAL
    ensures Sendable(Start(idle, data, Tick(t), can).state)
    ensures TxClocked(Start(idle, data, Tick(t), can).state, TxClocks(t, t, t))
  {
    hide Later, Reached, Tick, Schedule, SingleFrame, FirstFrame;
    var begun, c := Begin(idle, data), TxClocks(t, t, t);
    if |data| <= MAX_SINGLE {
      ScheduleClocks(begun.(offset := |data|), c, SingleFrame(data, idle.config.padding), t, can);
    } else {
      var waits := begun.(offset := MAX_FIRST, waitingFc := true, waitingAfterBlock := false,
                          deadline := Later(Tick(t), idle.config.nBs));
      ScheduleClocks(waits, c, FirstFrame(|data|, data[..MAX_FIRST], idle.config.padding), t, can);
    }
  }

  /** The sender times out exactly. Over any run of a transfer that started at `t0`, a poll ends it with a timeout
      exactly if a frame that the driver keeps refusing was built N_As ago, or one that it still transmits was
      accepted N_As ago, or no frame is with the driver and the wait for flow control began, or was last prolonged
      by a WAIT, N_Bs ago after the first frame or N_Cr ago after a block. */
  lemma TimesOutExactly(idle: TxState, data: seq<Byte>, t0: nat, can: CanReply, events: seq<TxEvent>, times: seq<nat>, n: nat)
    requires !idle.ongoing && 1 <= |data| <= MAX_TOTAL && n < |events| == |times|
    requires forall i :: 0 <= i <= n ==> events[i].now == Tick(times[i])
    requires Sendable(Start(idle, data, Tick(t0), can).state)
    requires var a := StateAt(Start(idle, data, Tick(t0), can).state, events, n); a.ongoing && events[n].Polled?
    ensures var s := Start(idle, data, Tick(t0), can).state;
            var a, c := StateAt(s, events, n), ClocksAt(s, TxClocks(t0, t0, t0), events, times, n);
            Apply(a, events[n]).result == Timeout <==> TimeIsOver(a, c, events[n].retry, events[n].onWire, times[n])
  {
    hide Start, TxClocked, Apply, AfterEvent, TimeIsOver, StateAt, ClocksAt;
    StartClocks(idle, data, t0, can);
    var s := Start(idle, data, Tick(t0), can).state;
    RunsStayClocked(s, TxClocks(t0, t0, t0), events, times, n);
    PollClocks(StateAt(s, events, n), ClocksAt(s, TxClocks(t0, t0, t0), events, times, n), events[n], times[n]);
  }

  /** A request to wait changes the deadline and nothing else, and never ends the transfer. */
  lemma WaitOnlyProlongs(s: TxState, f: Frame, now: U32)
    requires AsksToWait(s, f)
    ensures var step := OnFrame(s, f, now);
            step.state == s.(deadline := step.state.deadline) && step.state.ongoing && step.result == Fine && step.sent == []
  {
    hide Later;
  }

  /** What an incoming frame means, by its first byte. */
  lemma FrameAnswers(s: TxState, f: Frame, now: U32)
    ensures var step := OnFrame(s, f, now); var expected := s.ongoing && (s.waitingFc || BlockFull(s));
            && (step.result == BadState <==> !expected)
            && (step.result == Invalid <==> expected && !(0x30 <= f[0] <= 0x3F))
            && (step.result == Overflow <==> expected && f[0] == 0x32)
            && (step.result == NoResponse <==> expected && 0x33 <= f[0] <= 0x3F)
            && (step.result == Fine <==> expected && (f[0] == 0x30 || f[0] == 0x31))
            && (s.ongoing && !step.state.ongoing <==> step.result == Overflow || step.result == NoResponse)
            && (expected && f[0] == 0x30 ==> step.state.blockSize == f[1] && step.state.stmin == f[2]
                                             && !step.state.waitingFc && step.state.sentInBlock == 0)
  {
    hide Later;
  }

  /** What starting a payload answers. */
  lemma StartAnswers(s: TxState, data: seq<Byte>, now: U32, can: CanReply)
    ensures var step := Start(s, data, now, can);
            && (step.result == Invalid <==> data == [])
            && (step.result == Busy <==> data != [] && s.ongoing)
            && (step.result == TooLong <==> !s.ongoing && |data| > 4095)
            && (step.result == Fine <==> !s.ongoing && 1 <= |data| <= 4095)
            && (step.result != Fine ==> step.state == s && step.sent == [])
  {
    hide Later, Reached, SingleFrame, FirstFrame, Enqueue;
  }

  /** A transfer of twenty bytes with N_Bs 1000 that begins at 0 and is asked to wait at 900: it goes on at 1000, and
      ends in a timeout at 1900. */
  lemma WaitInstance(idle: TxState, data: seq<Byte>)
    requires !idle.ongoing && |data| == 20 && idle.config.nBs == 1000
    ensures var s := Start(idle, data, 0, YES).state;
            var wait := Received(900, [0x31, 0, 0, 0, 0, 0, 0, 0]);
            && Sendable(s)
            && var a := Apply(s, wait).state;
            && Sendable(a)
            && Apply(a, Polled(1000, YES, false, YES)).result == Fine && Apply(a, Polled(1000, YES, false, YES)).state.ongoing
            && Apply(a, Polled(1900, YES, false, YES)).result == Timeout
  {
    hide Start, Poll, Later;
    LongBegins(idle, data);
    StartClocks(idle, data, 0, YES);
    LongStarts(idle, data);
    var s, wait := Start(idle, data, 0, YES).state, Received(900, [0x31, 0, 0, 0, 0, 0, 0, 0]);
    ReceivedKeepsClocks(s, TxClocks(0, 0, 0), wait, 900);
    var a := Apply(s, wait).state;
    PollClocks(a, TxClocks(0, 0, 900), Polled(1000, YES, false, YES), 1000);
    PollClocks(a, TxClocks(0, 0, 900), Polled(1900, YES, false, YES), 1900);
    DueIsReached(900, 1000, 1000);
    WaitingPolls(a, 1000);
  }

  lemma LongStarts(idle: TxState, data: seq<Byte>)
    requires !idle.ongoing && |data| == 20
    ensures var s := Start(idle, data, 0, YES).state; s.config == idle.config && !s.waitingAfterBlock && Sendable(s)
  {
    hide Later, FirstFrame;
  }

  lemma WaitingPolls(s: TxState, now: U32)
    requires Sendable(s) && s.ongoing && s.waitingFc && !s.waitingEnqueue && !s.framePending && !Reached(now, s.deadline)
    ensures Apply(s, Polled(now, YES, false, YES)).result == Fine && Apply(s, Polled(now, YES, false, YES)).state.ongoing
  {
    hide Reached;
  }

  // ---- The receiver ----

  /** When the flow control frame in hand was built, when the driver last accepted one, and when the wait for the next
      consecutive frame began. */
  datatype RxClocks = RxClocks(built: nat, wire: nat, wait: nat)

  datatype RxCall = Arrival(frame: Frame, can: CanReply) | Look(can: CanReply, onWire: bool)

  function RxApply(s: RxState, call: RxCall, t: nat): (step: RxStep)
    requires Receivable(s)
    ensures Receivable(step.state)
  {
    match call
    case Arrival(f, can) => Accept(s, f, Tick(t), can)
    case Look(can, onWire) => RxPoll(s, Tick(t), can, onWire)
  }

  /** A consecutive frame that is expected. */
  predicate Continues(s: RxState, f: Frame) { s.inProgress && 0x20 <= f[0] <= 0x2F && f[0] - 0x20 == s.expectedSn }

  /** Bytes that are left after an expected frame. */
  function LeftAfter(s: RxState): int { s.declared - s.received - 7 }

  /** The frame is answered with flow control: a first frame to an idle receiver, or the last frame of a block. */
  predicate AsksForFlow(s: RxState, f: Frame) {
    || (0x10 <= f[0] <= 0x1F && !s.inProgress && !s.ready && (f[0] as int - 0x10) * 256 + f[1] as int > 7)
    || (Continues(s, f) && LeftAfter(s) > 0 && s.config.blockSize > 0 && (s.cfInBlock + 1) % 256 >= s.config.blockSize)
  }

  function RxAfter(c: RxClocks, s: RxState, call: RxCall, t: nat): RxClocks
    requires Receivable(s)
  {
    var step := RxApply(s, call, t);
    RxClocks(if call.Arrival? && AsksForFlow(s, call.frame) then t else c.built,
             if step.sent != [] then t else c.wire,
             if (call.Arrival? && Continues(s, call.frame)) || (step.sent != [] && !step.state.fcPending)
                || (call.Look? && !s.fcWaiting && s.fcPending && !step.state.fcPending)
             then t else c.wait)
  }

  ghost predicate RxClocked(s: RxState, c: RxClocks) {
    && (s.fcWaiting ==> s.fcDeadline == Later(Tick(c.built), s.config.nAr))
    && (s.inProgress && s.fcPending && !s.fcWaiting ==> s.fcDeadline == Later(Tick(c.wire), s.config.nAr))
    && (s.inProgress && !s.fcWaiting && !s.fcPending ==> s.rxDeadline == Later(Tick(c.wait), s.config.nCr))
  }

  lemma ServiceClocks(s: RxState, c: RxClocks, t: nat, can: CanReply)
    requires RxClocked(s, c)
    ensures var step := ServiceFc(s, Tick(t), can);
            var c1 := if step.sent == [] then c else c.(wire := t, wait := if step.state.fcPending then c.wait else t);
            && (step.result == Timeout <==> s.fcWaiting && !can.accepted && Due(c.built, s.config.nAr, t))
            && RxClocked(step.state, c1)
            && (step.sent != [] ==> s.fcWaiting && !step.state.fcWaiting && step.state.fcPending == can.pending
                                    && step.state.fcDeadline == Later(Tick(t), s.config.nAr)
                                    && (!can.pending ==> step.state.rxDeadline == Later(Tick(t), s.config.nCr)))
            && (step.sent == [] && step.result != Timeout ==> step.state == s)
            && (step.result == Timeout ==> !step.state.inProgress && step.sent == [])
            && (step.result != Timeout ==> step.state.inProgress == s.inProgress)
            && (step.sent == [] <==> !s.fcWaiting || !can.accepted)
  {
    hide Later, Reached, Tick, Due;
    DueIsReached(c.built, s.config.nAr, t);
  }

  lemma SendFcClocks(s: RxState, c: RxClocks, status: Nibble, t: nat, can: CanReply)
    ensures var step := SendFc(s, status, Tick(t), can);
            var c0 := c.(built := t);
            RxClocked(step.state, if step.sent == [] then c0 else c0.(wire := t, wait := if step.state.fcPending then c.wait else t))
  {
    hide Later, Reached, Tick, Due, ServiceFc, FlowControl;
    var frame := FlowControl(status, s.config.blockSize, s.config.stmin, s.config.padding);
    ServiceClocks(s.(fcFrame := frame, fcWaiting := true, fcDeadline := Later(Tick(t), s.config.nAr)), c.(built := t), t, can);
  }

  lemma ArrivalClocks(s: RxState, c: RxClocks, f: Frame, can: CanReply, t: nat)
    requires Receivable(s) && RxClocked(s, c)
    ensures RxClocked(Accept(s, f, Tick(t), can).state, RxAfter(c, s, Arrival(f, can), t))
  {
    hide Later, Reached, Tick, Due, SendFc, Written;
    if !s.inProgress && Pci(f) == PCI_FF {
      SendFcClocks(s, c, FC_OVERFLOW, t, can);
      if !s.ready && MAX_SINGLE < Declared(f) <= |s.buffer| {
        SendFcClocks(s.(declared := Declared(f), buffer := Written(s.buffer, 0, f[2..]), received := MAX_FIRST,
                        expectedSn := 1, cfInBlock := 0, inProgress := true), c, FC_CTS, t, can);
      }
    } else if s.inProgress && Pci(f) == PCI_CF && Low(f) == s.expectedSn {
      SendFcClocks(Stored(s, f, Tick(t)).(cfInBlock := 0), c.(wait := t), FC_CTS, t, can);
    }
  }

  /** Whether a look at `t` ends the reception, or the hand-over of a flow control frame, for want of time. */
  predicate RxTimeIsOver(s: RxState, c: RxClocks, can: CanReply, onWire: bool, t: nat) {
    if s.fcWaiting then !can.accepted && Due(c.built, s.config.nAr, t)
    else s.inProgress && if s.fcPending then onWire && Due(c.wire, s.config.nAr, t) else Due(c.wait, s.config.nCr, t)
  }

  lemma LookClocks(s: RxState, c: RxClocks, can: CanReply, onWire: bool, t: nat)
    requires Receivable(s) && RxClocked(s, c)
    ensures RxPoll(s, Tick(t), can, onWire).result == Timeout <==> RxTimeIsOver(s, c, can, onWire, t)
    ensures RxClocked(RxPoll(s, Tick(t), can, onWire).state, RxAfter(c, s, Look(can, onWire), t))
  {
    hide Later, Reached, Tick, Due, ServiceFc;
    ServiceClocks(s, c, t, can);
    DueIsReached(c.wire, s.config.nAr, t);
    DueIsReached(c.wait, s.config.nCr, t);
    JustSet(t, s.config.nAr);
    JustSet(t, s.config.nCr);
  }

  function RxStateAt(s: RxState, calls: seq<RxCall>, times: seq<nat>, n: nat): (s1: RxState)
    requires Receivable(s) && n <= |calls| == |times|
    ensures Receivable(s1)
    decreases n
  {
    if n == 0 then s else RxApply(RxStateAt(s, calls, times, n - 1), calls[n - 1], times[n - 1]).state
  }

  function RxClocksAt(s: RxState, c: RxClocks, calls: seq<RxCall>, times: seq<nat>, n: nat): RxClocks
    requires Receivable(s) && n <= |calls| == |times|
    decreases n
  {
    if n == 0 then c
    else RxAfter(RxClocksAt(s, c, calls, times, n - 1), RxStateAt(s, calls, times, n - 1), calls[n - 1], times[n - 1])
  }

  lemma {:induction false} RxRunsStayClocked(s: RxState, c: RxClocks, calls: seq<RxCall>, times: seq<nat>, n: nat)
    requires Receivable(s) && RxClocked(s, c) && n <= |calls| == |times|
    ensures RxClocked(RxStateAt(s, calls, times, n), RxClocksAt(s, c, calls, times, n))
    decreases n
  {
    hide RxClocked, RxAfter, Receivable;
    if n > 0 {
      RxRunsStayClocked(s, c, calls, times, n - 1);
      var a, b, call, t := RxStateAt(s, calls, times, n - 1), RxClocksAt(s, c, calls, times, n - 1), calls[n - 1], times[n - 1];
      match call
      case Arrival(f, can) => ArrivalClocks(a, b, f, can, t);
      case Look(can, onWire) => LookClocks(a, b, can, onWire, t);
    }
  }

  /** The receiver times out exactly. Over any run from an idle receiver, a look ends with a timeout exactly if a flow
      control frame that the driver keeps refusing was built N_Ar ago, or one that it still transmits was accepted N_Ar
      ago, or the wait for the next consecutive frame, which begins when flow control has left or a frame is stored,
      began N_Cr ago. */
  lemma RxTimesOutExactly(s: RxState, calls: seq<RxCall>, times: seq<nat>, n: nat)
    requires Receivable(s) && !s.inProgress && !s.fcWaiting && n < |calls| == |times| && calls[n].Look?
    ensures var a, c := RxStateAt(s, calls, times, n), RxClocksAt(s, RxClocks(0, 0, 0), calls, times, n);
            RxApply(a, calls[n], times[n]).result == Timeout
            <==> RxTimeIsOver(a, c, calls[n].can, calls[n].onWire, times[n])
  {
    hide RxTimeIsOver, RxAfter, Receivable;
    assert RxClocked(s, RxClocks(0, 0, 0));
    RxRunsStayClocked(s, RxClocks(0, 0, 0), calls, times, n);
    LookClocks(RxStateAt(s, calls, times, n), RxClocksAt(s, RxClocks(0, 0, 0), calls, times, n), calls[n].can, calls[n].onWire, times[n]);
  }

  /** What an incoming frame is answered, by its bytes. */
  lemma ArrivalAnswers(s: RxState, f: Frame, now: U32, can: CanReply)
    requires Receivable(s)
    ensures var r := Accept(s, f, now, can).result;
            var single, first, other := f[0] <= 0x0F, 0x10 <= f[0] <= 0x1F, f[0] >= 0x30;
            var length := 256 * (f[0] % 16) as int + f[1] as int;
            && (r == Busy <==> s.ready && !s.inProgress && ((single && f[0] > 0) || first))
            && (r == Overflow <==> !s.ready && !s.inProgress
                                   && ((single && 1 <= f[0] <= 7 && s.buffer == []) || (first && length > 7 && length > |s.buffer|)))
            && (r == Invalid <==> other || (0x20 <= f[0] <= 0x2F && !Continues(s, f))
                                  || (single && (f[0] == 0 || s.inProgress || (!s.ready && f[0] > 7)))
                                  || (first && (s.inProgress || (!s.ready && length <= 7))))
  {
    hide SendFc, Written, Stored, Cleared;
  }

  /** Any flow control frame that a received frame causes carries the configured BS and STmin, and its status: clear to
      send, or overflow when the declared length exceeds the buffer. */
  lemma FlowControlBytes(s: RxState, f: Frame, now: U32, can: CanReply)
    requires Receivable(s) && AsksForFlow(s, f)
    ensures var step := Accept(s, f, now, can);
            var status: Byte := if !s.inProgress && 256 * (f[0] % 16) as int + f[1] as int > |s.buffer| then 0x32 else 0x30;
            var p := s.config.padding;
            && step.state.fcFrame == [status, s.config.blockSize, s.config.stmin, p, p, p, p, p]
            && step.sent == if can.accepted then [step.state.fcFrame] else []
  {
    hide Later, Reached, Written, FlowControl;
    FlowBytes(FC_CTS, s.config);
    FlowBytes(FC_OVERFLOW, s.config);
  }

  lemma FlowBytes(status: Nibble, config: RxConfig)
    ensures var p := config.padding;
            FlowControl(status, config.blockSize, config.stmin, p)
            == [0x30 + status, config.blockSize, config.stmin, p, p, p, p, p]
  {}

  /** What reading a message answers, and that a message is given once. */
  lemma FetchAnswers(s: RxState, capacity: nat)
    requires Receivable(s)
    ensures var (t, r) := Fetch(s, capacity);
            && (r == Err(BadState) <==> !s.ready)
            && (r == Err(TooLong) <==> s.ready && s.messageLength > capacity)
            && (r.Ok? <==> s.ready && s.messageLength <= capacity)
            && (r.Err? ==> t == s)
            && (r.Ok? ==> r.value == s.buffer[..s.messageLength] && Fetch(t, capacity).1 == Err(BadState))
  {}

  /** Which frames end a reception without a message: another first frame and a consecutive frame out of turn; any
      other frame that does not belong leaves everything as it is. */
  lemma AbortsExactly(s: RxState, f: Frame, now: U32, can: CanReply)
    requires Receivable(s) && Accept(s, f, now, can).result == Invalid
    ensures var step := Accept(s, f, now, can);
            && step.sent == []
            && (s.inProgress && 0x10 <= f[0] <= 0x2F ==> !step.state.inProgress && !step.state.ready && !step.state.fcWaiting)
            && (!(s.inProgress && 0x10 <= f[0] <= 0x2F) ==> step.state == s)
  {
    hide SendFc, Written, Stored, Later;
  }

  /** What a poll of a transfer does that is not ended for want of time: while a frame is with the driver, or flow control is
      awaited, nothing else; then a full block begins the next wait, a payload that is out ends the transfer well, and
      otherwise a frame is built unless the last one was built less than STmin ago. */
  lemma PollDoes(s: TxState, e: TxEvent, t: nat, last: nat)
    requires Sendable(s) && s.ongoing && e.Polled? && e.now == Tick(t) && s.lastCf == Tick(last)
    requires Apply(s, e).result != Timeout
    ensures var a := Apply(s, e).state;
            var free := !WithDriver(s, e.retry, e.onWire) && !s.waitingFc;
            var full := s.blockSize > 0 && s.sentInBlock >= s.blockSize;
            && (a.waitingFc && !s.waitingFc <==> free && full)
            && (!a.ongoing <==> free && !full && s.offset == |s.payload|)
            && (a.offset > s.offset <==> free && !full && s.offset < |s.payload|
                                         && !(s.hasSentCf && (t - last) % 0x1_0000_0000 < s.stmin))
  {
    hide Reached, Later, Tick, ConsecutiveFrame;
    JustSet(t, s.config.nAs);
    assert Elapsed(Tick(t), Tick(last)) == (t - last) % 0x1_0000_0000 by { ElapsedTicks(t, last); }
  }

  lemma ElapsedTicks(t: nat, last: nat)
    ensures Elapsed(Tick(t), Tick(last)) == (t - last) % 0x1_0000_0000
  {}
}
