/** Whole runs of the sender: what it puts on the channel, and how it is paced. */
module IsotpSenderRuns {
  import opened Bytes
  import opened IsotpFrames
  import opened IsotpTx

  datatype TxEvent =
    | Polled(now: U32, retry: CanReply, onWire: bool, can: CanReply)
    | Received(now: U32, frame: Frame)

  function Apply(s: TxState, e: TxEvent): (step: TxStep)
    requires Sendable(s)
    ensures Sendable(step.state)
  {
    match e
    case Polled(now, retry, onWire, can) => Poll(s, now, retry, onWire, can)
    case Received(now, frame) => OnFrame(s, frame, now)
  }

  /** A transfer so far: all frames the driver accepted and, once it ended, the result of the call
      that ended it. */
  datatype TxRun = TxRun(state: TxState, sent: seq<Frame>, outcome: Option<IsotpResult>)

  function Outcome(step: TxStep): Option<IsotpResult> {
    if step.state.ongoing then None else Some(step.result)
  }

  function Extend(r: TxRun, e: TxEvent): (r': TxRun)
    requires Sendable(r.state)
    ensures Sendable(r'.state)
  {
    var step := Apply(r.state, e);
    TxRun(step.state, r.sent + step.sent, if r.state.ongoing then Outcome(step) else r.outcome)
  }

  /** The run that starts a payload on an idle sender and then meets the given events. */
  function Transfer(s: TxState, data: seq<Byte>, now: U32, can: CanReply, events: seq<TxEvent>): (r: TxRun)
    requires !s.ongoing && 1 <= |data| <= MAX_TOTAL
    ensures Sendable(r.state)
    decreases |events|
  {
    if events == [] then
      var step := Start(s, data, now, can);
      TxRun(step.state, step.sent, Outcome(step))
    else
      Extend(Transfer(s, data, now, can, events[..|events| - 1]), events[|events| - 1])
  }

  /** A running transfer that has built `k` frames, the last of which may still wait for the driver. */
  ghost predicate Building(s: TxState, sent: seq<Frame>, data: seq<Byte>, k: nat) {
    && 1 <= |data| <= MAX_TOTAL && 1 <= k <= FrameCount(|data|)
    && s.ongoing && s.payload == data && s.offset == Carried(|data|, k)
    && (|data| > MAX_SINGLE ==> s.sn == k % 16)
    && (s.waitingEnqueue ==> s.pendingFrame == NthFrame(data, k - 1, s.config.padding))
    && sent == Packed(data, s.config.padding)[..if s.waitingEnqueue then k - 1 else k]
  }

  ghost predicate Sound(r: TxRun, data: seq<Byte>) {
    && 1 <= |data| <= MAX_TOTAL
    && r.sent <= Packed(data, r.state.config.padding)
    && (r.outcome == Some(Fine) ==> r.sent == Packed(data, r.state.config.padding))
    && (r.state.ongoing ==> exists k :: Building(r.state, r.sent, data, k))
  }

  lemma EnqueueKeeps(s: TxState, sent: seq<Frame>, data: seq<Byte>, k: nat, now: U32, can: CanReply)
    requires Building(s, sent, data, k)
    ensures var step := Enqueue(s, now, can);
            && step.state.config == s.config
            && (step.result == Fine ==> Building(step.state, sent + step.sent, data, k))
            && (step.result == Timeout ==> !step.state.ongoing && step.sent == [])
            && sent + step.sent <= Packed(data, s.config.padding)
  {
    hide NthFrame, FrameCount, Carried, Reached, Later;
    var all := Packed(data, s.config.padding);
    assert sent + [] == sent;
    if s.waitingEnqueue {
      assert all[..k] == all[..k - 1] + [all[k - 1]];
    }
  }

  lemma ScheduleKeeps(s: TxState, frame: Frame, sent: seq<Frame>, data: seq<Byte>, k: nat, now: U32, can: CanReply)
    requires 1 <= |data| <= MAX_TOTAL && 1 <= k <= FrameCount(|data|)
    requires s.ongoing && s.payload == data && s.offset == Carried(|data|, k)
    requires |data| > MAX_SINGLE ==> s.sn == k % 16
    requires frame == NthFrame(data, k - 1, s.config.padding)
    requires sent == Packed(data, s.config.padding)[..k - 1]
    ensures var step := Schedule(s, frame, now, can);
            step.state.config == s.config && Building(step.state, sent + step.sent, data, k)
  {
    hide NthFrame, FrameCount, Carried;
    var waiting := s.(pendingFrame := frame, waitingEnqueue := true, enqueueDeadline := Later(now, s.config.nAs));
    assert Building(waiting, sent, data, k);
    EnqueueKeeps(waiting, sent, data, k, now, can);
  }

  lemma SendCfKeeps(s: TxState, sent: seq<Frame>, data: seq<Byte>, k: nat, now: U32, can: CanReply)
    requires Building(s, sent, data, k) && !s.waitingEnqueue && s.offset < |data|
    ensures var step := SendCf(s, now, can);
            step.state.config == s.config && Building(step.state, sent + step.sent, data, k + 1)
  {
    hide NthFrame, FrameCount, Carried, Packed, Schedule, ConsecutiveFrame, CfChunk;
    FirstChunkOfMany(data, k);
    ChunkCarries(s, data, k);
    NextNumber(s.sn, k);
    var frame := ConsecutiveFrame(s.sn, CfChunk(s), s.config.padding);
    var built := s.(offset := s.offset + |CfChunk(s)|, sn := (s.sn + 1) % 16,
                    sentInBlock := (s.sentInBlock + 1) % 0x1_0000, hasSentCf := true, lastCf := now);
    ScheduleKeeps(built, frame, sent, data, k + 1, now, can);
  }

  /** The next chunk is what the next frame carries. */
  lemma ChunkCarries(s: TxState, data: seq<Byte>, k: nat)
    requires MAX_SINGLE < |data| <= MAX_TOTAL && 1 <= k <= FrameCount(|data|) && Carried(|data|, k) < |data|
    requires s.payload == data && s.offset == Carried(|data|, k)
    ensures k < FrameCount(|data|) && s.offset + |CfChunk(s)| == Carried(|data|, k + 1)
    ensures NthFrame(data, k, s.config.padding) == ConsecutiveFrame(k % 16, CfChunk(s), s.config.padding)
  {
    hide NthFrame, FrameCount, Carried, ConsecutiveFrame;
    IsotpFrames.NextChunk(data, k, s.config.padding, CfChunk(s));
    assert |data[Carried(|data|, k)..][|CfChunk(s)|..]| == |data| - Carried(|data|, k) - |CfChunk(s)|;
  }

  lemma NextNumber(sn: Nibble, k: nat)
    ensures sn == k % 16 ==> (sn + 1) % 16 == (k + 1) % 16
  {}

  lemma FirstChunkOfMany(data: seq<Byte>, k: nat)
    requires 1 <= k <= FrameCount(|data|) && Carried(|data|, k) < |data|
    ensures |data| > MAX_SINGLE
  {}

  /** Every poll keeps the transfer sound, whatever the driver answers. */
  lemma PollKeeps(s: TxState, sent: seq<Frame>, data: seq<Byte>, k: nat, e: TxEvent)
    requires Building(s, sent, data, k) && Sendable(s) && e.Polled?
    ensures var step := Apply(s, e);
            && step.state.config == s.config
            && Sound(TxRun(step.state, sent + step.sent, Outcome(step)), data)
  {
    hide NthFrame, FrameCount, Carried, Packed, Enqueue, SendCf, Reached, TooSoon;
    var first := Enqueue(s, e.now, e.retry);
    EnqueueKeeps(s, sent, data, k, e.now, e.retry);
    BuildingIsPrefix(s, sent, data, k);
    if first.result == Fine && !first.state.waitingEnqueue && !(first.state.framePending && e.onWire) {
      var ready := first.state.(framePending := false);
      var accepted := sent + first.sent;
      assert Building(ready, accepted, data, k);
      BuildingIsPrefix(ready, accepted, data, k);
      AdvanceKeeps(ready, accepted, data, k, e.now, e.can);
      var rest := Advance(ready, e.now, e.can);
      assert accepted + rest.sent == sent + (first.sent + rest.sent);
    }
  }

  lemma BuildingIsPrefix(s: TxState, sent: seq<Frame>, data: seq<Byte>, k: nat)
    requires Building(s, sent, data, k)
    ensures sent <= Packed(data, s.config.padding)
    ensures s.offset >= |data| && !s.waitingEnqueue ==> sent == Packed(data, s.config.padding)
  {
    hide NthFrame, FrameCount, Carried;
    CarriedBounds(|data|, k);
  }

  lemma AdvanceKeeps(s: TxState, sent: seq<Frame>, data: seq<Byte>, k: nat, now: U32, can: CanReply)
    requires Building(s, sent, data, k) && Sendable(s) && !s.waitingEnqueue
    ensures var step := Advance(s, now, can);
            && step.state.config == s.config
            && Sound(TxRun(step.state, sent + step.sent, Outcome(step)), data)
  {
    hide NthFrame, FrameCount, Carried, Packed, SendCf, Reached, TooSoon, Later;
    BuildingIsPrefix(s, sent, data, k);
    var step := Advance(s, now, can);
    if step == SendCf(s, now, can) && s.offset < |data| {
      SendCfKeeps(s, sent, data, k, now, can);
      BuildingIsPrefix(step.state, sent + step.sent, data, k + 1);
    } else {
      assert sent + [] == sent;
      assert step.state.ongoing ==> Building(step.state, sent, data, k);
    }
  }

  /** An incoming frame ends the transfer badly or leaves its progress alone; it sends nothing. */
  lemma FrameEffect(s: TxState, frame: Frame, now: U32)
    requires s.ongoing
    ensures var step := OnFrame(s, frame, now); var s1 := step.state;
            && step.sent == [] && s1.config == s.config && (!s1.ongoing ==> step.result != Fine)
            && s1.payload == s.payload && s1.offset == s.offset && s1.sn == s.sn
            && s1.waitingEnqueue == s.waitingEnqueue && s1.pendingFrame == s.pendingFrame
  {
    hide Later, Pci, Low;
  }

  lemma FrameKeeps(s: TxState, sent: seq<Frame>, data: seq<Byte>, k: nat, e: TxEvent)
    requires Building(s, sent, data, k) && Sendable(s) && e.Received?
    ensures var step := Apply(s, e);
            && step.state.config == s.config
            && Sound(TxRun(step.state, sent + step.sent, Outcome(step)), data)
  {
    hide NthFrame, FrameCount, Carried, Packed, OnFrame, Poll;
    BuildingIsPrefix(s, sent, data, k);
    FrameEffect(s, e.frame, e.now);
    var step := Apply(s, e);
    assert sent + [] == sent;
    assert step.state.ongoing ==> Building(step.state, sent, data, k);
  }

  /** The first call of a transfer builds its first frame. */
  ghost predicate Starts(s: TxState, r: TxRun, data: seq<Byte>) {
    && r.state.config == s.config && Sound(r, data)
    && (r.state.ongoing ==> Building(r.state, r.sent, data, 1))
    && |r.sent| == (if r.state.waitingEnqueue then 0 else 1)
  }

  lemma StartIsSound(s: TxState, data: seq<Byte>, now: U32, can: CanReply)
    requires !s.ongoing && 1 <= |data| <= MAX_TOTAL
    ensures Starts(s, Transfer(s, data, now, can, []), data)
  {
    hide Starts, Packed, Schedule, Building, Sound;
    if |data| <= MAX_SINGLE { StartsShort(s, data, now, can); } else { StartsLong(s, data, now, can); }
  }

  lemma StartsShort(s: TxState, data: seq<Byte>, now: U32, can: CanReply)
    requires !s.ongoing && 1 <= |data| <= MAX_SINGLE
    ensures Starts(s, Transfer(s, data, now, can, []), data)
  {
    hide Packed, Schedule, SingleFrame, FirstFrame, ConsecutiveFrame;
    var begun, frame := Begin(s, data).(offset := |data|), SingleFrame(data, s.config.padding);
    var step := Schedule(begun, frame, now, can);
    ScheduleKeeps(begun, frame, [], data, 1, now, can);
    assert [] + step.sent == step.sent;
    BuildingIsPrefix(step.state, step.sent, data, 1);
  }

  lemma StartsLong(s: TxState, data: seq<Byte>, now: U32, can: CanReply)
    requires !s.ongoing && MAX_SINGLE < |data| <= MAX_TOTAL
    ensures Starts(s, Transfer(s, data, now, can, []), data)
  {
    hide Packed, Schedule, SingleFrame, FirstFrame, ConsecutiveFrame;
    var first := Begin(s, data).(offset := MAX_FIRST, waitingFc := true, waitingAfterBlock := false,
                                 deadline := Later(now, s.config.nBs));
    var frame := FirstFrame(|data|, data[..MAX_FIRST], s.config.padding);
    var step := Schedule(first, frame, now, can);
    ScheduleKeeps(first, frame, [], data, 1, now, can);
    assert [] + step.sent == step.sent;
    BuildingIsPrefix(step.state, step.sent, data, 1);
  }

  /** Under any polls, incoming frames, refusals and timeouts, the frames accepted by the channel are
      a prefix of the packed payload, and all of it when the transfer ends well. */
  lemma {:induction false} SentIsPrefixOfPacked(s: TxState, data: seq<Byte>, now: U32, can: CanReply,
                                               events: seq<TxEvent>)
    requires !s.ongoing && 1 <= |data| <= MAX_TOTAL
    ensures var r := Transfer(s, data, now, can, events);
            && r.state.config == s.config && Sound(r, data)
            && r.sent <= Packed(data, s.config.padding)
            && (r.outcome == Some(Fine) ==> r.sent == Packed(data, s.config.padding) && Unpacked(r.sent) == Ok(data))
    decreases |events|
  {
    hide Packed, Building, Apply, Start, Unpacked;
    UnpackInvertsPack(data, s.config.padding);
    if events == [] {
      StartIsSound(s, data, now, can);
    } else {
      var before := events[..|events| - 1];
      var e := events[|events| - 1];
      SentIsPrefixOfPacked(s, data, now, can, before);
      var r := Transfer(s, data, now, can, before);
      ExtendKeeps(r, e, data);
    }
  }

  lemma ExtendKeeps(r: TxRun, e: TxEvent, data: seq<Byte>)
    requires Sendable(r.state) && Sound(r, data)
    ensures Extend(r, e).state.config == r.state.config && Sound(Extend(r, e), data)
  {
    hide Packed, Building, Enqueue, Advance;
    if r.state.ongoing {
      var k :| Building(r.state, r.sent, data, k);
      if e.Polled? {
        PollKeeps(r.state, r.sent, data, k, e);
      } else {
        FrameKeeps(r.state, r.sent, data, k, e);
      }
    } else {
      assert r.sent + [] == r.sent;
    }
  }

  // ---- Pacing ----

  /** The sender state after the first `n` events. */
  function StateAt(s: TxState, events: seq<TxEvent>, n: nat): (s': TxState)
    requires Sendable(s) && n <= |events|
    ensures Sendable(s')
  {
    if n == 0 then s else Apply(StateAt(s, events, n - 1), events[n - 1]).state
  }

  /** The event makes the sender build a consecutive frame. */
  predicate Builds(s: TxState, e: TxEvent)
    requires Sendable(s)
  {
    e.Polled? && Apply(s, e).state.offset > s.offset
  }

  /** The event is an accepted clear-to-send. */
  predicate Grants(s: TxState, e: TxEvent) {
    e.Received? && s.ongoing && (s.waitingFc || BlockFull(s)) && Pci(e.frame) == PCI_FC && Low(e.frame) == FC_CTS
  }

  function CfsBuilt(s: TxState, events: seq<TxEvent>, n: nat): nat
    requires Sendable(s) && n <= |events|
  {
    if n == 0 then 0
    else CfsBuilt(s, events, n - 1) + (if Builds(StateAt(s, events, n - 1), events[n - 1]) then 1 else 0)
  }

  /** The counters that pacing depends on, besides those that a grant or a new frame changes. */
  predicate SamePace(s: TxState, s': TxState) {
    && s'.blockSize == s.blockSize && s'.stmin == s.stmin && s'.sentInBlock == s.sentInBlock
    && s'.offset == s.offset && s'.payload == s.payload
    && s'.hasSentCf == s.hasSentCf && s'.lastCf == s.lastCf
  }

  /** A poll either leaves the pacing counters alone or builds one frame, and then only when the
      block has room and STmin has passed. */
  lemma PollPaces(s: TxState, now: U32, retry: CanReply, onWire: bool, can: CanReply)
    requires Sendable(s)
    ensures var s' := Poll(s, now, retry, onWire, can).state;
            || SamePace(s, s')
            || (&& !BlockFull(s) && !TooSoon(s, now) && s'.offset > s.offset
                && SamePace(s.(offset := s'.offset, sentInBlock := (s.sentInBlock + 1) % 0x1_0000,
                               hasSentCf := true, lastCf := now), s'))
  {
    hide Reached, Later, Elapsed, Pad, ConsecutiveFrame, Enqueue, Schedule, Advance;
    var first := Enqueue(s, now, retry).state;
    EnqueueKeepsPace(s, now, retry);
    var ready := first.(framePending := false);
    AdvancePaces(ready, now, can);
  }

  lemma EnqueueKeepsPace(s: TxState, now: U32, can: CanReply)
    ensures SamePace(s, Enqueue(s, now, can).state)
  {}

  lemma AdvancePaces(s: TxState, now: U32, can: CanReply)
    requires Sendable(s)
    ensures var s' := Advance(s, now, can).state;
            || SamePace(s, s')
            || (&& !BlockFull(s) && !TooSoon(s, now) && s'.offset > s.offset
                && SamePace(s.(offset := s'.offset, sentInBlock := (s.sentInBlock + 1) % 0x1_0000,
                               hasSentCf := true, lastCf := now), s'))
  {
    hide Reached, Later, Elapsed, Pad, ConsecutiveFrame, Enqueue;
    var chunk := CfChunk(s);
    var built := s.(offset := s.offset + |chunk|, sn := (s.sn + 1) % 16,
                    sentInBlock := (s.sentInBlock + 1) % 0x1_0000, hasSentCf := true, lastCf := now);
    EnqueueKeepsPace(built.(pendingFrame := ConsecutiveFrame(s.sn, chunk, s.config.padding),
                            waitingEnqueue := true, enqueueDeadline := Later(now, s.config.nAs)), now, can);
  }

  lemma StepCounts(s: TxState, e: TxEvent)
    requires Sendable(s)
    ensures var s' := Apply(s, e).state;
            if Grants(s, e) then
              SamePace(s.(blockSize := e.frame[1], stmin := e.frame[2], sentInBlock := 0), s')
            else if Builds(s, e) then
              && !BlockFull(s) && !TooSoon(s, e.now)
              && SamePace(s.(offset := s'.offset, sentInBlock := (s.sentInBlock + 1) % 0x1_0000,
                             hasSentCf := true, lastCf := e.now), s')
            else SamePace(s, s')
  {
    hide Reached, Later, Elapsed, TooSoon, Pad, Poll, Pci, Low;
    if e.Polled? {
      PollPaces(s, e.now, e.retry, e.onWire, e.can);
    }
  }

  /** After an accepted clear-to-send with a non-zero block size, at most that many consecutive
      frames are built before the next one. */
  lemma {:induction false} BlockSizeHonoured(s: TxState, grant: TxEvent, events: seq<TxEvent>, n: nat)
    requires Sendable(s) && n <= |events| && Grants(s, grant) && grant.frame[1] > 0
    requires var s0 := Apply(s, grant).state;
             forall i :: 0 <= i < n ==> !Grants(StateAt(s0, events, i), events[i])
    ensures var s0 := Apply(s, grant).state;
            && CfsBuilt(s0, events, n) <= grant.frame[1]
            && StateAt(s0, events, n).sentInBlock == CfsBuilt(s0, events, n)
            && StateAt(s0, events, n).blockSize == grant.frame[1]
  {
    hide Apply, TooSoon, Grants, Builds, Pci, Low;
    var s0 := Apply(s, grant).state;
    StepCounts(s, grant);
    if n > 0 {
      BlockSizeHonoured(s, grant, events, n - 1);
      var before, e := StateAt(s0, events, n - 1), events[n - 1];
      assert !Grants(before, e) && StateAt(s0, events, n) == Apply(before, e).state;
      BlockCounts(before, e);
    }
  }

  lemma BlockCounts(s: TxState, e: TxEvent)
    requires Sendable(s) && !Grants(s, e) && s.sentInBlock <= s.blockSize && s.blockSize > 0
    ensures var s' := Apply(s, e).state;
            && s'.blockSize == s.blockSize && s'.sentInBlock <= s'.blockSize
            && s'.sentInBlock == s.sentInBlock + (if Builds(s, e) then 1 else 0)
  {
    hide Apply, TooSoon, Grants, Builds;
    StepCounts(s, e);
  }

  /** The poll ticks show unbounded, never decreasing true times. */
  ghost predicate Timed(events: seq<TxEvent>, times: seq<nat>) {
    && |times| == |events|
    && (forall i :: 0 <= i < |events| && events[i].Polled? ==> events[i].now == Tick(times[i]))
    && (forall i, j :: 0 <= i < j < |times| ==> times[i] <= times[j])
  }

  /** Any two successive consecutive frames are built at least the current STmin apart in true time,
      across any number of tick wrap-arounds. */
  lemma {:induction false} SeparationHonoured(s: TxState, events: seq<TxEvent>, times: seq<nat>, i: nat, j: nat)
    requires Sendable(s) && Timed(events, times) && i < j < |events|
    requires Builds(StateAt(s, events, i), events[i]) && Builds(StateAt(s, events, j), events[j])
    requires forall m :: i < m < j ==> !Builds(StateAt(s, events, m), events[m])
    ensures times[j] - times[i] >= StateAt(s, events, j).stmin
  {
    hide Apply, StateAt, Builds, Grants, Elapsed, Tick;
    LastCfRemembered(s, events, i, j);
    var sj := StateAt(s, events, j);
    StepCounts(sj, events[j]);
    BuildsArePolls(StateAt(s, events, i), events[i]);
    BuildsArePolls(sj, events[j]);
    ElapsedIsTrueTime(times[i], times[j]);
  }

  lemma BuildsArePolls(s: TxState, e: TxEvent)
    requires Sendable(s) && Builds(s, e)
    ensures e.Polled? && !Grants(s, e)
  {}

  lemma {:induction false} LastCfRemembered(s: TxState, events: seq<TxEvent>, i: nat, m: nat)
    requires Sendable(s) && i < m <= |events| && Builds(StateAt(s, events, i), events[i])
    requires forall x :: i < x < m ==> !Builds(StateAt(s, events, x), events[x])
    ensures StateAt(s, events, m).hasSentCf && StateAt(s, events, m).lastCf == events[i].now
  {
    hide Apply, Builds, TooSoon, Grants;
    if m > i + 1 { LastCfRemembered(s, events, i, m - 1); }
    BuildsArePolls(StateAt(s, events, i), events[i]);
    StepCounts(StateAt(s, events, m - 1), events[m - 1]);
  }

  /** Call `m` hands the frame that call `k` built to the driver. */
  ghost predicate HandsOver(s: TxState, events: seq<TxEvent>, k: nat, m: nat)
    requires Sendable(s) && k <= m < |events|
  {
    && Builds(StateAt(s, events, k), events[k])
    && (forall x :: k < x <= m ==> StateAt(s, events, x).waitingEnqueue)
    && !StateAt(s, events, m + 1).waitingEnqueue
    && StateAt(s, events, k + 1).pendingFrame in Apply(StateAt(s, events, m), events[m]).sent
  }

  /** On the channel, successive consecutive frames are at least STmin apart, less the time for which the driver
      kept the earlier one waiting. */
  lemma AcceptedApart(s: TxState, events: seq<TxEvent>, times: seq<nat>, i: nat, a: nat, j: nat, m: nat)
    requires Sendable(s) && Timed(events, times) && i <= a < |events| && i < j <= m < |events|
    requires HandsOver(s, events, i, a) && HandsOver(s, events, j, m)
    requires forall x :: i < x < j ==> !Builds(StateAt(s, events, x), events[x])
    ensures times[m] - times[a] >= StateAt(s, events, j).stmin - (times[a] - times[i])
    ensures a == i ==> times[m] - times[a] >= StateAt(s, events, j).stmin
  {
    hide Apply, StateAt, Builds;
    SeparationHonoured(s, events, times, i, j);
  }

  const YES := CanReply(true, false)
  const NO := CanReply(false, false)

  /** Clear to send with STmin 10, a poll whose frame the driver refuses, and polls nine and ten milliseconds
      after it. */
  function LateAcceptance(): seq<TxEvent> {
    [Received(0, [PCI_FC * 16, 0, 10, 0, 0, 0, 0, 0]), Polled(0, YES, false, NO), Polled(9, YES, false, YES), Polled(10, YES, false, YES)]
  }

  lemma StateUnfolds(s: TxState, events: seq<TxEvent>, n: nat)
    requires Sendable(s) && n < |events|
    ensures StateAt(s, events, 0) == s
    ensures StateAt(s, events, n + 1) == Apply(StateAt(s, events, n), events[n]).state
  {}

  /** A payload of twenty bytes after its first frame, from any idle sender. */
  lemma LongBegins(idle: TxState, data: seq<Byte>)
    requires !idle.ongoing && |data| == 20
    ensures var s := Start(idle, data, 0, YES).state;
            && s.ongoing && s.payload == data && s.offset == 6 && s.waitingFc && !s.waitingEnqueue && !s.framePending
            && !s.hasSentCf && s.sn == 1
  {
    hide Later, Pad;
  }

  /** Inside that payload, with STmin 10 and no blocks. */
  predicate Inside(s: TxState, offset: nat, waiting: bool) {
    && s.ongoing && |s.payload| == 20 && s.offset == offset && s.stmin == 10 && s.blockSize == 0 && !s.waitingFc
    && s.waitingEnqueue == waiting && (offset > 6 ==> s.hasSentCf && s.lastCf == 0) && (offset == 6 ==> !s.hasSentCf)
    && !s.framePending
  }

  lemma Granted(s: TxState)
    requires s.ongoing && |s.payload| == 20 && s.offset == 6 && s.waitingFc && !s.waitingEnqueue && !s.framePending && !s.hasSentCf
    ensures Inside(Apply(s, LateAcceptance()[0]).state, 6, false)
  {
    hide Later, Poll;
  }

  lemma Refused(s: TxState)
    requires Inside(s, 6, false)
    ensures var e := LateAcceptance()[1]; Inside(Apply(s, e).state, 13, true) && Builds(s, e)
  {
    hide ConsecutiveFrame, Later, Reached, OnFrame;
    NotYet(s.config.nAs);
  }

  lemma Retried(s: TxState)
    requires Inside(s, 13, true)
    ensures var e := LateAcceptance()[2]; Inside(Apply(s, e).state, 13, false) && s.pendingFrame in Apply(s, e).sent
  {
    hide ConsecutiveFrame, Later, Reached, OnFrame, SendCf;
  }

  lemma BuiltNext(s: TxState)
    requires Inside(s, 13, false)
    ensures var e := LateAcceptance()[3];
            var step := Apply(s, e);
            Builds(s, e) && !step.state.waitingEnqueue && step.state.pendingFrame in step.sent
  {
    hide ConsecutiveFrame, Later, Reached, OnFrame;
  }

  /** Otherwise they can be closer: a frame that is built at 0, refused, and accepted at 9 is followed by one that
      is built and accepted at 10, although STmin is 10: the bound above is met exactly. */
  lemma LateAcceptanceIsClose(idle: TxState, data: seq<Byte>)
    requires !idle.ongoing && |data| == 20
    ensures var s, events := Start(idle, data, 0, YES).state, LateAcceptance();
            && Sendable(s) && Timed(events, [0, 0, 9, 10])
            && HandsOver(s, events, 1, 2) && HandsOver(s, events, 3, 3) && StateAt(s, events, 3).stmin == 10
  {
    hide Start, Apply, StateAt, Builds;
    LongBegins(idle, data);
    var s, events := Start(idle, data, 0, YES).state, LateAcceptance();
    StateUnfolds(s, events, 0);
    StateUnfolds(s, events, 1);
    StateUnfolds(s, events, 2);
    StateUnfolds(s, events, 3);
    Granted(s);
    Refused(StateAt(s, events, 1));
    Retried(StateAt(s, events, 2));
    BuiltNext(StateAt(s, events, 3));
  }

  lemma NotYet(ms: Timer)
    ensures !Reached(0, Later(0, ms))
  {}
}
