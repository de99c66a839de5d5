/** A sender and a receiver joined by lossless channels: every interleaving in which no deadline
    passes delivers the payload. */
module IsotpLink {
  import opened Bytes
  import opened IsotpFrames
  import opened IsotpTx
  import opened IsotpRx
  import Sender = IsotpSenderRuns
  import Receiver = IsotpReceiverRuns

  datatype LinkEvent =
    | TxPolls(now: U32, retry: CanReply, onWire: bool, can: CanReply)
    | RxPolls(now: U32, can: CanReply, onWire: bool)
    | FrameArrives(now: U32, can: CanReply)
    | FlowArrives(now: U32)

  /** Both endpoints and both channels. `sent` are the frames accepted from the sender, of which the
      first `got` have arrived; `back` are the flow control frames under way. `built` counts the
      frames built, `granted` tells whether a clear-to-send was accepted, and `base` counts the
      consecutive frames built before the latest one. */
  datatype Link = Link(
    tx: TxState, rx: RxState, sent: seq<Frame>, got: nat, back: seq<Frame>,
    built: nat, granted: bool, base: nat)

  ghost predicate Runnable(l: Link) {
    Sendable(l.tx) && Receivable(l.rx) && l.got <= |l.sent|
  }

  predicate Enabled(l: Link, e: LinkEvent) {
    && (e.FrameArrives? ==> l.got < |l.sent|)
    && (e.FlowArrives? ==> l.back != [])
  }

  function Next(l: Link, e: LinkEvent): (r: (Link, IsotpResult))
    requires Runnable(l) && Enabled(l, e)
    ensures Runnable(r.0) && r.0.rx.config == l.rx.config
  {
    match e
    case TxPolls(now, retry, onWire, can) =>
      var step := Poll(l.tx, now, retry, onWire, can);
      (l.(tx := step.state, sent := l.sent + step.sent,
          built := if step.state.offset > l.tx.offset then l.built + 1 else l.built), step.result)
    case RxPolls(now, can, onWire) =>
      var step := RxPoll(l.rx, now, can, onWire);
      (l.(rx := step.state, back := l.back + step.sent), step.result)
    case FrameArrives(now, can) =>
      var step := Accept(l.rx, l.sent[l.got], now, can);
      (l.(rx := step.state, got := l.got + 1, back := l.back + step.sent), step.result)
    case FlowArrives(now) =>
      var step := OnFrame(l.tx, l.back[0], now);
      (l.(tx := step.state, back := l.back[1..], granted := true, base := l.base + l.tx.sentInBlock), step.result)
  }

  /** The link right after the sender has accepted a payload. */
  function Begun(tx: TxState, rx: RxState, data: seq<Byte>, now: U32, can: CanReply): (l: Link)
    requires !tx.ongoing && 1 <= |data| <= MAX_TOTAL
  {
    var step := Start(tx, data, now, can);
    Link(step.state, rx, step.sent, 0, [], 1, false, 0)
  }

  // ---- The invariant ----

  function BlockSize(l: Link): Byte { l.rx.config.blockSize }

  function ClearToSend(l: Link): Frame {
    FlowControl(FC_CTS, l.rx.config.blockSize, l.rx.config.stmin, l.rx.config.padding)
  }

  /** A flow control frame is waiting for the driver or under way. */
  predicate FlowPending(l: Link) { l.rx.fcWaiting || l.back != [] }

  ghost predicate SenderPart(l: Link, data: seq<Byte>) {
    && 1 <= |data| <= MAX_TOTAL && Sendable(l.tx)
    && 1 <= l.built <= FrameCount(|data|) && l.got <= |l.sent| <= l.built
    && |l.sent| == (if l.tx.waitingEnqueue then l.built - 1 else l.built)
    && l.sent <= Packed(data, l.tx.config.padding)
    && if l.tx.ongoing then Sender.Building(l.tx, l.sent, data, l.built)
       else l.built == FrameCount(|data|) && !l.tx.waitingEnqueue && l.tx.payload == data
  }

  ghost predicate Delivered(rx: RxState, data: seq<Byte>) {
    && rx.ready && !rx.inProgress && rx.messageLength == |data| <= |rx.buffer|
    && rx.buffer[..|data|] == data
  }

  ghost predicate Receiving(rx: RxState, data: seq<Byte>, got: nat) {
    && rx.inProgress && !rx.ready && rx.declared == |data| && rx.received == Carried(|data|, got)
    && rx.received <= |rx.buffer| && rx.buffer[..rx.received] == data[..rx.received]
    && rx.expectedSn == got % 16
  }

  ghost predicate ReceiverPart(l: Link, data: seq<Byte>) {
    && Receivable(l.rx) && |data| <= |l.rx.buffer|
    && if l.got == 0 then !l.rx.inProgress && !l.rx.ready
       else if l.got == FrameCount(|data|) then Delivered(l.rx, data)
       else Receiving(l.rx, data, l.got)
  }

  /** Block counters of both sides in step, for a payload of `count` frames. */
  ghost predicate HandshakePart(l: Link, count: nat) {
    && (l.back == [] || (l.back == [ClearToSend(l)] && !l.rx.fcWaiting))
    && (l.rx.fcWaiting ==> l.rx.fcFrame == ClearToSend(l))
    && if count <= 1 then !FlowPending(l) && !l.tx.waitingFc && l.tx.sentInBlock == 0 && l.built == 1
       else if !l.granted then
         && l.tx.ongoing && l.tx.waitingFc && l.tx.sentInBlock == 0
         && l.built == 1 && l.base == 0 && l.got <= 1 && (FlowPending(l) <==> l.got == 1)
         && (l.got == 1 ==> l.rx.cfInBlock == 0)
       else
         && l.tx.blockSize == BlockSize(l) && l.tx.stmin == l.rx.config.stmin
         && l.got >= 1 && l.built - 1 == l.base + l.tx.sentInBlock && l.base <= l.got - 1
         && (l.tx.waitingFc ==> l.tx.waitingAfterBlock)
         && if BlockSize(l) == 0 then l.base == 0 && !FlowPending(l) && !(l.tx.ongoing && l.tx.waitingFc)
            else
              && l.base % BlockSize(l) == 0 && l.tx.sentInBlock <= BlockSize(l)
              && (FlowPending(l) <==> l.got - 1 == l.base + BlockSize(l) && l.got < count)
              && l.base + 1 < count
              && (l.got < count ==> l.rx.cfInBlock == if FlowPending(l) then 0 else l.got - 1 - l.base)
              && (l.tx.ongoing && l.tx.waitingFc ==> l.tx.sentInBlock == BlockSize(l))
              && (!l.tx.ongoing ==> l.tx.sentInBlock < BlockSize(l))
  }

  ghost predicate InStep(l: Link, data: seq<Byte>) {
    && SenderPart(l, data) && ReceiverPart(l, data)
    && HandshakePart(l, FrameCount(|data|))
  }

  /** Nothing is under way and the sender has nothing left to do by itself. */
  predicate Settled(l: Link) {
    && l.got == |l.sent| && !FlowPending(l) && !l.tx.waitingEnqueue
    && (l.tx.ongoing ==> l.tx.waitingFc)
  }

  // ---- Start ----

  lemma StartsInStep(tx: TxState, rx: RxState, data: seq<Byte>, now: U32, can: CanReply)
    requires !tx.ongoing && 1 <= |data| <= MAX_TOTAL
    requires Receivable(rx) && !rx.inProgress && !rx.ready && !rx.fcWaiting && |data| <= |rx.buffer|
    ensures InStep(Begun(tx, rx, data, now, can), data)
  {
    hide Packed, Sender.Building, Carried, FrameCount, NthFrame, SingleFrame, FirstFrame, Reached, Later;
    FrameCountBound(|data|);
    var l := Begun(tx, rx, data, now, can);
    StartCounts(tx, data, now, can);
  }

  lemma StartCounts(tx: TxState, data: seq<Byte>, now: U32, can: CanReply)
    requires !tx.ongoing && 1 <= |data| <= MAX_TOTAL
    ensures var step := Start(tx, data, now, can); var s := step.state;
            && s.config == tx.config && s.payload == data && s.sentInBlock == 0
            && (|data| > MAX_SINGLE ==> s.ongoing)
            && s.waitingFc == (|data| > MAX_SINGLE)
            && |step.sent| == (if s.waitingEnqueue then 0 else 1)
            && (!s.ongoing ==> !s.waitingEnqueue)
            && (s.ongoing ==> Sender.Building(s, step.sent, data, 1))
            && step.sent <= Packed(data, tx.config.padding) && 1 <= FrameCount(|data|)
            && (|data| <= MAX_SINGLE ==> FrameCount(|data|) == 1)
  {
    hide Packed, Sender.Building, NthFrame, SingleFrame, FirstFrame, Reached, Later;
    Sender.StartIsSound(tx, data, now, can);
  }

  // ---- Sender polls ----

  /** The fields of the sender that the handshake looks at, apart from `ongoing`. */
  predicate SameGrant(s: TxState, s': TxState) {
    && s'.config == s.config && s'.payload == s.payload
    && s'.blockSize == s.blockSize && s'.stmin == s.stmin && s'.sentInBlock == s.sentInBlock
    && s'.waitingFc == s.waitingFc && s'.waitingAfterBlock == s.waitingAfterBlock
  }

  /** The four things a poll without timeout can do to a running sender besides serving the driver. */
  predicate PollDid(s: TxState, s': TxState) {
    || (SameGrant(s, s') && s'.ongoing && s'.offset == s.offset)
    || (&& !s.waitingFc && BlockFull(s) && s'.ongoing && s'.offset == s.offset
        && SameGrant(s.(waitingFc := true, waitingAfterBlock := true), s'))
    || (!s.waitingFc && !BlockFull(s) && s.offset >= |s.payload| && SameGrant(s, s') && !s'.ongoing
        && s'.offset == s.offset)
    || (&& !s.waitingFc && !BlockFull(s) && s.offset < |s.payload| && s'.ongoing && s'.offset > s.offset
        && SameGrant(s.(sentInBlock := (s.sentInBlock + 1) % 0x1_0000), s'))
  }

  lemma PollDoes(s: TxState, now: U32, retry: CanReply, onWire: bool, can: CanReply)
    requires Sendable(s) && s.ongoing && Poll(s, now, retry, onWire, can).result != Timeout
    ensures PollDid(s, Poll(s, now, retry, onWire, can).state)
  {
    hide Reached, Later, ConsecutiveFrame, Enqueue, Advance;
    var first := Enqueue(s, now, retry);
    EnqueueGrants(s, now, retry);
    if first.result == Fine && !first.state.waitingEnqueue && !(first.state.framePending && onWire) {
      AdvanceDoes(first.state.(framePending := false), now, can);
    }
  }

  lemma EnqueueGrants(s: TxState, now: U32, can: CanReply)
    ensures var step := Enqueue(s, now, can);
            && SameGrant(s, step.state) && step.state.offset == s.offset
            && (step.result == Fine ==> step.state.ongoing == s.ongoing)
  {}

  lemma AdvanceDoes(s: TxState, now: U32, can: CanReply)
    requires Sendable(s) && s.ongoing && Advance(s, now, can).result != Timeout
    ensures PollDid(s, Advance(s, now, can).state)
  {
    hide Reached, ConsecutiveFrame, Enqueue, TooSoon;
    var chunk := CfChunk(s);
    var built := s.(offset := s.offset + |chunk|, sn := (s.sn + 1) % 16,
                    sentInBlock := (s.sentInBlock + 1) % 0x1_0000, hasSentCf := true, lastCf := now)
                  .(pendingFrame := ConsecutiveFrame(s.sn, chunk, s.config.padding),
                    waitingEnqueue := true, enqueueDeadline := Later(now, s.config.nAs));
    EnqueueGrants(built, now, can);
    NoInstantTimeout(built, now, can);
  }

  lemma NoInstantTimeout(s: TxState, now: U32, can: CanReply)
    requires s.enqueueDeadline == Later(now, s.config.nAs)
    ensures Enqueue(s, now, can).result == Fine
  {}

  /** The frames of a poll without timeout, counted. */
  lemma PollBuilds(s: TxState, sent: seq<Frame>, data: seq<Byte>, k: nat, e: Sender.TxEvent)
    requires Sender.Building(s, sent, data, k) && Sendable(s) && e.Polled?
    requires Sender.Apply(s, e).result != Timeout
    ensures var step := Sender.Apply(s, e); var sent' := sent + step.sent;
            var k' := if step.state.offset > s.offset then k + 1 else k;
            && sent' <= Packed(data, s.config.padding)
            && |sent'| == (if step.state.waitingEnqueue then k' - 1 else k')
            && if step.state.ongoing then Sender.Building(step.state, sent', data, k')
               else k' == FrameCount(|data|) && !step.state.waitingEnqueue
  {
    hide NthFrame, FrameCount, Carried, Packed, Enqueue, Advance, Reached, TooSoon;
    var first := Enqueue(s, e.now, e.retry);
    Sender.EnqueueKeeps(s, sent, data, k, e.now, e.retry);
    EnqueueGrants(s, e.now, e.retry);
    BuildingCounts(s, sent, data, k);
    if first.result == Fine {
      BuildingCounts(first.state, sent + first.sent, data, k);
      if !first.state.waitingEnqueue && !(first.state.framePending && e.onWire) {
        var ready := first.state.(framePending := false);
        var accepted := sent + first.sent;
        assert Sender.Building(ready, accepted, data, k);
        AdvanceBuilds(ready, accepted, data, k, e.now, e.can);
        var rest := Advance(ready, e.now, e.can);
        assert accepted + rest.sent == sent + (first.sent + rest.sent);
      }
    }
  }

  lemma BuildingCounts(s: TxState, sent: seq<Frame>, data: seq<Byte>, k: nat)
    requires Sender.Building(s, sent, data, k)
    ensures sent <= Packed(data, s.config.padding) && |sent| == (if s.waitingEnqueue then k - 1 else k)
    ensures s.offset >= |data| <==> k == FrameCount(|data|)
  {
    hide NthFrame, FrameCount, Carried;
    CarriedBounds(|data|, k);
  }

  lemma AdvanceBuilds(s: TxState, sent: seq<Frame>, data: seq<Byte>, k: nat, now: U32, can: CanReply)
    requires Sender.Building(s, sent, data, k) && Sendable(s) && !s.waitingEnqueue
    requires Advance(s, now, can).result != Timeout
    ensures var step := Advance(s, now, can); var sent' := sent + step.sent;
            var k' := if step.state.offset > s.offset then k + 1 else k;
            && sent' <= Packed(data, s.config.padding)
            && |sent'| == (if step.state.waitingEnqueue then k' - 1 else k')
            && if step.state.ongoing then Sender.Building(step.state, sent', data, k')
               else k' == FrameCount(|data|) && !step.state.waitingEnqueue
  {
    hide NthFrame, FrameCount, Carried, Packed, SendCf, Reached, TooSoon, Later;
    AdvanceDoes(s, now, can);
    BuildingCounts(s, sent, data, k);
    var step := Advance(s, now, can);
    if step.state.offset > s.offset {
      Sender.SendCfKeeps(s, sent, data, k, now, can);
      BuildingCounts(step.state, sent + step.sent, data, k + 1);
    } else {
      assert sent + [] == sent;
      assert step.state.ongoing ==> Sender.Building(step.state, sent, data, k);
    }
  }

  lemma TxPollsKeep(l: Link, e: LinkEvent, data: seq<Byte>)
    requires Runnable(l) && InStep(l, data) && e.TxPolls? && Next(l, e).1 != Timeout
    ensures InStep(Next(l, e).0, data)
  {
    hide Poll, Packed, Sender.Building, Carried, FrameCount, Delivered, Receiving;
    var l' := Next(l, e).0;
    if l.tx.ongoing {
      PollBuilds(l.tx, l.sent, data, l.built, Sender.Polled(e.now, e.retry, e.onWire, e.can));
      PollDoes(l.tx, e.now, e.retry, e.onWire, e.can);
      BuildingPayload(l.tx, l.sent, data, l.built);
      BuildingCounts(l.tx, l.sent, data, l.built);
      assert SenderPart(l', data);
      PollKeepsHandshake(l, l', data);
    } else {
      IdlePoll(l.tx, e.now, e.retry, e.onWire, e.can);
      assert l.sent + [] == l.sent;
    }
  }

  lemma IdlePoll(s: TxState, now: U32, retry: CanReply, onWire: bool, can: CanReply)
    requires Sendable(s) && !s.ongoing
    ensures Poll(s, now, retry, onWire, can) == TxStep(s, Fine, [])
  {}

  lemma BuildingPayload(s: TxState, sent: seq<Frame>, data: seq<Byte>, k: nat)
    requires Sender.Building(s, sent, data, k)
    ensures s.payload == data && 1 <= k <= FrameCount(|data|) && s.ongoing
  {}

  lemma PollKeepsHandshake(l: Link, l': Link, data: seq<Byte>)
    requires InStep(l, data) && l.tx.ongoing && l.tx.payload == data && PollDid(l.tx, l'.tx)
    requires l'.rx == l.rx && l'.back == l.back && l'.got == l.got && l'.granted == l.granted && l'.base == l.base
    requires l'.built == if l'.tx.offset > l.tx.offset then l.built + 1 else l.built
    requires l.tx.offset >= |data| <==> l.built == FrameCount(|data|)
    ensures HandshakePart(l', FrameCount(|data|))
  {
    hide Packed, Sender.Building, Carried, Delivered, Receiving, ReceiverPart, FrameCount;
    FrameCountBound(|data|);
  }

  lemma FrameCountBound(n: nat)
    ensures n <= MAX_SINGLE ==> FrameCount(n) == 1
    ensures MAX_SINGLE < n <= MAX_TOTAL ==> 2 <= FrameCount(n) <= 586
  {}

  // ---- Receiver polls and flow control ----

  /** A receiver poll without timeout only moves the waiting flow control frame. */
  lemma RxPollDoes(s: RxState, now: U32, can: CanReply, onWire: bool)
    requires Receivable(s) && RxPoll(s, now, can, onWire).result != Timeout
    ensures var step := RxPoll(s, now, can, onWire); var s' := step.state;
            && s'.config == s.config && s'.buffer == s.buffer && s'.declared == s.declared
            && s'.received == s.received && s'.expectedSn == s.expectedSn && s'.cfInBlock == s.cfInBlock
            && s'.inProgress == s.inProgress && s'.ready == s.ready && s'.messageLength == s.messageLength
            && s'.fcFrame == s.fcFrame
            && ((step.sent == [] && s'.fcWaiting == s.fcWaiting)
                || (step.sent == [s.fcFrame] && s.fcWaiting && !s'.fcWaiting))
  {
    hide Reached, Later;
  }

  lemma RxPollsKeep(l: Link, e: LinkEvent, data: seq<Byte>)
    requires Runnable(l) && InStep(l, data) && e.RxPolls? && Next(l, e).1 != Timeout
    ensures InStep(Next(l, e).0, data)
  {
    hide RxPoll, Packed, Sender.Building, Carried, FrameCount, SenderPart;
    RxPollDoes(l.rx, e.now, e.can, e.onWire);
    var l' := Next(l, e).0;
    assert SenderPart(l', data) by { SenderPartIgnoresReceiver(l, l', data); }
    assert l.back + [] == l.back;
  }

  lemma SenderPartIgnoresReceiver(l: Link, l': Link, data: seq<Byte>)
    requires SenderPart(l, data)
    requires l'.tx == l.tx && l'.sent == l.sent && l'.built == l.built && l.got <= l'.got <= |l.sent|
    ensures SenderPart(l', data)
  {
    hide Packed, Sender.Building, FrameCount;
  }

  lemma ClearToSendContents(l: Link)
    ensures Pci(ClearToSend(l)) == PCI_FC && Low(ClearToSend(l)) == FC_CTS
    ensures ClearToSend(l)[1] == l.rx.config.blockSize && ClearToSend(l)[2] == l.rx.config.stmin
  {}

  /** Flow control arrives only when the sender expects it, and is accepted. */
  lemma FlowArrivesKeep(l: Link, e: LinkEvent, data: seq<Byte>)
    requires Runnable(l) && InStep(l, data) && e.FlowArrives? && Enabled(l, e)
    ensures Next(l, e).1 == Fine && InStep(Next(l, e).0, data)
  {
    hide Packed, Sender.Building, Carried, FrameCount, SenderPart, ReceiverPart, ClearToSend, Pci, Low, Later;
    var l' := Next(l, e).0;
    FlowGranted(l, e, data);
    assert SenderPart(l', data) by { GrantKeepsSenderPart(l, l', data); }
    assert ReceiverPart(l', data) by { ReceiverPartIgnoresSender(l, l', data); }
    GrantBlocks(l, l', data);
  }

  lemma FlowGranted(l: Link, e: LinkEvent, data: seq<Byte>)
    requires Runnable(l) && InStep(l, data) && e.FlowArrives? && Enabled(l, e)
    ensures l.back == [ClearToSend(l)] && l.tx.ongoing && (l.tx.waitingFc || BlockFull(l.tx)) && |data| > MAX_SINGLE
    ensures var step := OnFrame(l.tx, ClearToSend(l), e.now);
            && step.result == Fine
            && step.state == l.tx.(blockSize := BlockSize(l), stmin := l.rx.config.stmin, waitingFc := false,
                                   waitingAfterBlock := false, sentInBlock := 0,
                                   deadline := Later(e.now, l.tx.config.nAs))
  {
    hide Packed, Sender.Building, Carried, FrameCount, ReceiverPart, ClearToSend, Pci, Low, Later;
    ClearToSendContents(l);
    FrameCountBound(|data|);
  }

  lemma GrantKeepsSenderPart(l: Link, l': Link, data: seq<Byte>)
    requires SenderPart(l, data) && l.tx.ongoing && Sendable(l'.tx)
    requires l'.sent == l.sent && l'.built == l.built && l'.got == l.got
    requires l'.tx.ongoing && l'.tx.payload == l.tx.payload && l'.tx.offset == l.tx.offset && l'.tx.sn == l.tx.sn
    requires l'.tx.waitingEnqueue == l.tx.waitingEnqueue && l'.tx.pendingFrame == l.tx.pendingFrame
    requires l'.tx.config == l.tx.config
    ensures SenderPart(l', data)
  {
    hide Packed, NthFrame, Carried, FrameCount;
  }

  lemma ReceiverPartIgnoresSender(l: Link, l': Link, data: seq<Byte>)
    requires ReceiverPart(l, data) && l'.rx == l.rx && l'.got == l.got
    ensures ReceiverPart(l', data)
  {
    hide Carried, FrameCount;
  }

  lemma GrantBlocks(l: Link, l': Link, data: seq<Byte>)
    requires InStep(l, data) && l.back == [ClearToSend(l)] && l.tx.ongoing && |data| > MAX_SINGLE
    requires l'.rx == l.rx && l'.got == l.got && l'.built == l.built && l'.back == [] && l'.granted
    requires l'.base == l.base + l.tx.sentInBlock && l'.tx.sentInBlock == 0 && l'.tx.ongoing && !l'.tx.waitingFc
    requires l'.tx.blockSize == BlockSize(l) && l'.tx.stmin == l.rx.config.stmin
    ensures HandshakePart(l', FrameCount(|data|))
  {
    hide Packed, Sender.Building, Carried, FrameCount, ReceiverPart, ClearToSend;
    if BlockSize(l) > 0 && l.granted {
      NextBase(l.base, BlockSize(l));
    }
  }

  lemma NextBase(base: nat, size: nat)
    requires size > 0 && base % size == 0
    ensures (base + size) % size == 0
  {
    ModShift(base, size);
  }

  /** Adding the modulus changes no remainder. */
  lemma ModShift(n: nat, size: nat)
    requires size > 0
    ensures (n + size) % size == n % size
  {
    var q, r := n / size, n % size;
    var q', r' := (n + size) / size, (n + size) % size;
    assert n == size * q + r && n + size == size * q' + r';
    assert size * (q + 1) == size * q + size;
    if q + 1 < q' {
      Grows(size, q + 1, q');
    } else if q' < q + 1 {
      Grows(size, q', q + 1);
    }
  }

  lemma {:induction false} Grows(size: nat, low: nat, high: nat)
    requires low < high
    ensures size * high >= size * low + size
    decreases high - low
  {
    if low + 1 < high {
      Grows(size, low, high - 1);
    }
    assert size * high == size * (high - 1) + size;
  }

  // ---- Frames reaching the receiver ----

  /** Sending flow control leaves it waiting for the driver or under way. */
  lemma SendFcDoes(s: RxState, status: Nibble, now: U32, can: CanReply)
    ensures var step := SendFc(s, status, now, can); var s' := step.state;
            var f := FlowControl(status, s.config.blockSize, s.config.stmin, s.config.padding);
            && s'.config == s.config && s'.buffer == s.buffer && s'.declared == s.declared
            && s'.received == s.received && s'.expectedSn == s.expectedSn && s'.cfInBlock == s.cfInBlock
            && s'.inProgress == s.inProgress && s'.ready == s.ready && s'.messageLength == s.messageLength
            && s'.fcFrame == f
            && ((step.sent == [] && s'.fcWaiting) || (step.sent == [f] && !s'.fcWaiting))
  {
    hide FlowControl;
  }

  /** The frame under way is the one the receiver is waiting for. */
  lemma ArrivingFrame(l: Link, data: seq<Byte>)
    requires InStep(l, data) && l.got < |l.sent|
    ensures l.got < FrameCount(|data|) && l.sent[l.got] == NthFrame(data, l.got, l.tx.config.padding)
    ensures 1 <= |data| <= MAX_TOTAL && (l.got > 0 ==> |data| > MAX_SINGLE)
  {
    hide NthFrame, Sender.Building, Carried, ReceiverPart, HandshakePart, FrameCount;
    FrameCountBound(|data|);
  }

  lemma SingleArrives(l: Link, e: LinkEvent, data: seq<Byte>)
    requires Runnable(l) && InStep(l, data) && e.FrameArrives? && Enabled(l, e) && |data| <= MAX_SINGLE
    ensures Next(l, e).1 == Fine && InStep(Next(l, e).0, data)
  {
    hide NthFrame, Packed, Sender.Building, Carried, SenderPart, Low, Pci;
    ArrivingFrame(l, data);
    var f := l.sent[l.got];
    FrameContents(data, l.got, l.tx.config.padding);
    var l' := Next(l, e).0;
    assert SenderPart(l', data) by { SenderPartIgnoresReceiver(l, l', data); }
    assert Written(l.rx.buffer, 0, f[1..1 + |data|])[..|data|] == data;
    assert l.back + [] == l.back;
  }

  lemma FirstArrives(l: Link, e: LinkEvent, data: seq<Byte>)
    requires Runnable(l) && InStep(l, data) && e.FrameArrives? && Enabled(l, e) && |data| > MAX_SINGLE && l.got == 0
    ensures Next(l, e).1 == Fine && InStep(Next(l, e).0, data)
  {
    hide NthFrame, Packed, Sender.Building, SenderPart, Low, Pci, SendFc, FrameCount, FlowControl;
    ArrivingFrame(l, data);
    FrameCountBound(|data|);
    var f := l.sent[l.got];
    FrameContents(data, 0, l.tx.config.padding);
    var l' := Next(l, e).0;
    assert SenderPart(l', data) by { SenderPartIgnoresReceiver(l, l', data); }
    var begun := l.rx.(declared := |data|, buffer := Written(l.rx.buffer, 0, f[2..]), received := MAX_FIRST,
                       expectedSn := 1, cfInBlock := 0, inProgress := true);
    assert begun.buffer[..MAX_FIRST] == data[..MAX_FIRST];
    SendFcDoes(begun, FC_CTS, e.now, e.can);
    assert l.back == [];
  }

  /** Storing an expected consecutive frame, seen by the reception. */
  lemma ConsecutiveStored(l: Link, e: LinkEvent, data: seq<Byte>)
    requires Runnable(l) && InStep(l, data) && e.FrameArrives? && Enabled(l, e) && l.got > 0
    ensures |data| > MAX_SINGLE && l.rx.inProgress && l.got < FrameCount(|data|)
    ensures Pci(l.sent[l.got]) == PCI_CF && Low(l.sent[l.got]) == l.rx.expectedSn
    ensures var s := Stored(l.rx, l.sent[l.got], e.now);
            && s.declared == |data| && s.received == Carried(|data|, l.got + 1) <= |s.buffer|
            && s.expectedSn == (l.got + 1) % 16 && s.buffer[..s.received] == data[..s.received]
            && !s.ready && |s.buffer| == |l.rx.buffer|
            && s.config == l.rx.config && s.fcWaiting == l.rx.fcWaiting && s.fcFrame == l.rx.fcFrame
            && s.cfInBlock == (l.rx.cfInBlock + 1) % 256
            && (s.received >= |data| <==> l.got + 1 == FrameCount(|data|))
  {
    hide NthFrame, Packed, Sender.Building, SenderPart, Low, Pci, FrameCount, Carried, FlowControl, HandshakePart;
    ArrivingFrame(l, data);
    FrameContents(data, l.got, l.tx.config.padding);
    CarriedBounds(|data|, l.got + 1);
    Receiver.StoringFits(l.rx, data, l.got, l.got, l.got, l.tx.config.padding, e.now);
  }

  lemma ConsecutiveArrives(l: Link, e: LinkEvent, data: seq<Byte>)
    requires Runnable(l) && InStep(l, data) && e.FrameArrives? && Enabled(l, e) && l.got > 0
    ensures Next(l, e).1 == Fine && InStep(Next(l, e).0, data)
  {
    hide NthFrame, Packed, Sender.Building, SenderPart, Low, SendFc, FrameCount, FlowControl, Stored, Carried,
         HandshakePart;
    ConsecutiveStored(l, e, data);
    var stored := Stored(l.rx, l.sent[l.got], e.now);
    SendFcDoes(stored.(cfInBlock := 0), FC_CTS, e.now, e.can);
    var l' := Next(l, e).0;
    assert SenderPart(l', data) by { SenderPartIgnoresReceiver(l, l', data); }
    assert data[..|data|] == data;
    assert ReceiverPart(l', data);
    assert l.back + [] == l.back;
    CfKeepsHandshake(l, l', data);
  }

  lemma CfKeepsHandshake(l: Link, l': Link, data: seq<Byte>)
    requires InStep(l, data) && 0 < l.got < |l.sent| && l.got < FrameCount(|data|) && |data| > MAX_SINGLE
    requires l'.tx == l.tx && l'.sent == l.sent && l'.got == l.got + 1 && l'.built == l.built
    requires l'.granted == l.granted && l'.base == l.base && l'.rx.config == l.rx.config
    requires var cf := (l.rx.cfInBlock + 1) % 256;
             if l'.got == FrameCount(|data|) || BlockSize(l) == 0 || cf < BlockSize(l) then
               l'.back == l.back && l'.rx.fcWaiting == l.rx.fcWaiting && l'.rx.fcFrame == l.rx.fcFrame
               && l'.rx.cfInBlock == cf
             else
               l'.rx.cfInBlock == 0 && l'.rx.fcFrame == ClearToSend(l)
               && ((l'.back == l.back && l'.rx.fcWaiting)
                   || (l'.back == l.back + [ClearToSend(l)] && !l'.rx.fcWaiting))
    ensures HandshakePart(l', FrameCount(|data|))
  {
    hide Packed, Sender.Building, FrameCount, FlowControl, Carried, ReceiverPart;
    assert l.granted;
    assert !FlowPending(l);
  }

  lemma FrameArrivesKeep(l: Link, e: LinkEvent, data: seq<Byte>)
    requires Runnable(l) && InStep(l, data) && e.FrameArrives? && Enabled(l, e)
    ensures Next(l, e).1 == Fine && InStep(Next(l, e).0, data)
  {
    hide Next, InStep, Runnable;
    if |data| <= MAX_SINGLE {
      SingleArrives(l, e, data);
    } else if l.got == 0 {
      FirstArrives(l, e, data);
    } else {
      ConsecutiveArrives(l, e, data);
    }
  }

  // ---- Every run ----

  /** No event of the run is impossible and no call in it reports a timeout. */
  ghost predicate Timely(l: Link, events: seq<LinkEvent>)
    requires Runnable(l)
    decreases events
  {
    events == [] ||
    (Enabled(l, events[0]) && Next(l, events[0]).1 != Timeout && Timely(Next(l, events[0]).0, events[1..]))
  }

  function After(l: Link, events: seq<LinkEvent>): (l': Link)
    requires Runnable(l) && Timely(l, events)
    ensures Runnable(l') && l'.rx.config == l.rx.config
    decreases events
  {
    if events == [] then l else After(Next(l, events[0]).0, events[1..])
  }

  lemma StepKeeps(l: Link, e: LinkEvent, data: seq<Byte>)
    requires Runnable(l) && InStep(l, data) && Enabled(l, e) && Next(l, e).1 != Timeout
    ensures InStep(Next(l, e).0, data)
    ensures e.FrameArrives? || e.FlowArrives? ==> Next(l, e).1 == Fine
  {
    hide Next, InStep, Runnable;
    match e
    case TxPolls(_, _, _, _) => TxPollsKeep(l, e, data);
    case RxPolls(_, _, _) => RxPollsKeep(l, e, data);
    case FrameArrives(_, _) => FrameArrivesKeep(l, e, data);
    case FlowArrives(_) => FlowArrivesKeep(l, e, data);
  }

  /** Block counters and contents stay in step over every run without timeouts. */
  lemma {:induction false} RunsStayInStep(l: Link, events: seq<LinkEvent>, data: seq<Byte>)
    requires Runnable(l) && InStep(l, data) && Timely(l, events)
    ensures InStep(After(l, events), data)
    decreases events
  {
    hide Next, InStep, Runnable;
    if events != [] {
      StepKeeps(l, events[0], data);
      RunsStayInStep(Next(l, events[0]).0, events[1..], data);
    }
  }

  /** Number of consecutive frames of a payload. */
  function CfCount(data: seq<Byte>): nat { FrameCount(|data|) - 1 }

  /** The sender is left waiting for a flow control frame that nobody owes it. */
  predicate EndsWaiting(blockSize: Byte, cfs: nat) {
    blockSize > 0 && cfs > 0 && cfs % blockSize == 0
  }

  /** Once nothing is under way, the receiver holds exactly the payload. The sender has finished
      exactly when BS is 0 or does not divide the number of consecutive frames. */
  lemma SettledMeansDelivered(l: Link, data: seq<Byte>)
    requires Runnable(l) && InStep(l, data) && Settled(l)
    ensures Delivered(l.rx, data) && l.sent == Packed(data, l.tx.config.padding)
    ensures l.tx.ongoing <==> EndsWaiting(BlockSize(l), CfCount(data))
    ensures l.tx.ongoing ==> l.tx.waitingFc && l.tx.waitingAfterBlock
  {
    hide Packed, Sender.Building, FrameCount, FlowControl, Carried, Receiving, Delivered;
    FrameCountBound(|data|);
    if |data| > MAX_SINGLE && BlockSize(l) > 0 {
      if l.tx.ongoing {
        NextBase(l.base, BlockSize(l));
      } else {
        PartialBlock(l.base, l.tx.sentInBlock, BlockSize(l));
      }
    }
    assert l.got == FrameCount(|data|);
    assert l.sent == Packed(data, l.tx.config.padding)[..|l.sent|];
  }

  /** In that case delivery has succeeded, and yet the sender's polls end in a timeout once the deadline
      of its last wait has come, and not before. */
  lemma TimesOutThoughDelivered(l: Link, data: seq<Byte>, e: LinkEvent)
    requires Runnable(l) && InStep(l, data) && Settled(l) && EndsWaiting(BlockSize(l), CfCount(data))
    requires e.TxPolls? && !e.onWire
    ensures Delivered(Next(l, e).0.rx, data)
    ensures if Reached(e.now, l.tx.deadline) then Next(l, e).1 == Timeout && !Next(l, e).0.tx.ongoing
            else Next(l, e).1 == Fine && Settled(Next(l, e).0) && Next(l, e).0.tx.ongoing
  {
    hide InStep, Delivered, CfCount, Reached, EndsWaiting, SendCf;
    SettledMeansDelivered(l, data);
  }

  lemma {:induction false} PartialBlock(base: nat, extra: nat, size: nat)
    requires 0 < extra < size && base % size == 0
    ensures (base + extra) % size == extra
    decreases base
  {
    if base >= size {
      ModShift(base - size, size);
      PartialBlock(base - size, extra, size);
      ModShift(base - size + extra, size);
    } else {
      SmallMod(base, size);
      SmallMod(base + extra, size);
    }
  }

  lemma SmallMod(n: nat, size: nat)
    requires n < size
    ensures n % size == n
  {}

  // ---- Progress ----

  /** Work left: frames to build, accept and deliver, flow control to hand over and deliver, and the
      sender's own next step. */
  function Rank(l: Link, count: nat): int {
    7 * (count - l.built) + (if l.tx.waitingEnqueue then 6 else 0) + 5 * (|l.sent| - l.got)
    + (if l.rx.fcWaiting then 3 else 0) + 2 * |l.back| + (if l.tx.ongoing && !l.tx.waitingFc then 1 else 0)
  }

  lemma RankIsNatural(l: Link, data: seq<Byte>)
    requires InStep(l, data)
    ensures Rank(l, FrameCount(|data|)) >= 0
  {
    hide Packed, Sender.Building, FrameCount, ReceiverPart, HandshakePart;
  }

  /** No event without timeout adds work. */
  lemma RankNeverGrows(l: Link, e: LinkEvent, data: seq<Byte>)
    requires Runnable(l) && InStep(l, data) && Enabled(l, e) && Next(l, e).1 != Timeout
    ensures Rank(Next(l, e).0, FrameCount(|data|)) <= Rank(l, FrameCount(|data|))
    ensures e.FrameArrives? || e.FlowArrives? ==> Rank(Next(l, e).0, FrameCount(|data|)) < Rank(l, FrameCount(|data|))
  {
    hide Poll, RxPoll, Accept, OnFrame, Packed, Sender.Building, FrameCount, Carried, FlowControl, Delivered, Receiving;
    match e
    case TxPolls(_, _, _, _) => PollNeverAddsWork(l, e, data);
    case RxPolls(now, can, onWire) => RxPollDoes(l.rx, now, can, onWire);
    case FrameArrives(now, can) => AcceptAnswers(l.rx, l.sent[l.got], now, can);
    case FlowArrives(_) => FlowGranted(l, e, data);
  }

  lemma PollNeverAddsWork(l: Link, e: LinkEvent, data: seq<Byte>)
    requires Runnable(l) && InStep(l, data) && e.TxPolls? && Next(l, e).1 != Timeout
    ensures Rank(Next(l, e).0, FrameCount(|data|)) <= Rank(l, FrameCount(|data|))
  {
    hide Poll, Packed, Sender.Building, FrameCount, Carried, ReceiverPart, HandshakePart;
    if l.tx.ongoing {
      PollBuilds(l.tx, l.sent, data, l.built, Sender.Polled(e.now, e.retry, e.onWire, e.can));
      PollDoes(l.tx, e.now, e.retry, e.onWire, e.can);
      PollWaits(l.tx, e.now, e.retry, e.onWire, e.can);
    } else {
      IdlePoll(l.tx, e.now, e.retry, e.onWire, e.can);
    }
  }

  /** A frame is accepted by the driver in the poll that ends its wait, and a poll builds at most one. */
  lemma PollWaits(s: TxState, now: U32, retry: CanReply, onWire: bool, can: CanReply)
    requires Sendable(s)
    ensures var step := Poll(s, now, retry, onWire, can);
            step.state.waitingEnqueue && step.state.offset == s.offset ==> s.waitingEnqueue && step.sent == []
  {
    hide Reached, Later, ConsecutiveFrame;
  }

  /** A frame causes at most one flow control frame. */
  lemma AcceptAnswers(s: RxState, f: Frame, now: U32, can: CanReply)
    requires Receivable(s)
    ensures var step := Accept(s, f, now, can);
            (if step.state.fcWaiting then 3 else 0) + 2 * |step.sent| <= (if s.fcWaiting then 3 else 0) + 3
  {
    hide Reached, Later, FlowControl, Pci, Low, Declared, Written, Receivable, Stored, Cleared;
  }

  function TickOf(e: LinkEvent): U32 { e.now }

  /** A running sender has passed STmin now or at the latest STmin milliseconds from now. */
  lemma SoonAllowed(s: TxState, time: nat) returns (later: nat)
    ensures time <= later <= time + s.stmin && !TooSoon(s, Tick(later))
  {
    later := time;
    if TooSoon(s, Tick(time)) {
      later := time + s.stmin;
      var d := Elapsed(Tick(time), s.lastCf);
      var turns := time / 0x1_0000_0000 - later / 0x1_0000_0000;
      WholeTurns(Tick(time) - s.lastCf + s.stmin, turns);
      WholeTurns(d + s.stmin, (Tick(time) - s.lastCf) / 0x1_0000_0000);
    }
  }

  /** An unsettled link has an event that completes work without any timeout, at most STmin milliseconds
      after any given time. */
  lemma ProgressIsPossible(l: Link, data: seq<Byte>, time: nat) returns (e: LinkEvent, at: nat)
    requires Runnable(l) && InStep(l, data) && !Settled(l)
    ensures time <= at <= time + l.tx.stmin && TickOf(e) == Tick(at)
    ensures Enabled(l, e) && Next(l, e).1 != Timeout
    ensures Rank(Next(l, e).0, FrameCount(|data|)) < Rank(l, FrameCount(|data|))
  {
    hide Packed, Sender.Building, FrameCount, Carried, FlowControl, Delivered, Receiving, Poll, RxPoll, Accept, OnFrame,
      TooSoon, Tick;
    var yes := CanReply(true, true);
    at := SoonAllowed(l.tx, time);
    var now := Tick(at);
    if l.got < |l.sent| {
      e := FrameArrives(now, yes);
      FrameArrivesKeep(l, e, data);
      RankNeverGrows(l, e, data);
    } else if l.back != [] {
      e := FlowArrives(now);
      FlowArrivesKeep(l, e, data);
      RankNeverGrows(l, e, data);
    } else if l.rx.fcWaiting {
      e := RxPolls(now, yes, false);
      FlowHandedOver(l.rx, now);
    } else if l.tx.waitingEnqueue {
      e := TxPolls(now, yes, true, yes);
      WaitingHandedOver(l.tx, now);
    } else {
      e := TxPolls(now, yes, false, yes);
      PollMoves(l.tx, now);
      RankNeverGrows(l, e, data);
      PollBuilds(l.tx, l.sent, data, l.built, Sender.Polled(now, yes, false, yes));
      PollDoes(l.tx, now, yes, false, yes);
    }
  }

  lemma FlowHandedOver(s: RxState, now: U32)
    requires Receivable(s) && s.fcWaiting
    ensures var step := RxPoll(s, now, CanReply(true, true), false);
            step.result == Fine && !step.state.fcWaiting && |step.sent| == 1
  {}

  lemma WaitingHandedOver(s: TxState, now: U32)
    requires Sendable(s) && s.ongoing && s.waitingEnqueue
    ensures var step := Poll(s, now, CanReply(true, true), true, CanReply(true, true));
            && step.result == Fine && step.state.offset == s.offset && !step.state.waitingEnqueue
            && |step.sent| == 1 && step.state.ongoing && step.state.waitingFc == s.waitingFc
  {}

  /** Once STmin has passed, a running sender that waits for nothing takes its next step. */
  lemma PollMoves(s: TxState, now: U32)
    requires Sendable(s) && s.ongoing && !s.waitingEnqueue && !s.waitingFc && !TooSoon(s, now)
    ensures var yes := CanReply(true, true); var step := Poll(s, now, yes, false, yes);
            && step.result == Fine
            && (!step.state.ongoing || step.state.waitingFc || (step.state.offset > s.offset && !step.state.waitingEnqueue))
  {
    hide ConsecutiveFrame;
  }

  /** The events happen at these true times, in order, not before `from`. */
  ghost predicate Clocked(events: seq<LinkEvent>, times: seq<nat>, from: nat) {
    && |times| == |events|
    && (forall i :: 0 <= i < |events| ==> TickOf(events[i]) == Tick(times[i]) && from <= times[i])
    && (forall i, j :: 0 <= i < j < |times| ==> times[i] <= times[j])
  }

  lemma ClockedGrows(e: LinkEvent, at: nat, events: seq<LinkEvent>, times: seq<nat>, from: nat)
    requires from <= at && TickOf(e) == Tick(at) && Clocked(events, times, at)
    ensures Clocked([e] + events, [at] + times, from)
  {}

  /** From every reachable link and every time on, some timely run settles it: nothing is ever stuck. */
  lemma {:induction false} CanAlwaysSettle(l: Link, data: seq<Byte>, time: nat)
    returns (events: seq<LinkEvent>, times: seq<nat>)
    requires Runnable(l) && InStep(l, data)
    ensures Timely(l, events) && Settled(After(l, events)) && Clocked(events, times, time)
    decreases Rank(l, FrameCount(|data|))
  {
    hide Next, InStep, Rank, FrameCount, Settled, Runnable, Clocked, TickOf;
    RankIsNatural(l, data);
    if Settled(l) {
      events, times := [], [];
      assert Clocked(events, times, time) by { NothingClocked(time); }
    } else {
      var e, at := ProgressIsPossible(l, data, time);
      StepKeeps(l, e, data);
      RankIsNatural(Next(l, e).0, data);
      var rest, later := CanAlwaysSettle(Next(l, e).0, data, at);
      ClockedGrows(e, at, rest, later, time);
      events, times := [e] + rest, [at] + later;
      assert events[1..] == rest;
    }
  }

  lemma NothingClocked(from: nat)
    ensures Clocked([], [], from)
  {}

  /** The whole story: from a fresh start, every timely run can be completed from any time on, and
      whenever nothing is left under way the receiver holds exactly the payload, while the sender has
      finished exactly when BS is 0 or does not divide the number of consecutive frames. */
  lemma TransferDelivers(tx: TxState, rx: RxState, data: seq<Byte>, now: U32, can: CanReply, events: seq<LinkEvent>, time: nat)
    returns (rest: seq<LinkEvent>, times: seq<nat>)
    requires !tx.ongoing && 1 <= |data| <= MAX_TOTAL
    requires Receivable(rx) && !rx.inProgress && !rx.ready && !rx.fcWaiting && |data| <= |rx.buffer|
    requires Runnable(Begun(tx, rx, data, now, can)) && Timely(Begun(tx, rx, data, now, can), events)
    ensures var l := After(Begun(tx, rx, data, now, can), events);
            && (Settled(l) ==> Delivered(l.rx, data)
                               && (l.tx.ongoing <==> EndsWaiting(rx.config.blockSize, CfCount(data))))
            && Timely(l, rest) && Clocked(rest, times, time)
            && Settled(After(l, rest)) && Delivered(After(l, rest).rx, data)
  {
    hide Next, InStep, Rank, FrameCount, Settled, Runnable, Start, Delivered, After, Timely, Clocked;
    var begun := Begun(tx, rx, data, now, can);
    StartsInStep(tx, rx, data, now, can);
    RunsStayInStep(begun, events, data);
    var l := After(begun, events);
    if Settled(l) {
      SettledMeansDelivered(l, data);
    }
    rest, times := CanAlwaysSettle(l, data, time);
    RunsStayInStep(l, rest, data);
    SettledMeansDelivered(After(l, rest), data);
  }
}
