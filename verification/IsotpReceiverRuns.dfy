/** One transfer over a channel that may drop frames: all of the payload arrives, or none. */
module IsotpReceiverRuns {
  import opened Bytes
  import opened IsotpFrames
  import opened IsotpTx
  import opened IsotpRx
  import Sender = IsotpSenderRuns

  /** A frame of the payload arrives, by its number; the main loop polls; the application reads. */
  datatype RxEvent =
    | Arrives(index: nat, now: U32, can: CanReply)
    | Polls(now: U32, can: CanReply, onWire: bool)
    | Reads(capacity: nat)

  /** `overran` tells that a frame was written past the end of the buffer, after which nothing is said. */
  datatype RxRun = RxRun(state: RxState, delivered: seq<seq<Byte>>, overran: bool)

  /** Frames keep their order and are not repeated, but any of them may be missing. `next` is the
      smallest number that may still arrive. */
  predicate InOrder(events: seq<RxEvent>, next: nat, count: nat) {
    events == [] ||
    var e := events[0];
    && (e.Arrives? ==> next <= e.index < count)
    && InOrder(events[1..], if e.Arrives? then e.index + 1 else next, count)
  }

  predicate AnyArrives(events: seq<RxEvent>) {
    exists i :: 0 <= i < |events| && events[i].Arrives?
  }

  function Apply(r: RxRun, e: RxEvent, frames: seq<Frame>): (r': RxRun)
    requires Receivable(r.state) && (e.Arrives? ==> e.index < |frames|)
    ensures Receivable(r'.state) && |r'.state.buffer| == |r.state.buffer|
  {
    match e
    case Arrives(index, now, can) =>
      var step := Accept(r.state, frames[index], now, can);
      r.(state := step.state, overran := r.overran || step.result == Overrun)
    case Polls(now, can, onWire) => r.(state := RxPoll(r.state, now, can, onWire).state)
    case Reads(capacity) =>
      match Fetch(r.state, capacity)
      case (s, Ok(message)) => r.(state := s, delivered := r.delivered + [message])
      case (s, Err(_)) => r.(state := s)
  }

  function Run(r: RxRun, events: seq<RxEvent>, next: nat, frames: seq<Frame>): (r': RxRun)
    requires Receivable(r.state) && InOrder(events, next, |frames|)
    ensures Receivable(r'.state) && |r'.state.buffer| == |r.state.buffer|
    decreases events
  {
    if events == [] then r
    else
      var e := events[0];
      Run(Apply(r, e, frames), events[1..], if e.Arrives? then e.index + 1 else next, frames)
  }

  /** A reception that has accepted `k` frames out of the first `next` ones. */
  ghost predicate Receiving(s: RxState, data: seq<Byte>, k: nat, next: nat) {
    && |data| > MAX_SINGLE && 1 <= k <= next && k < FrameCount(|data|)
    && s.declared == |data| && s.received == Carried(|data|, k) && s.expectedSn == k % 16
    && s.received <= |s.buffer|
    && (k == next ==> s.buffer[..s.received] == data[..s.received])
  }

  ghost predicate Complete(s: RxState, data: seq<Byte>) {
    s.messageLength == |data| <= |s.buffer| && s.buffer[..|data|] == data
  }

  /** A buffer that exists and cannot hold this payload, although it comes in a single frame. */
  predicate TooSmall(size: nat, data: seq<Byte>) { 0 < size < |data| <= MAX_SINGLE }

  /** What holds after every event: a gap leaves too few frames to ever complete. */
  ghost predicate Consistent(r: RxRun, data: seq<Byte>, next: nat) {
    && Receivable(r.state) && 1 <= |data| <= MAX_TOTAL && next <= FrameCount(|data|)
    && (r.state.inProgress ==> !r.state.ready && r.delivered == [] && exists k: nat :: Receiving(r.state, data, k, next))
    && (r.state.ready ==> r.delivered == [] && Complete(r.state, data) && next == FrameCount(|data|))
    && (r.delivered == [] || (r.delivered == [data] && next == FrameCount(|data|)))
    && (r.overran <==> TooSmall(|r.state.buffer|, data) && next > 0)
  }

  lemma StoringFits(s: RxState, data: seq<Byte>, k: nat, next: nat, index: nat, padding: Byte, now: U32)
    requires Receivable(s) && s.inProgress && 1 <= |data| <= MAX_TOTAL && Receiving(s, data, k, next)
    requires next <= index < FrameCount(|data|)
    ensures var stored := Stored(s, NthFrame(data, index, padding), now);
            && stored.received == Carried(|data|, k + 1) && stored.expectedSn == (k + 1) % 16
            && (k == index ==> stored.buffer[..stored.received] == data[..stored.received])
  {
    hide NthFrame, Low, Pci, Later, Written, Declared, Carried, FrameCount;
    FrameContents(data, index, padding);
    CarriedBounds(|data|, k);
    if k == index { StoringJoins(s, data, k, NthFrame(data, index, padding)); }
  }

  /** The bytes of the expected frame continue those already stored. */
  lemma StoringJoins(s: RxState, data: seq<Byte>, k: nat, f: Frame)
    requires k < FrameCount(|data|) && Carried(|data|, k) <= Carried(|data|, k + 1) <= |data|
    requires Carried(|data|, k + 1) - Carried(|data|, k) <= 7 && Carried(|data|, k + 1) <= |s.buffer|
    requires var from, till := Carried(|data|, k), Carried(|data|, k + 1);
             s.buffer[..from] == data[..from] && f[1..1 + (till - from)] == data[from..till]
    ensures var from, till := Carried(|data|, k), Carried(|data|, k + 1);
            Written(s.buffer, from, f[1..1 + (till - from)])[..till] == data[..till]
  {
    hide Carried, FrameCount, Written;
    var from, till := Carried(|data|, k), Carried(|data|, k + 1);
    WrittenFront(s.buffer, from, f[1..1 + (till - from)]);
    Joined(data, from, till);
  }

  lemma WrittenFront(buffer: seq<Byte>, at: nat, bytes: seq<Byte>)
    requires at + |bytes| <= |buffer|
    ensures Written(buffer, at, bytes)[..at + |bytes|] == buffer[..at] + bytes
  {}

  lemma Joined(data: seq<Byte>, from: nat, till: nat)
    requires from <= till <= |data|
    ensures data[..from] + data[from..till] == data[..till]
  {}

  lemma ConsecutiveKeeps(r: RxRun, data: seq<Byte>, next: nat, index: nat, padding: Byte, now: U32, can: CanReply)
    requires Consistent(r, data, next) && next <= index < FrameCount(|data|) && |data| > MAX_SINGLE && index > 0
    ensures OnConsecutive(r.state, NthFrame(data, index, padding), now, can).result != Overrun
    ensures Consistent(r.(state := OnConsecutive(r.state, NthFrame(data, index, padding), now, can).state), data, index + 1)
  {
    hide NthFrame, Low, Pci, Later, Stored, SendFc, Carried, FrameCount;
    var s := r.state;
    var f := NthFrame(data, index, padding);
    if s.inProgress && Low(f) == s.expectedSn {
      var k: nat :| Receiving(s, data, k, next);
      StoringFits(s, data, k, next, index, padding, now);
      CarriedBounds(|data|, k);
      CarriedBounds(|data|, k + 1);
      var stored := Stored(s, f, now);
      StoredKeepsRest(s, f, now);
      if stored.received < stored.declared {
        assert Receiving(stored, data, k + 1, index + 1);
        SendFcKeeps(stored.(cfInBlock := 0), data, k + 1, index + 1, now, can);
      } else {
        assert k + 1 == FrameCount(|data|) == index + 1;
      }
    }
  }

  lemma StoredKeepsRest(s: RxState, f: Frame, now: U32)
    requires Receivable(s) && s.inProgress
    ensures Stored(s, f, now).ready == s.ready && |Stored(s, f, now).buffer| == |s.buffer|
  {}

  lemma SendFcKeeps(s: RxState, data: seq<Byte>, k: nat, next: nat, now: U32, can: CanReply)
    requires Receivable(s) && s.inProgress && Receiving(s, data, k, next)
    ensures var s' := SendFc(s, FC_CTS, now, can).state;
            s'.inProgress ==> s'.ready == s.ready && Receiving(s', data, k, next)
    ensures SendFc(s, FC_CTS, now, can).state.ready == s.ready
  {
    hide Carried, FrameCount, Reached, Later;
  }

  lemma FirstKeeps(r: RxRun, data: seq<Byte>, padding: Byte, now: U32, can: CanReply)
    requires Consistent(r, data, 0) && |data| > MAX_SINGLE
    ensures OnFirst(r.state, NthFrame(data, 0, padding), now, can).result != Overrun
    ensures Consistent(r.(state := OnFirst(r.state, NthFrame(data, 0, padding), now, can).state), data, 1)
  {
    hide NthFrame, Later, Low, Pci, Reached;
    var f := NthFrame(data, 0, padding);
    FrameContents(data, 0, padding);
    CarriedBounds(|data|, 0);
    CarriedBounds(|data|, 1);
    var s := r.state;
    assert !s.inProgress && !s.ready;
    if |data| <= |s.buffer| {
      var begun := s.(declared := |data|, buffer := Written(s.buffer, 0, f[2..]), received := MAX_FIRST,
                      expectedSn := 1, cfInBlock := 0, inProgress := true);
      assert begun.buffer[..MAX_FIRST] == f[2..];
      assert Receiving(begun, data, 1, 1);
      SendFcKeeps(begun, data, 1, 1, now, can);
    }
  }

  lemma SingleKeeps(r: RxRun, data: seq<Byte>, padding: Byte)
    requires Consistent(r, data, 0) && |data| <= MAX_SINGLE
    ensures var step := OnSingle(r.state, NthFrame(data, 0, padding));
            Consistent(r.(state := step.state, overran := r.overran || step.result == Overrun), data, 1)
  {
    hide NthFrame, Low, Pci;
    var f := NthFrame(data, 0, padding);
    FrameContents(data, 0, padding);
    var s := r.state;
    if |data| <= |s.buffer| {
      assert Written(s.buffer, 0, f[1..1 + |data|])[..|data|] == f[1..1 + |data|];
    }
  }

  lemma PollKeeps(r: RxRun, data: seq<Byte>, next: nat, now: U32, can: CanReply, onWire: bool)
    requires Consistent(r, data, next)
    ensures Consistent(r.(state := RxPoll(r.state, now, can, onWire).state), data, next)
  {
    hide Carried, FrameCount, Reached, Later;
    var s' := RxPoll(r.state, now, can, onWire).state;
    if s'.inProgress {
      var k: nat :| Receiving(r.state, data, k, next);
      assert Receiving(s', data, k, next);
    }
  }

  lemma FetchKeeps(r: RxRun, data: seq<Byte>, next: nat, capacity: nat, frames: seq<Frame>)
    requires Consistent(r, data, next)
    ensures Consistent(Apply(r, Reads(capacity), frames), data, next)
  {
    hide Carried, FrameCount;
    var s' := Apply(r, Reads(capacity), frames).state;
    if s'.inProgress {
      var k: nat :| Receiving(r.state, data, k, next);
      assert Receiving(s', data, k, next);
    }
  }

  lemma StepKeeps(r: RxRun, data: seq<Byte>, next: nat, e: RxEvent, padding: Byte)
    requires Consistent(r, data, next)
    requires e.Arrives? ==> next <= e.index < FrameCount(|data|)
    ensures Consistent(Apply(r, e, Packed(data, padding)), data, if e.Arrives? then e.index + 1 else next)
  {
    hide Carried, FrameCount, NthFrame, Receiving, RxPoll, OnFirst, OnSingle, OnConsecutive, Consistent, Packed, Low;
    PayloadBounds(r, data, next);
    match e
    case Polls(now, can, onWire) => PollKeeps(r, data, next, now, can, onWire);
    case Reads(capacity) => FetchKeeps(r, data, next, capacity, Packed(data, padding));
    case Arrives(index, now, can) =>
      FrameContents(data, index, padding);
      if index > 0 {
        ManyFrames(data, index);
        ConsecutiveKeeps(r, data, next, index, padding, now, can);
      } else if |data| > MAX_SINGLE {
        FirstKeeps(r, data, padding, now, can);
      } else {
        SingleKeeps(r, data, padding);
      }
  }

  lemma PayloadBounds(r: RxRun, data: seq<Byte>, next: nat)
    requires Consistent(r, data, next)
    ensures 1 <= |data| <= MAX_TOTAL && Receivable(r.state)
  {}

  lemma ManyFrames(data: seq<Byte>, index: nat)
    requires 0 < index < FrameCount(|data|)
    ensures |data| > MAX_SINGLE
  {}

  lemma {:induction false} RunKeeps(r: RxRun, events: seq<RxEvent>, next: nat, data: seq<Byte>, padding: Byte)
    returns (last: nat)
    requires Consistent(r, data, next) && InOrder(events, next, FrameCount(|data|))
    ensures Receivable(r.state) && 1 <= |data| <= MAX_TOTAL
    ensures Consistent(Run(r, events, next, Packed(data, padding)), data, last)
    ensures last > 0 <==> next > 0 || AnyArrives(events)
    decreases events
  {
    hide Carried, FrameCount, NthFrame, Consistent, Packed, Apply, AnyArrives;
    PayloadBounds(r, data, next);
    if events == [] {
      last := next;
      NothingArrives();
    } else {
      var e, frames := events[0], Packed(data, padding);
      var next' := if e.Arrives? then e.index + 1 else next;
      StepKeeps(r, data, next, e, padding);
      last := RunKeeps(Apply(r, e, frames), events[1..], next', data, padding);
      assert Run(r, events, next, frames) == Run(Apply(r, e, frames), events[1..], next', frames);
      ArrivesFirstOrLater(events);
    }
  }

  lemma NothingArrives()
    ensures !AnyArrives([])
  {}

  lemma ArrivesFirstOrLater(events: seq<RxEvent>)
    requires events != []
    ensures AnyArrives(events) <==> events[0].Arrives? || AnyArrives(events[1..])
  {
    if AnyArrives(events[1..]) {
      var i :| 0 <= i < |events| - 1 && events[1..][i].Arrives?;
      assert events[i + 1].Arrives?;
    }
    if i :| 0 < i < |events| && events[i].Arrives? {
      assert events[1..][i - 1].Arrives?;
    }
  }

  /** Over any losses and timeouts, one transfer into an idle receiver delivers exactly the payload,
      at most once, or nothing; wrapped sequence numbers never splice it. The one way to fail is a
      single frame that arrives at a buffer too small for it, which is overrun exactly then. */
  lemma AllOrNothing(s: RxState, events: seq<RxEvent>, data: seq<Byte>, padding: Byte)
    requires Receivable(s) && !s.inProgress && !s.ready && 1 <= |data| <= MAX_TOTAL
    requires InOrder(events, 0, FrameCount(|data|))
    ensures var r := Run(RxRun(s, [], false), events, 0, Packed(data, padding));
            && (r.overran <==> TooSmall(|s.buffer|, data) && AnyArrives(events))
            && (r.delivered == [] || r.delivered == [data])
            && (r.state.ready ==> r.delivered == [] && r.state.buffer[..r.state.messageLength] == data)
  {
    hide Carried, FrameCount, NthFrame, Receiving, Packed, Run, InOrder, AnyArrives;
    var last := RunKeeps(RxRun(s, [], false), events, 0, data, padding);
  }

  // ---- Sender and receiver together ----

  lemma {:induction false} InOrderWeakens(events: seq<RxEvent>, next: nat, count: nat, more: nat)
    requires InOrder(events, next, count) && count <= more
    ensures InOrder(events, next, more)
    decreases events
  {
    if events != [] {
      var e := events[0];
      InOrderWeakens(events[1..], if e.Arrives? then e.index + 1 else next, count, more);
    }
  }

  lemma {:induction false} RunSeesOnlyArrivals(r: RxRun, events: seq<RxEvent>, next: nat, part: seq<Frame>, all: seq<Frame>)
    requires Receivable(r.state) && InOrder(events, next, |part|) && part <= all
    ensures InOrder(events, next, |all|) && Run(r, events, next, part) == Run(r, events, next, all)
    decreases events
  {
    hide Accept, RxPoll, Fetch;
    InOrderWeakens(events, next, |part|, |all|);
    if events != [] {
      var e := events[0];
      RunSeesOnlyArrivals(Apply(r, e, all), events[1..], if e.Arrives? then e.index + 1 else next, part, all);
    }
  }

  /** Whatever the sender met, in polls, lost or invented flow control, refusals and timeouts, and
      whichever of its accepted frames got through: the payload arrives whole and once, or not at all. */
  lemma LossyTransfer(tx: TxState, rx: RxState, data: seq<Byte>, now: U32, can: CanReply,
                      txEvents: seq<Sender.TxEvent>, rxEvents: seq<RxEvent>)
    requires !tx.ongoing && 1 <= |data| <= MAX_TOTAL
    requires Receivable(rx) && !rx.inProgress && !rx.ready
    requires InOrder(rxEvents, 0, |Sender.Transfer(tx, data, now, can, txEvents).sent|)
    ensures var sent := Sender.Transfer(tx, data, now, can, txEvents).sent;
            var r := Run(RxRun(rx, [], false), rxEvents, 0, sent);
            && (r.overran <==> TooSmall(|rx.buffer|, data) && AnyArrives(rxEvents))
            && (r.delivered == [] || r.delivered == [data])
            && (r.state.ready ==> r.delivered == [] && r.state.buffer[..r.state.messageLength] == data)
  {
    hide Run, InOrder, Sender.Transfer, AnyArrives;
    var sent := Sender.Transfer(tx, data, now, can, txEvents).sent;
    var all := Packed(data, tx.config.padding);
    Sender.SentIsPrefixOfPacked(tx, data, now, can, txEvents);
    RunSeesOnlyArrivals(RxRun(rx, [], false), rxEvents, 0, sent, all);
    AllOrNothing(rx, rxEvents, data, tx.config.padding);
  }
}
