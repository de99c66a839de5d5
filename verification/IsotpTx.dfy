/** The ISO-TP sender: its state, the meaning of each call, and the sender object itself. */
module IsotpTx {
  import opened Bytes
  import opened IsotpFrames

  const DEFAULT_TIMEOUT := 1000
  const DEFAULT_PADDING := 0xCC

  /** The result codes, and `Overrun` for a call that would write outside its buffer: from there on the
      source promises nothing, and the model stops. */
  datatype IsotpResult =
    | Fine
    | Busy
    | TooLong
    | Invalid
    | Timeout
    | Overflow
    | NoResponse
    | BadState
    | Overrun

  /** What the CAN driver answers to one `send` attempt, and whether the frame it accepted is still
      being transmitted right afterwards. */
  datatype CanReply = CanReply(accepted: bool, pending: bool)

  type Timer = x: int | 1 <= x < 0x1_0000 witness 1

  datatype TxConfig = TxConfig(nAs: Timer, nBs: Timer, nCr: Timer, padding: Byte)

  datatype TxState = TxState(
    config: TxConfig,
    blockSize: Byte, stmin: Byte,
    payload: seq<Byte>, offset: nat, sn: Nibble, sentInBlock: U16,
    deadline: U32, asDeadline: U32, enqueueDeadline: U32, lastCf: U32,
    pendingFrame: Frame,
    hasSentCf: bool, waitingEnqueue: bool, waitingFc: bool, waitingAfterBlock: bool,
    framePending: bool, ongoing: bool)

  /** Outcome of a call: the state after it, its result code and the frames the driver accepted. */
  datatype TxStep = TxStep(state: TxState, result: IsotpResult, sent: seq<Frame>)

  ghost predicate Sendable(s: TxState) {
    |s.payload| <= MAX_TOTAL && s.offset <= |s.payload|
  }

  // ---- What each call means ----

  /** One attempt to hand the waiting frame to the driver. */
  function Enqueue(s: TxState, now: U32, can: CanReply): (step: TxStep)
    ensures step.result == Fine || step.result == Timeout
    ensures step.state.payload == s.payload && step.state.offset == s.offset
  {
    if !s.waitingEnqueue then
      TxStep(s, Fine, [])
    else if can.accepted then
      TxStep(s.(waitingEnqueue := false, framePending := can.pending, asDeadline := Later(now, s.config.nAs)),
             Fine, [s.pendingFrame])
    else if Reached(now, s.enqueueDeadline) then
      TxStep(s.(waitingEnqueue := false, ongoing := false), Timeout, [])
    else
      TxStep(s, Fine, [])
  }

  /** Makes a frame the waiting one and offers it at once. */
  function Schedule(s: TxState, frame: Frame, now: U32, can: CanReply): (step: TxStep)
    ensures step.state.payload == s.payload && step.state.offset == s.offset && step.result == Fine
  {
    var waiting := s.(pendingFrame := frame, waitingEnqueue := true, enqueueDeadline := Later(now, s.config.nAs));
    Enqueue(waiting, now, can).(result := Fine)
  }

  /** The sender fields at the start of a payload; BS and STmin of the last peer stay. */
  function Begin(s: TxState, data: seq<Byte>): (begun: TxState)
    ensures begun.payload == data && begun.config == s.config
  {
    s.(payload := data, offset := 0, sn := 1, sentInBlock := 0, hasSentCf := false,
       waitingEnqueue := false, waitingFc := false, waitingAfterBlock := false,
       framePending := false, lastCf := 0, asDeadline := 0, enqueueDeadline := 0, ongoing := true)
  }

  /** Starting a payload: busy and length checks, then a single frame or a first frame. */
  function Start(s: TxState, data: seq<Byte>, now: U32, can: CanReply): TxStep {
    if |data| == 0 then TxStep(s, Invalid, [])
    else if s.ongoing then TxStep(s, Busy, [])
    else if |data| > MAX_TOTAL then TxStep(s, TooLong, [])
    else
      var begun := Begin(s, data);
      if |data| <= MAX_SINGLE then
        var step := Schedule(begun.(offset := |data|), SingleFrame(data, s.config.padding), now, can);
        if step.state.framePending || step.state.waitingEnqueue then step
        else step.(state := step.state.(ongoing := false))
      else
        Schedule(begun.(offset := MAX_FIRST, waitingFc := true, waitingAfterBlock := false,
                        deadline := Later(now, s.config.nBs)),
                 FirstFrame(|data|, data[..MAX_FIRST], s.config.padding), now, can)
  }

  predicate BlockFull(s: TxState) {
    s.blockSize > 0 && s.sentInBlock >= s.blockSize
  }

  /** An incoming frame, which matters only when flow control is expected. */
  function OnFrame(s: TxState, frame: Frame, now: U32): TxStep {
    if !s.ongoing || !(s.waitingFc || BlockFull(s)) then TxStep(s, BadState, [])
    else if Pci(frame) != PCI_FC then TxStep(s, Invalid, [])
    else if Low(frame) == FC_WAIT then
      var extra := if s.waitingAfterBlock || BlockFull(s) then s.config.nCr else s.config.nBs;
      TxStep(s.(deadline := Later(now, extra)), Fine, [])
    else if Low(frame) != FC_CTS then
      TxStep(s.(ongoing := false), if Low(frame) == FC_OVERFLOW then Overflow else NoResponse, [])
    else
      TxStep(s.(blockSize := frame[1], stmin := frame[2], waitingFc := false, waitingAfterBlock := false,
                sentInBlock := 0, deadline := Later(now, s.config.nAs)),
             Fine, [])
  }

  /** Bytes that the next consecutive frame takes. */
  function CfChunk(s: TxState): seq<Byte>
    requires Sendable(s)
    ensures |CfChunk(s)| <= MAX_SINGLE
  {
    var rest := s.payload[s.offset..];
    if |rest| < MAX_SINGLE then rest else rest[..MAX_SINGLE]
  }

  /** Building the next consecutive frame and offering it. */
  function SendCf(s: TxState, now: U32, can: CanReply): (step: TxStep)
    requires Sendable(s)
    ensures Sendable(step.state) && step.result == Fine
    ensures s.offset < |s.payload| ==> s.offset < step.state.offset
  {
    var chunk := CfChunk(s);
    Schedule(s.(offset := s.offset + |chunk|, sn := (s.sn + 1) % 16,
                sentInBlock := (s.sentInBlock + 1) % 0x1_0000, hasSentCf := true, lastCf := now),
             ConsecutiveFrame(s.sn, chunk, s.config.padding), now, can)
  }

  /** STmin forbids a further consecutive frame at this tick. */
  predicate TooSoon(s: TxState, now: U32) {
    s.hasSentCf && s.stmin > 0 && Elapsed(now, s.lastCf) < s.stmin
  }

  /** What a poll does once no frame waits for the driver and none is on the wire. */
  function Advance(s: TxState, now: U32, can: CanReply): (step: TxStep)
    requires Sendable(s)
    ensures Sendable(step.state)
  {
    if s.waitingFc then
      if Reached(now, s.deadline) then TxStep(s.(ongoing := false), Timeout, []) else TxStep(s, Fine, [])
    else if BlockFull(s) then
      TxStep(s.(waitingFc := true, waitingAfterBlock := true, deadline := Later(now, s.config.nCr)), Fine, [])
    else if s.offset >= |s.payload| then
      TxStep(s.(ongoing := false), Fine, [])
    else if TooSoon(s, now) then
      TxStep(s, Fine, [])
    else
      SendCf(s, now, can)
  }

  /** One poll. `retry` answers a waiting frame, `onWire` is the driver's answer about the accepted
      one, and `can` answers a frame built by this poll. */
  function Poll(s: TxState, now: U32, retry: CanReply, onWire: bool, can: CanReply): TxStep
    requires Sendable(s)
  {
    if !s.ongoing then TxStep(s, Fine, [])
    else
      var first := Enqueue(s, now, retry);
      if first.result == Timeout || first.state.waitingEnqueue then first
      else if first.state.framePending && onWire then
        if Reached(now, first.state.asDeadline) then
          first.(state := first.state.(ongoing := false, framePending := false), result := Timeout)
        else first
      else
        var rest := Advance(first.state.(framePending := false), now, can);
        rest.(sent := first.sent + rest.sent)
  }

  // ---- The sender object ----

  class Sender {
    const config: TxConfig
    var blockSize: Byte
    var stmin: Byte
    var payload: seq<Byte>
    var offset: nat
    var sn: Nibble
    var sentInBlock: U16
    var deadline: U32
    var asDeadline: U32
    var enqueueDeadline: U32
    var lastCf: U32
    var pendingFrame: Frame
    var hasSentCf: bool
    var waitingEnqueue: bool
    var waitingFc: bool
    var waitingAfterBlock: bool
    var framePending: bool
    var ongoing: bool

    function View(): TxState
      reads this
    {
      TxState(config, blockSize, stmin, payload, offset, sn, sentInBlock, deadline,
              asDeadline, enqueueDeadline, lastCf, pendingFrame, hasSentCf, waitingEnqueue, waitingFc,
              waitingAfterBlock, framePending, ongoing)
    }

    ghost predicate Valid()
      reads this
    {
      Sendable(View())
    }

    /** Zero timeouts and padding stand for the defaults. */
    constructor (asMs: U16, bsMs: U16, crMs: U16, pad: Byte)
      ensures Valid()
      ensures View() == TxState(config, 0, 0, [], 0, 1, 0, 0, 0, 0, 0, [0, 0, 0, 0, 0, 0, 0, 0],
                                false, false, false, false, false, false)
      ensures config.nAs == (if asMs == 0 then 1000 else asMs)
      ensures config.nBs == (if bsMs == 0 then 1000 else bsMs)
      ensures config.nCr == (if crMs == 0 then 1000 else crMs)
      ensures config.padding == (if pad == 0 then 0xCC else pad)
    {
      config := TxConfig(if asMs == 0 then DEFAULT_TIMEOUT else asMs,
                         if bsMs == 0 then DEFAULT_TIMEOUT else bsMs,
                         if crMs == 0 then DEFAULT_TIMEOUT else crMs,
                         if pad == 0 then DEFAULT_PADDING else pad);
      blockSize, stmin, payload, offset, sn, sentInBlock := 0, 0, [], 0, 1, 0;
      deadline, asDeadline, enqueueDeadline, lastCf := 0, 0, 0, 0;
      pendingFrame := [0, 0, 0, 0, 0, 0, 0, 0];
      hasSentCf, waitingEnqueue, waitingFc, waitingAfterBlock := false, false, false, false;
      framePending, ongoing := false, false;
    }

    method ServiceEnqueue(now: U32, can: CanReply) returns (r: IsotpResult, sent: seq<Frame>)
      modifies this
      ensures TxStep(View(), r, sent) == Enqueue(old(View()), now, can)
    {
      if !waitingEnqueue { return Fine, []; }
      if can.accepted {
        waitingEnqueue := false;
        framePending := can.pending;
        asDeadline := Later(now, config.nAs);
        return Fine, [pendingFrame];
      }
      if Elapsed(now, enqueueDeadline) < 0x8000_0000 {
        waitingEnqueue := false;
        ongoing := false;
        return Timeout, [];
      }
      return Fine, [];
    }

    method ScheduleFrame(frame: Frame, now: U32, can: CanReply) returns (sent: seq<Frame>)
      modifies this
      ensures TxStep(View(), Fine, sent) == Schedule(old(View()), frame, now, can)
    {
      hide Enqueue;
      pendingFrame := frame;
      waitingEnqueue := true;
      enqueueDeadline := Later(now, config.nAs);
      var r;
      r, sent := ServiceEnqueue(now, can);
    }

    /** Fills a frame: the header bytes, then `count` payload bytes, then config.padding. */
    method BuildFrame(header: seq<Byte>, from: nat, count: nat) returns (frame: Frame)
      requires |header| + count <= 8 && from + count <= |payload|
      ensures frame == Pad(header + payload[from..from + count], config.padding)
    {
      var bytes := new Byte[8](_ => 0);
      for i := 0 to |header|
        invariant bytes[..i] == header[..i]
      {
        bytes[i] := header[i];
        assert bytes[..i + 1] == bytes[..i] + [header[i]];
      }
      var chunk := payload[from..from + count];
      for i := 0 to count
        invariant bytes[..|header| + i] == header + chunk[..i]
      {
        bytes[|header| + i] := payload[from + i];
        assert chunk[..i + 1] == chunk[..i] + [payload[from + i]];
        assert bytes[..|header| + i + 1] == bytes[..|header| + i] + [payload[from + i]];
      }
      assert chunk[..count] == chunk;
      for i := |header| + count to 8
        invariant bytes[..i] == header + chunk + seq(i - |header| - count, _ => config.padding)
      {
        bytes[i] := config.padding;
        PaddingGrows(header + chunk, i - |header| - count, config.padding);
        assert bytes[..i + 1] == bytes[..i] + [config.padding];
      }
      frame := bytes[..];
    }

    static lemma PaddingGrows(front: seq<Byte>, n: nat, padding: Byte)
      ensures front + seq(n, _ => padding) + [padding] == front + seq(n + 1, _ => padding)
    {}

    method SendSf(now: U32, can: CanReply) returns (sent: seq<Frame>)
      requires 1 <= |payload| <= MAX_SINGLE
      modifies this
      ensures TxStep(View(), Fine, sent)
           == Schedule(old(View()).(offset := |old(payload)|), SingleFrame(old(payload), config.padding), now, can)
    {
      hide Schedule, Enqueue;
      var frame := BuildFrame([PCI_SF * 16 + |payload|], 0, |payload|);
      assert payload[0..|payload|] == payload;
      offset := |payload|;
      sent := ScheduleFrame(frame, now, can);
    }

    method BuildFirst() returns (frame: Frame)
      requires MAX_SINGLE < |payload| <= MAX_TOTAL
      ensures frame == FirstFrame(|payload|, payload[..MAX_FIRST], config.padding)
    {
      hide Pad;
      frame := BuildFrame([PCI_FF * 16 + |payload| / 256 % 16, |payload| % 256], 0, MAX_FIRST);
      assert payload[0..MAX_FIRST] == payload[..MAX_FIRST];
    }

    method SendFf(now: U32, can: CanReply) returns (sent: seq<Frame>)
      requires MAX_SINGLE < |payload| <= MAX_TOTAL
      modifies this
      ensures TxStep(View(), Fine, sent)
           == Schedule(old(View()).(offset := MAX_FIRST, waitingFc := true, waitingAfterBlock := false,
                                    deadline := Later(now, config.nBs)),
                       FirstFrame(|old(payload)|, old(payload)[..MAX_FIRST], config.padding), now, can)
    {
      hide Schedule, Enqueue, Later, FirstFrame;
      var frame := BuildFirst();
      offset := MAX_FIRST;
      AwaitFlowControl(false, config.nBs, now);
      sent := ScheduleFrame(frame, now, can);
    }

    method AwaitFlowControl(afterBlock: bool, ms: Timer, now: U32)
      modifies this`waitingFc, this`waitingAfterBlock, this`deadline
      ensures waitingFc && waitingAfterBlock == afterBlock && deadline == Later(now, ms)
    {
      waitingFc := true;
      waitingAfterBlock := afterBlock;
      deadline := Later(now, ms);
    }

    method SendNextCf(now: U32, can: CanReply) returns (sent: seq<Frame>)
      requires Valid()
      modifies this
      ensures TxStep(View(), Fine, sent) == SendCf(old(View()), now, can)
    {
      hide Schedule, Enqueue, ConsecutiveFrame;
      var frame, chunk := BuildConsecutive();
      CountCf(chunk, now);
      sent := ScheduleFrame(frame, now, can);
    }

    method BuildConsecutive() returns (frame: Frame, chunk: nat)
      requires Valid()
      ensures chunk == |CfChunk(View())| && frame == ConsecutiveFrame(sn, CfChunk(View()), config.padding)
    {
      hide Pad;
      chunk := MAX_SINGLE;
      if |payload| - offset < chunk { chunk := |payload| - offset; }
      frame := BuildFrame([PCI_CF * 16 + sn], offset, chunk);
      assert payload[offset..offset + chunk] == CfChunk(View());
    }

    method CountCf(chunk: nat, now: U32)
      modifies this`offset, this`sn, this`sentInBlock, this`hasSentCf, this`lastCf
      ensures offset == old(offset) + chunk && sn == (old(sn) + 1) % 16
      ensures sentInBlock == (old(sentInBlock) + 1) % 0x1_0000 && hasSentCf && lastCf == now
    {
      offset := offset + chunk;
      sn := (sn + 1) % 16;
      sentInBlock := (sentInBlock + 1) % 0x1_0000;
      hasSentCf := true;
      lastCf := now;
    }

    method BeginTransfer(data: seq<Byte>)
      modifies this
      ensures View() == Begin(old(View()), data)
    {
      LoadPayload(data);
      ClearFlags();
      ClearTimes();
    }

    method LoadPayload(data: seq<Byte>)
      modifies this`payload, this`offset, this`sn, this`sentInBlock, this`ongoing
      ensures payload == data && offset == 0 && sn == 1 && sentInBlock == 0 && ongoing
    {
      payload := data;
      offset := 0;
      sn := 1;
      sentInBlock := 0;
      ongoing := true;
    }

    method ClearTimes()
      modifies this`lastCf, this`asDeadline, this`enqueueDeadline
      ensures lastCf == asDeadline == enqueueDeadline == 0
    {
      lastCf := 0;
      asDeadline := 0;
      enqueueDeadline := 0;
    }

    method ClearFlags()
      modifies this`hasSentCf, this`waitingEnqueue, this`waitingFc, this`waitingAfterBlock, this`framePending
      ensures !hasSentCf && !waitingEnqueue && !waitingFc && !waitingAfterBlock && !framePending
    {
      hasSentCf := false;
      waitingEnqueue := false;
      waitingFc := false;
      waitingAfterBlock := false;
      framePending := false;
    }

    method StartTransfer(data: seq<Byte>, now: U32, can: CanReply) returns (r: IsotpResult, sent: seq<Frame>)
      requires Valid()
      modifies this
      ensures Valid()
      ensures TxStep(View(), r, sent) == Start(old(View()), data, now, can)
    {
      hide Schedule, Enqueue, Begin, Pad;
      if |data| == 0 { return Invalid, []; }
      if ongoing { return Busy, []; }
      if |data| > MAX_TOTAL { return TooLong, []; }
      BeginTransfer(data);
      r := Fine;
      if |data| <= MAX_SINGLE {
        sent := SendSf(now, can);
        if !framePending && !waitingEnqueue { ongoing := false; }
      } else {
        sent := SendFf(now, can);
      }
    }

    method HandleFrame(frame: Frame, now: U32) returns (r: IsotpResult)
      requires Valid()
      modifies this
      ensures Valid()
      ensures TxStep(View(), r, []) == OnFrame(old(View()), frame, now)
    {
      if !ongoing { return BadState; }
      var afterBlock := blockSize > 0 && sentInBlock >= blockSize;
      if !waitingFc && !afterBlock { return BadState; }
      if frame[0] / 16 != PCI_FC { return Invalid; }
      var status := frame[0] % 16;
      if status == FC_WAIT {
        deadline := Later(now, if waitingAfterBlock || afterBlock then config.nCr else config.nBs);
        return Fine;
      }
      if status != FC_CTS {
        ongoing := false;
        return if status == FC_OVERFLOW then Overflow else NoResponse;
      }
      GrantBlock(frame[1], frame[2], now);
      return Fine;
    }

    method GrantBlock(size: Byte, separation: Byte, now: U32)
      modifies this`blockSize, this`stmin, this`waitingFc, this`waitingAfterBlock, this`sentInBlock, this`deadline
      ensures blockSize == size && stmin == separation && !waitingFc && !waitingAfterBlock
      ensures sentInBlock == 0 && deadline == Later(now, config.nAs)
    {
      blockSize := size;
      stmin := separation;
      waitingFc := false;
      waitingAfterBlock := false;
      sentInBlock := 0;
      deadline := Later(now, config.nAs);
    }

    method PollTransfer(now: U32, retry: CanReply, onWire: bool, can: CanReply)
      returns (r: IsotpResult, sent: seq<Frame>)
      requires Valid()
      modifies this
      ensures Valid()
      ensures TxStep(View(), r, sent) == Poll(old(View()), now, retry, onWire, can)
    {
      hide Enqueue, Advance;
      if !ongoing { return Fine, []; }
      r, sent := ServiceEnqueue(now, retry);
      if r == Timeout || waitingEnqueue { return; }
      if framePending {
        if onWire {
          if Elapsed(now, asDeadline) < 0x8000_0000 {
            ongoing := false;
            framePending := false;
            r := Timeout;
          }
          return;
        }
        framePending := false;
      }
      var built: seq<Frame>;
      r, built := AdvanceTransfer(now, can);
      sent := sent + built;
    }

    method AdvanceTransfer(now: U32, can: CanReply) returns (r: IsotpResult, sent: seq<Frame>)
      requires Valid()
      modifies this
      ensures Valid()
      ensures TxStep(View(), r, sent) == Advance(old(View()), now, can)
    {
      hide SendCf;
      r, sent := Fine, [];
      if waitingFc {
        if Elapsed(now, deadline) < 0x8000_0000 {
          ongoing := false;
          r := Timeout;
        }
        return;
      }
      if blockSize > 0 && sentInBlock >= blockSize {
        AwaitFlowControl(true, config.nCr, now);
        return;
      }
      if offset >= |payload| {
        ongoing := false;
        return;
      }
      if hasSentCf && stmin > 0 && Elapsed(now, lastCf) < stmin { return; }
      sent := SendNextCf(now, can);
    }
  }
}
