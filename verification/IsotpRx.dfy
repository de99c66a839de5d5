/** The ISO-TP receiver: its state, the meaning of each call, and the receiver object itself. */
module IsotpRx {
  import opened Bytes
  import opened IsotpFrames
  import opened IsotpTx

  datatype RxConfig = RxConfig(nAr: Timer, nCr: Timer, padding: Byte, blockSize: Byte, stmin: Byte)

  datatype RxState = RxState(
    config: RxConfig, buffer: seq<Byte>,
    declared: nat, received: nat, expectedSn: Nibble, cfInBlock: Byte,
    rxDeadline: U32, fcDeadline: U32, fcFrame: Frame,
    inProgress: bool, timedOut: bool, fcWaiting: bool, fcPending: bool,
    ready: bool, messageLength: nat)

  /** Outcome of a call: the state after it, its result code and the frames the driver accepted. */
  datatype RxStep = RxStep(state: RxState, result: IsotpResult, sent: seq<Frame>)

  /** What is stored lies inside the buffer; an endpoint without a buffer has length 0. */
  ghost predicate Receivable(s: RxState) {
    && (s.inProgress ==> s.received <= s.declared <= |s.buffer|)
    && (s.ready ==> s.messageLength <= |s.buffer|)
  }

  // ---- What each call means ----

  /** One attempt to hand the waiting flow control frame to the driver. */
  function ServiceFc(s: RxState, now: U32, can: CanReply): (step: RxStep)
    ensures step.result == Fine || step.result == Timeout
    ensures step.state.config == s.config && (Receivable(s) ==> Receivable(step.state))
  {
    if !s.fcWaiting then
      RxStep(s, Fine, [])
    else if can.accepted then
      RxStep(s.(fcWaiting := false, fcPending := can.pending, fcDeadline := Later(now, s.config.nAr),
                rxDeadline := if can.pending then s.rxDeadline else Later(now, s.config.nCr)),
             Fine, [s.fcFrame])
    else if Reached(now, s.fcDeadline) then
      RxStep(s.(fcWaiting := false, inProgress := false, timedOut := true), Timeout, [])
    else
      RxStep(s, Fine, [])
  }

  /** Makes a flow control frame the waiting one and offers it at once. */
  function SendFc(s: RxState, status: Nibble, now: U32, can: CanReply): (step: RxStep)
    ensures step.result == Fine
    ensures step.state.config == s.config && (Receivable(s) ==> Receivable(step.state))
  {
    var frame := FlowControl(status, s.config.blockSize, s.config.stmin, s.config.padding);
    ServiceFc(s.(fcFrame := frame, fcWaiting := true, fcDeadline := Later(now, s.config.nAr)), now, can)
    .(result := Fine)
  }

  /** Drops the transfer in hand. */
  function Cleared(s: RxState): (s': RxState)
    ensures s'.config == s.config && (Receivable(s) ==> Receivable(s'))
  {
    s.(inProgress := false, timedOut := false, fcWaiting := false, fcPending := false,
       ready := false, messageLength := 0, received := 0, declared := 0)
  }

  /** The buffer with `bytes` written from position `at` on. */
  function Written(buffer: seq<Byte>, at: nat, bytes: seq<Byte>): (r: seq<Byte>)
    requires at + |bytes| <= |buffer|
    ensures |r| == |buffer|
  {
    buffer[..at] + bytes + buffer[at + |bytes|..]
  }

  /** A single frame is copied whatever the size of the buffer, as long as there is one. */
  function OnSingle(s: RxState, f: Frame): (step: RxStep)
    requires Receivable(s)
    ensures Receivable(step.state) && step.state.config == s.config && |step.state.buffer| == |s.buffer|
  {
    if Low(f) == 0 || s.inProgress then RxStep(s, Invalid, [])
    else if s.ready then RxStep(s, Busy, [])
    else if Low(f) > MAX_SINGLE then RxStep(s, Invalid, [])
    else if s.buffer == [] then RxStep(s, Overflow, [])
    else if Low(f) > |s.buffer| then RxStep(s, Overrun, [])
    else
      RxStep(s.(buffer := Written(s.buffer, 0, f[1..1 + Low(f)]), messageLength := Low(f), ready := true), Fine, [])
  }

  function OnFirst(s: RxState, f: Frame, now: U32, can: CanReply): (step: RxStep)
    requires Receivable(s)
    ensures Receivable(step.state) && step.state.config == s.config && |step.state.buffer| == |s.buffer|
  {
    if s.inProgress then RxStep(Cleared(s), Invalid, [])
    else if s.ready then RxStep(s, Busy, [])
    else if Declared(f) <= MAX_SINGLE then RxStep(s, Invalid, [])
    else if Declared(f) > |s.buffer| then SendFc(s, FC_OVERFLOW, now, can).(result := Overflow)
    else
      SendFc(s.(declared := Declared(f), buffer := Written(s.buffer, 0, f[2..]), received := MAX_FIRST,
                expectedSn := 1, cfInBlock := 0, inProgress := true),
             FC_CTS, now, can)
  }

  /** The state once the bytes of an expected consecutive frame are stored. */
  function Stored(s: RxState, f: Frame, now: U32): (s': RxState)
    requires Receivable(s) && s.inProgress
    ensures Receivable(s') && s'.inProgress && s'.config == s.config
    ensures s'.declared == s.declared && s.received <= s'.received
  {
    var chunk := if s.declared - s.received < MAX_SINGLE then s.declared - s.received else MAX_SINGLE;
    s.(buffer := Written(s.buffer, s.received, f[1..1 + chunk]), received := s.received + chunk,
       expectedSn := (s.expectedSn + 1) % 16, cfInBlock := (s.cfInBlock + 1) % 256,
       rxDeadline := Later(now, s.config.nCr))
  }

  function OnConsecutive(s: RxState, f: Frame, now: U32, can: CanReply): (step: RxStep)
    requires Receivable(s)
    ensures Receivable(step.state) && step.state.config == s.config && |step.state.buffer| == |s.buffer|
  {
    if !s.inProgress then RxStep(s, Invalid, [])
    else if Low(f) != s.expectedSn then RxStep(Cleared(s), Invalid, [])
    else
      var stored := Stored(s, f, now);
      if stored.received >= stored.declared then
        RxStep(stored.(inProgress := false, messageLength := stored.declared, ready := true), Fine, [])
      else if s.config.blockSize > 0 && stored.cfInBlock >= s.config.blockSize then
        SendFc(stored.(cfInBlock := 0), FC_CTS, now, can)
      else RxStep(stored, Fine, [])
  }

  /** An incoming frame, by its PCI. */
  function Accept(s: RxState, f: Frame, now: U32, can: CanReply): (step: RxStep)
    requires Receivable(s)
    ensures Receivable(step.state) && step.state.config == s.config && |step.state.buffer| == |s.buffer|
  {
    if Pci(f) == PCI_SF then OnSingle(s, f)
    else if Pci(f) == PCI_FF then OnFirst(s, f, now, can)
    else if Pci(f) == PCI_CF then OnConsecutive(s, f, now, can)
    else RxStep(s, Invalid, [])
  }

  /** A received frame is written past the end of the buffer exactly when it is a single frame, the receiver
      is idle and has no unread message, and its buffer exists but is smaller than the frame's payload. */
  lemma OverrunsExactly(s: RxState, f: Frame, now: U32, can: CanReply)
    requires Receivable(s)
    ensures Accept(s, f, now, can).result == Overrun
       <==> Pci(f) == PCI_SF && !s.inProgress && !s.ready && 1 <= Low(f) <= MAX_SINGLE && 0 < |s.buffer| < Low(f)
  {}

  /** A buffer of four bytes and a single frame of five. */
  lemma SmallBufferOverruns(s: RxState, now: U32, can: CanReply)
    requires s.buffer == [0, 0, 0, 0] && !s.inProgress && !s.ready
    ensures Receivable(s) && Accept(s, [0x05, 1, 2, 3, 4, 5, 0xCC, 0xCC], now, can).result == Overrun
  {
    OverrunsExactly(s, [0x05, 1, 2, 3, 4, 5, 0xCC, 0xCC], now, can);
  }

  /** One poll: the waiting flow control frame first, then its transmission, then N_Cr. */
  function RxPoll(s: RxState, now: U32, can: CanReply, onWire: bool): (step: RxStep)
    requires Receivable(s)
    ensures Receivable(step.state) && step.state.config == s.config
  {
    if !s.inProgress && !s.fcWaiting && !s.fcPending then RxStep(s, Fine, [])
    else
      var first := ServiceFc(s, now, can);
      if first.result == Timeout || first.state.fcWaiting || !first.state.inProgress then first
      else first.(state := Watch(first.state, now, onWire).state, result := Watch(first.state, now, onWire).result)
  }

  /** The deadline watch of a reception whose flow control has left the queue. */
  function Watch(s: RxState, now: U32, onWire: bool): (step: RxStep)
    ensures step.state.config == s.config && (Receivable(s) ==> Receivable(step.state))
  {
    if s.fcPending && !onWire then
      RxStep(s.(fcPending := false, rxDeadline := Later(now, s.config.nCr)), Fine, [])
    else if s.fcPending && Reached(now, s.fcDeadline) then
      RxStep(s.(inProgress := false, fcPending := false, timedOut := true), Timeout, [])
    else if !s.fcPending && Reached(now, s.rxDeadline) then
      RxStep(s.(inProgress := false, timedOut := true), Timeout, [])
    else RxStep(s, Fine, [])
  }

  /** Handing the complete message to a caller with room for `capacity` bytes. */
  function Fetch(s: RxState, capacity: nat): (r: (RxState, Result<seq<Byte>, IsotpResult>))
    requires Receivable(s)
    ensures Receivable(r.0)
  {
    if !s.ready then (s, Err(BadState))
    else if s.messageLength > capacity then (s, Err(TooLong))
    else (s.(ready := false, messageLength := 0), Ok(s.buffer[..s.messageLength]))
  }

  // ---- The receiver object ----

  /** The one buffer that stands in for a receiver's own, and that is never given back. */
  class Fallback {
    const bytes: array<Byte>
    var inUse: bool

    constructor ()
      ensures fresh(bytes) && bytes.Length == MAX_TOTAL && !inUse
    {
      bytes := new Byte[MAX_TOTAL](_ => 0);
      inUse := false;
    }

    /** The buffer of a new receiver: its own if it has one, else the fallback for the first that asks, and no
        buffer for all others. So no two receivers ever share the fallback. */
    method Choose(own: array<Byte>) returns (buffer: array<Byte>)
      requires own != bytes
      modifies this`inUse
      ensures own.Length > 0 ==> buffer == own && inUse == old(inUse)
      ensures own.Length == 0 && !old(inUse) ==> buffer == bytes && inUse
      ensures own.Length == 0 && old(inUse) ==> buffer != bytes && buffer.Length == 0 && inUse
    {
      if own.Length > 0 { return own; }
      if !inUse {
        inUse := true;
        return bytes;
      }
      buffer := new Byte[0];
    }
  }

  class Receiver {
    const config: RxConfig
    const buffer: array<Byte>
    var declared: nat
    var received: nat
    var expectedSn: Nibble
    var cfInBlock: Byte
    var rxDeadline: U32
    var fcDeadline: U32
    var fcFrame: Frame
    var inProgress: bool
    var timedOut: bool
    var fcWaiting: bool
    var fcPending: bool
    var ready: bool
    var messageLength: nat

    function View(): RxState
      reads this, buffer
    {
      RxState(config, buffer[..], declared, received, expectedSn, cfInBlock, rxDeadline, fcDeadline, fcFrame,
              inProgress, timedOut, fcWaiting, fcPending, ready, messageLength)
    }

    ghost predicate Valid()
      reads this, buffer
    {
      Receivable(View())
    }

    /** Zero timeouts and padding stand for the defaults; a buffer of length 0 for no buffer. */
    constructor (store: array<Byte>, arMs: U16, crMs: U16, pad: Byte, bs: Byte, st: Byte)
      ensures Valid() && buffer == store
      ensures View() == RxState(config, store[..], 0, 0, 1, 0, 0, 0, [0, 0, 0, 0, 0, 0, 0, 0],
                                false, false, false, false, false, 0)
      ensures config == RxConfig(if arMs == 0 then 1000 else arMs, if crMs == 0 then 1000 else crMs,
                                 if pad == 0 then 0xCC else pad, bs, st)
    {
      config := RxConfig(if arMs == 0 then DEFAULT_TIMEOUT else arMs,
                         if crMs == 0 then DEFAULT_TIMEOUT else crMs,
                         if pad == 0 then DEFAULT_PADDING else pad, bs, st);
      buffer := store;
      declared, received, expectedSn, cfInBlock := 0, 0, 1, 0;
      rxDeadline, fcDeadline, fcFrame := 0, 0, [0, 0, 0, 0, 0, 0, 0, 0];
      inProgress, timedOut, fcWaiting, fcPending := false, false, false, false;
      ready, messageLength := false, 0;
    }

    method ServiceFlowControl(now: U32, can: CanReply) returns (r: IsotpResult, sent: seq<Frame>)
      modifies this`fcWaiting, this`fcPending, this`fcDeadline, this`rxDeadline, this`inProgress, this`timedOut
      ensures RxStep(View(), r, sent) == ServiceFc(old(View()), now, can)
    {
      if !fcWaiting { return Fine, []; }
      if can.accepted {
        fcWaiting := false;
        fcPending := can.pending;
        fcDeadline := Later(now, config.nAr);
        if !fcPending { rxDeadline := Later(now, config.nCr); }
        return Fine, [fcFrame];
      }
      if Elapsed(now, fcDeadline) < 0x8000_0000 {
        fcWaiting := false;
        inProgress := false;
        timedOut := true;
        return Timeout, [];
      }
      return Fine, [];
    }

    method SendFlowControl(status: Nibble, now: U32, can: CanReply) returns (sent: seq<Frame>)
      modifies this
      ensures RxStep(View(), Fine, sent) == SendFc(old(View()), status, now, can)
    {
      hide ServiceFc;
      fcFrame := BuildFlowControl(status);
      fcWaiting := true;
      fcDeadline := Later(now, config.nAr);
      var r;
      r, sent := ServiceFlowControl(now, can);
    }

    method BuildFlowControl(status: Nibble) returns (frame: Frame)
      ensures frame == FlowControl(status, config.blockSize, config.stmin, config.padding)
    {
      var bytes := new Byte[8](_ => 0);
      bytes[0] := PCI_FC * 16 + status;
      bytes[1] := config.blockSize;
      bytes[2] := config.stmin;
      for i := 3 to 8
        invariant bytes[0] == PCI_FC * 16 + status && bytes[1] == config.blockSize && bytes[2] == config.stmin
        invariant forall j :: 3 <= j < i ==> bytes[j] == config.padding
      {
        bytes[i] := config.padding;
      }
      assert bytes[..] == FlowControl(status, config.blockSize, config.stmin, config.padding);
      frame := bytes[..];
    }

    method Reset()
      modifies this`inProgress, this`timedOut, this`fcWaiting, this`fcPending, this`ready, this`messageLength,
               this`received, this`declared
      ensures View() == Cleared(old(View()))
    {
      ResetFlags();
      ready := false;
      messageLength := 0;
      received := 0;
      declared := 0;
    }

    method ResetFlags()
      modifies this`inProgress, this`timedOut, this`fcWaiting, this`fcPending
      ensures !inProgress && !timedOut && !fcWaiting && !fcPending
    {
      inProgress := false;
      timedOut := false;
      fcWaiting := false;
      fcPending := false;
    }

    /** Copies payload bytes of a frame, from frame position `from` on, to buffer position `at`. */
    method Copy(f: Frame, from: nat, at: nat, count: nat)
      requires from + count <= 8 && at + count <= buffer.Length
      modifies buffer
      ensures buffer[..] == Written(old(buffer[..]), at, f[from..from + count])
    {
      for i := 0 to count
        invariant buffer[..at] == old(buffer[..at]) && buffer[at + count..] == old(buffer[at + count..])
        invariant buffer[at..at + i] == f[from..from + i]
      {
        buffer[at + i] := f[from + i];
        assert f[from..from + i + 1] == f[from..from + i] + [f[from + i]];
        assert buffer[at..at + i + 1] == buffer[at..at + i] + [buffer[at + i]];
      }
      assert buffer[..] == buffer[..at] + buffer[at..at + count] + buffer[at + count..];
    }

    method HandleSingle(f: Frame) returns (r: IsotpResult)
      requires Valid()
      modifies this`messageLength, this`ready, buffer
      ensures Valid()
      ensures RxStep(View(), r, []) == OnSingle(old(View()), f)
    {
      var length := f[0] % 16;
      if length == 0 { return Invalid; }
      if inProgress { return Invalid; }
      if ready { return Busy; }
      if length > MAX_SINGLE { return Invalid; }
      if buffer.Length == 0 { return Overflow; }
      if length > buffer.Length { return Overrun; }
      Copy(f, 1, 0, length);
      messageLength := length;
      ready := true;
      return Fine;
    }

    method HandleFirst(f: Frame, now: U32, can: CanReply) returns (r: IsotpResult, sent: seq<Frame>)
      requires Valid()
      modifies this, buffer
      ensures Valid()
      ensures RxStep(View(), r, sent) == OnFirst(old(View()), f, now, can)
    {
      hide SendFc, Cleared, Written;
      if inProgress {
        Reset();
        return Invalid, [];
      }
      if ready { return Busy, []; }
      var high: nat := f[0] % 16;
      var total := high * 256 + f[1];
      if total <= MAX_SINGLE { return Invalid, []; }
      if total > buffer.Length {
        sent := SendFlowControl(FC_OVERFLOW, now, can);
        return Overflow, sent;
      }
      assert f[2..2 + MAX_FIRST] == f[2..];
      Copy(f, 2, 0, MAX_FIRST);
      BeginReception(total);
      sent := SendFlowControl(FC_CTS, now, can);
      r := Fine;
    }

    method BeginReception(total: nat)
      modifies this`declared, this`received, this`expectedSn, this`cfInBlock, this`inProgress
      ensures declared == total && received == MAX_FIRST && expectedSn == 1 && cfInBlock == 0 && inProgress
    {
      declared := total;
      received := MAX_FIRST;
      expectedSn := 1;
      cfInBlock := 0;
      inProgress := true;
    }

    method Store(f: Frame, now: U32)
      requires Valid() && inProgress
      modifies this`received, this`expectedSn, this`cfInBlock, this`rxDeadline, buffer
      ensures View() == Stored(old(View()), f, now)
    {
      hide Written;
      var chunk: nat := MAX_SINGLE;
      if declared - received < chunk { chunk := declared - received; }
      Copy(f, 1, received, chunk);
      received := received + chunk;
      expectedSn := (expectedSn + 1) % 16;
      cfInBlock := (cfInBlock + 1) % 256;
      rxDeadline := Later(now, config.nCr);
    }

    method HandleConsecutive(f: Frame, now: U32, can: CanReply) returns (r: IsotpResult, sent: seq<Frame>)
      requires Valid()
      modifies this, buffer
      ensures Valid()
      ensures RxStep(View(), r, sent) == OnConsecutive(old(View()), f, now, can)
    {
      hide SendFc, Cleared, Stored;
      if !inProgress { return Invalid, []; }
      if f[0] % 16 != expectedSn {
        Reset();
        return Invalid, [];
      }
      Store(f, now);
      if received >= declared {
        inProgress := false;
        messageLength := declared;
        ready := true;
        return Fine, [];
      }
      if config.blockSize > 0 && cfInBlock >= config.blockSize {
        cfInBlock := 0;
        sent := SendFlowControl(FC_CTS, now, can);
        return Fine, sent;
      }
      return Fine, [];
    }

    method HandleFrame(f: Frame, now: U32, can: CanReply) returns (r: IsotpResult, sent: seq<Frame>)
      requires Valid()
      modifies this, buffer
      ensures Valid()
      ensures RxStep(View(), r, sent) == Accept(old(View()), f, now, can)
    {
      hide OnSingle, OnFirst, OnConsecutive;
      var pci := f[0] / 16;
      if pci == PCI_SF {
        r := HandleSingle(f);
        return r, [];
      }
      if pci == PCI_FF {
        r, sent := HandleFirst(f, now, can);
        return;
      }
      if pci == PCI_CF {
        r, sent := HandleConsecutive(f, now, can);
        return;
      }
      return Invalid, [];
    }

    method PollReception(now: U32, can: CanReply, onWire: bool) returns (r: IsotpResult, sent: seq<Frame>)
      requires Valid()
      modifies this
      ensures Valid()
      ensures RxStep(View(), r, sent) == RxPoll(old(View()), now, can, onWire)
    {
      hide ServiceFc;
      if !inProgress && !fcWaiting && !fcPending { return Fine, []; }
      r, sent := ServiceFlowControl(now, can);
      if r == Timeout || fcWaiting || !inProgress { return; }
      if fcPending {
        if onWire {
          if Elapsed(now, fcDeadline) < 0x8000_0000 {
            inProgress := false;
            fcPending := false;
            timedOut := true;
            r := Timeout;
          }
          return;
        }
        fcPending := false;
        rxDeadline := Later(now, config.nCr);
        return;
      }
      if Elapsed(now, rxDeadline) < 0x8000_0000 {
        inProgress := false;
        timedOut := true;
        r := Timeout;
      }
    }

    method Read(capacity: nat) returns (r: Result<seq<Byte>, IsotpResult>)
      requires Valid()
      modifies this
      ensures Valid()
      ensures (View(), r) == Fetch(old(View()), capacity)
    {
      if !ready { return Err(BadState); }
      if messageLength > capacity { return Err(TooLong); }
      r := Ok(buffer[..messageLength]);
      ready := false;
      messageLength := 0;
    }
  }
}
