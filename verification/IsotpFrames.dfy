/** ISO-TP frame formats (ISO 15765-2:2016, section 9.6) and the plain packer and unpacker. */
module IsotpFrames {
  import opened Bytes

  const PCI_SF := 0
  const PCI_FF := 1
  const PCI_CF := 2
  const PCI_FC := 3

  const FC_CTS := 0
  const FC_WAIT := 1
  const FC_OVERFLOW := 2

  const MAX_SINGLE := 7
  const MAX_FIRST := 6
  const MAX_TOTAL := 0xFFF

  type Frame = f: seq<Byte> | |f| == 8 witness [0, 0, 0, 0, 0, 0, 0, 0]

  type Nibble = x: int | 0 <= x < 16

  datatype PackError =
    | EmptyPayload
    | PayloadTooLong
    | NoFrames
    | TooShort
    | NotFirst
    | NotConsecutive
    | WrongIndex
    | Incomplete

  /** Fills a frame up to eight bytes. */
  function Pad(bytes: seq<Byte>, padding: Byte): Frame
    requires |bytes| <= 8
  {
    bytes + seq(8 - |bytes|, _ => padding)
  }

  function SingleFrame(data: seq<Byte>, padding: Byte): Frame
    requires |data| <= MAX_SINGLE
  {
    Pad([PCI_SF * 16 + |data|] + data, padding)
  }

  function FirstFrame(total: nat, chunk: seq<Byte>, padding: Byte): Frame
    requires |chunk| <= MAX_FIRST && total <= MAX_TOTAL
  {
    Pad([PCI_FF * 16 + total / 256 % 16, total % 256] + chunk, padding)
  }

  function ConsecutiveFrame(index: Nibble, chunk: seq<Byte>, padding: Byte): Frame
    requires |chunk| <= MAX_SINGLE
  {
    Pad([PCI_CF * 16 + index] + chunk, padding)
  }

  function FlowControl(status: Nibble, blockSize: Byte, stmin: Byte, padding: Byte): Frame {
    Pad([PCI_FC * 16 + status, blockSize, stmin], padding)
  }

  /** The bytes of each kind of frame, for payloads of 3, 20 and 300 bytes. */
  lemma FrameBytes()
    ensures SingleFrame([0x10, 0x03, 0xAA], 0xCC) == [0x03, 0x10, 0x03, 0xAA, 0xCC, 0xCC, 0xCC, 0xCC]
    ensures FirstFrame(20, [0, 1, 2, 3, 4, 5], 0xCC) == [0x10, 0x14, 0, 1, 2, 3, 4, 5]
    ensures FirstFrame(300, [0, 1, 2, 3, 4, 5], 0xCC) == [0x11, 0x2C, 0, 1, 2, 3, 4, 5]
    ensures ConsecutiveFrame(1, [6, 7, 8, 9, 10, 11, 12], 0xCC) == [0x21, 6, 7, 8, 9, 10, 11, 12]
    ensures ConsecutiveFrame(15, [13], 0xCC) == [0x2F, 13, 0xCC, 0xCC, 0xCC, 0xCC, 0xCC, 0xCC]
    ensures FlowControl(FC_CTS, 8, 10, 0xCC) == [0x30, 8, 10, 0xCC, 0xCC, 0xCC, 0xCC, 0xCC]
  {}

  function Pci(f: seq<Byte>): Nibble
    requires |f| >= 1
  {
    f[0] / 16
  }

  function Low(f: seq<Byte>): Nibble
    requires |f| >= 1
  {
    f[0] % 16
  }

  /** The length field of a first frame: 12 bits over two bytes. */
  function Declared(f: seq<Byte>): nat
    requires |f| >= 2
  {
    Low(f) * 256 + f[1]
  }

  /** Number of frames that carry a payload of `n` bytes. */
  function FrameCount(n: nat): nat {
    if n <= MAX_SINGLE then 1 else 1 + n / 7
  }

  /** Payload bytes carried by the first `k` frames of a payload of `n` bytes. */
  function Carried(n: nat, k: nat): nat {
    if k == 0 then 0
    else if n <= MAX_SINGLE then n
    else if 6 + 7 * (k - 1) < n then 6 + 7 * (k - 1) else n
  }

  lemma CarriedBounds(n: nat, k: nat)
    ensures Carried(n, k) <= n
    ensures 1 <= k <= FrameCount(n) ==> (Carried(n, k) == n <==> k == FrameCount(n))
    ensures 1 <= k < FrameCount(n) ==> Carried(n, k) == 6 + 7 * (k - 1) < n
    ensures 1 <= k < FrameCount(n) && n > MAX_SINGLE ==>
              Carried(n, k + 1) == Carried(n, k) + (if n - Carried(n, k) < 7 then n - Carried(n, k) else 7)
  {}

  /** Frame number `k` of a payload, as the protocol defines it. */
  function NthFrame(data: seq<Byte>, k: nat, padding: Byte): Frame
    requires 1 <= |data| <= MAX_TOTAL && k < FrameCount(|data|)
  {
    if |data| <= MAX_SINGLE then SingleFrame(data, padding)
    else if k == 0 then FirstFrame(|data|, data[..6], padding)
    else
      CarriedBounds(|data|, k);
      ConsecutiveFrame(k % 16, data[Carried(|data|, k)..Carried(|data|, k + 1)], padding)
  }

  /** All frames of a payload. */
  function Packed(data: seq<Byte>, padding: Byte): (frames: seq<Frame>)
    requires 1 <= |data| <= MAX_TOTAL
    ensures |frames| == FrameCount(|data|)
    ensures forall k :: 0 <= k < |frames| ==> frames[k] == NthFrame(data, k, padding)
  {
    seq(FrameCount(|data|), k requires 0 <= k < FrameCount(|data|) => NthFrame(data, k, padding))
  }

  /** Packs a payload by cutting it down chunk by chunk. */
  method PackMessage(data: seq<Byte>, padding: Byte) returns (r: Result<seq<Frame>, PackError>)
    ensures r == if |data| == 0 then Err(EmptyPayload)
                 else if |data| > MAX_TOTAL then Err(PayloadTooLong)
                 else Ok(Packed(data, padding))
  {
    if |data| == 0 { return Err(EmptyPayload); }
    if |data| <= MAX_SINGLE {
      assert Packed(data, padding) == [SingleFrame(data, padding)];
      return Ok([SingleFrame(data, padding)]);
    }
    if |data| > MAX_TOTAL { return Err(PayloadTooLong); }
    var frames := PackLong(data, padding);
    return Ok(frames);
  }

  method PackLong(data: seq<Byte>, padding: Byte) returns (frames: seq<Frame>)
    requires MAX_SINGLE < |data| <= MAX_TOTAL
    ensures frames == Packed(data, padding)
  {
    hide NthFrame, Packed, Carried, FrameCount, Pad;
    FirstChunk(data, padding);
    frames := [FirstFrame(|data|, data[..MAX_FIRST], padding)];
    var remaining := data[MAX_FIRST..];
    var index := 1;
    while |remaining| > 0
      invariant 1 <= |frames| <= FrameCount(|data|) && Carried(|data|, |frames|) <= |data|
      invariant remaining == data[Carried(|data|, |frames|)..]
      invariant index == |frames| % 16
      invariant forall i :: 0 <= i < |frames| ==> frames[i] == NthFrame(data, i, padding)
      decreases |remaining|
    {
      var chunk := if |remaining| < MAX_SINGLE then remaining else remaining[..MAX_SINGLE];
      NextChunk(data, |frames|, padding, chunk);
      frames := frames + [ConsecutiveFrame(index, chunk, padding)];
      remaining := remaining[|chunk|..];
      index := (index + 1) % 16;
    }
    CarriedBounds(|data|, |frames|);
    assert frames == Packed(data, padding);
  }

  lemma FirstChunk(data: seq<Byte>, padding: Byte)
    requires MAX_SINGLE < |data| <= MAX_TOTAL
    ensures Carried(|data|, 1) == MAX_FIRST && 1 < FrameCount(|data|)
    ensures NthFrame(data, 0, padding) == FirstFrame(|data|, data[..MAX_FIRST], padding)
  {}

  /** The chunk cut off in front of the remaining bytes is the one the next frame carries. */
  lemma NextChunk(data: seq<Byte>, k: nat, padding: Byte, chunk: seq<Byte>)
    requires MAX_SINGLE < |data| <= MAX_TOTAL && 1 <= k <= FrameCount(|data|)
    requires Carried(|data|, k) < |data|
    requires var rest := data[Carried(|data|, k)..];
             chunk == if |rest| < MAX_SINGLE then rest else rest[..MAX_SINGLE]
    ensures k < FrameCount(|data|)
    ensures |chunk| <= MAX_SINGLE
    ensures NthFrame(data, k, padding) == ConsecutiveFrame(k % 16, chunk, padding)
    ensures Carried(|data|, k + 1) <= |data|
    ensures data[Carried(|data|, k)..][|chunk|..] == data[Carried(|data|, k + 1)..]
  {
    CarriedBounds(|data|, k);
    assert chunk == data[Carried(|data|, k)..Carried(|data|, k + 1)];
  }

  /** Bytes `from` to `till` of a frame of any length, as far as it has them. */
  function Sliced(f: seq<Byte>, from: nat, till: nat): seq<Byte>
    requires from <= |f| && from <= till
  {
    f[from..if till <= |f| then till else |f|]
  }

  /** Payload gathered from consecutive frames of any length, the next of which must carry `index`. */
  function Gather(frames: seq<seq<Byte>>, index: Nibble, payload: seq<Byte>): Result<seq<Byte>, PackError> {
    if frames == [] then Ok(payload)
    else if frames[0] == [] then Err(TooShort)
    else if Pci(frames[0]) != PCI_CF then Err(NotConsecutive)
    else if Low(frames[0]) != index then Err(WrongIndex)
    else Gather(frames[1..], (index + 1) % 16, payload + frames[0][1..])
  }

  /** The payload that a list of received frames stands for. Frames may be shorter or longer than eight
      bytes; a byte that the reader needs and does not find is an error. */
  function Unpacked(frames: seq<seq<Byte>>): Result<seq<Byte>, PackError> {
    if frames == [] then Err(NoFrames)
    else
      var first := frames[0];
      if first == [] then Err(TooShort)
      else if Pci(first) == PCI_SF then Ok(Sliced(first, 1, 1 + Low(first)))
      else if Pci(first) != PCI_FF then Err(NotFirst)
      else if |first| < 2 then Err(TooShort)
      else
        match Gather(frames[1..], 1, Sliced(first, 2, 2 + MAX_FIRST))
        case Err(e) => Err(e)
        case Ok(payload) =>
          if |payload| < Declared(first) then Err(Incomplete) else Ok(payload[..Declared(first)])
  }

  /** Reassembles a payload frame by frame. */
  method UnpackFrames(frames: seq<seq<Byte>>) returns (r: Result<seq<Byte>, PackError>)
    ensures r == Unpacked(frames)
  {
    if |frames| == 0 { return Err(NoFrames); }
    var first := frames[0];
    if |first| == 0 { return Err(TooShort); }
    if Pci(first) == PCI_SF { return Ok(Sliced(first, 1, 1 + Low(first))); }
    if Pci(first) != PCI_FF { return Err(NotFirst); }
    if |first| < 2 { return Err(TooShort); }
    var payload: seq<Byte> := Sliced(first, 2, 2 + MAX_FIRST);
    var expected := 1;
    var i := 1;
    while i < |frames|
      invariant 1 <= i <= |frames| && 0 <= expected < 16
      invariant Gather(frames[1..], 1, Sliced(first, 2, 2 + MAX_FIRST)) == Gather(frames[i..], expected, payload)
    {
      var frame := frames[i];
      assert frames[i..][0] == frame && frames[i..][1..] == frames[i + 1..];
      if |frame| == 0 { return Err(TooShort); }
      if Pci(frame) != PCI_CF { return Err(NotConsecutive); }
      if Low(frame) != expected { return Err(WrongIndex); }
      payload := payload + frame[1..];
      expected := (expected + 1) % 16;
      i := i + 1;
    }
    if |payload| < Declared(first) { return Err(Incomplete); }
    return Ok(payload[..Declared(first)]);
  }

  /** What each packed frame shows to a reader of its bytes. */
  lemma FrameContents(data: seq<Byte>, k: nat, padding: Byte)
    requires 1 <= |data| <= MAX_TOTAL && k < FrameCount(|data|)
    ensures var f := NthFrame(data, k, padding);
            if |data| <= MAX_SINGLE then
              Pci(f) == PCI_SF && Low(f) == |data| && f[1..1 + |data|] == data
            else if k == 0 then
              Pci(f) == PCI_FF && Declared(f) == |data| && f[2..] == data[..6]
            else
              var from, to := Carried(|data|, k), Carried(|data|, k + 1);
              Pci(f) == PCI_CF && Low(f) == k % 16 && from < to <= from + 7 && to <= |data| &&
              f[1..1 + (to - from)] == data[from..to]
  {
    CarriedBounds(|data|, k);
    CarriedBounds(|data|, k + 1);
  }

  /** Gathering the frames from number `k` on completes a payload that already holds the bytes
      carried before. */
  lemma {:induction false} GatherTail(data: seq<Byte>, k: nat, padding: Byte, payload: seq<Byte>)
    requires MAX_SINGLE < |data| <= MAX_TOTAL && 1 <= k <= FrameCount(|data|)
    requires Carried(|data|, k) <= |payload|
    requires k < FrameCount(|data|) ==> |payload| == Carried(|data|, k)
    requires payload[..Carried(|data|, k)] == data[..Carried(|data|, k)]
    ensures var r := Gather(Packed(data, padding)[k..], k % 16, payload);
            r.Ok? && |data| <= |r.value| && r.value[..|data|] == data
    decreases FrameCount(|data|) - k
  {
    hide NthFrame, Low, Pci, Carried, Pad, FrameCount, Packed, Gather;
    CarriedBounds(|data|, k);
    if k < FrameCount(|data|) {
      var rest := Packed(data, padding)[k..];
      assert rest[1..] == Packed(data, padding)[k + 1..];
      var more := payload + rest[0][1..];
      GatherStep(data, k, padding, payload, more);
      GatherUnfolds(rest, k % 16, payload);
      NextIndex(k);
      GatherTail(data, k + 1, padding, more);
    } else {
      assert Packed(data, padding)[k..] == [];
      GatherEnds(k % 16, payload);
    }
  }

  lemma GatherUnfolds(frames: seq<seq<Byte>>, index: Nibble, payload: seq<Byte>)
    requires frames != [] && frames[0] != [] && Pci(frames[0]) == PCI_CF && Low(frames[0]) == index
    ensures Gather(frames, index, payload) == Gather(frames[1..], (index + 1) % 16, payload + frames[0][1..])
  {
    hide Pci, Low;
  }

  lemma NextIndex(k: nat)
    ensures (k % 16 + 1) % 16 == (k + 1) % 16
  {}

  lemma GatherEnds(index: Nibble, payload: seq<Byte>)
    ensures Gather([], index, payload) == Ok(payload)
  {}

  lemma GatherStep(data: seq<Byte>, k: nat, padding: Byte, payload: seq<Byte>, more: seq<Byte>)
    requires MAX_SINGLE < |data| <= MAX_TOTAL && 1 <= k < FrameCount(|data|)
    requires payload == data[..Carried(|data|, k)]
    requires more == payload + NthFrame(data, k, padding)[1..]
    ensures Pci(NthFrame(data, k, padding)) == PCI_CF && Low(NthFrame(data, k, padding)) == k % 16
    ensures Carried(|data|, k + 1) <= |more|
    ensures k + 1 < FrameCount(|data|) ==> |more| == Carried(|data|, k + 1)
    ensures more[..Carried(|data|, k + 1)] == data[..Carried(|data|, k + 1)]
  {
    hide NthFrame, Pci, Low;
    FrameContents(data, k, padding);
    CarriedBounds(|data|, k);
    CarriedBounds(|data|, k + 1);
    var frame := NthFrame(data, k, padding);
    BytesJoin(data, Carried(|data|, k), Carried(|data|, k + 1), frame);
  }

  /** The bytes of a consecutive frame behind those gathered so far. */
  lemma BytesJoin(data: seq<Byte>, from: nat, till: nat, frame: Frame)
    requires from <= till <= |data| && till <= from + 7 && frame[1..1 + (till - from)] == data[from..till]
    ensures (data[..from] + frame[1..])[..till] == data[..till]
  {
    var x, y := (data[..from] + frame[1..])[..till], data[..till];
    forall i | 0 <= i < till ensures x[i] == y[i] {
      if i >= from {
        assert frame[1..1 + (till - from)][i - from] == data[from..till][i - from];
      }
    }
  }

  /** Unpacking the frames of a payload gives the payload back, for every legal length. */
  lemma UnpackInvertsPack(data: seq<Byte>, padding: Byte)
    requires 1 <= |data| <= MAX_TOTAL
    ensures Unpacked(Packed(data, padding)) == Ok(data)
  {
    FrameContents(data, 0, padding);
    if |data| > MAX_SINGLE {
      var first := Packed(data, padding)[0];
      GatherTail(data, 1, padding, first[2..]);
    }
  }

  // ---- Which lists of frames are refused ----

  /** Frame `k` continues the message: its first byte shows a consecutive frame with the number that is due. */
  predicate Continues(frames: seq<seq<Byte>>, k: nat)
    requires k < |frames|
  {
    frames[k] != [] && frames[k][0] == 0x20 + k % 16
  }

  function Fault(f: seq<Byte>): PackError {
    if f == [] then TooShort else if 0x20 <= f[0] <= 0x2F then WrongIndex else NotConsecutive
  }

  /** The bytes of consecutive frames behind their first ones, from frame `i` on. */
  function Joined(frames: seq<seq<Byte>>, i: nat): seq<Byte>
    requires i <= |frames|
    decreases |frames| - i
  {
    if i == |frames| then [] else (if frames[i] == [] then [] else frames[i][1..]) + Joined(frames, i + 1)
  }

  lemma GatherOne(frames: seq<seq<Byte>>, payload: seq<Byte>, i: nat)
    requires i < |frames|
    ensures Continues(frames, i) ==>
              frames[i] != [] &&
              Gather(frames[i..], i % 16, payload) == Gather(frames[i + 1..], (i + 1) % 16, payload + frames[i][1..])
    ensures !Continues(frames, i) ==> Gather(frames[i..], i % 16, payload) == Err(Fault(frames[i]))
  {
    assert frames[i..][0] == frames[i] && frames[i..][1..] == frames[i + 1..];
    NextIndex(i);
  }

  /** The first frame that does not continue decides the error. */
  lemma {:induction false} GatherFails(frames: seq<seq<Byte>>, payload: seq<Byte>, i: nat, k: nat)
    requires i <= k < |frames| && !Continues(frames, k) && forall j :: i <= j < k ==> Continues(frames, j)
    ensures Gather(frames[i..], i % 16, payload) == Err(Fault(frames[k]))
    decreases k - i
  {
    hide Gather, Continues, Fault;
    GatherOne(frames, payload, i);
    if i < k { GatherFails(frames, payload + frames[i][1..], i + 1, k); }
  }

  lemma {:induction false} GatherJoins(frames: seq<seq<Byte>>, payload: seq<Byte>, i: nat)
    requires i <= |frames| && forall k :: i <= k < |frames| ==> Continues(frames, k)
    ensures Gather(frames[i..], i % 16, payload) == Ok(payload + Joined(frames, i))
    decreases |frames| - i
  {
    hide Gather, Continues;
    if i < |frames| {
      GatherOne(frames, payload, i);
      GatherJoins(frames, payload + frames[i][1..], i + 1);
      assert payload + frames[i][1..] + Joined(frames, i + 1) == payload + Joined(frames, i);
    } else {
      assert frames[i..] == [] && payload + Joined(frames, i) == payload;
      GatherEnds(i % 16, payload);
    }
  }

  /** What the frames of a longer message stand for: the first one that does not continue is the error; else the bytes
      of all frames, as many as the first one declares, if there are so many. */
  lemma UnpackAnswers(frames: seq<seq<Byte>>)
    requires frames != [] && |frames[0]| >= 2 && 0x10 <= frames[0][0] <= 0x1F
    ensures forall k :: 1 <= k < |frames| && !Continues(frames, k) && (forall j :: 1 <= j < k ==> Continues(frames, j)) ==>
              Unpacked(frames) == Err(Fault(frames[k]))
    ensures (forall k :: 1 <= k < |frames| ==> Continues(frames, k)) ==>
              var bytes := (if |frames[0]| <= 8 then frames[0][2..] else frames[0][2..8]) + Joined(frames, 1);
              var total := 256 * (frames[0][0] % 16) as int + frames[0][1] as int;
              Unpacked(frames) == if |bytes| < total then Err(Incomplete) else Ok(bytes[..total])
  {
    hide Gather, Joined, Continues, Fault;
    var start := Sliced(frames[0], 2, 8);
    forall k | 1 <= k < |frames| && !Continues(frames, k) && (forall j :: 1 <= j < k ==> Continues(frames, j))
      ensures Unpacked(frames) == Err(Fault(frames[k]))
    {
      GatherFails(frames, start, 1, k);
    }
    if forall k :: 1 <= k < |frames| ==> Continues(frames, k) {
      GatherJoins(frames, start, 1);
      assert start == if |frames[0]| <= 8 then frames[0][2..] else frames[0][2..8];
      assert Declared(frames[0]) == 256 * (frames[0][0] % 16) as int + frames[0][1] as int;
    }
  }

  /** What any other list of frames stands for. */
  lemma UnpackOthers(frames: seq<seq<Byte>>)
    ensures frames == [] ==> Unpacked(frames) == Err(NoFrames)
    ensures frames != [] && frames[0] == [] ==> Unpacked(frames) == Err(TooShort)
    ensures frames != [] && |frames[0]| >= 1 && frames[0][0] <= 0x0F ==>
              var n := 1 + frames[0][0];
              Unpacked(frames) == Ok(frames[0][1..if n <= |frames[0]| then n else |frames[0]|])
    ensures frames != [] && |frames[0]| >= 1 && frames[0][0] >= 0x20 ==> Unpacked(frames) == Err(NotFirst)
    ensures frames != [] && |frames[0]| == 1 && 0x10 <= frames[0][0] <= 0x1F ==> Unpacked(frames) == Err(TooShort)
  {}
}
