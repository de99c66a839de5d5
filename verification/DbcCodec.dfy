/** DBC signals: the bit-by-bit helpers, and the word-shift pack and unpack code that is generated. */
module DbcCodec {
  import opened Bytes
  import opened Words

  datatype Signal = Signal(start: nat, length: nat, bigEndian: bool, signed: bool)

  /** A signal together with the raw value it carries. */
  datatype Setting = Setting(signal: Signal, raw: int)

  // ---- Where the bits of a signal lie ----

  /** Motorola start bits number the bits of a byte backwards; network bits count from the first byte's top. */
  function NetworkStart(s: Signal): nat { 8 * (s.start / 8) + (7 - s.start % 8) }

  /** Data bit number of a network bit, counting `8 * byte + bit`; the same map leads back. */
  function Mirrored(n: nat): nat { 8 * (n / 8) + (7 - n % 8) }

  /** The data bit that holds bit `i` of a signal. */
  function Cell(s: Signal, i: nat): nat
    requires i < s.length
  {
    if s.bigEndian then Mirrored(NetworkStart(s) + (s.length - 1 - i)) else s.start + i
  }

  /** Which bit of a signal a data bit holds, if any. */
  function IndexAt(s: Signal, c: nat): (r: Option<nat>)
    ensures r.Some? ==> r.value < s.length
  {
    if s.bigEndian then
      var n := Mirrored(c);
      if NetworkStart(s) <= n < NetworkStart(s) + s.length then Some(NetworkStart(s) + s.length - 1 - n) else None
    else if s.start <= c < s.start + s.length then Some(c - s.start) else None
  }

  function BitAt(data: seq<Byte8>, c: nat): bool { c / 8 < |data| && data[c / 8][c % 8] }

  // ---- Bit by bit ----

  /** The step at which bit `i` of a signal is written; big-endian signals are written from the top. */
  function Turn(s: Signal, i: nat): nat
    requires i < s.length
  {
    if s.bigEndian then s.length - 1 - i else i
  }

  /** Data bit `c` after the first `n` steps of writing a signal. */
  predicate EncodedBit(was: bool, c: nat, s: Signal, value: int, n: nat) {
    match IndexAt(s, c)
    case None => was
    case Some(i) => if Turn(s, i) < n then Bit(value, i) else was
  }

  function EncodedByte(was: Byte8, k: nat, s: Signal, value: int, n: nat): Byte8 {
    seq(8, b requires 0 <= b < 8 => EncodedBit(was[b], 8 * k + b, s, value, n))
  }

  /** The data after the first `n` steps of writing a signal. */
  function EncodedUpTo(data: seq<Byte8>, s: Signal, value: int, n: nat): (r: seq<Byte8>)
    ensures |r| == |data|
  {
    seq(|data|, k requires 0 <= k < |data| => EncodedByte(data[k], k, s, value, n))
  }

  function Encoded(data: seq<Byte8>, s: Signal, value: int): (r: seq<Byte8>)
    ensures |r| == |data|
  {
    EncodedUpTo(data, s, value, s.length)
  }

  method EncodeSignal(data: array<Byte8>, s: Signal, value: int)
    modifies data
    ensures data[..] == Encoded(old(data[..]), s, value)
  {
    hide EncodedUpTo, IndexAt, Bit;
    ghost var before := data[..];
    EncodeStarts(before, s, value);
    for i := 0 to s.length
      invariant data[..] == EncodedUpTo(before, s, value, i)
    {
      var index := Turn(s, i);
      var position := Cell(s, index);
      if position / 8 >= data.Length {
        EncodeStops(before, s, value, i);
        return;
      }
      EncodeStep(before, s, value, i);
      data[position / 8] := data[position / 8][position % 8 := Bit(value, index)];
    }
  }

  lemma CellIndex(s: Signal, i: nat)
    requires i < s.length
    ensures IndexAt(s, Cell(s, i)) == Some(i)
  {
    hide Mirrored, NetworkStart;
    MirrorAt(NetworkStart(s) + (s.length - 1 - i));
  }

  lemma IndexCell(s: Signal, c: nat)
    requires IndexAt(s, c).Some?
    ensures Cell(s, IndexAt(s, c).value) == c
  {}

  lemma EncodeStarts(data: seq<Byte8>, s: Signal, value: int)
    ensures EncodedUpTo(data, s, value, 0) == data
  {
    hide IndexAt, Bit;
    var x := EncodedUpTo(data, s, value, 0);
    forall k | 0 <= k < |data| ensures x[k] == data[k] {}
  }

  lemma EncodeStep(data: seq<Byte8>, s: Signal, value: int, n: nat)
    requires n < s.length && Cell(s, Turn(s, n)) / 8 < |data|
    ensures var i := Turn(s, n);
            var c := Cell(s, i);
            var x := EncodedUpTo(data, s, value, n);
            EncodedUpTo(data, s, value, n + 1) == x[c / 8 := x[c / 8][c % 8 := Bit(value, i)]]
  {
    hide Bit, IndexAt, Cell;
    var i := Turn(s, n);
    var c := Cell(s, i);
    var x, y := EncodedUpTo(data, s, value, n), EncodedUpTo(data, s, value, n + 1);
    var z := x[c / 8 := x[c / 8][c % 8 := Bit(value, i)]];
    CellIndex(s, i);
    forall k | 0 <= k < |data| ensures y[k] == z[k] {
      forall b | 0 <= b < 8 ensures y[k][b] == z[k][b] {
        if IndexAt(s, 8 * k + b) == Some(i) { IndexCell(s, 8 * k + b); }
      }
    }
  }

  lemma TurnsEnd(s: Signal, c: nat)
    ensures IndexAt(s, c).Some? ==> Turn(s, IndexAt(s, c).value) < s.length
  {}

  lemma LaterTurnsLieBehind(s: Signal, c: nat, n: nat)
    requires n < s.length && IndexAt(s, c).Some? && Turn(s, IndexAt(s, c).value) >= n
    ensures c / 8 >= Cell(s, Turn(s, n)) / 8
  {
    hide Mirrored;
    if s.bigEndian {
      MirrorAt(c);
      MirrorAt(NetworkStart(s) + n);
    }
  }

  /** Once a step falls behind the data, all later ones do. */
  lemma EncodeStops(data: seq<Byte8>, s: Signal, value: int, n: nat)
    requires n < s.length && Cell(s, Turn(s, n)) / 8 >= |data|
    ensures EncodedUpTo(data, s, value, n) == Encoded(data, s, value)
  {
    hide Bit, IndexAt, Cell, Turn;
    var x, y := EncodedUpTo(data, s, value, n), Encoded(data, s, value);
    forall k | 0 <= k < |data| ensures x[k] == y[k] {
      forall b | 0 <= b < 8 ensures x[k][b] == y[k][b] {
        TurnsEnd(s, 8 * k + b);
        if IndexAt(s, 8 * k + b).Some? && Turn(s, IndexAt(s, 8 * k + b).value) >= n {
          LaterTurnsLieBehind(s, 8 * k + b, n);
        }
      }
    }
  }

  /** The bits that a signal occupies; bits behind the data read as zero. */
  function RawBits(data: seq<Byte8>, s: Signal): (r: seq<bool>)
    ensures |r| == s.length
  {
    seq(s.length, i requires 0 <= i < s.length => BitAt(data, Cell(s, i)))
  }

  /** The raw value; a big-endian signal that leaves the data is an error. */
  function Decoded(data: seq<Byte8>, s: Signal): Option<nat> {
    if s.bigEndian && s.length > 0 && NetworkStart(s) + s.length > 8 * |data| then None
    else Some(Number(RawBits(data, s)))
  }

  /** All bits of some bytes in a row. */
  function Flat(data: seq<Byte8>): (r: seq<bool>)
    ensures |r| == 8 * |data|
  {
    if data == [] then [] else data[0] + Flat(data[1..])
  }

  method DecodeSignal(data: seq<Byte8>, s: Signal) returns (r: Option<nat>)
    ensures r == Decoded(data, s)
  {
    hide Number, RawBits, Cell;
    if s.length == 0 {
      NothingRead(data, s);
      return Some(0);
    }
    if !s.bigEndian {
      var first, offset := s.start / 8, s.start % 8;
      var rest := if first < |data| then data[first..] else [];
      LittleDecode(data, s, rest);
      return Some(Number(Flat(rest)) / Power(offset) % Power(s.length));
    }
    var value := 0;
    NothingRead(data, s);
    for i := 0 to s.length
      invariant i > 0 ==> NetworkStart(s) + i <= 8 * |data|
      invariant value == Number(RawBits(data, s)[s.length - i..])
    {
      var networkBit := NetworkStart(s) + i;
      if networkBit / 8 >= |data| { return None; }
      var bit := data[networkBit / 8][7 - networkBit % 8];
      BigDecodeStep(data, s, i);
      value := 2 * value + if bit then 1 else 0;
    }
    assert RawBits(data, s)[0..] == RawBits(data, s);
    return Some(value);
  }

  lemma NothingRead(data: seq<Byte8>, s: Signal)
    ensures Number(RawBits(data, s)[s.length..]) == 0
    ensures s.length == 0 ==> Number(RawBits(data, s)) == 0
  {}

  lemma BigDecodeStep(data: seq<Byte8>, s: Signal, i: nat)
    requires s.bigEndian && i < s.length && (NetworkStart(s) + i) / 8 < |data|
    ensures var n := NetworkStart(s) + i;
            Number(RawBits(data, s)[s.length - i - 1..])
            == 2 * Number(RawBits(data, s)[s.length - i..]) + if data[n / 8][7 - n % 8] then 1 else 0
  {
    var b := RawBits(data, s)[s.length - i - 1..];
    assert b[1..] == RawBits(data, s)[s.length - i..];
    assert b[0] == BitAt(data, Cell(s, s.length - i - 1));
    MirrorAt(NetworkStart(s) + i);
  }

  lemma MirrorAt(n: nat)
    ensures Mirrored(n) / 8 == n / 8 && Mirrored(n) % 8 == 7 - n % 8 && Mirrored(Mirrored(n)) == n
  {}

  lemma {:induction false} FlatAt(data: seq<Byte8>, c: nat)
    requires c < 8 * |data|
    ensures Flat(data)[c] == data[c / 8][c % 8]
    decreases |data|
  {
    if c >= 8 { FlatAt(data[1..], c - 8); }
  }

  /** The little-endian expression - all following bytes, shifted and masked - reads the signal's bits. */
  lemma LittleDecode(data: seq<Byte8>, s: Signal, rest: seq<Byte8>)
    requires !s.bigEndian && s.length > 0
    requires rest == if s.start / 8 < |data| then data[s.start / 8..] else []
    ensures Number(Flat(rest)) / Power(s.start % 8) % Power(s.length) == Number(RawBits(data, s))
  {
    hide Number, Power, Flat, RawBits;
    var offset := s.start % 8;
    var wide := Flat(rest) + Zeros(8 + s.length);
    PaddedFlat(rest, 8 + s.length);
    NumberSplits(wide, offset);
    NumberSplits(wide[offset..], s.length);
    WideIsRaw(data, s, rest);
  }

  lemma PaddedFlat(rest: seq<Byte8>, n: nat)
    ensures Number(Flat(rest) + Zeros(n)) == Number(Flat(rest))
  {
    hide Number, Power, Flat;
    NumberJoins(Flat(rest), Zeros(n));
    NumberOfFalse(n);
    assert Power(|Flat(rest)|) * 0 == 0;
  }

  lemma WideIsRaw(data: seq<Byte8>, s: Signal, rest: seq<Byte8>)
    requires !s.bigEndian && s.length > 0
    requires rest == if s.start / 8 < |data| then data[s.start / 8..] else []
    ensures (Flat(rest) + Zeros(8 + s.length))[s.start % 8..][..s.length] == RawBits(data, s)
  {
    hide Flat;
    var offset, wide := s.start % 8, Flat(rest) + Zeros(8 + s.length);
    var x, y := wide[offset..][..s.length], RawBits(data, s);
    forall i | 0 <= i < s.length ensures x[i] == y[i] {
      assert x[i] == wide[offset + i];
      if offset + i < |Flat(rest)| { FlatAt(rest, offset + i); }
    }
  }

  /** The value of a raw number: signed signals whose top bit is set count down from zero. */
  function ValueOf(raw: nat, s: Signal): int
    requires s.length > 0
  {
    if s.signed && Bit(raw, s.length - 1) then raw - Power(s.length) else raw
  }

  // ---- Word by word ----

  /** The left shift of a signal within its word, unless it does not fit into 64 bits. */
  function Shift(s: Signal): (r: Option<nat>) {
    var shift := if s.bigEndian then 64 - (NetworkStart(s) + s.length) else s.start;
    if shift < 0 || shift + s.length > 64 then None else Some(shift)
  }

  predicate Legal(s: Signal) { s.length > 0 && Shift(s).Some? }

  /** What one signal contributes to its word. */
  function Contribution(x: Setting): Word {
    match Shift(x.signal)
    case None => ZERO
    case Some(shift) => ShiftLeft(And(BitsOf(x.raw, 64), Mask(x.signal.length)), shift)
  }

  /** The word of all signals of one byte order. */
  function PackedWord(settings: seq<Setting>, bigEndian: bool): Word {
    if settings == [] then ZERO
    else
      var rest, last := settings[..|settings| - 1], settings[|settings| - 1];
      if last.signal.bigEndian == bigEndian then Or(PackedWord(rest, bigEndian), Contribution(last))
      else PackedWord(rest, bigEndian)
  }

  function PackedByte(be: Word, le: Word, index: nat): Byte8
    requires index < 8
  {
    Narrowed(Or(ShiftRight(be, 8 * (7 - index)), ShiftRight(le, 8 * index)))
  }

  function PackedData(settings: seq<Setting>, length: nat): (r: seq<Byte8>)
    requires length <= 8
    ensures |r| == length
  {
    seq(length, k requires 0 <= k < length => PackedByte(PackedWord(settings, true), PackedWord(settings, false), k))
  }

  /** Why there is no result. Generation fails for a signal without a shift, and for a signed one of no bits; and
      the generated code shifts a 64-bit word by 64 bits or more from the ninth byte on and for a signal of no bits
      behind the word, where the C language promises nothing any more. */
  datatype CodecError = DoesNotFit | NoSignBit | ShiftTooFar

  /** How generating the code for these signals fails, if it does. */
  function GenerationError(signals: seq<Signal>): Option<CodecError> {
    if exists s :: s in signals && Shift(s).None? then Some(DoesNotFit)
    else if exists s :: s in signals && s.signed && s.length == 0 then Some(NoSignBit)
    else None
  }

  /** Whether the code for a message of this length shifts within its words only. */
  predicate StaysInWord(signals: seq<Signal>, length: nat) {
    length <= 8 && forall s :: s in signals ==> Shift(s) != Some(64)
  }

  method Generate(signals: seq<Signal>) returns (error: Option<CodecError>)
    ensures error == GenerationError(signals)
  {
    hide Shift;
    for k := 0 to |signals|
      invariant forall i :: 0 <= i < k ==> Shift(signals[i]).Some?
    {
      if Shift(signals[k]).None? {
        assert signals[k] in signals;
        return Some(DoesNotFit);
      }
    }
    for k := 0 to |signals|
      invariant forall i :: 0 <= i < k ==> !(signals[i].signed && signals[i].length == 0)
    {
      if signals[k].signed && signals[k].length == 0 {
        assert signals[k] in signals;
        return Some(NoSignBit);
      }
    }
    return None;
  }

  method InWord(signals: seq<Signal>, length: nat) returns (r: bool)
    ensures r == StaysInWord(signals, length)
  {
    hide Shift;
    if length > 8 { return false; }
    for k := 0 to |signals|
      invariant forall i :: 0 <= i < k ==> Shift(signals[i]) != Some(64)
    {
      if Shift(signals[k]) == Some(64) {
        assert signals[k] in signals;
        return false;
      }
    }
    return true;
  }

  function SignalsOf(settings: seq<Setting>): (r: seq<Signal>)
    ensures |r| == |settings|
  {
    seq(|settings|, k requires 0 <= k < |settings| => settings[k].signal)
  }

  /** Generating and running the pack function. */
  method Pack(settings: seq<Setting>, length: nat) returns (r: Result<seq<Byte8>, CodecError>)
    ensures match GenerationError(SignalsOf(settings))
            case Some(e) => r == Err(e)
            case None => r == if StaysInWord(SignalsOf(settings), length) then Ok(PackedData(settings, length)) else Err(ShiftTooFar)
  {
    hide Shift, Or, And, ShiftLeft, ShiftRight;
    var signals := SignalsOf(settings);
    var error := Generate(signals);
    if error.Some? { return Err(error.value); }
    var inWord := InWord(signals, length);
    if !inWord { return Err(ShiftTooFar); }
    var be, le := ZERO, ZERO;
    for k := 0 to |settings|
      invariant be == PackedWord(settings[..k], true) && le == PackedWord(settings[..k], false)
    {
      var x := settings[k];
      assert settings[..k + 1][..k] == settings[..k];
      assert signals[k] in signals;
      var part := ShiftLeft(And(BitsOf(x.raw, 64), Mask(x.signal.length)), Shift(x.signal).value);
      if x.signal.bigEndian { be := Or(be, part); } else { le := Or(le, part); }
    }
    assert settings[..|settings|] == settings;
    var data := PackBytes(be, le, length);
    assert data == PackedData(settings, length);
    return Ok(data);
  }

  method PackBytes(be: Word, le: Word, length: nat) returns (bytes: seq<Byte8>)
    requires length <= 8
    ensures |bytes| == length && forall k :: 0 <= k < length ==> bytes[k] == PackedByte(be, le, k)
  {
    hide Or, ShiftRight, Narrowed;
    var data := new Byte8[length](_ => ZERO8);
    for index := 0 to length
      invariant forall k :: 0 <= k < index ==> data[k] == PackedByte(be, le, k)
    {
      data[index] := Narrowed(Or(ShiftRight(be, 8 * (7 - index)), ShiftRight(le, 8 * index)));
    }
    return data[..];
  }

  function BeWord(data: seq<Byte8>): Word {
    if data == [] then ZERO
    else Or(ShiftLeft(BeWord(data[..|data| - 1]), 8), Widened(data[|data| - 1]))
  }

  function LeWord(data: seq<Byte8>): Word {
    if data == [] then ZERO
    else Or(LeWord(data[..|data| - 1]), ShiftLeft(Widened(data[|data| - 1]), 8 * (|data| - 1)))
  }

  /** The raw word of a signal. */
  function RawWord(be: Word, le: Word, s: Signal): Word
    requires Shift(s).Some?
  {
    And(ShiftRight(if s.bigEndian then be else le, Shift(s).value), Mask(s.length))
  }

  function Extended(raw: Word, s: Signal): Word
    requires s.length <= 64
  {
    if s.signed && 0 < s.length < 64 && raw[s.length - 1] then Or(raw, Complement(Mask(s.length))) else raw
  }

  function Unpacked(data: seq<Byte8>, s: Signal): int
    requires Shift(s).Some?
  {
    var w := Extended(RawWord(BeWord(data), LeWord(data), s), s);
    if s.signed then Signed(w) else Number(w)
  }

  /** Generating and running the unpack function. */
  method Unpack(data: seq<Byte8>, signals: seq<Signal>) returns (r: Result<seq<int>, CodecError>)
    ensures match GenerationError(signals)
            case Some(e) => r == Err(e)
            case None => if StaysInWord(signals, |data|) then r.Ok? && AreUnpacked(r.value, data, signals) else r == Err(ShiftTooFar)
  {
    hide Shift, Or, And, ShiftLeft, ShiftRight, Signed, Number, Widened, Complement, Mask, Extended, RawWord;
    var error := Generate(signals);
    if error.Some? { return Err(error.value); }
    var inWord := InWord(signals, |data|);
    if !inWord { return Err(ShiftTooFar); }
    var be, le := ZERO, ZERO;
    for index := 0 to |data|
      invariant be == BeWord(data[..index]) && le == LeWord(data[..index])
    {
      assert data[..index + 1][..index] == data[..index];
      be := Or(ShiftLeft(be, 8), Widened(data[index]));
      le := Or(le, ShiftLeft(Widened(data[index]), 8 * index));
    }
    assert data[..|data|] == data;
    var values: seq<int> := [];
    for k := 0 to |signals|
      invariant |values| == k
      invariant forall j :: 0 <= j < k ==> Shift(signals[j]).Some? && values[j] == Unpacked(data, signals[j])
    {
      assert signals[k] in signals;
      var value := UnpackOne(data, be, le, signals[k]);
      values := values + [value];
    }
    return Ok(values);
  }

  /** One value for each signal, as its bits say. */
  predicate AreUnpacked(values: seq<int>, data: seq<Byte8>, signals: seq<Signal>) {
    |values| == |signals|
    && forall k :: 0 <= k < |signals| ==> Shift(signals[k]).Some? && values[k] == Unpacked(data, signals[k])
  }

  method UnpackOne(data: seq<Byte8>, be: Word, le: Word, s: Signal) returns (value: int)
    requires Shift(s).Some? && (s.signed ==> s.length > 0) && be == BeWord(data) && le == LeWord(data)
    ensures value == Unpacked(data, s)
  {
    hide And, ShiftRight, Signed, Number, BeWord, LeWord, Complement, Mask;
    var raw := And(ShiftRight(if s.bigEndian then be else le, Shift(s).value), Mask(s.length));
    if s.signed && s.length < 64 && raw[s.length - 1] {
      raw := Or(raw, Complement(Mask(s.length)));
    }
    value := if s.signed then Signed(raw) else Number(raw);
  }
}
