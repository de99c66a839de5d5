/** The generated word-shift code agrees with the bit-by-bit helpers, and unpacking undoes packing. */
module DbcLaws {
  import opened Bytes
  import opened Words
  import opened DbcCodec

  /** Writing signals one at a time. */
  function EncodedAll(data: seq<Byte8>, settings: seq<Setting>): (r: seq<Byte8>)
    ensures |r| == |data|
  {
    if settings == [] then data
    else
      var last := settings[|settings| - 1];
      Encoded(EncodedAll(data, settings[..|settings| - 1]), last.signal, last.raw)
  }

  function Cleared(length: nat): (r: seq<Byte8>)
    ensures |r| == length
  {
    seq(length, _ => ZERO8)
  }

  /** Different settings never share a data bit. */
  ghost predicate Disjoint(settings: seq<Setting>) {
    forall x, y, c :: x in settings && y in settings && x != y ==> IndexAt(x.signal, c).None? || IndexAt(y.signal, c).None?
  }

  /** The setting puts a one into data bit `c`. */
  predicate Carries(x: Setting, c: nat) {
    IndexAt(x.signal, c).Some? && Bit(x.raw, IndexAt(x.signal, c).value)
  }

  // ---- Packing ----

  lemma ContributionAt(x: Setting, q: nat)
    requires Shift(x.signal).Some? && q < 64
    ensures var shift := Shift(x.signal).value;
            Contribution(x)[q] <==> shift <= q < shift + x.signal.length && Bit(x.raw, q - shift)
  {
    hide Bit, NetworkStart;
  }

  /** Bit `q` of the word of one byte order is one exactly when some setting of that order puts it there. */
  lemma {:induction false} PackedWordAt(settings: seq<Setting>, bigEndian: bool, q: nat)
    requires q < 64
    ensures PackedWord(settings, bigEndian)[q]
        <==> exists x :: x in settings && x.signal.bigEndian == bigEndian && Contribution(x)[q]
    decreases |settings|
  {
    hide Contribution;
    if settings != [] {
      var rest, last := settings[..|settings| - 1], settings[|settings| - 1];
      PackedWordAt(rest, bigEndian, q);
      assert settings == rest + [last];
      assert last in settings;
    }
  }

  /** Word bits and data bits of a signal correspond. */
  lemma WordBitIsCell(s: Signal, q: nat, c: nat)
    requires Shift(s).Some? && q < 64 && c < 64
    requires c == if s.bigEndian then 8 * (7 - q / 8) + q % 8 else q
    ensures IndexAt(s, c) == if Shift(s).value <= q < Shift(s).value + s.length then Some(q - Shift(s).value) else None
  {
    if s.bigEndian {
      assert Mirrored(c) == 63 - q;
    }
  }

  lemma ContributionCarries(x: Setting, q: nat, c: nat)
    requires Shift(x.signal).Some? && q < 64 && c < 64
    requires c == if x.signal.bigEndian then 8 * (7 - q / 8) + q % 8 else q
    ensures Contribution(x)[q] <==> Carries(x, c)
  {
    hide Contribution, Shift, IndexAt, Bit;
    ContributionAt(x, q);
    WordBitIsCell(x.signal, q, c);
  }

  lemma PackedByteAt(be: Word, le: Word, k: nat, b: nat)
    requires k < 8 && b < 8
    ensures PackedByte(be, le, k)[b] == (be[8 * (7 - k) + b] || le[8 * k + b])
  {}

  ghost predicate AllShifted(settings: seq<Setting>) {
    forall x :: x in settings ==> Shift(x.signal).Some?
  }

  /** Each packed data bit is one exactly when some setting puts a one there. */
  lemma PackedBitAt(settings: seq<Setting>, k: nat, b: nat)
    requires AllShifted(settings) && k < 8 && b < 8
    ensures PackedByte(PackedWord(settings, true), PackedWord(settings, false), k)[b]
        <==> exists x :: x in settings && Carries(x, 8 * k + b)
  {
    hide PackedWord, Contribution, Carries, Shift, PackedByte;
    var c, q := 8 * k + b, 8 * (7 - k) + b;
    PackedByteAt(PackedWord(settings, true), PackedWord(settings, false), k, b);
    PackedWordAt(settings, true, q);
    PackedWordAt(settings, false, c);
    assert q / 8 == 7 - k && q % 8 == b;
    forall x | x in settings ensures Contribution(x)[if x.signal.bigEndian then q else c] <==> Carries(x, c) {
      ContributionCarries(x, if x.signal.bigEndian then q else c, c);
    }
  }

  lemma EncodedAt(data: seq<Byte8>, x: Setting, k: nat, b: nat)
    requires k < |data| && b < 8
    ensures Encoded(data, x.signal, x.raw)[k][b]
         == if IndexAt(x.signal, 8 * k + b).Some? then Carries(x, 8 * k + b) else data[k][b]
  {
    hide Bit, IndexAt;
    TurnsEnd(x.signal, 8 * k + b);
  }

  /** Writing disjoint signals one at a time into cleared data leaves the same ones. */
  lemma {:induction false} EncodedAllAt(settings: seq<Setting>, length: nat, k: nat, b: nat)
    requires Disjoint(settings) && k < length && b < 8
    ensures EncodedAll(Cleared(length), settings)[k][b] <==> exists x :: x in settings && Carries(x, 8 * k + b)
    decreases |settings|
  {
    hide IndexAt, Bit, Encoded;
    if settings != [] {
      var c := 8 * k + b;
      var rest, last := settings[..|settings| - 1], settings[|settings| - 1];
      assert settings == rest + [last];
      assert last in settings;
      EncodedAllAt(rest, length, k, b);
      EncodedAt(EncodedAll(Cleared(length), rest), last, k, b);
      if exists x :: x in settings && Carries(x, c) {
        var x :| x in settings && Carries(x, c);
        if x != last {
          assert x in rest;
          assert IndexAt(last.signal, c).None?;
        }
      }
    } else {
      assert Cleared(length)[k] == ZERO8;
    }
  }

  /** For pairwise disjoint signals of mixed byte orders, the word-shift packing is the bit-by-bit
      encoding of the signals one at a time - in this or any other order. */
  lemma PackIsEncode(settings: seq<Setting>, order: seq<Setting>, length: nat)
    requires AllShifted(settings) && Disjoint(settings) && length <= 8
    requires multiset(order) == multiset(settings)
    ensures PackedData(settings, length) == EncodedAll(Cleared(length), order)
  {
    hide PackedWord, Carries, Disjoint, AllShifted, EncodedAll, PackedByte;
    SameMembers(settings, order);
    var x, y := PackedData(settings, length), EncodedAll(Cleared(length), order);
    forall k | 0 <= k < length ensures x[k] == y[k] {
      forall b | 0 <= b < 8 ensures x[k][b] == y[k][b] {
        PackedBitAt(settings, k, b);
        EncodedAllAt(order, length, k, b);
      }
    }
  }

  lemma SameMembers(settings: seq<Setting>, order: seq<Setting>)
    requires multiset(order) == multiset(settings)
    ensures forall x :: x in order <==> x in settings
    ensures Disjoint(settings) ==> Disjoint(order)
  {
    hide IndexAt;
    forall x ensures x in order <==> x in settings {
      assert x in multiset(order) <==> x in multiset(settings);
    }
  }

  // ---- Unpacking ----

  lemma {:induction false} LeWordAt(data: seq<Byte8>, q: nat)
    requires |data| <= 8 && q < 64
    ensures LeWord(data)[q] == BitAt(data, q)
    decreases |data|
  {
    hide Or, ShiftLeft, Widened;
    if data != [] {
      LeWordAt(data[..|data| - 1], q);
      LeStep(LeWord(data[..|data| - 1]), data[|data| - 1], |data| - 1, q);
    }
  }

  lemma LeStep(w: Word, b: Byte8, n: nat, q: nat)
    requires n < 8 && q < 64
    ensures Or(w, ShiftLeft(Widened(b), 8 * n))[q] == (w[q] || (q / 8 == n && b[q % 8]))
  {}

  lemma {:induction false} BeWordAt(data: seq<Byte8>, q: nat)
    requires |data| <= 8 && q < 64
    ensures BeWord(data)[q] == (q / 8 < |data| && data[|data| - 1 - q / 8][q % 8])
    decreases |data|
  {
    hide Or, ShiftLeft, Widened;
    if data != [] {
      BeStep(BeWord(data[..|data| - 1]), data[|data| - 1], q);
      if q >= 8 { BeWordAt(data[..|data| - 1], q - 8); }
    }
  }

  lemma BeStep(w: Word, b: Byte8, q: nat)
    requires q < 64
    ensures Or(ShiftLeft(w, 8), Widened(b))[q] == if q < 8 then b[q] else w[q - 8]
  {}

  /** The layout and length for which the generated code reads the signal's own bits. */
  predicate Readable(data: seq<Byte8>, s: Signal) {
    Legal(s) && |data| <= 8 && (s.bigEndian ==> |data| == 8)
  }

  lemma RawWordAt(data: seq<Byte8>, s: Signal, i: nat)
    requires Readable(data, s) && i < 64
    ensures RawWord(BeWord(data), LeWord(data), s)[i] == (i < s.length && RawBits(data, s)[i])
  {
    hide BeWord, LeWord, RawWord, Shift, Cell;
    RawWordBit(BeWord(data), LeWord(data), s, i);
    if i < s.length {
      CellOfWordBit(s, i);
      var q := Shift(s).value + i;
      LeWordAt(data, q);
      BeWordAt(data, q);
    }
  }

  lemma RawWordBit(be: Word, le: Word, s: Signal, i: nat)
    requires Legal(s) && i < 64
    ensures Shift(s).value + s.length <= 64
    ensures RawWord(be, le, s)[i] == (i < s.length && (if s.bigEndian then be else le)[Shift(s).value + i])
  {
    hide NetworkStart;
  }

  lemma CellOfWordBit(s: Signal, i: nat)
    requires Legal(s) && i < s.length
    ensures var q := Shift(s).value + i; q < 64 && Cell(s, i) == if s.bigEndian then 8 * (7 - q / 8) + q % 8 else q
  {
    if s.bigEndian {
      var q := Shift(s).value + i;
      assert NetworkStart(s) + (s.length - 1 - i) == 63 - q;
    }
  }

  lemma RawWordIsBits(data: seq<Byte8>, s: Signal)
    requires Readable(data, s)
    ensures s.length <= 64 && RawWord(BeWord(data), LeWord(data), s) == RawBits(data, s) + Zeros(64 - s.length)
  {
    hide BeWord, LeWord, RawWord, RawBits, NetworkStart;
    var x, y := RawWord(BeWord(data), LeWord(data), s), RawBits(data, s) + Zeros(64 - s.length);
    forall i | 0 <= i < 64 ensures x[i] == y[i] { RawWordAt(data, s, i); }
  }

  lemma {:induction false} NumberBit(b: seq<bool>, i: nat)
    requires i < |b|
    ensures Bit(Number(b), i) == b[i]
  {
    hide Power;
    NumberSplits(b, i);
    assert Number(b[i..]) % 2 == if b[i] then 1 else 0;
  }

  /** Filling up with ones takes 2^length away from the signed reading. */
  lemma ExtendedNumber(b: seq<bool>)
    requires 0 < |b| < 64
    ensures Number(b + seq(64 - |b|, _ => true)) == Number(b) + Power(64) - Power(|b|)
  {
    hide Number, Power;
    var n := 64 - |b|;
    NumberJoins(b, seq(n, _ => true));
    NumberOfTrue(n);
    PowerSplits(|b|, n);
    Distributes(Power(|b|), Power(n));
  }

  lemma Distributes(p: nat, q: nat)
    requires q > 0
    ensures p * (q - 1) == p * q - p
  {}

  lemma ExtendedValue(raw: seq<bool>, s: Signal)
    requires 0 < |raw| == s.length <= 64
    ensures var w := Extended(raw + Zeros(64 - |raw|), s);
            (if s.signed then Signed(w) else Number(w)) == ValueOf(Number(raw), s)
  {
    hide Number, Power, Bit;
    NumberBit(raw, s.length - 1);
    PaddedNumber(raw, 64 - |raw|);
    if s.signed && s.length < 64 && raw[s.length - 1] {
      ExtendedNumber(raw);
      var w := Extended(raw + Zeros(64 - |raw|), s);
      assert w == raw + seq(64 - |raw|, _ => true);
    }
  }

  /** The generated unpacking reads every signal as the bit-by-bit decoder does, sign included. */
  lemma UnpackIsDecode(data: seq<Byte8>, s: Signal)
    requires Readable(data, s)
    ensures Decoded(data, s).Some? && Unpacked(data, s) == ValueOf(Decoded(data, s).value, s)
  {
    hide Number, Power, Bit, RawBits, BeWord, LeWord, RawWord, Extended, Signed, ValueOf;
    RawWordIsBits(data, s);
    ExtendedValue(RawBits(data, s), s);
  }

  /** A signal of no bits reads as zero, in both ways. */
  lemma NothingIsZero(data: seq<Byte8>, s: Signal)
    requires s.length == 0 && Shift(s).Some?
    ensures Unpacked(data, s) == 0 && Decoded(data, s) == Some(0)
  {
    hide BeWord, LeWord, ShiftRight, Shift, Number;
    var w := RawWord(BeWord(data), LeWord(data), s);
    assert w == Zeros(64);
    NumberOfFalse(64);
    assert RawBits(data, s) == Zeros(0);
    NumberOfFalse(0);
  }

  // ---- Bit numbering ----

  /** Where the bits of a signal lie, told by data bits alone. A little-endian signal starts with its lowest bit and
      goes up. A big-endian one starts with its top bit and goes down within a byte, and from bit 0 of a byte to
      bit 7 of the next one. */
  lemma CellsInOrder(s: Signal)
    requires s.length > 0
    ensures Cell(s, if s.bigEndian then s.length - 1 else 0) == s.start
    ensures forall i :: 0 < i < s.length ==>
              if s.bigEndian then Cell(s, i - 1) == (if Cell(s, i) % 8 > 0 then Cell(s, i) - 1 else Cell(s, i) + 15)
              else Cell(s, i) == Cell(s, i - 1) + 1
  {
    hide Mirrored, NetworkStart;
    FirstCell(s);
    if s.bigEndian {
      forall i | 0 < i < s.length
        ensures Cell(s, i - 1) == if Cell(s, i) % 8 > 0 then Cell(s, i) - 1 else Cell(s, i) + 15
      {
        MirrorSteps(NetworkStart(s) + (s.length - 1 - i));
      }
    }
  }

  lemma FirstCell(s: Signal)
    requires s.length > 0
    ensures Cell(s, if s.bigEndian then s.length - 1 else 0) == s.start
  {}

  lemma MirrorSteps(n: nat)
    ensures Mirrored(n + 1) == if Mirrored(n) % 8 > 0 then Mirrored(n) - 1 else Mirrored(n) + 15
  {
    hide Mirrored;
    var k, b := n / 8, n % 8;
    MirroredRow(k, b);
    if b < 7 { MirroredRow(k, b + 1); } else { MirroredRow(k + 1, 0); }
    SevenLess(k, b);
  }

  lemma SevenLess(k: nat, b: nat)
    requires b < 8
    ensures (8 * k + 7 - b) % 8 == 7 - b
  {}

  /** Writing a signal puts its bits into its cells, as far as these are within the data, and touches nothing else. */
  lemma EncodedWrites(data: seq<Byte8>, s: Signal, value: int, k: nat, b: nat)
    requires k < |data| && b < 8
    ensures (exists i :: 0 <= i < s.length && Cell(s, i) == 8 * k + b && Encoded(data, s, value)[k][b] == Bit(value, i))
         || (Encoded(data, s, value)[k][b] == data[k][b] && forall i :: 0 <= i < s.length ==> Cell(s, i) != 8 * k + b)
  {
    hide Cell, IndexAt, Bit;
    var c := 8 * k + b;
    EncodedAt(data, Setting(s, value), k, b);
    if IndexAt(s, c).Some? {
      IndexCell(s, c);
    } else {
      forall i | 0 <= i < s.length ensures Cell(s, i) != c { CellIndex(s, i); }
    }
  }

  /** A big-endian signal cannot be read exactly when one of its cells lies behind the data. */
  lemma DecodedExactly(data: seq<Byte8>, s: Signal)
    requires s.bigEndian
    ensures Decoded(data, s).Some? <==> forall i :: 0 <= i < s.length ==> Cell(s, i) < 8 * |data|
  {
    hide Mirrored, Number, RawBits, NetworkStart;
    forall i | 0 <= i < s.length ensures Cell(s, i) / 8 == (NetworkStart(s) + (s.length - 1 - i)) / 8 {
      MirrorAt(NetworkStart(s) + (s.length - 1 - i));
    }
    if s.length > 0 && NetworkStart(s) + s.length > 8 * |data| {
      assert Cell(s, 0) / 8 >= |data|;
    }
  }

  lemma HighBit(v: nat, i: nat)
    requires v < 0x1_0000 && i < 8
    ensures Bit(v, i + 8) == Bit(v / 256, i)
  {
    hide Power, Bit, Number;
    var b := BitsOf(v, 16);
    EightPower();
    PowerSplits(8, 8);
    LowBits(v, 16);
    NumberSplits(b, 8);
    NumberBit(b[8..], i);
  }

  lemma EightPower()
    ensures Power(8) == 256
  {
    assert Power(2) == 4;
    assert Power(4) == 4 * Power(2);
    assert Power(6) == 4 * Power(4);
  }

  const ENGINE_SPEED := Signal(7, 16, true, false)
  const COOLANT_TEMP := Signal(23, 8, true, false)

  /** The data byte of a number. */
  function ByteOf(n: nat): Byte8 { BitsOf(n, 8) }

  lemma EngineCells(k: nat, b: nat)
    requires k < 8 && b < 8
    ensures IndexAt(ENGINE_SPEED, 8 * k + b) == if k == 0 then Some(b + 8) else if k == 1 then Some(b) else None
    ensures IndexAt(COOLANT_TEMP, 8 * k + b) == if k == 2 then Some(b) else None
  {
    hide Mirrored;
    MirroredRow(k, b);
    assert NetworkStart(ENGINE_SPEED) == 0 && NetworkStart(COOLANT_TEMP) == 16;
  }

  lemma MirroredRow(k: nat, b: nat)
    requires b < 8
    ensures Mirrored(8 * k + b) == 8 * k + 7 - b
  {
    assert (8 * k + b) / 8 == k;
  }

  /** The engine message: a speed of 0x134A and a temperature of 0x7D are sent as 13 4A 7D and five zeros. */
  lemma EngineDataPacked()
    ensures PackedData([Setting(ENGINE_SPEED, 0x134A), Setting(COOLANT_TEMP, 0x7D)], 8)
         == [ByteOf(0x13), ByteOf(0x4A), ByteOf(0x7D), ByteOf(0), ByteOf(0), ByteOf(0), ByteOf(0), ByteOf(0)]
  {
    hide PackedWord, PackedByte, IndexAt, Bit, Power;
    var settings := [Setting(ENGINE_SPEED, 0x134A), Setting(COOLANT_TEMP, 0x7D)];
    var x := PackedData(settings, 8);
    var bytes := [0x13, 0x4A, 0x7D, 0, 0, 0, 0, 0];
    forall k, b | 0 <= k < 8 && 0 <= b < 8 ensures x[k][b] == ByteOf(bytes[k])[b] {
      PackedBitAt(settings, k, b);
      EngineCells(k, b);
      assert settings[0] in settings && settings[1] in settings;
      EngineBit(k, b);
    }
    forall k | 0 <= k < 8 ensures x[k] == ByteOf(bytes[k]) {}
  }

  /** Which setting carries a one to data bit `b` of byte `k`. */
  lemma EngineBit(k: nat, b: nat)
    requires k < 8 && b < 8
    ensures Carries(Setting(ENGINE_SPEED, 0x134A), 8 * k + b) == (k < 2 && Bit(if k == 0 then 0x13 else 0x4A, b))
    ensures Carries(Setting(COOLANT_TEMP, 0x7D), 8 * k + b) == (k == 2 && Bit(0x7D, b))
    ensures !Bit(0, b)
  {
    hide Power, Bit, IndexAt;
    EngineCells(k, b);
    HighBit(0x134A, b);
    LowByteBit(0x134A, b);
    NoBit(b);
  }

  lemma LowByteBit(v: nat, b: nat)
    requires b < 8
    ensures Bit(v, b) == Bit(v % 256, b)
  {
    EightPower();
    LowBits(v, 8);
    LowBits(v % 256, 8);
    NumberBit(BitsOf(v, 8), b);
    NumberBit(BitsOf(v % 256, 8), b);
  }

  lemma NoBit(b: nat)
    ensures !Bit(0, b)
  {
    Division(0, Power(b), 0, 0);
  }

  // ---- There and back ----

  /** What a signal of this length and sign can show of a raw value. */
  function Shown(raw: int, s: Signal): int
    requires s.length > 0
  {
    ValueOf(raw % Power(s.length), s)
  }

  predicate InRange(raw: int, s: Signal)
    requires s.length > 0
  {
    var half: int := Power(s.length - 1);
    if s.signed then -half <= raw < half else 0 <= raw < Power(s.length)
  }

  lemma TopBit(v: nat, p: nat)
    requires 0 < p && v < 2 * p
    ensures v / p % 2 == 1 <==> v >= p
  {
    if v >= p {
      Division(v, p, 1, v - p);
    } else {
      Division(v, p, 0, v);
    }
  }

  /** A raw value comes back exactly when it is in range. */
  lemma ShownIffInRange(raw: int, s: Signal)
    requires s.length > 0
    ensures Shown(raw, s) == raw <==> InRange(raw, s)
  {
    var p := Power(s.length - 1);
    assert Power(s.length) == 2 * p;
    var r := raw % (2 * p);
    TopBit(r, p);
    if InRange(raw, s) {
      if raw >= 0 { Division(raw, 2 * p, 0, raw); } else { Division(raw, 2 * p, -1, raw + 2 * p); }
    }
  }

  /** The packed data hold each setting's bits at its cells. */
  lemma PackedBits(settings: seq<Setting>, k: nat, length: nat)
    requires AllShifted(settings) && Disjoint(settings) && k < |settings| && length <= 8
    requires forall i :: 0 <= i < settings[k].signal.length ==> Cell(settings[k].signal, i) / 8 < length
    ensures RawBits(PackedData(settings, length), settings[k].signal)
         == BitsOf(settings[k].raw, settings[k].signal.length)
  {
    hide PackedWord, AllShifted, PackedByte, Bit, IndexAt, Cell;
    var x := settings[k];
    var data := PackedData(settings, length);
    var got, wanted := RawBits(data, x.signal), BitsOf(x.raw, x.signal.length);
    assert x in settings;
    forall i | 0 <= i < x.signal.length ensures got[i] == wanted[i] {
      var c := Cell(x.signal, i);
      PackedBitAt(settings, c / 8, c % 8);
      CellIndex(x.signal, i);
    }
  }

  lemma CellsFit(s: Signal, i: nat, length: nat)
    requires Legal(s) && i < s.length && HasRoom(s, length)
    ensures Cell(s, i) / 8 < length
  {
    CellOfWordBit(s, i);
  }

  /** The message is long enough for the signal; one in big-endian order needs all eight bytes. */
  predicate HasRoom(s: Signal, length: nat) {
    length <= 8 && if s.bigEndian then length == 8 else s.start + s.length <= 8 * length
  }

  /** Unpacking packed data gives back every raw value that is in range, and reduces every other one to its
      width. */
  lemma UnpackUndoesPack(settings: seq<Setting>, k: nat, length: nat)
    requires AllShifted(settings) && Disjoint(settings) && k < |settings| && Legal(settings[k].signal)
    requires HasRoom(settings[k].signal, length)
    ensures Unpacked(PackedData(settings, length), settings[k].signal) == Shown(settings[k].raw, settings[k].signal)
    ensures Unpacked(PackedData(settings, length), settings[k].signal) == settings[k].raw
       <==> InRange(settings[k].raw, settings[k].signal)
  {
    hide PackedData, Unpacked, Number, Power, Bit, RawBits, BitsOf, Disjoint, ValueOf, InRange, Cell, NetworkStart, Shift;
    var s := settings[k].signal;
    assert settings[k] in settings;
    forall i | 0 <= i < s.length ensures Cell(s, i) / 8 < length { CellsFit(s, i, length); }
    PackedBits(settings, k, length);
    LowBits(settings[k].raw, s.length);
    UnpackIsDecode(PackedData(settings, length), s);
    ShownIffInRange(settings[k].raw, s);
  }

  // ---- Big-endian signals in shorter messages ----

  lemma {:induction false} LowestOfNumber(b: seq<bool>)
    requires b != []
    ensures Number(b) % 2 == if b[0] then 1 else 0
  {
    Parity(Number(b[1..]), if b[0] then 1 else 0);
  }

  lemma Parity(n: nat, bit: nat)
    requires bit < 2
    ensures (bit + 2 * n) % 2 == bit
  {}

  lemma LowestOfExtended(w: Word, s: Signal)
    requires 0 < s.length <= 64
    ensures Extended(w, s)[0] == w[0]
  {}

  lemma EvenWord(w: Word, s: Signal)
    requires 0 < s.length <= 64 && !w[0]
    ensures Number(Extended(w, s)) % 2 == 0 && Signed(Extended(w, s)) % 2 == 0
  {
    hide Number, Extended, Power;
    LowestOfExtended(w, s);
    LowestOfNumber(Extended(w, s));
    PowerSplits(1, 63);
    assert Power(1) == 2 by { PowerOfOne(); }
  }

  lemma PowerOfOne()
    ensures Power(1) == 2
  {
    assert Power(0) == 1;
  }

  /** A big-endian signal that fits a message shorter than eight bytes is misread: setting just its lowest
      bit shows an even value. So the eight bytes that `UnpackIsDecode` asks for cannot be dropped. */
  lemma ShortBigEndianMisread(s: Signal, n: nat)
    requires Legal(s) && s.bigEndian && n < 8 && NetworkStart(s) + s.length <= 8 * n
    ensures var data := Encoded(Cleared(n), s, 1);
            Decoded(data, s).Some? && Unpacked(data, s) != ValueOf(Decoded(data, s).value, s)
  {
    hide Encoded, Unpacked, ValueOf, Number, RawWord, BeWord, LeWord, Extended, Signed, RawBits;
    var data := Encoded(Cleared(n), s, 1);
    OddDecoded(s, n);
    var w := RawWord(BeWord(data), LeWord(data), s);
    assert !w[0] by { LowestMissed(s, n); }
    EvenWord(w, s);
    UnpackedIsEven(data, s);
  }

  lemma UnpackedIsEven(data: seq<Byte8>, s: Signal)
    requires Legal(s)
    requires var w := Extended(RawWord(BeWord(data), LeWord(data), s), s); Number(w) % 2 == 0 && Signed(w) % 2 == 0
    ensures Unpacked(data, s) % 2 == 0
  {
    hide Number, RawWord, BeWord, LeWord, Extended, Signed;
  }

  lemma OneIsEncoded(s: Signal, n: nat, i: nat)
    requires i < s.length && Cell(s, i) / 8 < n
    ensures RawBits(Encoded(Cleared(n), s, 1), s)[i] == (i == 0)
  {
    hide IndexAt, Cell, Bit;
    var c := Cell(s, i);
    CellIndex(s, i);
    EncodedAt(Cleared(n), Setting(s, 1), c / 8, c % 8);
    OneBit(i);
  }

  lemma OneBit(i: nat)
    ensures Bit(1, i) == (i == 0)
  {
    if i > 0 { Division(1, Power(i), 0, 1); } else { assert Power(0) == 1; }
  }

  lemma OddDecoded(s: Signal, n: nat)
    requires Legal(s) && s.bigEndian && NetworkStart(s) + s.length <= 8 * n
    ensures var data := Encoded(Cleared(n), s, 1);
            Decoded(data, s).Some? && ValueOf(Decoded(data, s).value, s) % 2 == 1
  {
    hide Encoded, RawBits, Cell, Cleared, Number, ValueOf;
    var data := Encoded(Cleared(n), s, 1);
    forall i | 0 <= i < s.length ensures RawBits(data, s)[i] == (i == 0) {
      CellInside(s, i, n);
      OneIsEncoded(s, n, i);
    }
    OnlyLowest(RawBits(data, s));
    ValueOfOne(s);
  }

  lemma OnlyLowest(b: seq<bool>)
    requires b != [] && forall i :: 0 <= i < |b| ==> b[i] == (i == 0)
    ensures Number(b) == 1
  {
    assert b[1..] == Zeros(|b| - 1);
    NumberOfFalse(|b| - 1);
  }

  lemma ValueOfOne(s: Signal)
    requires s.length > 0
    ensures ValueOf(1, s) % 2 == 1
  {
    hide Bit;
    OneBit(s.length - 1);
    PowerOfOne();
  }

  lemma CellInside(s: Signal, i: nat, n: nat)
    requires s.bigEndian && i < s.length && NetworkStart(s) + s.length <= 8 * n
    ensures Cell(s, i) / 8 < n
  {
    MirrorAt(NetworkStart(s) + (s.length - 1 - i));
  }

  /** The word bit that should be the signal's lowest comes from another place of the message. */
  lemma LowestMissed(s: Signal, n: nat)
    requires Legal(s) && s.bigEndian && n < 8 && NetworkStart(s) + s.length <= 8 * n
    ensures var data := Encoded(Cleared(n), s, 1); !RawWord(BeWord(data), LeWord(data), s)[0]
  {
    hide Encoded, BeWord, LeWord, IndexAt, Bit;
    var data := Encoded(Cleared(n), s, 1);
    var q := Shift(s).value;
    BeWordAt(data, q);
    if q / 8 < n {
      var k, b := n - 1 - q / 8, q % 8;
      EncodedAt(Cleared(n), Setting(s, 1), k, b);
      assert !Carries(Setting(s, 1), 8 * k + b) by { OtherCell(s, k, b, n); }
    }
  }

  lemma OtherCell(s: Signal, k: nat, b: nat, n: nat)
    requires Legal(s) && s.bigEndian && k < n < 8 && b == Shift(s).value % 8 && k == n - 1 - Shift(s).value / 8
    ensures !Carries(Setting(s, 1), 8 * k + b)
  {
    var q := Shift(s).value;
    var c := 8 * k + b;
    if IndexAt(s, c).Some? {
      OneBit(IndexAt(s, c).value);
      IndexCell(s, c);
      CellOfWordBit(s, 0);
    }
  }
}
