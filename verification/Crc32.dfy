/** Little-endian words and the reflected CRC-32 of RFC 1952, section 8. */
module Crc32 {
  import opened Bytes

  // ---- Bytes and bits ----

  type Nibble = x: int | 0 <= x < 16

  function Mask(c: bool, m: bv32): bv32 { if c then m else 0 }

  function Weight(c: bool, w: nat): nat { if c then w else 0 }

  function NibbleBits(n: Nibble): bv32 {
    Mask(n % 2 == 1, 1) | Mask(n / 2 % 2 == 1, 2) | Mask(n / 4 % 2 == 1, 4) | Mask(n / 8 == 1, 8)
  }

  function NibbleOf(v: bv32): Nibble {
    Weight(v & 1 != 0, 1) + Weight(v & 2 != 0, 2) + Weight(v & 4 != 0, 4) + Weight(v & 8 != 0, 8)
  }

  /** A byte as the low eight bits of a register. */
  function Bits(b: Byte): bv32 { NibbleBits(b % 16) | (NibbleBits(b / 16) << 4) }

  /** The low byte of a register. */
  function LowByte(v: bv32): Byte { NibbleOf(v) + 16 * NibbleOf(v >> 4) }

  lemma NibbleBack(n: Nibble)
    ensures NibbleOf(NibbleBits(n)) == n && NibbleBits(n) & 0xF == NibbleBits(n)
  {}

  lemma NibbleForth(v: bv32)
    ensures NibbleBits(NibbleOf(v)) == v & 0xF && NibbleOf(v) == NibbleOf(v & 0xF)
  {
    var n := NibbleOf(v);
    assert n % 2 == Weight(v & 1 != 0, 1);
    assert n / 2 % 2 == Weight(v & 2 != 0, 1);
    assert n / 4 % 2 == Weight(v & 4 != 0, 1);
    assert n / 8 == Weight(v & 8 != 0, 1);
  }

  lemma NibblesApart(lo: bv32, hi: bv32)
    requires lo & 0xF == lo && hi & 0xF == hi
    ensures var b := lo | (hi << 4); b & 0xF == lo && (b >> 4) & 0xF == hi && b & 0xFF == b
  {}

  lemma NibblesJoin(v: bv32)
    ensures (v & 0xF) | (((v >> 4) & 0xF) << 4) == v & 0xFF
  {}

  lemma ByteBack(b: Byte)
    ensures LowByte(Bits(b)) == b && Bits(b) & 0xFF == Bits(b)
  {
    hide NibbleOf, NibbleBits;
    NibbleBack(b % 16);
    NibbleBack(b / 16);
    NibblesApart(NibbleBits(b % 16), NibbleBits(b / 16));
    NibbleForth(Bits(b));
    NibbleForth(Bits(b) >> 4);
  }

  lemma ByteForth(v: bv32)
    ensures Bits(LowByte(v)) == v & 0xFF
  {
    hide NibbleOf, NibbleBits;
    assert LowByte(v) % 16 == NibbleOf(v) && LowByte(v) / 16 == NibbleOf(v >> 4);
    NibbleForth(v);
    NibbleForth(v >> 4);
    NibblesJoin(v);
  }

  function Or(a: bv32, b: bv32): bv32 { a | b }

  function Up(x: bv32): bv32 { x << 8 }

  function Down(x: bv32): bv32 { x >> 8 }

  /** Four bytes side by side, the first one lowest. */
  function Join(a: bv32, b: bv32, c: bv32, d: bv32): bv32 {
    Or(a, Up(Or(b, Up(Or(c, Up(d))))))
  }

  /** Byte number `i` of a word, counted from the low end. */
  function Quarter(v: bv32, i: nat): bv32
    requires i < 4
  {
    (if i == 0 then v else if i == 1 then v >> 8 else if i == 2 then v >> 16 else v >> 24) & 0xFF
  }

  /** Reads a little-endian word. */
  function GetU32(bytes: seq<Byte>): bv32
    requires |bytes| == 4
  {
    Join(Bits(bytes[0]), Bits(bytes[1]), Bits(bytes[2]), Bits(bytes[3]))
  }

  /** Writes a little-endian word. */
  function PutU32(v: bv32): (bytes: seq<Byte>)
    ensures |bytes| == 4
  {
    [LowByte(Quarter(v, 0)), LowByte(Quarter(v, 1)), LowByte(Quarter(v, 2)), LowByte(Quarter(v, 3))]
  }

  lemma QuartersJoin(v: bv32)
    ensures Join(Quarter(v, 0), Quarter(v, 1), Quarter(v, 2), Quarter(v, 3)) == v
  {}

  lemma QuarterIsByte(v: bv32, i: nat)
    requires i < 4
    ensures Bits(LowByte(Quarter(v, i))) == Quarter(v, i)
  {
    hide Bits, LowByte;
    ByteForth(Quarter(v, i));
  }

  lemma JoinApart(a: bv32, b: bv32, c: bv32, d: bv32)
    requires a & 0xFF == a && b & 0xFF == b && c & 0xFF == c && d & 0xFF == d
    ensures var v := Join(a, b, c, d);
            Quarter(v, 0) == a && Quarter(v, 1) == b && Quarter(v, 2) == c && Quarter(v, 3) == d
  {}

  /** Writing a word and reading it gives it back. */
  lemma WordRoundTrip(v: bv32)
    ensures GetU32(PutU32(v)) == v
  {
    hide Bits, LowByte, Join, Quarter;
    forall i | 0 <= i < 4 ensures Bits(LowByte(Quarter(v, i))) == Quarter(v, i) { QuarterIsByte(v, i); }
    QuartersJoin(v);
  }

  /** Reading a word loses nothing: writing it again gives the same bytes. */
  lemma WordKeepsBytes(x: seq<Byte>)
    requires |x| == 4
    ensures PutU32(GetU32(x)) == x
  {
    hide Bits, LowByte, Join, Quarter;
    ByteBack(x[0]);
    ByteBack(x[1]);
    ByteBack(x[2]);
    ByteBack(x[3]);
    JoinApart(Bits(x[0]), Bits(x[1]), Bits(x[2]), Bits(x[3]));
  }

  // ---- The register ----

  predicate Odd(r: bv32) { r & 1 == 1 }

  function Half(r: bv32): bv32 { r >> 1 }

  function Xor(a: bv32, b: bv32): bv32 { a ^ b }

  function BitStep(r: bv32): bv32 {
    if Odd(r) then Xor(Half(r), 0xEDB88320) else Half(r)
  }

  function BitSteps(r: bv32, n: nat): bv32
    decreases n
  {
    if n == 0 then r else BitSteps(BitStep(r), n - 1)
  }

  /** One byte through the register. */
  function Feed(r: bv32, b: Byte): bv32 { BitSteps(Xor(r, Bits(b)), 8) }

  /** A run of bytes through the register. */
  function Register(r: bv32, data: seq<Byte>): bv32
    decreases data
  {
    if data == [] then r else Register(Feed(r, data[0]), data[1..])
  }

  function Crc(data: seq<Byte>): bv32 { Flip(Register(0xFFFF_FFFF, data)) }

  function Flip(r: bv32): bv32 { !r }

  method ComputeCrc(data: seq<Byte>) returns (crc: bv32)
    ensures crc == Crc(data)
  {
    hide Feed;
    crc := 0xFFFF_FFFF;
    for index := 0 to |data|
      invariant Register(crc, data[index..]) == Register(0xFFFF_FFFF, data)
    {
      assert data[index..][0] == data[index] && data[index..][1..] == data[index + 1..];
      crc := FeedByte(crc, data[index]);
    }
    crc := !crc;
  }

  method FeedByte(r: bv32, b: Byte) returns (crc: bv32)
    ensures crc == Feed(r, b)
  {
    hide Bits;
    crc := r ^ Bits(b);
    for bit := 0 to 8
      invariant BitSteps(crc, 8 - bit) == Feed(r, b)
    {
      crc := if crc & 1 == 1 then (crc >> 1) ^ 0xEDB88320 else crc >> 1;
    }
  }

  // ---- Injectivity ----

  lemma BitStepInjective(a: bv32, b: bv32)
    requires BitStep(a) == BitStep(b)
    ensures a == b
  {}

  lemma {:induction false} BitStepsInjective(a: bv32, b: bv32, n: nat)
    requires BitSteps(a, n) == BitSteps(b, n)
    ensures a == b
    decreases n
  {
    hide BitStep;
    if n > 0 {
      BitStepsInjective(BitStep(a), BitStep(b), n - 1);
      BitStepInjective(a, b);
    }
  }

  /** A run of bytes maps different registers to different registers. */
  lemma {:induction false} RegisterInjective(a: bv32, b: bv32, data: seq<Byte>)
    requires Register(a, data) == Register(b, data)
    ensures a == b
    decreases data
  {
    hide Bits, BitSteps;
    if data != [] {
      RegisterInjective(Feed(a, data[0]), Feed(b, data[0]), data[1..]);
      BitStepsInjective(Xor(a, Bits(data[0])), Xor(b, Bits(data[0])), 8);
      assert Xor(Xor(a, Bits(data[0])), Bits(data[0])) == a;
      assert Xor(Xor(b, Bits(data[0])), Bits(data[0])) == b;
    }
  }

  lemma {:induction false} RegisterAppend(r: bv32, x: seq<Byte>, y: seq<Byte>)
    ensures Register(r, x + y) == Register(Register(r, x), y)
    decreases x
  {
    hide Feed;
    if x == [] {
      assert x + y == y;
    } else {
      assert (x + y)[1..] == x[1..] + y;
      RegisterAppend(Feed(r, x[0]), x[1..], y);
    }
  }

  // ---- Bursts ----

  /** Bits above the lowest pass a step unchanged but shifted. */
  lemma BitStepCarries(r: bv32, x: bv32)
    requires !Odd(x)
    ensures BitStep(Xor(r, x)) == Xor(BitStep(r), Half(x))
  {
    hide Odd, Half, Xor;
    ParityCarries(r, x);
    HalfDistributes(r, x);
    XorSwaps(Half(r), Half(x), 0xEDB88320);
  }

  lemma ParityCarries(r: bv32, x: bv32)
    requires !Odd(x)
    ensures Odd(Xor(r, x)) == Odd(r)
  {}

  lemma HalfDistributes(r: bv32, x: bv32)
    ensures Half(Xor(r, x)) == Xor(Half(r), Half(x))
  {
    calc {
      Half(Xor(r, x));
      (r ^ x) >> 1;
      (r >> 1) ^ (x >> 1);
    }
  }

  lemma XorSwaps(a: bv32, b: bv32, c: bv32)
    ensures Xor(Xor(a, b), c) == Xor(Xor(a, c), b)
  {
    hide Xor;
    XorAssociates(a, b, c);
    XorCommutes(b, c);
    XorAssociates(a, c, b);
  }

  lemma XorCommutes(a: bv32, b: bv32)
    ensures Xor(a, b) == Xor(b, a)
  {}

  /** The `n` lowest bits of `x` are clear. */
  predicate Clear(x: bv32, n: nat)
    decreases n
  {
    n == 0 || (!Odd(x) && Clear(Half(x), n - 1))
  }

  function Halves(x: bv32, n: nat): bv32
    decreases n
  {
    if n == 0 then x else Halves(Half(x), n - 1)
  }

  /** What lies above the low `n` bits waits its turn while `n` steps are taken. */
  lemma {:induction false} StepsCarry(r: bv32, x: bv32, n: nat)
    requires Clear(x, n)
    ensures BitSteps(Xor(r, x), n) == Xor(BitSteps(r, n), Halves(x, n))
    decreases n
  {
    hide BitStep, Xor, Half, Odd;
    if n > 0 {
      BitStepCarries(r, x);
      StepsCarry(BitStep(r), Half(x), n - 1);
    }
  }

  lemma {:induction false} ClearUnfolds(x: bv32)
    ensures Halves(x, 8) == Half(Half(Half(Half(Half(Half(Half(Half(x))))))))
  {
    hide Half;
    var h1 := Half(x);
    var h2 := Half(h1);
    var h3 := Half(h2);
    var h4 := Half(h3);
    var h5 := Half(h4);
    var h6 := Half(h5);
    var h7 := Half(h6);
    assert Halves(h6, 2) == Half(h7);
    assert Halves(h4, 4) == Half(h7);
    assert Halves(h2, 6) == Half(h7);
  }

  lemma HalfClears(x: bv32, m: bv32)
    requires x & ((m << 1) | 1) == 0
    ensures x & 1 == 0 && (x >> 1) & m == 0
  {}

  lemma EightHalves(x: bv32)
    ensures (((((((x >> 1) >> 1) >> 1) >> 1) >> 1) >> 1) >> 1) >> 1 == x >> 8
  {}

  /** A word whose low byte is clear moves down by eight bits in eight halvings. */
  lemma ByteCleared(x: bv32)
    requires x & 0xFF == 0
    ensures Clear(x, 8) && Halves(x, 8) == x >> 8
  {
    EightHalves(x);
    ClearUnfolds(x);
    ClearByMask(x);
  }

  lemma ClearByMask(x: bv32)
    requires x & 0xFF == 0
    ensures Clear(x, 8)
  {
    hide Halves;
    var h1 := Half(x);
    HalfClears(x, 0x7F);
    var h2 := Half(h1);
    HalfClears(h1, 0x3F);
    var h3 := Half(h2);
    HalfClears(h2, 0x1F);
    var h4 := Half(h3);
    HalfClears(h3, 0xF);
    var h5 := Half(h4);
    HalfClears(h4, 7);
    var h6 := Half(h5);
    HalfClears(h5, 3);
    var h7 := Half(h6);
    HalfClears(h6, 1);
    assert Clear(h6, 2);
    assert Clear(h4, 4);
    assert Clear(h2, 6);
  }

  predicate IsByte(b: bv32) { b & 0xFF == b }

  predicate LowClear(x: bv32) { x & 0xFF == 0 }

  /** Feeding the low byte of a word leaves the rest of the word for the next byte. */
  lemma FeedCarries(r: bv32, b: bv32, x: bv32)
    requires IsByte(b) && LowClear(x)
    ensures BitSteps(Xor(r, Or(b, x)), 8) == Xor(BitSteps(Xor(r, b), 8), Down(x))
  {
    hide BitSteps, Clear, Halves, Half, IsByte, LowClear, Xor, Or, Down;
    LowByteClear(x);
    StepsCarry(Xor(r, b), x, 8);
    XorParts(r, b, x);
  }

  lemma LowByteClear(x: bv32)
    requires LowClear(x)
    ensures Clear(x, 8) && Halves(x, 8) == Down(x)
  {
    hide Clear, Halves, Half;
    ByteCleared(x);
  }

  lemma XorParts(r: bv32, b: bv32, x: bv32)
    requires IsByte(b) && LowClear(x)
    ensures Xor(Xor(r, b), x) == Xor(r, Or(b, x))
  {
    hide Xor, Or, IsByte, LowClear;
    XorAssociates(r, b, x);
    OrIsXor(b, x);
  }

  lemma XorAssociates(a: bv32, b: bv32, c: bv32)
    ensures Xor(Xor(a, b), c) == Xor(a, Xor(b, c))
  {
    RawAssociates(a, b, c);
  }

  lemma RawAssociates(a: bv32, b: bv32, c: bv32)
    ensures (a ^ b) ^ c == a ^ (b ^ c)
  {}

  lemma OrIsXor(b: bv32, x: bv32)
    requires IsByte(b) && LowClear(x)
    ensures Or(b, x) == Xor(b, x)
  {
    BytesDisjoint(b, x);
  }

  lemma BytesDisjoint(b: bv32, x: bv32)
    requires b & 0xFF == b && x & 0xFF == 0
    ensures b | x == b ^ x
  {}

  function FourBytes(r: bv32): bv32 {
    BitSteps(BitSteps(BitSteps(BitSteps(r, 8), 8), 8), 8)
  }

  /** Four bytes act on the register as one exclusive-or with their word. */
  lemma WordFeeds(r: bv32, x: seq<Byte>)
    requires |x| == 4
    ensures Register(r, x) == FourBytes(Xor(r, GetU32(x)))
  {
    hide Bits, BitSteps, Xor, Register;
    ByteBack(x[0]);
    ByteBack(x[1]);
    ByteBack(x[2]);
    ByteBack(x[3]);
    FoldedFeeds(r, Bits(x[0]), Bits(x[1]), Bits(x[2]), Bits(x[3]));
    RegisterOfFour(r, x);
  }

  lemma RegisterOfFour(r: bv32, x: seq<Byte>)
    requires |x| == 4
    ensures Register(r, x) == Feed(Feed(Feed(Feed(r, x[0]), x[1]), x[2]), x[3])
  {
    hide Feed;
    assert x[1..][1..] == x[2..] && x[2..][1..] == x[3..] && x[3..][1..] == [];
    var r1 := Feed(r, x[0]);
    var r2 := Feed(r1, x[1]);
    var r3 := Feed(r2, x[2]);
    assert Register(r3, x[3..]) == Register(Feed(r3, x[3]), []);
    assert Register(r2, x[2..]) == Register(r3, x[3..]);
    assert Register(r1, x[1..]) == Register(r2, x[2..]);
  }

  /** A byte moved above another one. */
  lemma UpMakesRoom(b: bv32, x: bv32)
    requires IsByte(b) && x & 0xFF00_0000 == 0
    ensures LowClear(Up(x)) && Down(Up(x)) == x
  {
    UpBits(x);
  }

  lemma UpBits(x: bv32)
    requires x & 0xFF00_0000 == 0
    ensures (x << 8) & 0xFF == 0 && (x << 8) >> 8 == x
  {}

  /** The word of four bytes, folded from its high end. */
  lemma JoinFolds(a: bv32, b: bv32, c: bv32, d: bv32)
    requires IsByte(a) && IsByte(b) && IsByte(c) && IsByte(d)
    ensures Join(a, b, c, d) == Or(a, Up(Or(b, Up(Or(c, Up(d))))))
    ensures LowClear(Up(d)) && Down(Up(d)) == d
    ensures LowClear(Up(Or(c, Up(d)))) && Down(Up(Or(c, Up(d)))) == Or(c, Up(d))
    ensures LowClear(Up(Or(b, Up(Or(c, Up(d)))))) && Down(Up(Or(b, Up(Or(c, Up(d)))))) == Or(b, Up(Or(c, Up(d))))
  {
    hide IsByte;
    assert IsByte(a) && IsByte(b) && IsByte(c) && IsByte(d);
    RoomAbove(a, b, c, d);
    UpMakesRoom(a, d);
    UpMakesRoom(a, Or(c, Up(d)));
    UpMakesRoom(a, Or(b, Up(Or(c, Up(d)))));
  }

  lemma RoomAbove(a: bv32, b: bv32, c: bv32, d: bv32)
    requires IsByte(a) && IsByte(b) && IsByte(c) && IsByte(d)
    ensures d & 0xFF00_0000 == 0 && Or(c, Up(d)) & 0xFF00_0000 == 0 && Or(b, Up(Or(c, Up(d)))) & 0xFF00_0000 == 0
  {
    RoomBits(b, c, d);
  }

  lemma RoomBits(b: bv32, c: bv32, d: bv32)
    requires b & 0xFF == b && c & 0xFF == c && d & 0xFF == d
    ensures d & 0xFF00_0000 == 0 && (c | (d << 8)) & 0xFF00_0000 == 0
    ensures (b | ((c | (d << 8)) << 8)) & 0xFF00_0000 == 0
  {}

  lemma FoldedFeeds(r: bv32, a: bv32, b: bv32, c: bv32, d: bv32)
    requires IsByte(a) && IsByte(b) && IsByte(c) && IsByte(d)
    ensures FourBytes(Xor(r, Join(a, b, c, d)))
         == BitSteps(Xor(BitSteps(Xor(BitSteps(Xor(BitSteps(Xor(r, a), 8), b), 8), c), 8), d), 8)
  {
    hide BitSteps, Xor, Or, Up, Down, Join, IsByte, LowClear;
    JoinFolds(a, b, c, d);
    var r1 := BitSteps(Xor(r, a), 8);
    var r2 := BitSteps(Xor(r1, b), 8);
    FeedCarries(r, a, Up(Or(b, Up(Or(c, Up(d))))));
    FeedCarries(r1, b, Up(Or(c, Up(d))));
    FeedCarries(r2, c, Up(d));
  }

  // ---- What a changed window does ----

  /** Two runs of bytes that differ only inside four adjacent bytes leave different registers. */
  lemma WindowShows(r: bv32, x: seq<Byte>, y: seq<Byte>, at: nat)
    requires |x| == |y| && at + 4 <= |x| && x[..at] == y[..at] && x[at + 4..] == y[at + 4..]
    requires Register(r, x) == Register(r, y)
    ensures x == y
  {
    hide Register, Feed, FourBytes, GetU32;
    var wx, wy := x[at..at + 4], y[at..at + 4];
    assert x == x[..at] + (wx + x[at + 4..]) && y == y[..at] + (wy + y[at + 4..]);
    RegisterAppend(r, x[..at], wx + x[at + 4..]);
    RegisterAppend(r, y[..at], wy + y[at + 4..]);
    var before := Register(r, x[..at]);
    RegisterAppend(before, wx, x[at + 4..]);
    RegisterAppend(before, wy, y[at + 4..]);
    RegisterInjective(Register(before, wx), Register(before, wy), x[at + 4..]);
    WindowDetermined(before, wx, wy);
  }

  lemma WindowDetermined(r: bv32, x: seq<Byte>, y: seq<Byte>)
    requires |x| == |y| == 4 && Register(r, x) == Register(r, y)
    ensures x == y
  {
    hide Register, Feed, GetU32, Xor, PutU32, BitSteps;
    WordFeeds(r, x);
    WordFeeds(r, y);
    FourBytesInjective(Xor(r, GetU32(x)), Xor(r, GetU32(y)));
    XorCancels(r, GetU32(x), GetU32(y));
    WordKeepsBytes(x);
    WordKeepsBytes(y);
  }

  lemma XorCancels(r: bv32, a: bv32, b: bv32)
    requires Xor(r, a) == Xor(r, b)
    ensures a == b
  {
    hide Xor;
    XorTwiceCancels(r, a);
    XorTwiceCancels(r, b);
  }

  lemma FourBytesInjective(a: bv32, b: bv32)
    requires FourBytes(a) == FourBytes(b)
    ensures a == b
  {
    hide BitSteps;
    var a1, b1 := BitSteps(a, 8), BitSteps(b, 8);
    var a2, b2 := BitSteps(a1, 8), BitSteps(b1, 8);
    var a3, b3 := BitSteps(a2, 8), BitSteps(b2, 8);
    BitStepsInjective(a3, b3, 8);
    BitStepsInjective(a2, b2, 8);
    BitStepsInjective(a1, b1, 8);
    BitStepsInjective(a, b, 8);
  }

  /** The register after data followed by four bytes is a fixed one exactly when those bytes are the
      checksum of the data. */
  lemma ChecksumMeansResidue(data: seq<Byte>, tail: seq<Byte>)
    requires |tail| == 4
    ensures GetU32(tail) == Crc(data) <==> Register(0xFFFF_FFFF, data + tail) == FourBytes(0xFFFF_FFFF)
  {
    hide Register, Feed, GetU32, BitSteps, FourBytes, Xor, Flip;
    var r := Register(0xFFFF_FFFF, data);
    RegisterAppend(0xFFFF_FFFF, data, tail);
    WordFeeds(r, tail);
    Complement(r, GetU32(tail));
    if FourBytes(Xor(r, GetU32(tail))) == FourBytes(0xFFFF_FFFF) {
      FourBytesInjective(Xor(r, GetU32(tail)), 0xFFFF_FFFF);
    }
  }

  lemma Complement(r: bv32, w: bv32)
    ensures w == Flip(r) <==> Xor(r, w) == 0xFFFF_FFFF
  {
    hide Flip, Xor;
    FlipIsXor(r);
    if Xor(r, w) == 0xFFFF_FFFF {
      XorTwiceCancels(r, w);
    } else if w == Flip(r) {
      XorTwiceCancels(r, 0xFFFF_FFFF);
    }
  }

  lemma FlipIsXor(r: bv32)
    ensures Flip(r) == Xor(r, 0xFFFF_FFFF)
  {
    calc {
      Flip(r);
      !r;
      r ^ 0xFFFF_FFFF;
    }
  }

  lemma XorTwiceCancels(r: bv32, a: bv32)
    ensures Xor(r, Xor(r, a)) == a
  {
    calc {
      Xor(r, Xor(r, a));
      r ^ (r ^ a);
      a;
    }
  }

  // ---- Going back ----

  predicate Top(r: bv32) { r & 0x8000_0000 != 0 }

  function UpOdd(r: bv32): bv32 { ((r ^ 0xEDB88320) << 1) | 1 }

  function UpEven(r: bv32): bv32 { r << 1 }

  /** The register from before one bit step. */
  function StepBack(r: bv32): bv32 { if Top(r) then UpOdd(r) else UpEven(r) }

  lemma StepBackInverts(r: bv32)
    ensures BitStep(StepBack(r)) == r
  {
    hide Odd, Half, Xor, UpOdd, UpEven, Top;
    if Top(r) { OddBack(r); } else { EvenBack(r); }
  }

  lemma OddBack(r: bv32)
    requires Top(r)
    ensures Odd(UpOdd(r)) && Xor(Half(UpOdd(r)), 0xEDB88320) == r
  {
    BackWithTop(r);
  }

  lemma EvenBack(r: bv32)
    requires !Top(r)
    ensures !Odd(UpEven(r)) && Half(UpEven(r)) == r
  {
    BackWithoutTop(r);
  }

  lemma BackWithTop(r: bv32)
    requires r & 0x8000_0000 != 0
    ensures (((r ^ 0xEDB88320) << 1) | 1) & 1 == 1
    ensures ((((r ^ 0xEDB88320) << 1) | 1) >> 1) ^ 0xEDB88320 == r
  {}

  lemma BackWithoutTop(r: bv32)
    requires r & 0x8000_0000 == 0
    ensures (r << 1) & 1 == 0 && (r << 1) >> 1 == r
  {}

  function StepsBack(r: bv32, n: nat): bv32
    decreases n
  {
    if n == 0 then r else StepBack(StepsBack(r, n - 1))
  }

  lemma {:induction false} StepsBackInvert(r: bv32, n: nat)
    ensures BitSteps(StepsBack(r, n), n) == r
    decreases n
  {
    hide BitStep, StepBack;
    if n > 0 {
      StepBackInverts(StepsBack(r, n - 1));
      StepsBackInvert(r, n - 1);
    }
  }

  /** The register from before a run of bytes. */
  function RegisterBack(r: bv32, data: seq<Byte>): bv32
    decreases data
  {
    if data == [] then r else Xor(StepsBack(RegisterBack(r, data[1..]), 8), Bits(data[0]))
  }

  lemma {:induction false} RegisterBackInverts(r: bv32, data: seq<Byte>)
    ensures Register(RegisterBack(r, data), data) == r
    decreases data
  {
    hide Bits, BitSteps, StepsBack, Xor;
    if data != [] {
      var after := RegisterBack(r, data[1..]);
      XorUndone(StepsBack(after, 8), Bits(data[0]));
      StepsBackInvert(after, 8);
      RegisterBackInverts(r, data[1..]);
    }
  }

  lemma XorUndone(a: bv32, b: bv32)
    ensures Xor(Xor(a, b), b) == a
  {
    calc {
      Xor(Xor(a, b), b);
      (a ^ b) ^ b;
      a;
    }
  }

  /** Four free bytes in front of any others reach every register: the converse of `WindowShows`. */
  lemma FourBytesReach(before: bv32, tail: seq<Byte>, target: bv32) returns (x: seq<Byte>)
    ensures |x| == 4 && Register(before, x + tail) == target
  {
    hide Register, Feed, GetU32, PutU32, FourBytes, BitSteps, StepsBack, Xor, RegisterBack;
    var middle := RegisterBack(target, tail);
    RegisterBackInverts(target, tail);
    var start := StepsBack(StepsBack(StepsBack(StepsBack(middle, 8), 8), 8), 8);
    FourBack(middle);
    x := PutU32(Xor(before, start));
    WordRoundTrip(Xor(before, start));
    WordFeeds(before, x);
    XorTwiceCancels(before, start);
    RegisterAppend(before, x, tail);
  }

  lemma FourBack(r: bv32)
    ensures FourBytes(StepsBack(StepsBack(StepsBack(StepsBack(r, 8), 8), 8), 8)) == r
  {
    hide BitSteps, StepsBack;
    var r1 := StepsBack(r, 8);
    var r2 := StepsBack(r1, 8);
    var r3 := StepsBack(r2, 8);
    StepsBackInvert(r, 8);
    StepsBackInvert(r1, 8);
    StepsBackInvert(r2, 8);
    StepsBackInvert(r3, 8);
  }

  // ---- The check value ----

  /** Eight bit steps, written out. */
  function Eight(r: bv32): bv32 {
    BitStep(BitStep(BitStep(BitStep(BitStep(BitStep(BitStep(BitStep(r))))))))
  }

  lemma EightSteps(r: bv32)
    ensures BitSteps(r, 8) == Eight(r)
  {
    hide BitStep;
    var r4 := BitStep(BitStep(BitStep(BitStep(r))));
    assert BitSteps(r4, 4) == Eight(r);
  }

  lemma FourEights(r: bv32)
    ensures FourBytes(r) == Eight(Eight(Eight(Eight(r))))
  {
    hide BitSteps, Eight;
    EightSteps(r);
    EightSteps(Eight(r));
    EightSteps(Eight(Eight(r)));
    EightSteps(Eight(Eight(Eight(r))));
  }

  lemma Check0()
    ensures Xor(0xFFFF_FFFF, 0x3433_3231) == 0xCBCC_CDCE && FourBytes(0xCBCC_CDCE) == 0x641C_1F5C
  {
    assert Eight(0xCBCC_CDCE) == 0x7C17_237A && Eight(0x7C17_237A) == 0xB0AC_8F01;
    assert Eight(0xB0AC_8F01) == 0x77B7_9C19 && Eight(0x77B7_9C19) == 0x641C_1F5C;
    FourEights(0xCBCC_CDCE);
  }

  lemma Check1()
    ensures Xor(0x641C_1F5C, 0x3837_3635) == 0x5C2B_2969 && FourBytes(0x5C2B_2969) == 0x651F_2550
  {
    assert Eight(0x5C2B_2969) == 0x3432_F2D5 && Eight(0x3432_F2D5) == 0xF68D_14A9;
    assert Eight(0xF68D_14A9) == 0xAFFC_9658 && Eight(0xAFFC_9658) == 0x651F_2550;
    FourEights(0x5C2B_2969);
  }

  lemma Check2()
    ensures Xor(0x651F_2550, 0x39) == 0x651F_2569 && BitSteps(0x651F_2569, 8) == 0x340B_C6D9 && Flip(0x340B_C6D9) == 0xCBF4_3926
  {
    assert Eight(0x651F_2569) == 0x340B_C6D9;
    EightSteps(0x651F_2569);
  }

  lemma DigitWords()
    ensures GetU32([0x31, 0x32, 0x33, 0x34]) == 0x3433_3231 && GetU32([0x35, 0x36, 0x37, 0x38]) == 0x3837_3635 && Bits(0x39) == 0x39
  {
    hide Bits;
    DigitBits();
    assert Join(0x31, 0x32, 0x33, 0x34) == 0x3433_3231;
    assert Join(0x35, 0x36, 0x37, 0x38) == 0x3837_3635;
  }

  lemma DigitBit(v: bv32, b: Byte)
    requires LowByte(v) == b && v & 0xFF == v
    ensures Bits(b) == v
  {
    ByteForth(v);
  }

  lemma DigitBits()
    ensures Bits(0x31) == 0x31 && Bits(0x32) == 0x32 && Bits(0x33) == 0x33 && Bits(0x34) == 0x34 && Bits(0x35) == 0x35
    ensures Bits(0x36) == 0x36 && Bits(0x37) == 0x37 && Bits(0x38) == 0x38 && Bits(0x39) == 0x39
  {
    hide Bits;
    assert LowByte(0x31) == 0x31;
    DigitBit(0x31, 0x31);
    assert LowByte(0x32) == 0x32;
    DigitBit(0x32, 0x32);
    assert LowByte(0x33) == 0x33;
    DigitBit(0x33, 0x33);
    assert LowByte(0x34) == 0x34;
    DigitBit(0x34, 0x34);
    assert LowByte(0x35) == 0x35;
    DigitBit(0x35, 0x35);
    assert LowByte(0x36) == 0x36;
    DigitBit(0x36, 0x36);
    assert LowByte(0x37) == 0x37;
    DigitBit(0x37, 0x37);
    assert LowByte(0x38) == 0x38;
    DigitBit(0x38, 0x38);
    assert LowByte(0x39) == 0x39;
    DigitBit(0x39, 0x39);
  }

  /** The check value by which CRC-32 implementations are compared: that of the digits from 1 to 9. */
  lemma CheckValue()
    ensures Crc([0x31, 0x32, 0x33, 0x34, 0x35, 0x36, 0x37, 0x38, 0x39]) == 0xCBF4_3926
  {
    hide GetU32, FourBytes, BitSteps, Xor, Flip, Register, Bits;
    var x, y := [0x31, 0x32, 0x33, 0x34], [0x35, 0x36, 0x37, 0x38];
    assert x + y + [0x39] == [0x31, 0x32, 0x33, 0x34, 0x35, 0x36, 0x37, 0x38, 0x39];
    RegisterAppend(0xFFFF_FFFF, x + y, [0x39]);
    RegisterAppend(0xFFFF_FFFF, x, y);
    WordFeeds(0xFFFF_FFFF, x);
    WordFeeds(Register(0xFFFF_FFFF, x), y);
    LastFeeds(Register(0xFFFF_FFFF, x + y), 0x39);
    DigitWords();
    Check0();
    Check1();
    Check2();
  }

  lemma LastFeeds(r: bv32, b: Byte)
    ensures Register(r, [b]) == BitSteps(Xor(r, Bits(b)), 8)
  {
    hide BitSteps, Bits, Xor;
    assert [b][1..] == [];
  }
}
