/** Bytes and 64-bit words as rows of bits, lowest first, and what the C operators on them mean. */
module Words {
  import opened Bytes

  type Byte8 = b: seq<bool> | |b| == 8 witness Zeros(8)

  type Word = w: seq<bool> | |w| == 64 witness Zeros(64)

  function Zeros(n: nat): (r: seq<bool>)
    ensures |r| == n
  {
    seq(n, _ => false)
  }

  const ZERO: Word := Zeros(64)
  const ZERO8: Byte8 := Zeros(8)

  /** The number that a row of bits stands for. */
  function Number(b: seq<bool>): nat {
    if b == [] then 0 else (if b[0] then 1 else 0) + 2 * Number(b[1..])
  }

  /** The low `n` bits of a number, in two's complement. */
  function BitsOf(v: int, n: nat): (r: seq<bool>)
    ensures |r| == n
  {
    seq(n, i requires 0 <= i < n => Bit(v, i))
  }

  function Or(x: Word, y: Word): Word { seq(64, i requires 0 <= i < 64 => x[i] || y[i]) }

  function And(x: Word, y: Word): Word { seq(64, i requires 0 <= i < 64 => x[i] && y[i]) }

  function ShiftLeft(x: Word, k: nat): Word {
    seq(64, i requires 0 <= i < 64 => i >= k && x[i - k])
  }

  function ShiftRight(x: Word, k: nat): Word {
    seq(64, i requires 0 <= i < 64 => i + k < 64 && x[i + k])
  }

  function Mask(n: nat): Word { seq(64, i => i < n) }

  function Complement(x: Word): Word { seq(64, i requires 0 <= i < 64 => !x[i]) }

  function Widened(b: Byte8): Word { seq(64, i requires 0 <= i < 64 => i < 8 && b[i]) }

  function Narrowed(x: Word): Byte8 { x[..8] }

  /** A word read as an `int64_t`. */
  function Signed(w: Word): int { Number(w) - if w[63] then Power(64) else 0 }

  // ---- What they mean for numbers ----

  lemma {:induction false} PowerSplits(m: nat, n: nat)
    ensures Power(m + n) == Power(m) * Power(n)
    decreases m
  {
    if m > 0 {
      PowerSplits(m - 1, n);
      assert Power(m + n) == 2 * Power(m - 1 + n);
    }
  }

  lemma {:induction false} NumberBelow(b: seq<bool>)
    ensures Number(b) < Power(|b|)
    decreases |b|
  {
    if b != [] { NumberBelow(b[1..]); }
  }

  lemma {:induction false} NumberJoins(x: seq<bool>, y: seq<bool>)
    ensures Number(x + y) == Number(x) + Power(|x|) * Number(y)
    decreases |x|
  {
    if x == [] {
      assert x + y == y;
    } else {
      NumberJoins(x[1..], y);
      NumberGrows(x, y, Number(x[1..]), Power(|x| - 1) * Number(y));
      DoubledInt(Power(|x| - 1), Number(y));
    }
  }

  lemma NumberGrows(x: seq<bool>, y: seq<bool>, low: nat, high: nat)
    requires x != [] && low == Number(x[1..]) && Number(x[1..] + y) == low + high
    ensures Number(x + y) == Number(x) + 2 * high
  {
    assert (x + y)[1..] == x[1..] + y;
  }

  /** Dropping low bits divides, and keeping low bits takes the remainder. */
  lemma NumberSplits(b: seq<bool>, k: nat)
    requires k <= |b|
    ensures Number(b[k..]) == Number(b) / Power(k) && Number(b[..k]) == Number(b) % Power(k)
  {
    assert b == b[..k] + b[k..];
    NumberJoins(b[..k], b[k..]);
    NumberBelow(b[..k]);
    Division(Number(b), Power(k), Number(b[k..]), Number(b[..k]));
  }

  lemma Division(v: int, p: nat, q: int, r: nat)
    requires r < p && v == r + p * q
    ensures v / p == q && v % p == r
  {
    var d := q - v / p;
    assert p * d == v % p - r by { Factored(p, q, v / p); }
    if d > 0 { AtLeast(p, d); }
    if d < 0 { AtLeast(p, -d); Negated(p, d); }
    assert p * 0 == 0;
  }

  lemma Factored(p: int, q: int, r: int)
    ensures p * (q - r) == p * q - p * r
  {}

  lemma AtLeast(p: nat, d: nat)
    requires d > 0
    ensures p * d >= p
  {}

  lemma Negated(p: int, d: int)
    ensures p * -d == -(p * d)
  {}

  lemma NumberOfFalse(n: nat)
    ensures Number(Zeros(n)) == 0
  {
    if n > 0 {
      assert Zeros(n)[1..] == Zeros(n - 1);
      NumberOfFalse(n - 1);
    }
  }

  lemma NumberOfTrue(n: nat)
    ensures Number(seq(n, _ => true)) == Power(n) - 1
  {
    if n > 0 {
      assert seq(n, _ => true)[1..] == seq(n - 1, _ => true);
      NumberOfTrue(n - 1);
    }
  }

  lemma HalfBit(v: int, i: nat)
    ensures Bit(v, i + 1) == Bit(v / 2, i)
  {
    HalfQuotient(v, Power(i));
  }

  lemma HalfQuotient(v: int, p: nat)
    requires p > 0
    ensures v / (2 * p) == v / 2 / p
  {
    var q, r := v / 2 / p, v / 2 % p;
    assert v / 2 == r + p * q;
    assert v == (2 * r + v % 2) + (2 * p) * q by { DoubledInt(p, q); }
    Division(v, 2 * p, q, 2 * r + v % 2);
  }

  lemma DoubledInt(p: nat, q: int)
    ensures (2 * p) * q == 2 * (p * q)
  {}

  lemma RemainderSplits(v: int, p: nat)
    requires p > 0
    ensures v % (2 * p) == v % 2 + 2 * (v / 2 % p)
  {
    var q, r := v / 2 / p, v / 2 % p;
    assert v / 2 == r + p * q;
    DoubledInt(p, q);
    Division(v, 2 * p, q, 2 * r + v % 2);
  }

  lemma TailOfBits(v: int, n: nat)
    requires n > 0
    ensures BitsOf(v, n)[1..] == BitsOf(v / 2, n - 1) && BitsOf(v, n)[0] == (v % 2 == 1)
  {
    var x, y := BitsOf(v, n)[1..], BitsOf(v / 2, n - 1);
    forall i | 0 <= i < n - 1 ensures x[i] == y[i] { HalfBit(v, i); }
    assert Power(0) == 1;
  }

  /** The low bits of a number stand for its remainder, also for negative numbers. */
  lemma {:induction false} LowBits(v: int, n: nat)
    ensures Number(BitsOf(v, n)) == v % Power(n)
    decreases n
  {
    hide BitsOf;
    if n > 0 {
      TailOfBits(v, n);
      LowBits(v / 2, n - 1);
      RemainderSplits(v, Power(n - 1));
    }
  }

  /** The operators agree with arithmetic modulo 2^64: left shifts multiply, right shifts divide, masks take
      remainders. */
  lemma OperatorsAreArithmetic(x: Word, k: nat)
    requires k <= 64
    ensures Number(ShiftLeft(x, k)) == Number(x) * Power(k) % Power(64)
    ensures Number(ShiftRight(x, k)) == Number(x) / Power(k)
    ensures Number(And(x, Mask(k))) == Number(x) % Power(k)
  {
    hide Number, Power, ShiftLeft, ShiftRight, And;
    ShiftLeftMultiplies(x, k);
    ShiftRightDivides(x, k);
    MaskTakesRemainder(x, k);
  }

  lemma PaddedNumber(b: seq<bool>, n: nat)
    ensures Number(b + Zeros(n)) == Number(b)
  {
    hide Number, Power, Zeros;
    NumberJoins(b, Zeros(n));
    NumberOfFalse(n);
    assert Power(|b|) * 0 == 0;
  }

  lemma ShiftRightDivides(x: Word, k: nat)
    requires k <= 64
    ensures Number(ShiftRight(x, k)) == Number(x) / Power(k)
  {
    hide Number, Power;
    assert ShiftRight(x, k) == x[k..] + Zeros(k);
    PaddedNumber(x[k..], k);
    NumberSplits(x, k);
  }

  lemma MaskTakesRemainder(x: Word, k: nat)
    requires k <= 64
    ensures Number(And(x, Mask(k))) == Number(x) % Power(k)
  {
    hide Number, Power;
    assert And(x, Mask(k)) == x[..k] + Zeros(64 - k);
    PaddedNumber(x[..k], 64 - k);
    NumberSplits(x, k);
  }

  lemma ShiftLeftMultiplies(x: Word, k: nat)
    requires k <= 64
    ensures Number(ShiftLeft(x, k)) == Number(x) * Power(k) % Power(64)
  {
    hide Number, Power;
    var n := 64 - k;
    assert ShiftLeft(x, k) == Zeros(k) + x[..n];
    NumberJoins(Zeros(k), x[..n]);
    NumberOfFalse(k);
    NumberSplits(x, n);
    NumberBelow(x[..n]);
    PowerSplits(k, n);
    Scaled(Number(x), Power(k), Power(n), Number(x[..n]), Number(x[n..]));
  }

  /** Multiplying by `p` modulo `p * q` keeps the remainder modulo `q`. */
  lemma Scaled(v: nat, p: nat, q: nat, r: nat, d: nat)
    requires p > 0 && r < q && r == v % q && d == v / q
    ensures p * q > 0 && v * p % (p * q) == p * r
  {
    assert p * q > 0;
    assert v == q * d + r;
    assert v * p == p * r + (p * q) * d by { Regrouped(p, q, r, d); }
    assert p * r < p * q;
    Division(v * p, p * q, d, p * r);
  }

  lemma Regrouped(p: nat, q: nat, r: nat, d: nat)
    ensures (q * d + r) * p == p * r + (p * q) * d
  {}
}
