/** Bytes, 32-bit millisecond ticks and the option and result types shared by all modules. */
module Bytes {

  type Byte = x: int | 0 <= x < 256

  type U16 = x: int | 0 <= x < 0x1_0000

  type U32 = x: int | 0 <= x < 0x1_0000_0000

  datatype Option<+T> = None | Some(value: T)

  datatype Result<+T, +E> = Ok(value: T) | Err(error: E)

  function Power(n: nat): (p: nat)
    ensures p > 0
  {
    if n == 0 then 1 else 2 * Power(n - 1)
  }

  /** Bit `i` of a number in two's complement. */
  predicate Bit(v: int, i: nat) { v / Power(i) % 2 == 1 }

  /** A tick moved forward, with the wrap-around of `uint32_t`. */
  function Later(now: U32, ms: nat): (r: U32) {
    (now + ms) % 0x1_0000_0000
  }

  /** The unsigned 32-bit difference `now - since`. */
  function Elapsed(now: U32, since: U32): (r: U32) {
    (now - since) % 0x1_0000_0000
  }

  /** The modular deadline test: the wrapped difference lies in the lower half range. */
  predicate Reached(now: U32, deadline: U32) {
    Elapsed(now, deadline) < 0x8000_0000
  }

  /** Unbounded true time as the 32-bit tick shows it. */
  function Tick(time: nat): (r: U32) {
    time % 0x1_0000_0000
  }

  lemma WholeTurns(x: int, turns: int)
    ensures (x + 0x1_0000_0000 * turns) % 0x1_0000_0000 == x % 0x1_0000_0000
  {}

  /** Wrapped differences are exact as long as less than one whole turn has passed, and never
      exceed the true one. */
  lemma ElapsedIsTrueTime(since: nat, now: nat)
    requires since <= now
    ensures Elapsed(Tick(now), Tick(since)) <= now - since
    ensures now - since < 0x1_0000_0000 ==> Elapsed(Tick(now), Tick(since)) == now - since
  {
    WholeTurns(now - since, since / 0x1_0000_0000 - now / 0x1_0000_0000);
  }

  /** A deadline `ms` after `start` is seen as reached exactly in every second half turn of the clock. */
  lemma ReachedExactly(start: nat, ms: nat, now: nat)
    ensures Reached(Tick(now), Later(Tick(start), ms)) <==> (now - start - ms) % 0x1_0000_0000 < 0x8000_0000
  {
    var late := now - start - ms;
    assert Later(Tick(start), ms) == Tick(start + ms) by {
      WholeTurns(start + ms, -(start / 0x1_0000_0000));
    }
    WholeTurns(late, (start + ms) / 0x1_0000_0000 - now / 0x1_0000_0000);
  }

  /** A deadline `ms` after `start` is seen as reached exactly from true time `start + ms` on, for
      deadlines shorter than half the range and observations less than half the range late. */
  lemma ReachedIsTrueTime(start: nat, ms: nat, now: nat)
    requires ms < 0x8000_0000 && start <= now < start + ms + 0x8000_0000
    ensures Reached(Tick(now), Later(Tick(start), ms)) <==> start + ms <= now
  {
    ReachedExactly(start, ms, now);
    if now < start + ms {
      WholeTurns(now - start - ms, 1);
    }
  }
}
