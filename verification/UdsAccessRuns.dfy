/** Runs of the session and security state: who unlocks, who is locked out, and how long sessions live. */
module UdsAccessRuns {
  import opened Bytes
  import opened UdsAccess
  import Crc32

  // ---- Keys and seeds ----

  lemma RotationsCancel(x: bv32)
    ensures RotatedBack(Rotated(x)) == x && Rotated(RotatedBack(x)) == x
  {}

  lemma FoldTwice(x: bv32)
    ensures Folded(Folded(x)) == x
  {
    assert Folded(x) == x ^ (x >> 16);
    assert Folded(x ^ (x >> 16)) == (x ^ (x >> 16)) ^ ((x ^ (x >> 16)) >> 16);
    assert (x ^ (x >> 16)) ^ ((x ^ (x >> 16)) >> 16) == x;
  }

  lemma PlusMinus(x: bv32, y: bv32)
    ensures Minus(Plus(x, y), y) == x
  {
    assert Plus(x, y) == x + y;
    assert Minus(x + y, y) == (x + y) - y;
    assert (x + y) - y == x;
  }

  lemma MinusPlus(x: bv32, y: bv32)
    ensures Plus(Minus(x, y), y) == x
  {
    assert Minus(x, y) == x - y;
    assert Plus(x - y, y) == (x - y) + y;
    assert (x - y) + y == x;
  }

  /** For every salt, keys and seeds correspond one to one. */
  lemma KeysAreBijective(seed: bv32, key: bv32, salt: bv32)
    ensures ComputeKey(seed, salt) == key <==> seed == SeedFor(key, salt)
  {
    hide Rotated, RotatedBack, Folded, Plus, Minus, Crc32.Xor;
    Crc32.XorUndone(seed, salt);
    RotationsCancel(Crc32.Xor(seed, salt));
    PlusMinus(Rotated(Crc32.Xor(seed, salt)), 0x9E3779B9);
    FoldTwice(Plus(Rotated(Crc32.Xor(seed, salt)), 0x9E3779B9));
    FoldTwice(key);
    MinusPlus(Folded(key), 0x9E3779B9);
    RotationsCancel(Minus(Folded(key), 0x9E3779B9));
    Crc32.XorUndone(RotatedBack(Minus(Folded(key), 0x9E3779B9)), salt);
  }

  /** The rotation is multiplication by 2^13, with what leaves the word at the top coming in below. */
  lemma RotatedIsArithmetic(x: bv32)
    ensures Rotated(x) == x * 0x2000 + x / 0x8_0000
  {
    assert Rotated(x) == (x << 13) | (x >> 19);
    RawRotation(x);
  }

  lemma RawRotation(x: bv32)
    ensures (x << 13) | (x >> 19) == x * 0x2000 + x / 0x8_0000
  {}

  predicate MixesDown(x: bv32, y: bv32) { y >> 16 == x >> 16 && y & 0xFFFF == (x & 0xFFFF) ^ (x >> 16) }

  /** Folding keeps the high half of a word and mixes it into the low half. */
  lemma FoldedHalves(x: bv32)
    ensures MixesDown(x, Folded(x))
  {
    hide MixesDown;
    RawFold(x);
    assert Folded(x) == x ^ (x >> 16);
  }

  lemma RawFold(x: bv32)
    ensures MixesDown(x, x ^ (x >> 16))
  {}

  predicate MixedUp13(x: bv32, y: bv32) { y == x ^ (x * 0x2000) }

  predicate MixedDown17(x: bv32, y: bv32) { y == x ^ (x / 0x2_0000) }

  predicate MixedUp5(x: bv32, y: bv32) { y == x ^ (x * 0x20) }

  /** A step of the generator mixes its state with 2^13 times itself, that with its 2^17th part, and that with 32
      times itself. */
  lemma GeneratorSteps(state: bv32) returns (a: bv32, b: bv32)
    requires state != 0
    ensures MixedUp13(state, a) && MixedDown17(a, b) && MixedUp5(b, NextState(state))
  {
    hide MixedUp13, MixedDown17, MixedUp5, XorLeft, XorRight;
    a := XorLeft(state, 13);
    b := XorRight(a, 17);
    Left13(state);
    Right17(a);
    Left5(b);
  }

  lemma Left13(x: bv32)
    ensures MixedUp13(x, XorLeft(x, 13))
  {
    hide MixedUp13;
    Raw13(x);
    assert XorLeft(x, 13) == x ^ (x << 13);
  }

  lemma Right17(x: bv32)
    ensures MixedDown17(x, XorRight(x, 17))
  {
    hide MixedDown17;
    Raw17(x);
    assert XorRight(x, 17) == x ^ (x >> 17);
  }

  lemma Left5(x: bv32)
    ensures MixedUp5(x, XorLeft(x, 5))
  {
    hide MixedUp5;
    Raw5(x);
    assert XorLeft(x, 5) == x ^ (x << 5);
  }

  lemma Raw13(x: bv32)
    ensures MixedUp13(x, x ^ (x << 13))
  {}

  lemma Raw17(x: bv32)
    ensures MixedDown17(x, x ^ (x >> 17))
  {}

  lemma Raw5(x: bv32)
    ensures MixedUp5(x, x ^ (x << 5))
  {}

  /** A seed is never zero or all ones, and otherwise it is the generator's state. */
  lemma SeedsAreUsable(state: bv32)
    ensures SeedOf(state) != 0 && SeedOf(state) != 0xFFFF_FFFF
    ensures SeedOf(state) == if state == 0 || state == 0xFFFF_FFFF then 0x1234_5678 else state
    ensures NextState(0) == NextState(0x1234_5678)
  {}

  /** The first seed and its key, as the project documents them. */
  lemma DocumentedVector()
    ensures SeedOf(NextState(DEFAULT_SEED)) == 0x8798_5AA5 && ComputeKey(0x8798_5AA5, SALT) == 0xE174_F5DA
  {
    assert Crc32.Xor(0x8798_5AA5, SALT) == 0xD7AA_19E4;
  }

  /** Four bytes of a word, high byte first. */
  lemma DocumentedBytes()
    ensures BigEndian(0x8798_5AA5) == [0x87, 0x98, 0x5A, 0xA5] && BigEndian(0xE174_F5DA) == [0xE1, 0x74, 0xF5, 0xDA]
  {
    SeedBytes();
    KeyBytes();
  }

  lemma SeedBytes()
    ensures BigEndian(0x8798_5AA5) == [0x87, 0x98, 0x5A, 0xA5]
  {
    assert Crc32.Quarter(0x8798_5AA5, 0) == 0xA5 && Crc32.Quarter(0x8798_5AA5, 1) == 0x5A;
    assert Crc32.Quarter(0x8798_5AA5, 2) == 0x98 && Crc32.Quarter(0x8798_5AA5, 3) == 0x87;
    assert Crc32.LowByte(0xA5) == 0xA5 && Crc32.LowByte(0x5A) == 0x5A;
    assert Crc32.LowByte(0x98) == 0x98 && Crc32.LowByte(0x87) == 0x87;
  }

  lemma KeyBytes()
    ensures BigEndian(0xE174_F5DA) == [0xE1, 0x74, 0xF5, 0xDA]
  {
    assert Crc32.Quarter(0xE174_F5DA, 0) == 0xDA && Crc32.Quarter(0xE174_F5DA, 1) == 0xF5;
    assert Crc32.Quarter(0xE174_F5DA, 2) == 0x74 && Crc32.Quarter(0xE174_F5DA, 3) == 0xE1;
    assert Crc32.LowByte(0xDA) == 0xDA && Crc32.LowByte(0xF5) == 0xF5;
    assert Crc32.LowByte(0x74) == 0x74 && Crc32.LowByte(0xE1) == 0xE1;
  }

  // ---- Events ----

  /** A tick alone, an explicit lock, or a request; `alive` tells whether a data or routine service
      answered positively or with a pending note. Times are true times. */
  datatype Event =
    | Polled(time: nat)
    | Relocked(time: nat)
    | Requested(time: nat, request: seq<Byte>, capacity: nat, alive: bool)

  predicate IsData(service: Byte) { service == 0x22 || service == 0x2E || service == 0x31 }

  /** What one request does to the session and security state. */
  function Served(a: State, now: U32, request: seq<Byte>, capacity: nat, alive: bool): State {
    var t := Ticked(a, now);
    if request == [] then t
    else if request[0] == SESSION_CONTROL then SessionControl(t, now, request, capacity).0
    else if request[0] == TESTER_PRESENT then TesterPresent(t, now, request, capacity).0
    else if request[0] == SECURITY_ACCESS then
      var (b, reply) := SecurityAccess(t, now, request, capacity);
      if CountsAsAlive(reply) then KeptAlive(b, now) else b
    else if IsData(request[0]) && alive then KeptAlive(t, now)
    else t
  }

  function Step(a: State, e: Event): State {
    match e
    case Polled(time) => Ticked(a, Tick(time))
    case Relocked(_) => Locked(a)
    case Requested(time, request, capacity, alive) => Served(a, Tick(time), request, capacity, alive)
  }

  function Run(events: seq<Event>, n: nat): State
    requires n <= |events|
    decreases n
  {
    if n == 0 then INITIAL else Step(Run(events, n - 1), events[n - 1])
  }

  // ---- Seeds and keys in events ----

  /** The event is a security request that gets past session and delay checks. */
  predicate ReachesSecurity(a: State, e: Event, subfunction: Byte) {
    e.Requested? && |e.request| >= 2 && e.request[0] == SECURITY_ACCESS && e.request[1] % 0x80 == subfunction
    && Ticked(a, Tick(e.time)).session in {PROGRAMMING, EXTENDED}
    && !DelayChecked(Ticked(a, Tick(e.time)), Tick(e.time)).1
  }

  /** The event issues seed `s`. */
  predicate Issues(a: State, e: Event, s: bv32) {
    ReachesSecurity(a, e, 1) && !Ticked(a, Tick(e.time)).unlocked
    && s == SeedOf(NextState(a.seedState))
  }

  ghost predicate IssuesSeed(a: State, e: Event) { exists s :: Issues(a, e, s) }

  /** The event tries a key against the seed that is pending. */
  predicate Attempts(a: State, e: Event) {
    ReachesSecurity(a, e, 2) && |e.request| == 6 && Ticked(a, Tick(e.time)).seed.Some?
  }

  predicate RightKey(e: Event, s: bv32) {
    e.Requested? && |e.request| == 6 && FromBigEndian(e.request[2..]) == ComputeKey(s, SALT)
  }

  /** Holds in every reachable state. */
  predicate Consistent(a: State) {
    && DEFAULT <= a.session <= EXTENDED
    && (a.session == DEFAULT <==> a.s3.None?)
    && (a.unlocked ==> a.session != DEFAULT && a.seed.None?)
    && (a.seed.Some? ==> a.session != DEFAULT)
    && a.attempts < MAX_ATTEMPTS
  }

  lemma TickConsistent(a: State, now: U32)
    requires Consistent(a)
    ensures var t := Ticked(a, now); Consistent(t) && t.seedState == a.seedState && t.delayUntil == a.delayUntil
    ensures var t := Ticked(a, now); t == a || (t.session == DEFAULT && !t.unlocked && t.seed.None? && a.session != DEFAULT)
  {}

  predicate IsSecurity(e: Event) {
    e.Requested? && e.request != [] && e.request[0] == SECURITY_ACCESS
  }

  /** A security request either leaves the state as the tick left it, or reaches the seed or key part. */
  lemma SecurityCases(a: State, e: Event)
    requires Consistent(a) && IsSecurity(e)
    ensures var now := Tick(e.time);
            var t := Ticked(a, now);
            var d := DelayChecked(t, now).0;
            var (b, reply) := SecurityAccess(t, now, e.request, e.capacity);
            && Consistent(t)
            && (Step(a, e) == b || Step(a, e) == KeptAlive(b, now))
            && d.(attempts := t.attempts, delayUntil := t.delayUntil) == t && d.attempts <= t.attempts
            && (!ReachesSecurity(a, e, 1) && !ReachesSecurity(a, e, 2) ==> b == t)
            && (ReachesSecurity(a, e, 1) ==> (b, reply) == RequestSeed(d, e.request[1], e.capacity))
            && (ReachesSecurity(a, e, 2) ==> (b, reply) == SendKey(d, now, e.request, e.capacity))
  {
    hide Ticked, RequestSeed, SendKey, Reached, Negative, KeptAlive, CountsAsAlive, Tick;
    TickConsistent(a, Tick(e.time));
  }

  lemma RequestSeedEffects(d: State, subfunction: Byte, capacity: nat)
    requires Consistent(d)
    ensures var b := RequestSeed(d, subfunction, capacity).0;
            && b == d.(seed := b.seed, seedState := b.seedState)
            && b.seed == (if d.unlocked then d.seed else Some(SeedOf(NextState(d.seedState))))
  {
    hide NextState, SeedOf, Positive, BigEndian;
  }

  lemma SendKeyEffects(d: State, now: U32, request: seq<Byte>, capacity: nat)
    requires Consistent(d) && |request| >= 2
    ensures var b := SendKey(d, now, request, capacity).0;
            && b == d.(seed := b.seed, unlocked := b.unlocked, attempts := b.attempts, delayUntil := b.delayUntil)
            && b.seed == (if |request| == 6 then None else d.seed)
            && (b.unlocked ==> b.seed.None?)
            && (b.unlocked && !d.unlocked ==>
                  |request| == 6 && d.seed.Some? && FromBigEndian(request[2..]) == ComputeKey(d.seed.value, SALT))
            && b.attempts < MAX_ATTEMPTS
  {
    hide ComputeKey, FromBigEndian, Positive, Negative, Later;
  }

  lemma SecurityConsistent(a: State, e: Event)
    requires Consistent(a) && IsSecurity(e)
    ensures var t, b := Ticked(a, Tick(e.time)), Step(a, e);
            Consistent(b) && b.session == t.session && b.timeouts == t.timeouts
  {
    hide Step, Ticked, DelayChecked, SecurityAccess, RequestSeed, SendKey, Later, Tick;
    SecurityCases(a, e);
    var d := DelayChecked(Ticked(a, Tick(e.time)), Tick(e.time)).0;
    if ReachesSecurity(a, e, 1) {
      RequestSeedEffects(d, e.request[1], e.capacity);
    } else if ReachesSecurity(a, e, 2) {
      SendKeyEffects(d, Tick(e.time), e.request, e.capacity);
    }
  }

  /** What a security request does to the pending seed. */
  lemma SecuritySeeds(a: State, e: Event)
    requires Consistent(a) && IsSecurity(e)
    ensures var t, b := Ticked(a, Tick(e.time)), Step(a, e);
            && (b.seed.Some? ==> Issues(a, e, b.seed.value) || (b.seed == t.seed && !Attempts(a, e)))
            && (Attempts(a, e) ==> b.seed.None?)
  {
    hide Step, Ticked, DelayChecked, SecurityAccess, RequestSeed, SendKey, Later, Tick, NextState, SeedOf;
    SecurityCases(a, e);
    TickConsistent(a, Tick(e.time));
    var d := DelayChecked(Ticked(a, Tick(e.time)), Tick(e.time)).0;
    if ReachesSecurity(a, e, 1) {
      RequestSeedEffects(d, e.request[1], e.capacity);
    } else if ReachesSecurity(a, e, 2) {
      SendKeyEffects(d, Tick(e.time), e.request, e.capacity);
    }
  }

  /** What a security request does to the lock. */
  lemma SecurityLocks(a: State, e: Event)
    requires Consistent(a) && IsSecurity(e) && Step(a, e).unlocked
    ensures var t := Ticked(a, Tick(e.time));
            t.unlocked || (Attempts(a, e) && RightKey(e, t.seed.value))
  {
    hide Step, Ticked, DelayChecked, SecurityAccess, RequestSeed, SendKey, Later, Tick, ComputeKey, FromBigEndian, NextState, SeedOf;
    SecurityCases(a, e);
    var d := DelayChecked(Ticked(a, Tick(e.time)), Tick(e.time)).0;
    if ReachesSecurity(a, e, 1) {
      RequestSeedEffects(d, e.request[1], e.capacity);
    } else if ReachesSecurity(a, e, 2) {
      SendKeyEffects(d, Tick(e.time), e.request, e.capacity);
    }
  }

  lemma PlainStep(a: State, e: Event)
    requires Consistent(a)
    requires !IsSecurity(e)
    ensures var b := Step(a, e);
            && Consistent(b)
            && (b.seed.Some? || b.unlocked ==>
                  b.seed == a.seed && b.unlocked == a.unlocked && b.session == a.session && b.timeouts == a.timeouts)
            && b.delayUntil == a.delayUntil
  {
    hide Ticked, SessionControl, TesterPresent, SecurityAccess, KeptAlive, IsData;
    if !e.Relocked? {
      var now := Tick(e.time);
      TickConsistent(a, now);
      var t := Ticked(a, now);
      KeepingConsistent(t, now);
      if e.Requested? { ServicesConsistent(t, now, e.request, e.capacity); }
    }
  }

  /** The state afterwards is consistent, sets no delay, and has no open lock or pending seed that was not there. */
  predicate Harmless(a: State, b: State) {
    && Consistent(b) && b.delayUntil == a.delayUntil
    && (b.seed.Some? || b.unlocked ==>
          b.seed == a.seed && b.unlocked == a.unlocked && b.session == a.session && b.timeouts == a.timeouts)
  }

  lemma KeepingConsistent(t: State, now: U32)
    requires Consistent(t)
    ensures Harmless(t, KeptAlive(t, now))
  {
    hide Later;
  }

  lemma ServicesConsistent(t: State, now: U32, request: seq<Byte>, capacity: nat)
    requires Consistent(t)
    ensures Harmless(t, SessionControl(t, now, request, capacity).0)
    ensures Harmless(t, TesterPresent(t, now, request, capacity).0)
  {
    hide KeptAlive, Later, SessionAllowed, Negative, Positive, Suppressed;
    KeepingConsistent(t, now);
  }

  lemma AttemptIsSecurity(a: State, e: Event)
    ensures Attempts(a, e) ==> IsSecurity(e)
  {}

  lemma StepKeepsConsistent(a: State, e: Event)
    requires Consistent(a)
    ensures Consistent(Step(a, e))
  {
    hide Consistent, Step, IsSecurity;
    if IsSecurity(e) {
      SecurityConsistent(a, e);
    } else {
      PlainStep(a, e);
    }
  }

  /** In every reachable state the session, the S3 timer, the lock, the pending seed and the attempt
      counter fit together. */
  lemma {:induction false} RunsAreConsistent(events: seq<Event>, n: nat)
    requires n <= |events|
    ensures Consistent(Run(events, n))
    decreases n
  {
    hide Consistent, Step;
    if n == 0 {
      InitialConsistent();
    } else {
      RunsAreConsistent(events, n - 1);
      StepKeepsConsistent(Run(events, n - 1), events[n - 1]);
    }
  }

  lemma InitialConsistent()
    ensures Consistent(INITIAL)
  {}

  /** A seed is pending after a step only if the step issued it or left it alone. */
  lemma SeedStep(a: State, e: Event)
    requires Consistent(a) && Step(a, e).seed.Some?
    ensures Issues(a, e, Step(a, e).seed.value)
         || (a.seed == Step(a, e).seed && !Attempts(a, e) && Step(a, e).session == a.session && Step(a, e).timeouts == a.timeouts)
  {
    hide Step, Issues, Attempts, Ticked, IsSecurity;
    if IsSecurity(e) {
      SecurityConsistent(a, e);
      SecuritySeeds(a, e);
      TickConsistent(a, Tick(e.time));
    } else {
      AttemptIsSecurity(a, e);
      PlainStep(a, e);
    }
  }

  /** Access is open after a step only if it was open or the step brought the right key. */
  lemma UnlockStep(a: State, e: Event)
    requires Consistent(a) && Step(a, e).unlocked
    ensures Step(a, e).session == a.session && Step(a, e).timeouts == a.timeouts
    ensures a.unlocked || (a.seed.Some? && Attempts(a, e) && RightKey(e, a.seed.value))
  {
    hide Step, RightKey, ReachesSecurity, Ticked, IsSecurity;
    if IsSecurity(e) {
      SecurityConsistent(a, e);
      SecurityLocks(a, e);
      TickConsistent(a, Tick(e.time));
    } else {
      PlainStep(a, e);
    }
  }

  // ---- The history of an open lock ----

  /** The same session, and no expiry in between. */
  predicate SameStay(a: State, b: State) { a.session == b.session && a.timeouts == b.timeouts }

  /** From event `i`, which issued seed `s`, up to state `n` the seed stayed pending and untried. */
  ghost predicate Pends(events: seq<Event>, i: nat, n: nat, s: bv32)
    requires n <= |events|
  {
    && i < n && Issues(Run(events, i), events[i], s)
    && (forall k :: i < k <= n ==> Run(events, k).seed == Some(s) && SameStay(Run(events, k), Run(events, n)))
    && (forall k :: i < k < n ==> !Attempts(Run(events, k), events[k]))
  }

  lemma {:induction false} PendingSeedWasIssued(events: seq<Event>, n: nat)
    requires n <= |events| && Run(events, n).seed.Some?
    ensures exists i :: Pends(events, i, n, Run(events, n).seed.value)
    decreases n
  {
    hide Step, Consistent, Issues, Attempts, Pends;
    var b := Run(events, n);
    assert n > 0;
    var a := Run(events, n - 1);
    RunsAreConsistent(events, n - 1);
    SeedStep(a, events[n - 1]);
    if Issues(a, events[n - 1], b.seed.value) {
      PendsStarts(events, n, b.seed.value);
    } else {
      PendingSeedWasIssued(events, n - 1);
      var i :| Pends(events, i, n - 1, b.seed.value);
      PendsGrows(events, i, n, b.seed.value);
    }
  }

  lemma PendsStarts(events: seq<Event>, n: nat, s: bv32)
    requires 0 < n <= |events| && Issues(Run(events, n - 1), events[n - 1], s) && Run(events, n).seed == Some(s)
    ensures Pends(events, n - 1, n, s)
  {
    hide Run, Issues, Attempts;
  }

  lemma PendsGrows(events: seq<Event>, i: nat, n: nat, s: bv32)
    requires 0 < n <= |events| && Pends(events, i, n - 1, s) && Run(events, n).seed == Some(s)
    requires !Attempts(Run(events, n - 1), events[n - 1]) && SameStay(Run(events, n - 1), Run(events, n))
    ensures Pends(events, i, n, s)
  {
    hide Run, Issues, Attempts;
  }

  /** Event `i` issued a seed; event `j` was the very next key attempt and answered it rightly; nothing
      has changed session, expired or locked since event `i`. */
  ghost predicate Opened(events: seq<Event>, i: nat, j: nat, n: nat, s: bv32)
    requires n <= |events|
  {
    && i < j < n && Pends(events, i, j, s)
    && Attempts(Run(events, j), events[j]) && RightKey(events[j], s)
    && (forall k :: j < k <= n ==> Run(events, k).unlocked)
    && (forall k :: i < k <= n ==> Run(events, k).session != DEFAULT && SameStay(Run(events, k), Run(events, n)))
  }

  /** Access is open only by a seed that was issued and answered by the very next key attempt. */
  lemma {:induction false} UnlockedMeansOpened(events: seq<Event>, n: nat)
    requires n <= |events| && Run(events, n).unlocked
    ensures Run(events, n).session != DEFAULT && Run(events, n).seed.None?
    ensures exists i, j, s :: Opened(events, i, j, n, s)
    decreases n
  {
    hide Step, Issues, Attempts, RightKey, Pends, Opened;
    var b := Run(events, n);
    assert n > 0;
    var a := Run(events, n - 1);
    RunsAreConsistent(events, n);
    RunsAreConsistent(events, n - 1);
    UnlockStep(a, events[n - 1]);
    if a.unlocked {
      UnlockedMeansOpened(events, n - 1);
      var i, j, s :| Opened(events, i, j, n - 1, s);
      OpenedGrows(events, i, j, n, s);
    } else {
      PendingSeedWasIssued(events, n - 1);
      var i :| Pends(events, i, n - 1, a.seed.value);
      OpenedStarts(events, i, n, a.seed.value);
    }
  }

  lemma OpenedStarts(events: seq<Event>, i: nat, n: nat, s: bv32)
    requires 0 < n <= |events| && Pends(events, i, n - 1, s)
    requires Attempts(Run(events, n - 1), events[n - 1]) && RightKey(events[n - 1], s)
    requires Run(events, n).unlocked && Run(events, n).session != DEFAULT && SameStay(Run(events, n - 1), Run(events, n))
    ensures Opened(events, i, n - 1, n, s)
  {
    hide Run, Issues, Attempts, RightKey;
  }

  lemma OpenedGrows(events: seq<Event>, i: nat, j: nat, n: nat, s: bv32)
    requires 0 < n <= |events| && Opened(events, i, j, n - 1, s) && Run(events, n).unlocked
    requires Run(events, n).session == Run(events, n - 1).session && Run(events, n).timeouts == Run(events, n - 1).timeouts
    ensures Opened(events, i, j, n, s)
  {
    hide Step, Issues, Attempts, RightKey, Pends, Run;
  }

  /** Each seed serves at most one key attempt: between two attempts a new seed is issued. */
  lemma EachSeedIsTriedOnce(events: seq<Event>, j: nat, k: nat)
    requires j < k < |events| && Attempts(Run(events, j), events[j]) && Attempts(Run(events, k), events[k])
    ensures exists i, s :: j < i < k && Issues(Run(events, i), events[i], s) && Run(events, k).seed == Some(s)
  {
    hide Step, Issues, Consistent, Attempts, Pends;
    RunsAreConsistent(events, j);
    RunsAreConsistent(events, k);
    AttemptConsumes(Run(events, j), events[j]);
    AttemptConsumes(Run(events, k), events[k]);
    PendingSeedWasIssued(events, k);
    var s := Run(events, k).seed.value;
    var i :| Pends(events, i, k, s);
    IssuedAfter(events, i, j, k, s);
    assert Run(events, k).seed == Some(s);
  }

  lemma IssuedAfter(events: seq<Event>, i: nat, j: nat, k: nat, s: bv32)
    requires j < k <= |events| && Pends(events, i, k, s) && Run(events, j + 1).seed.None?
    ensures j < i < k && Issues(Run(events, i), events[i], s)
  {
    hide Run, Issues, Attempts;
  }

  lemma AttemptConsumes(a: State, e: Event)
    requires Consistent(a) && Attempts(a, e)
    ensures a.seed.Some? && Step(a, e).seed.None?
  {
    hide Step, Issues, DelayChecked;
    SecuritySeeds(a, e);
    TickConsistent(a, Tick(e.time));
  }

  // ---- An honest tester ----

  lemma BigEndianRoundTrip(v: bv32)
    ensures FromBigEndian(BigEndian(v)) == v
  {
    hide Crc32.PutU32, Crc32.GetU32;
    Crc32.WordRoundTrip(v);
    var b := Crc32.PutU32(v);
    assert [b[0], b[1], b[2], b[3]] == b;
  }

  /** The key message for a received seed message. */
  function KeyMessage(reply: seq<Byte>): seq<Byte>
    requires |reply| == 6
  {
    [SECURITY_ACCESS, 2] + BigEndian(ComputeKey(FromBigEndian(reply[2..]), SALT))
  }

  /** While no delay runs, a seed request in a session that allows it gets a fresh seed. */
  lemma SeedGiven(a: State, now: U32, capacity: nat)
    requires Consistent(a) && a.session != DEFAULT && !a.unlocked && capacity >= 6 && !DelayChecked(a, now).1
    ensures var s := SeedOf(NextState(a.seedState));
            var (b, reply) := SecurityAccess(a, now, [SECURITY_ACCESS, 1], capacity);
            && Consistent(b) && reply == Response([0x67, 0x01] + BigEndian(s))
            && b == a.(seed := Some(s), seedState := NextState(a.seedState), delayUntil := 0,
                    attempts := if a.delayUntil == 0 then a.attempts else 0)
  {
    hide NextState, SeedOf, BigEndian, Reached;
  }

  /** The key message for a seed message carries the seed's key. */
  lemma KeyAnswers(s: bv32)
    ensures var m := KeyMessage([0x67, 0x01] + BigEndian(s));
            |m| == 6 && m[0] == SECURITY_ACCESS && m[1] == 2 && FromBigEndian(m[2..]) == ComputeKey(s, SALT)
  {
    hide BigEndian, FromBigEndian, ComputeKey;
    var reply := [0x67, 0x01] + BigEndian(s);
    assert reply[2..] == BigEndian(s);
    BigEndianRoundTrip(s);
    KeyMessageParts(reply);
    BigEndianRoundTrip(ComputeKey(s, SALT));
  }

  /** The right key opens. */
  lemma KeyTaken(b: State, now: U32, request: seq<Byte>, capacity: nat)
    requires Consistent(b) && b.session != DEFAULT && b.delayUntil == 0 && b.seed.Some? && capacity >= 2
    requires |request| == 6 && request[1] == 2 && FromBigEndian(request[2..]) == ComputeKey(b.seed.value, SALT)
    ensures SecurityAccess(b, now, request, capacity)
         == (b.(seed := None, unlocked := true, attempts := 0), Response([0x67, 0x02]))
  {
    hide FromBigEndian, ComputeKey;
  }

  /** In whole requests, each with its tick: the honest tester gets in exactly if the session, which the seed
      request has kept alive, has not expired when the key arrives. */
  lemma HonestTesterGetsIn(a: State, asked: nat, answered: nat, capacity: nat)
    requires Consistent(a) && capacity >= 6 && asked <= answered
    requires var t := Ticked(a, Tick(asked)); t.session != DEFAULT && !t.unlocked && !DelayChecked(t, Tick(asked)).1
    ensures var reply := SecurityAccess(Ticked(a, Tick(asked)), Tick(asked), [SECURITY_ACCESS, 1], capacity).1;
            && reply.Response? && |reply.bytes| == 6
            && var b := Step(a, Requested(asked, [SECURITY_ACCESS, 1], capacity, false));
            var c := Step(b, Requested(answered, KeyMessage(reply.bytes), capacity, false));
            && (c.unlocked <==> !((answered - asked - S3_MS) % 0x1_0000_0000 < 0x8000_0000))
            && (answered < asked + S3_MS ==> c.unlocked && c.attempts == 0)
  {
    hide Ticked, SecurityAccess, KeyMessage, Reached, Tick, Later, BigEndian, FromBigEndian, ComputeKey, SeedOf, NextState,
      DelayChecked;
    var t := Ticked(a, Tick(asked));
    TickConsistent(a, Tick(asked));
    SeedGiven(t, Tick(asked), capacity);
    var (b, seed) := SecurityAccess(t, Tick(asked), [SECURITY_ACCESS, 1], capacity);
    KeyAnswers(b.seed.value);
    var kept := b.(s3 := Some(Later(Tick(asked), S3_MS)));
    assert Step(a, Requested(asked, [SECURITY_ACCESS, 1], capacity, false)) == kept;
    ExpiresExactly(kept, asked, answered);
    if answered < asked + S3_MS { WholeTurns(answered - asked - S3_MS, 1); }
    StaysOrEnds(kept, Tick(answered), KeyMessage(seed.bytes), capacity);
    KeyTaken(kept, Tick(answered), KeyMessage(seed.bytes), capacity);
  }

  /** After expiry the key message finds the default session. */
  lemma StaysOrEnds(a: State, now: U32, request: seq<Byte>, capacity: nat)
    requires Consistent(a) && a.session != DEFAULT && |request| >= 2
    ensures Ticked(a, now) == a || Ticked(a, now).session == DEFAULT
    ensures Ticked(a, now).session == DEFAULT ==>
              !Ticked(a, now).unlocked && SecurityAccess(Ticked(a, now), now, request, capacity).0 == Ticked(a, now)
  {
    hide RequestSeed, SendKey, DelayChecked, Reached;
  }

  lemma KeyMessageParts(reply: seq<Byte>)
    requires |reply| == 6
    ensures var m := KeyMessage(reply);
            && |m| == 6 && m[0] == SECURITY_ACCESS && m[1] == 2
            && m[2..] == BigEndian(ComputeKey(FromBigEndian(reply[2..]), SALT))
  {
    hide BigEndian, FromBigEndian, ComputeKey;
  }

  // ---- How long a session lives ----

  predicate Timed(events: seq<Event>) {
    forall i, j :: 0 <= i < j < |events| ==> events[i].time <= events[j].time
  }

  /** The requests that restart the S3 timer: accepted session and tester-present requests, and
      positive or pending answers of the other services. A suppressed positive answer of those does not. */
  predicate KeepsAlive(a: State, e: Event) {
    e.Requested? && e.request != []
    && var t := Ticked(a, Tick(e.time));
    if e.request[0] == SESSION_CONTROL then |e.request| == 2 && DEFAULT <= e.request[1] % 0x80 <= EXTENDED
    else if e.request[0] == TESTER_PRESENT then |e.request| == 2 && e.request[1] % 0x80 == 0
    else if e.request[0] == SECURITY_ACCESS then
      CountsAsAlive(SecurityAccess(t, Tick(e.time), e.request, e.capacity).1)
    else IsData(e.request[0]) && e.alive
  }

  /** Time of the last event that kept the session alive. */
  function LastKept(events: seq<Event>, n: nat): (r: Option<nat>)
    requires n <= |events|
    ensures r.Some? ==> n > 0
    decreases n
  {
    if n == 0 then None
    else if KeepsAlive(Run(events, n - 1), events[n - 1]) then Some(events[n - 1].time)
    else LastKept(events, n - 1)
  }

  lemma AllSupported(session: Byte)
    requires DEFAULT <= session <= EXTENDED
    ensures SessionAllowed(SUPPORTED_SESSIONS, session)
  {
    assert Power(1) == 2;
    assert Power(2) == 2 * Power(1);
    assert Power(3) == 2 * Power(2);
  }

  lemma SecurityKeepsTimer(a: State, now: U32, request: seq<Byte>, capacity: nat)
    ensures SecurityAccess(a, now, request, capacity).0.s3 == a.s3
    ensures SecurityAccess(a, now, request, capacity).0.session == a.session
  {
    hide ComputeKey, FromBigEndian, NextState, SeedOf, BigEndian, Reached, Later;
  }

  lemma TimerStep(a: State, e: Event)
    requires Consistent(a)
    ensures var t, b := Ticked(a, Tick(e.time)), Step(a, e);
            && (KeepsAlive(a, e) && b.session != DEFAULT ==> b.s3 == Some(Later(Tick(e.time), S3_MS)))
            && (!KeepsAlive(a, e) && !e.Relocked? ==> b.s3 == t.s3 && b.session == t.session)
            && (e.Relocked? ==> b.s3 == a.s3 && b.session == a.session)
  {
    hide SecurityAccess, Reached, Later, SessionAllowed;
    if e.Requested? && |e.request| >= 2 && DEFAULT <= e.request[1] % 0x80 <= EXTENDED {
      AllSupported(e.request[1] % 0x80);
    }
    if e.Requested? {
      SecurityKeepsTimer(Ticked(a, Tick(e.time)), Tick(e.time), e.request, e.capacity);
    }
  }

  /** A tick ends a session exactly when the clock shows the half turn from five seconds on: never before they
      have passed, always in the 24.8 days after that, and not in the 24.8 days after those. */
  lemma ExpiresExactly(a: State, kept: nat, now: nat)
    requires Consistent(a) && a.s3 == Some(Later(Tick(kept), S3_MS)) && kept <= now
    ensures Ticked(a, Tick(now)).session == DEFAULT <==> (now - kept - 5000) % 0x1_0000_0000 < 0x8000_0000
    ensures now < kept + 5000 ==> Ticked(a, Tick(now)) == a
    ensures kept + 5000 <= now < kept + 5000 + 0x8000_0000 ==> Ticked(a, Tick(now)).session == DEFAULT
    ensures var b := Ticked(a, Tick(now));
            b != a ==> b == a.(session := 1, s3 := None, timeouts := (a.timeouts + 1) % 0x1_0000_0000,
                               unlocked := false, seed := None, attempts := 0)
  {
    hide Reached, Tick;
    ReachedExactly(kept, S3_MS, now);
    if now < kept + S3_MS { WholeTurns(now - kept - S3_MS, 1); }
  }

  /** The S3 deadline belongs to the last time something kept the session alive. */
  predicate KeptSince(a: State, kept: Option<nat>) {
    a.session != DEFAULT ==> kept.Some? && a.s3 == Some(Later(Tick(kept.value), S3_MS))
  }

  lemma KeptStep(a: State, e: Event, kept: Option<nat>)
    requires Consistent(a) && KeptSince(a, kept)
    requires kept.Some? ==> kept.value <= e.time < kept.value + S3_MS + 0x8000_0000
    ensures var kept' := if KeepsAlive(a, e) then Some(e.time) else kept;
            && KeptSince(Step(a, e), kept')
            && (Step(a, e).session != DEFAULT && !e.Relocked? ==> e.time < kept'.value + S3_MS)
  {
    hide Step, KeepsAlive, Later, Ticked, Consistent, Tick;
    TimerStep(a, e);
    TickConsistent(a, Tick(e.time));
    if a.session != DEFAULT {
      ExpiresExactly(a, kept.value, e.time);
    }
  }

  /** Calls come often enough for the wrapped comparison with the S3 deadline to be exact. */
  ghost predicate Attended(events: seq<Event>, n: nat)
    requires n <= |events|
  {
    forall k :: 0 <= k < n && LastKept(events, k).Some? ==>
      events[k].time < LastKept(events, k).value + S3_MS + 0x8000_0000
  }

  /** After every tick or request in a session other than the default one, less than five seconds of true
      time have passed since something kept it alive. */
  lemma {:induction false} SessionIsKept(events: seq<Event>, n: nat)
    requires n <= |events| && Timed(events) && Attended(events, n)
    ensures Run(events, n).session == DEFAULT <==> Run(events, n).s3.None?
    ensures LastKept(events, n).Some? ==> LastKept(events, n).value <= events[n - 1].time
    ensures KeptSince(Run(events, n), LastKept(events, n))
    ensures Run(events, n).session != DEFAULT && !events[n - 1].Relocked? ==>
              events[n - 1].time < LastKept(events, n).value + 5000
    decreases n
  {
    hide Step, KeepsAlive, KeptSince, Consistent;
    RunsAreConsistent(events, n);
    TimerMatchesSession(Run(events, n));
    if n == 0 {
      InitialKept();
    } else {
      RunsAreConsistent(events, n - 1);
      SessionIsKept(events, n - 1);
      KeptStep(Run(events, n - 1), events[n - 1], LastKept(events, n - 1));
    }
  }

  lemma TimerMatchesSession(a: State)
    requires Consistent(a)
    ensures a.session == DEFAULT <==> a.s3.None?
  {}

  lemma InitialKept()
    ensures KeptSince(INITIAL, None)
  {}
}
