/** Diagnostic session, S3 timer and security access of the UDS server. */
module UdsAccess {
  import opened Bytes
  import Crc32

  const SESSION_CONTROL: Byte := 0x10
  const SECURITY_ACCESS: Byte := 0x27
  const TESTER_PRESENT: Byte := 0x3E

  const DEFAULT: Byte := 1
  const PROGRAMMING: Byte := 2
  const EXTENDED: Byte := 3
  const SUPPORTED_SESSIONS: Byte := 0x0E

  const S3_MS := 5000
  const DELAY_MS := 10000
  const MAX_ATTEMPTS := 3
  const SALT: bv32 := 0x50324341
  const DEFAULT_SEED: bv32 := 0x12345678

  const SUBFUNCTION_NOT_SUPPORTED: Byte := 0x12
  const INCORRECT_LENGTH: Byte := 0x13
  const SEQUENCE_ERROR: Byte := 0x24
  const INVALID_KEY: Byte := 0x35
  const EXCEEDED_ATTEMPTS: Byte := 0x36
  const DELAY_NOT_EXPIRED: Byte := 0x37
  const NOT_IN_SESSION: Byte := 0x7E

  /** What a call hands to the transport: nothing, a message, nothing for lack of room, or the note
      that the answer follows. */
  datatype Reply = NoResponse | Response(bytes: seq<Byte>) | BufferTooSmall | Pending(bytes: seq<Byte>)

  function Negative(capacity: nat, service: Byte, nrc: Byte): Reply {
    if capacity < 3 then BufferTooSmall else Response([0x7F, service, nrc])
  }

  function Positive(capacity: nat, suppressed: bool, bytes: seq<Byte>): Reply {
    if suppressed then NoResponse else if capacity < |bytes| then BufferTooSmall else Response(bytes)
  }

  /** A final negative response. */
  predicate IsNegative(r: Reply) {
    r.Response? && |r.bytes| > 0 && r.bytes[0] == 0x7F
  }

  /** A positive answer, or the note that one follows. */
  predicate CountsAsAlive(r: Reply) {
    r.Pending? || (r.Response? && |r.bytes| > 0 && r.bytes[0] != 0x7F)
  }

  predicate SessionAllowed(mask: Byte, session: Byte) {
    mask == 0 || (1 <= session <= 7 && Bit(mask, session))
  }

  predicate Suppressed(subfunction: Byte) { subfunction >= 0x80 }

  datatype State = State(session: Byte, s3: Option<U32>, timeouts: U32, unlocked: bool,
                         seed: Option<bv32>, attempts: Byte, delayUntil: U32, seedState: bv32)

  const INITIAL := State(DEFAULT, None, 0, false, None, 0, 0, DEFAULT_SEED)

  // ---- Keys and seeds ----

  function Rotated(x: bv32): bv32 { (x << 13) | (x >> 19) }

  function RotatedBack(x: bv32): bv32 { (x >> 13) | (x << 19) }

  function Folded(x: bv32): bv32 { x ^ (x >> 16) }

  function Plus(x: bv32, y: bv32): bv32 { x + y }

  function Minus(x: bv32, y: bv32): bv32 { x - y }

  function ComputeKey(seed: bv32, salt: bv32): bv32 {
    Folded(Plus(Rotated(Crc32.Xor(seed, salt)), 0x9E3779B9))
  }

  /** The seed that a key belongs to. */
  function SeedFor(key: bv32, salt: bv32): bv32 {
    Crc32.Xor(RotatedBack(Minus(Folded(key), 0x9E3779B9)), salt)
  }

  function XorLeft(v: bv32, n: nat): bv32
    requires n < 32
  {
    v ^ (v << n)
  }

  function XorRight(v: bv32, n: nat): bv32
    requires n < 32
  {
    v ^ (v >> n)
  }

  /** One step of the seed generator. */
  function NextState(state: bv32): bv32 {
    XorLeft(XorRight(XorLeft(if state == 0 then DEFAULT_SEED else state, 13), 17), 5)
  }

  function SeedOf(state: bv32): bv32 {
    if state == 0 || state == 0xFFFF_FFFF then DEFAULT_SEED else state
  }

  /** Words travel with the high byte first. */
  function BigEndian(v: bv32): (r: seq<Byte>)
    ensures |r| == 4
  {
    var b := Crc32.PutU32(v);
    [b[3], b[2], b[1], b[0]]
  }

  function FromBigEndian(b: seq<Byte>): bv32
    requires |b| == 4
  {
    Crc32.GetU32([b[3], b[2], b[1], b[0]])
  }

  // ---- What the services do ----

  function Locked(a: State): State {
    a.(unlocked := false, seed := None, attempts := 0)
  }

  /** Expiry of the S3 timer. */
  function Ticked(a: State, now: U32): State {
    if a.s3.Some? && Reached(now, a.s3.value)
    then Locked(a.(session := DEFAULT, s3 := None, timeouts := Later(a.timeouts, 1)))
    else a
  }

  function InSession(a: State, session: Byte, now: U32): State {
    var b := if session != a.session then Locked(a) else a;
    b.(session := session, s3 := if session == DEFAULT then None else Some(Later(now, S3_MS)))
  }

  function KeptAlive(a: State, now: U32): State {
    if a.s3.Some? then a.(s3 := Some(Later(now, S3_MS))) else a
  }

  function SessionControl(a: State, now: U32, request: seq<Byte>, capacity: nat): (State, Reply) {
    if |request| != 2 then (a, Negative(capacity, SESSION_CONTROL, INCORRECT_LENGTH))
    else
      var session := request[1] % 0x80;
      if session < DEFAULT || session > EXTENDED || !SessionAllowed(SUPPORTED_SESSIONS, session)
      then (a, Negative(capacity, SESSION_CONTROL, SUBFUNCTION_NOT_SUPPORTED))
      else (InSession(a, session, now),
            Positive(capacity, Suppressed(request[1]), [0x50, session, 0x00, 0x32, 0x01, 0xF4]))
  }

  function TesterPresent(a: State, now: U32, request: seq<Byte>, capacity: nat): (State, Reply) {
    if |request| != 2 then (a, Negative(capacity, TESTER_PRESENT, INCORRECT_LENGTH))
    else if request[1] % 0x80 != 0 then (a, Negative(capacity, TESTER_PRESENT, SUBFUNCTION_NOT_SUPPORTED))
    else (KeptAlive(a, now), Positive(capacity, Suppressed(request[1]), [0x7E, 0x00]))
  }

  /** Looks at the delay after too many wrong keys, and ends it when it is over. Zero means no delay. */
  function DelayChecked(a: State, now: U32): (State, bool) {
    if a.delayUntil == 0 then (a, false)
    else if Reached(now, a.delayUntil) then (a.(delayUntil := 0, attempts := 0), false)
    else (a, true)
  }

  function RequestSeed(a: State, subfunction: Byte, capacity: nat): (State, Reply) {
    var state := NextState(a.seedState);
    var seed := if a.unlocked then 0 else SeedOf(state);
    (if a.unlocked then a else a.(seedState := state, seed := Some(seed)),
     Positive(capacity, Suppressed(subfunction), [0x67, 0x01] + BigEndian(seed)))
  }

  function WrongKey(a: State, now: U32, capacity: nat): (State, Reply) {
    var attempts := (a.attempts + 1) % 256;
    if attempts >= MAX_ATTEMPTS
    then (a.(seed := None, attempts := 0, delayUntil := Later(now, DELAY_MS)),
          Negative(capacity, SECURITY_ACCESS, EXCEEDED_ATTEMPTS))
    else (a.(seed := None, attempts := attempts), Negative(capacity, SECURITY_ACCESS, INVALID_KEY))
  }

  function SendKey(a: State, now: U32, request: seq<Byte>, capacity: nat): (State, Reply)
    requires |request| >= 2
  {
    if |request| != 6 then (a, Negative(capacity, SECURITY_ACCESS, INCORRECT_LENGTH))
    else if a.seed.None? then (a, Negative(capacity, SECURITY_ACCESS, SEQUENCE_ERROR))
    else if FromBigEndian(request[2..]) != ComputeKey(a.seed.value, SALT) then WrongKey(a, now, capacity)
    else (a.(seed := None, unlocked := true, attempts := 0, delayUntil := 0),
          Positive(capacity, Suppressed(request[1]), [0x67, 0x02]))
  }

  function SecurityAccess(a: State, now: U32, request: seq<Byte>, capacity: nat): (State, Reply) {
    if |request| < 2 then (a, Negative(capacity, SECURITY_ACCESS, INCORRECT_LENGTH))
    else
      var subfunction := request[1] % 0x80;
      if subfunction != 1 && subfunction != 2 then (a, Negative(capacity, SECURITY_ACCESS, SUBFUNCTION_NOT_SUPPORTED))
      else if a.session != EXTENDED && a.session != PROGRAMMING
      then (a, Negative(capacity, SECURITY_ACCESS, NOT_IN_SESSION))
      else
        var (b, delayed) := DelayChecked(a, now);
        if delayed then (b, Negative(capacity, SECURITY_ACCESS, DELAY_NOT_EXPIRED))
        else if subfunction == 1 then RequestSeed(b, request[1], capacity)
        else SendKey(b, now, request, capacity)
  }

  // ---- The server's session and security fields ----

  class Access {
    var session: Byte
    var s3: Option<U32>
    var timeouts: U32
    var unlocked: bool
    var seed: Option<bv32>
    var attempts: Byte
    var delayUntil: U32
    var seedState: bv32

    constructor ()
      ensures Now() == INITIAL
    {
      session, s3, timeouts := DEFAULT, None, 0;
      unlocked, seed, attempts, delayUntil, seedState := false, None, 0, 0, DEFAULT_SEED;
    }

    ghost function Now(): State
      reads this
    {
      State(session, s3, timeouts, unlocked, seed, attempts, delayUntil, seedState)
    }

    method Lock()
      modifies this`unlocked, this`seed, this`attempts
      ensures Now() == Locked(old(Now()))
    {
      unlocked, seed, attempts := false, None, 0;
    }

    method Tick(now: U32)
      modifies this
      ensures Now() == Ticked(old(Now()), now)
    {
      if s3.Some? && Reached(now, s3.value) {
        session, s3, timeouts := DEFAULT, None, Later(timeouts, 1);
        Lock();
      }
    }

    method SetSession(newSession: Byte, now: U32)
      modifies this
      ensures Now() == InSession(old(Now()), newSession, now)
    {
      if newSession != session {
        Lock();
      }
      session := newSession;
      s3 := if newSession == DEFAULT then None else Some(Later(now, S3_MS));
    }

    method KeepAlive(now: U32)
      modifies this`s3
      ensures Now() == KeptAlive(old(Now()), now)
    {
      if s3.Some? {
        s3 := Some(Later(now, S3_MS));
      }
    }

    method ControlSession(now: U32, request: seq<Byte>, capacity: nat) returns (reply: Reply)
      modifies this
      ensures (Now(), reply) == SessionControl(old(Now()), now, request, capacity)
    {
      hide SessionAllowed, InSession;
      if |request| != 2 { return Negative(capacity, SESSION_CONTROL, INCORRECT_LENGTH); }
      var requested := request[1] % 0x80;
      if requested < DEFAULT || requested > EXTENDED || !SessionAllowed(SUPPORTED_SESSIONS, requested) {
        return Negative(capacity, SESSION_CONTROL, SUBFUNCTION_NOT_SUPPORTED);
      }
      SetSession(requested, now);
      return Positive(capacity, Suppressed(request[1]), [0x50, requested, 0x00, 0x32, 0x01, 0xF4]);
    }

    method AnswerTester(now: U32, request: seq<Byte>, capacity: nat) returns (reply: Reply)
      modifies this`s3
      ensures (Now(), reply) == TesterPresent(old(Now()), now, request, capacity)
    {
      hide KeptAlive;
      if |request| != 2 { return Negative(capacity, TESTER_PRESENT, INCORRECT_LENGTH); }
      if request[1] % 0x80 != 0 { return Negative(capacity, TESTER_PRESENT, SUBFUNCTION_NOT_SUPPORTED); }
      KeepAlive(now);
      return Positive(capacity, Suppressed(request[1]), [0x7E, 0x00]);
    }

    method CheckDelay(now: U32) returns (active: bool)
      modifies this`delayUntil, this`attempts
      ensures (Now(), active) == DelayChecked(old(Now()), now)
    {
      if delayUntil == 0 { return false; }
      if Reached(now, delayUntil) {
        delayUntil, attempts := 0, 0;
        return false;
      }
      return true;
    }

    method NextSeed() returns (next: bv32)
      modifies this`seedState
      ensures seedState == NextState(old(seedState)) && next == SeedOf(seedState)
    {
      hide XorLeft, XorRight;
      var value := seedState;
      if value == 0 { value := DEFAULT_SEED; }
      value := XorLeft(value, 13);
      value := XorRight(value, 17);
      value := XorLeft(value, 5);
      seedState := value;
      return if value == 0 || value == 0xFFFF_FFFF then DEFAULT_SEED else value;
    }

    method IssueSeed(subfunction: Byte, capacity: nat) returns (reply: Reply)
      modifies this`seedState, this`seed
      ensures (Now(), reply) == RequestSeed(old(Now()), subfunction, capacity)
    {
      hide NextState, SeedOf, BigEndian;
      var issued: bv32 := 0;
      if !unlocked {
        issued := NextSeed();
        seed := Some(issued);
      }
      return Positive(capacity, Suppressed(subfunction), [0x67, 0x01] + BigEndian(issued));
    }

    method CheckKey(now: U32, request: seq<Byte>, capacity: nat) returns (reply: Reply)
      requires |request| >= 2
      modifies this`seed, this`attempts, this`unlocked, this`delayUntil
      ensures (Now(), reply) == SendKey(old(Now()), now, request, capacity)
    {
      hide ComputeKey, FromBigEndian;
      if |request| != 6 { return Negative(capacity, SECURITY_ACCESS, INCORRECT_LENGTH); }
      if seed.None? { return Negative(capacity, SECURITY_ACCESS, SEQUENCE_ERROR); }
      var key, expected := FromBigEndian(request[2..]), ComputeKey(seed.value, SALT);
      seed := None;
      if key != expected {
        attempts := (attempts + 1) % 256;
        if attempts >= MAX_ATTEMPTS {
          attempts, delayUntil := 0, Later(now, DELAY_MS);
          return Negative(capacity, SECURITY_ACCESS, EXCEEDED_ATTEMPTS);
        }
        return Negative(capacity, SECURITY_ACCESS, INVALID_KEY);
      }
      unlocked, attempts, delayUntil := true, 0, 0;
      return Positive(capacity, Suppressed(request[1]), [0x67, 0x02]);
    }

    method AccessSecurity(now: U32, request: seq<Byte>, capacity: nat) returns (reply: Reply)
      modifies this
      ensures (Now(), reply) == SecurityAccess(old(Now()), now, request, capacity)
    {
      hide DelayChecked, RequestSeed, SendKey;
      if |request| < 2 { return Negative(capacity, SECURITY_ACCESS, INCORRECT_LENGTH); }
      var subfunction := request[1] % 0x80;
      if subfunction != 1 && subfunction != 2 {
        return Negative(capacity, SECURITY_ACCESS, SUBFUNCTION_NOT_SUPPORTED);
      }
      if session != EXTENDED && session != PROGRAMMING {
        return Negative(capacity, SECURITY_ACCESS, NOT_IN_SESSION);
      }
      var delayed := CheckDelay(now);
      if delayed { return Negative(capacity, SECURITY_ACCESS, DELAY_NOT_EXPIRED); }
      if subfunction == 1 {
        reply := IssueSeed(request[1], capacity);
      } else {
        reply := CheckKey(now, request, capacity);
      }
    }
  }
}
