/** The delay after wrong keys: when it starts, how long it lasts, and how it fails. */
module UdsLockout {
  import opened Bytes
  import opened UdsAccess
  import opened UdsAccessRuns
  import Crc32

  // ---- The row of wrong keys ----

  predicate WrongKey(a: State, e: Event) {
    Attempts(a, e) && !RightKey(e, Ticked(a, Tick(e.time)).seed.value)
  }

  /** The tick of this event ends the session. */
  predicate Expires(a: State, e: Event) {
    !e.Relocked? && a.s3.Some? && Reached(Tick(e.time), a.s3.value)
  }

  /** An accepted session request for another session than the one that is active. */
  predicate ChangesSession(a: State, e: Event) {
    e.Requested? && |e.request| == 2 && e.request[0] == SESSION_CONTROL
    && DEFAULT <= e.request[1] % 0x80 <= EXTENDED && e.request[1] % 0x80 != Ticked(a, Tick(e.time)).session
  }

  /** What ends a row of wrong keys: a right key, an explicit lock, expiry, or a change of session. */
  predicate EndsRow(a: State, e: Event) {
    e.Relocked? || Expires(a, e) || ChangesSession(a, e) || (Attempts(a, e) && !WrongKey(a, e))
  }

  /** How many wrong keys have come since the last event that ends a row. */
  function Row(events: seq<Event>, n: nat): nat
    requires n <= |events|
    decreases n
  {
    if n == 0 || EndsRow(Run(events, n - 1), events[n - 1]) then 0
    else if WrongKey(Run(events, n - 1), events[n - 1]) then Row(events, n - 1) + 1
    else Row(events, n - 1)
  }

  /** Every third wrong key of a row. */
  predicate ThirdOfRow(events: seq<Event>, j: nat)
    requires j < |events|
  {
    WrongKey(Run(events, j), events[j]) && Row(events, j) % 3 == 2
  }

  /** While a delay is set nothing has been counted. */
  predicate NothingCounted(a: State) { a.delayUntil != 0 ==> a.attempts == 0 }

  predicate AttemptsFollow(a: State, e: Event, b: State) {
    && b.attempts == (if EndsRow(a, e) then 0 else if WrongKey(a, e) then (a.attempts + 1) % MAX_ATTEMPTS else a.attempts)
    && (WrongKey(a, e) ==> b.delayUntil == if a.attempts == MAX_ATTEMPTS - 1 then Later(Tick(e.time), DELAY_MS) else 0)
    && (!WrongKey(a, e) ==> b.delayUntil == a.delayUntil || b.delayUntil == 0)
  }

  lemma SendKeyCounts(d: State, now: U32, request: seq<Byte>, capacity: nat)
    requires Consistent(d) && |request| >= 2
    ensures var b := SendKey(d, now, request, capacity).0;
            if |request| != 6 || d.seed.None? then b == d
            else if FromBigEndian(request[2..]) == ComputeKey(d.seed.value, SALT) then b.attempts == b.delayUntil == 0
            else && b.attempts == (d.attempts + 1) % MAX_ATTEMPTS
                 && b.delayUntil == if d.attempts == MAX_ATTEMPTS - 1 then Later(now, DELAY_MS) else d.delayUntil
  {
    hide ComputeKey, FromBigEndian, Positive, Negative, Later;
  }

  /** A tick that lets the session live changes nothing; any other locks. */
  lemma TickEnds(a: State, e: Event)
    requires Consistent(a) && !e.Relocked?
    ensures var t := Ticked(a, Tick(e.time));
            if Expires(a, e) then t == Locked(a.(session := DEFAULT, s3 := None, timeouts := t.timeouts)) else t == a
  {
    hide Reached, Tick;
  }

  /** Once security checks are passed no delay is set any more. */
  lemma PassedIsUndelayed(a: State, e: Event, subfunction: Byte)
    requires ReachesSecurity(a, e, subfunction)
    ensures DelayChecked(Ticked(a, Tick(e.time)), Tick(e.time)).0.delayUntil == 0
  {
    hide Ticked, Reached, Tick;
  }

  lemma CheckedAttempts(t: State, now: U32)
    requires NothingCounted(t)
    ensures DelayChecked(t, now).0 == t.(delayUntil := DelayChecked(t, now).0.delayUntil)
  {
    hide Reached;
  }

  lemma SecurityAttempts(a: State, e: Event)
    requires Consistent(a) && NothingCounted(a) && IsSecurity(e)
    ensures AttemptsFollow(a, e, Step(a, e))
  {
    hide Step, Ticked, DelayChecked, SecurityAccess, RequestSeed, SendKey, Later, Tick, ComputeKey, FromBigEndian, NextState, SeedOf,
      Expires, Consistent;
    SecurityCases(a, e);
    TickEnds(a, e);
    CheckedAttempts(Ticked(a, Tick(e.time)), Tick(e.time));
    var d := DelayChecked(Ticked(a, Tick(e.time)), Tick(e.time)).0;
    assert Consistent(d) by { CheckedConsistent(Ticked(a, Tick(e.time)), Tick(e.time)); }
    if ReachesSecurity(a, e, 1) {
      PassedIsUndelayed(a, e, 1);
      RequestSeedEffects(d, e.request[1], e.capacity);
    } else if ReachesSecurity(a, e, 2) {
      PassedIsUndelayed(a, e, 2);
      SendKeyCounts(d, Tick(e.time), e.request, e.capacity);
    }
  }

  lemma CheckedConsistent(t: State, now: U32)
    requires Consistent(t)
    ensures Consistent(DelayChecked(t, now).0)
  {
    hide Reached;
  }

  lemma PlainAttempts(a: State, e: Event)
    requires Consistent(a) && !IsSecurity(e)
    ensures AttemptsFollow(a, e, Step(a, e))
  {
    hide Later, Reached, Negative, Positive, SessionAllowed;
    if e.Requested? && |e.request| == 2 && DEFAULT <= e.request[1] % 0x80 <= EXTENDED {
      AllSupported(e.request[1] % 0x80);
    }
  }

  lemma AttemptsStep(a: State, e: Event)
    requires Consistent(a) && NothingCounted(a)
    ensures AttemptsFollow(a, e, Step(a, e)) && NothingCounted(Step(a, e))
  {
    hide Step, WrongKey, EndsRow, Later;
    if IsSecurity(e) { SecurityAttempts(a, e); } else { PlainAttempts(a, e); }
    WrongEndsNothing(a, e);
  }

  lemma WrongEndsNothing(a: State, e: Event)
    ensures WrongKey(a, e) ==> !EndsRow(a, e)
  {
    hide Reached, FromBigEndian, ComputeKey;
  }

  // ---- The row decides ----

  /** The server's private counter is the length of the row, as far as it fits below three. */
  lemma {:induction false} AttemptsAreTheRow(events: seq<Event>, n: nat)
    requires n <= |events|
    ensures Run(events, n).attempts == Row(events, n) % MAX_ATTEMPTS && NothingCounted(Run(events, n))
    decreases n
  {
    hide Step, EndsRow, WrongKey, Consistent, Later;
    if n > 0 {
      AttemptsAreTheRow(events, n - 1);
      RunsAreConsistent(events, n - 1);
      AttemptsStep(Run(events, n - 1), events[n - 1]);
    }
  }

  lemma LaterIsTick(t: nat, ms: nat)
    ensures Later(Tick(t), ms) == Tick(t + ms)
  {}

  /** A wrong key starts the delay exactly when it is the third of its row, or the sixth and so on; and no
      other event starts it. */
  lemma DelayStartsExactly(events: seq<Event>, j: nat)
    requires j < |events|
    ensures WrongKey(Run(events, j), events[j]) ==>
              Run(events, j + 1).delayUntil == if ThirdOfRow(events, j) then Tick(events[j].time + DELAY_MS) else 0
    ensures !WrongKey(Run(events, j), events[j]) ==>
              Run(events, j + 1).delayUntil == Run(events, j).delayUntil || Run(events, j + 1).delayUntil == 0
  {
    hide Step, EndsRow, WrongKey, Consistent, Later, Tick;
    AttemptsAreTheRow(events, j);
    RunsAreConsistent(events, j);
    AttemptsStep(Run(events, j), events[j]);
    LaterIsTick(events[j].time, DELAY_MS);
  }

  /** Without a third key of a row there is never a delay, however many wrong keys come. */
  lemma {:induction false} NeverDelayed(events: seq<Event>, n: nat)
    requires n <= |events| && forall j :: 0 <= j < n ==> !ThirdOfRow(events, j)
    ensures Run(events, n).delayUntil == 0
    decreases n
  {
    hide Step, ThirdOfRow, WrongKey;
    if n > 0 {
      NeverDelayed(events, n - 1);
      DelayStartsExactly(events, n - 1);
    }
  }

  /** Between two events there is no key attempt. */
  predicate NoAttempt(events: seq<Event>, from: nat, till: nat)
    requires till <= |events|
  {
    forall m :: from <= m < till ==> !Attempts(Run(events, m), events[m])
  }

  predicate Unbroken(events: seq<Event>, from: nat, till: nat)
    requires till <= |events|
  {
    forall m :: from <= m < till ==> !EndsRow(Run(events, m), events[m])
  }

  lemma WrongIsAttempt(a: State, e: Event)
    ensures !Attempts(a, e) ==> !WrongKey(a, e)
  {
    hide Attempts;
  }

  lemma UnbrokenJoins(events: seq<Event>, i: nat, j: nat, k: nat)
    requires i < j < k <= |events|
    requires !EndsRow(Run(events, i), events[i]) && !EndsRow(Run(events, j), events[j])
    ensures Unbroken(events, i, k) <==> Unbroken(events, i + 1, j) && Unbroken(events, j + 1, k)
  {
    hide EndsRow, Run;
  }

  lemma {:induction false} RowBetween(events: seq<Event>, from: nat, till: nat)
    requires from <= till <= |events| && NoAttempt(events, from, till)
    ensures Row(events, till) == if Unbroken(events, from, till) then Row(events, from) else 0
    decreases till - from
  {
    hide EndsRow, Attempts, WrongKey;
    if from < till {
      RowBetween(events, from, till - 1);
      WrongIsAttempt(Run(events, till - 1), events[till - 1]);
      assert Unbroken(events, from, till) <==>
          Unbroken(events, from, till - 1) && !EndsRow(Run(events, till - 1), events[till - 1]);
    }
  }

  /** Three key attempts in a row, all wrong, start the delay exactly when nothing else has ended the row
      in between: no expiry, no explicit lock, no change of session. */
  lemma ThreeInARow(events: seq<Event>, i: nat, j: nat, k: nat)
    requires i < j < k < |events| && NoAttempt(events, i + 1, j) && NoAttempt(events, j + 1, k)
    requires WrongKey(Run(events, i), events[i]) && WrongKey(Run(events, j), events[j]) && WrongKey(Run(events, k), events[k])
    requires Row(events, i) % MAX_ATTEMPTS == 0
    ensures ThirdOfRow(events, k) <==> Unbroken(events, i, k)
  {
    hide EndsRow, WrongKey, Attempts, NoAttempt, Run, Row, Unbroken;
    RowBetween(events, i + 1, j);
    RowBetween(events, j + 1, k);
    OneMore(events, i);
    OneMore(events, j);
    UnbrokenJoins(events, i, j, k);
  }

  lemma OneMore(events: seq<Event>, i: nat)
    requires i < |events| && WrongKey(Run(events, i), events[i])
    ensures !EndsRow(Run(events, i), events[i]) && Row(events, i + 1) == Row(events, i) + 1
  {
    hide EndsRow, WrongKey;
    WrongEndsNothing(Run(events, i), events[i]);
  }

  // ---- The delay ----

  /** Whether the server takes a delay that began at `t` for over: it ends on tick zero, or the clock shows the
      half turn from its end on. */
  predicate Released(t: nat, now: nat) {
    Tick(t + 10000) == 0 || (now >= t + 10000 && (now - t - 10000) % 0x1_0000_0000 < 0x8000_0000)
  }

  lemma ReleasedIsReached(t: nat, now: nat)
    requires t <= now
    ensures Released(t, now) <==> Tick(t + DELAY_MS) == 0 || Reached(Tick(now), Later(Tick(t), DELAY_MS))
  {
    ReachedExactly(t, DELAY_MS, now);
    if now < t + DELAY_MS { WholeTurns(now - t - DELAY_MS, 1); }
  }

  predicate Delayed(a: State, t: nat) {
    a.delayUntil == Tick(t + DELAY_MS) && !a.unlocked && a.seed.None?
  }

  /** While the delay stands nothing is issued or unlocked, whatever else happens. */
  lemma DelayedStep(a: State, t: nat, e: Event)
    requires Consistent(a) && Delayed(a, t) && t <= e.time && !(IsSecurity(e) && Released(t, e.time))
    ensures Delayed(Step(a, e), t) && forall s :: !Issues(a, e, s)
  {
    hide Step, Released, Tick, Ticked, SecurityAccess, Reached, Issues;
    ReleasedIsReached(t, e.time);
    LaterIsTick(t, DELAY_MS);
    if IsSecurity(e) {
      DelayedSecurity(a, e);
      SecurityCases(a, e);
      TickConsistent(a, Tick(e.time));
    } else {
      PlainStep(a, e);
      PlainIssuesNothing(a, e);
    }
  }

  lemma PlainIssuesNothing(a: State, e: Event)
    requires !IsSecurity(e)
    ensures forall s :: !Issues(a, e, s)
  {}

  lemma DelayedSecurity(a: State, e: Event)
    requires IsSecurity(e) && Consistent(a) && a.delayUntil != 0 && !Reached(Tick(e.time), a.delayUntil)
    ensures !ReachesSecurity(a, e, 1) && !ReachesSecurity(a, e, 2) && forall s :: !Issues(a, e, s)
  {
    hide Tick, Reached, SeedOf, NextState;
    TickConsistent(a, Tick(e.time));
  }

  lemma ThirdOfRowDelays(events: seq<Event>, j: nat)
    requires j < |events| && ThirdOfRow(events, j)
    ensures Delayed(Run(events, j + 1), events[j].time)
  {
    hide Tick, Row, EndsRow, Step, Issues, Attempts, RightKey, Ticked, IsSecurity;
    DelayStartsExactly(events, j);
    RunsAreConsistent(events, j);
    RunsAreConsistent(events, j + 1);
    var a, e := Run(events, j), events[j];
    AttemptIsSecurity(a, e);
    SecuritySeeds(a, e);
    if Run(events, j + 1).unlocked { SecurityLocks(a, e); AttemptsLocked(a, e); }
  }

  /** A seed is pending only while access is locked. */
  lemma AttemptsLocked(a: State, e: Event)
    requires Consistent(a) && Attempts(a, e)
    ensures !Ticked(a, Tick(e.time)).unlocked
  {
    hide Tick;
    TickConsistent(a, Tick(e.time));
  }

  /** The delay of the third wrong key at event `j` stands until a security request comes at a time when it
      is released: until then no event of any kind issues a seed or unlocks. */
  lemma {:induction false} DelayStands(events: seq<Event>, j: nat, n: nat)
    requires j < n <= |events| && Timed(events) && ThirdOfRow(events, j)
    requires forall k :: j < k < n ==> !(IsSecurity(events[k]) && Released(events[j].time, events[k].time))
    ensures Delayed(Run(events, n), events[j].time)
    ensures forall k, s :: j < k < n ==> !Issues(Run(events, k), events[k], s)
    decreases n
  {
    hide Step, Issues, Consistent, ThirdOfRow, IsSecurity, Released, Delayed;
    if n == j + 1 {
      ThirdOfRowDelays(events, j);
    } else {
      DelayStands(events, j, n - 1);
      RunsAreConsistent(events, n - 1);
      DelayedStep(Run(events, n - 1), events[j].time, events[n - 1]);
    }
  }

  /** For ten seconds after the third wrong key of a row no event of any kind issues a seed or unlocks,
      unless the end of the delay falls on tick zero. */
  lemma LockedOut(events: seq<Event>, j: nat, n: nat)
    requires j < n <= |events| && Timed(events) && ThirdOfRow(events, j)
    requires forall k :: j < k < n ==> events[k].time < events[j].time + 10000
    requires Tick(events[j].time + 10000) != 0
    ensures !Run(events, n).unlocked && Run(events, n).seed.None?
    ensures forall k, s :: j < k < n ==> !Issues(Run(events, k), events[k], s)
  {
    hide Issues, ThirdOfRow, IsSecurity, Run, Tick;
    DelayStands(events, j, n);
  }

  predicate AsksForSeed(e: Event) {
    e.Requested? && |e.request| >= 2 && e.request[0] == SECURITY_ACCESS && e.request[1] % 0x80 == 1
  }

  /** Exactly when a seed request gets its seed while a delay is set that began at `t`. */
  lemma LockoutIsExact(a: State, t: nat, e: Event)
    requires Consistent(a) && Delayed(a, t) && t <= e.time && AsksForSeed(e)
    requires Ticked(a, Tick(e.time)).session != DEFAULT
    ensures IssuesSeed(a, e) <==> Released(t, e.time)
  {
    hide NextState, SeedOf, Later, Reached, Tick, Released;
    LaterIsTick(t, DELAY_MS);
    ReleasedIsReached(t, e.time);
    TickConsistent(a, Tick(e.time));
    if Released(t, e.time) {
      assert Issues(a, e, SeedOf(NextState(a.seedState)));
    }
  }

  /** In any run, after the third wrong key of a row, the first security request for which the delay may be
      released - a seed request in a session that allows it, any time later - gets its seed exactly if it is
      released then: not before ten seconds have passed, unless they end on tick zero, and not in the second
      half turn of the clock after that either. */
  lemma SeedAfterThirdWrong(events: seq<Event>, j: nat, n: nat)
    requires j < n < |events| && Timed(events) && ThirdOfRow(events, j)
    requires forall k :: j < k < n ==> !(IsSecurity(events[k]) && Released(events[j].time, events[k].time))
    requires AsksForSeed(events[n]) && Ticked(Run(events, n), Tick(events[n].time)).session != DEFAULT
    ensures IssuesSeed(Run(events, n), events[n]) <==> Released(events[j].time, events[n].time)
  {
    hide Run, ThirdOfRow, IsSecurity, Released, Delayed, Consistent, IssuesSeed, Ticked, AsksForSeed;
    DelayStands(events, j, n);
    RunsAreConsistent(events, n);
    LockoutIsExact(Run(events, n), events[j].time, events[n]);
  }

  // ---- Runs without lockout ----

  /** Requests and states of the runs below happen at one tick, `time`. */
  function SessionEvent(time: nat, session: Byte): Event { Requested(time, [SESSION_CONTROL, session], 8, false) }

  function SeedEvent(time: nat): Event { Requested(time, [SECURITY_ACCESS, 1], 8, false) }

  /** A key that does not belong to seed `s`. */
  function WrongEvent(time: nat, s: bv32): (e: Event)
    ensures e.time == time
  {
    Requested(time, [SECURITY_ACCESS, 2] + BigEndian(Crc32.Xor(ComputeKey(s, SALT), 1)), 8, false)
  }

  /** Locked, in a session just kept alive, with no seed pending. */
  function Waiting(time: nat, session: Byte, attempts: Byte, delayUntil: U32, generator: bv32): State {
    State(session, Some(Later(Tick(time), S3_MS)), 0, false, None, attempts, delayUntil, generator)
  }

  lemma NotExpired(a: State, time: nat)
    requires a.s3 == Some(Later(Tick(time), S3_MS))
    ensures Ticked(a, Tick(time)) == a && KeptAlive(a, Tick(time)) == a
  {
    hide Later, Reached, Tick;
    ReachedExactly(time, S3_MS, time);
  }

  lemma SessionEntered(a: State, time: nat, session: Byte)
    requires session == PROGRAMMING || session == EXTENDED
    requires Ticked(a, Tick(time)).session != session
    ensures var t := Ticked(a, Tick(time));
            Step(a, SessionEvent(time, session))
            == Waiting(time, session, 0, t.delayUntil, t.seedState).(timeouts := t.timeouts)
    ensures !Attempts(a, SessionEvent(time, session))
  {
    hide SessionAllowed, Later, Tick, Ticked;
    AllSupported(session);
  }

  lemma SeedRequested(time: nat, session: Byte, attempts: Byte, generator: bv32)
    requires session == PROGRAMMING || session == EXTENDED
    ensures var a, g := Waiting(time, session, attempts, 0, generator), NextState(generator);
            && Issues(a, SeedEvent(time), SeedOf(g)) && !Attempts(a, SeedEvent(time))
            && Step(a, SeedEvent(time)) == a.(seed := Some(SeedOf(g)), seedState := g)
  {
    hide Ticked, Later, NextState, SeedOf, BigEndian, Tick, KeptAlive;
    NotExpired(Waiting(time, session, attempts, 0, generator), time);
    NotExpired(Waiting(time, session, attempts, 0, generator)
               .(seed := Some(SeedOf(NextState(generator))), seedState := NextState(generator)), time);
  }

  lemma WrongKeyIsWrong(time: nat, s: bv32)
    ensures |WrongEvent(time, s).request| == 6 && !RightKey(WrongEvent(time, s), s)
  {
    hide ComputeKey, BigEndian, FromBigEndian, Crc32.Xor;
    var key := ComputeKey(s, SALT);
    var request := WrongEvent(time, s).request;
    assert request[2..] == BigEndian(Crc32.Xor(key, 1));
    BigEndianRoundTrip(Crc32.Xor(key, 1));
    OneDiffers(key);
  }

  lemma OneDiffers(x: bv32)
    ensures Crc32.Xor(x, 1) != x
  {}

  lemma WrongKeySent(time: nat, session: Byte, attempts: Byte, generator: bv32, s: bv32)
    requires attempts < MAX_ATTEMPTS && (session == PROGRAMMING || session == EXTENDED)
    ensures var a, e := Waiting(time, session, attempts, 0, generator).(seed := Some(s)), WrongEvent(time, s);
            && WrongKey(a, e)
            && Step(a, e) == if attempts < 2 then Waiting(time, session, attempts + 1, 0, generator)
                             else Waiting(time, session, 0, Tick(time + DELAY_MS), generator)
  {
    hide Ticked, Later, NextState, SeedOf, BigEndian, ComputeKey, FromBigEndian, Crc32.Xor, Tick;
    var a, e := Waiting(time, session, attempts, 0, generator).(seed := Some(s)), WrongEvent(time, s);
    NotExpired(a, time);
    WrongKeyIsWrong(time, s);
    LaterIsTick(time, DELAY_MS);
  }

  lemma RunOne(events: seq<Event>, n: nat)
    requires n < |events|
    ensures Run(events, n + 1) == Step(Run(events, n), events[n])
  {}

  lemma RunStarts(events: seq<Event>)
    ensures Run(events, 0) == INITIAL
  {}

  function Generated(n: nat): bv32 { if n == 0 then DEFAULT_SEED else NextState(Generated(n - 1)) }

  /** A seed request and a wrong answer to seed number `k`. */
  predicate WrongRoundAt(events: seq<Event>, n: nat, time: nat, k: nat) {
    n + 1 < |events| && events[n] == SeedEvent(time) && events[n + 1] == WrongEvent(time, SeedOf(Generated(k)))
  }

  lemma WrongRound(events: seq<Event>, n: nat, time: nat, session: Byte, attempts: Byte, k: nat)
    requires k > 0 && WrongRoundAt(events, n, time, k) && attempts < MAX_ATTEMPTS
    requires Run(events, n) == Waiting(time, session, attempts, 0, Generated(k - 1))
    requires session == PROGRAMMING || session == EXTENDED
    ensures !Attempts(Run(events, n), events[n]) && WrongKey(Run(events, n + 1), events[n + 1])
    ensures Run(events, n + 2) == if attempts < 2 then Waiting(time, session, attempts + 1, 0, Generated(k))
                                  else Waiting(time, session, 0, Tick(time + DELAY_MS), Generated(k))
  {
    hide Step, Run, Attempts, Issues, WrongKey, WrongEvent, SeedEvent, NextState, SeedOf, Later, Tick;
    SeedRequested(time, session, attempts, Generated(k - 1));
    RunOne(events, n);
    RunOne(events, n + 1);
    WrongKeySent(time, session, attempts, Generated(k), SeedOf(Generated(k)));
  }

  /** The extended session and three seeds, each answered wrongly, all at one tick. */
  function ThreeWrong(time: nat): (events: seq<Event>)
    ensures |events| == 7
  {
    [SessionEvent(time, EXTENDED),
     SeedEvent(time), WrongEvent(time, SeedOf(Generated(1))),
     SeedEvent(time), WrongEvent(time, SeedOf(Generated(2))),
     SeedEvent(time), WrongEvent(time, SeedOf(Generated(3)))]
  }

  lemma FirstEntered(events: seq<Event>, time: nat)
    requires |events| > 0 && events[0] == SessionEvent(time, EXTENDED)
    ensures Run(events, 1) == Waiting(time, EXTENDED, 0, 0, DEFAULT_SEED)
  {
    hide Step, Run, SessionEvent, Later, Tick;
    RunStarts(events);
    RunOne(events, 0);
    SessionEntered(INITIAL, time, EXTENDED);
  }

  /** However a run goes on after these events, the last wrong key was the third of its row. */
  lemma ThreeWrongDelay(events: seq<Event>, time: nat)
    requires ThreeWrong(time) <= events
    ensures ThirdOfRow(events, 6) && Run(events, 7) == Waiting(time, EXTENDED, 0, Tick(time + DELAY_MS), Generated(3))
  {
    hide Step, Run, Attempts, WrongKey, WrongEvent, SeedEvent, SessionEvent, NextState, SeedOf, Later, Tick, Row, Generated;
    assert Generated(0) == DEFAULT_SEED by { FirstGenerated(); }
    var front := ThreeWrong(time);
    assert forall i :: 0 <= i < 7 ==> events[i] == front[i];
    FirstEntered(events, time);
    WrongRound(events, 1, time, EXTENDED, 0, 1);
    WrongRound(events, 3, time, EXTENDED, 1, 2);
    WrongRound(events, 5, time, EXTENDED, 2, 3);
    SameSeedState(time, EXTENDED, 2, Generated(3), SeedOf(Generated(3)));
    AttemptsAreTheRow(events, 6);
    RunOne(events, 5);
    SeedRequested(time, EXTENDED, 2, Generated(2));
  }

  lemma FirstGenerated()
    ensures Generated(0) == DEFAULT_SEED
  {}

  lemma SameSeedState(time: nat, session: Byte, attempts: Byte, generator: bv32, s: bv32)
    ensures Waiting(time, session, attempts, 0, generator).(seed := Some(s)).attempts == attempts
  {}

  /** Ten seconds before the clock wraps to zero. */
  const WRAP_TIME := 0x1_0000_0000 - DELAY_MS

  /** The lockout fails when it ends on tick zero: the very next request at the same tick gets its seed. */
  lemma WrapDefeatsLockout()
    ensures var events := ThreeWrong(WRAP_TIME) + [SeedEvent(WRAP_TIME)];
            ThirdOfRow(events, 6) && IssuesSeed(Run(events, 7), events[7])
  {
    hide Step, Run, Issues, ThirdOfRow, Waiting, SeedEvent, SeedOf, NextState, Later;
    var events := ThreeWrong(WRAP_TIME) + [SeedEvent(WRAP_TIME)];
    ThreeWrongDelay(events, WRAP_TIME);
    SeedRequested(WRAP_TIME, EXTENDED, 0, Generated(3));
    assert Tick(WRAP_TIME + DELAY_MS) == 0;
    assert events[7] == SeedEvent(WRAP_TIME);
  }

  /** Two wrong keys, a change to the programming session, a third wrong key, and one more seed request. */
  function ChangeRun(): seq<Event> {
    [SessionEvent(0, EXTENDED),
     SeedEvent(0), WrongEvent(0, SeedOf(Generated(1))),
     SeedEvent(0), WrongEvent(0, SeedOf(Generated(2))),
     SessionEvent(0, PROGRAMMING),
     SeedEvent(0), WrongEvent(0, SeedOf(Generated(3))),
     SeedEvent(0)]
  }

  /** The lockout fails when the session is changed after every second wrong key: the three key attempts of this
      run are all wrong, and yet no delay is set and the next request gets its seed. */
  lemma SessionChangeDefeatsLockout()
    ensures var events := ChangeRun();
            && WrongKey(Run(events, 2), events[2]) && WrongKey(Run(events, 4), events[4]) && WrongKey(Run(events, 7), events[7])
            && NoAttempt(events, 3, 4) && NoAttempt(events, 5, 7) && ChangesSession(Run(events, 5), events[5])
            && Run(events, 8).delayUntil == 0 && IssuesSeed(Run(events, 8), events[8])
  {
    hide Step, Run, Attempts, Issues, WrongKey, WrongEvent, SeedEvent, SessionEvent, NextState, SeedOf, Later, Tick, Generated,
      ChangesSession;
    assert Generated(0) == DEFAULT_SEED by { FirstGenerated(); }
    var events := ChangeRun();
    FirstEntered(events, 0);
    WrongRound(events, 1, 0, EXTENDED, 0, 1);
    WrongRound(events, 3, 0, EXTENDED, 1, 2);
    var a := Run(events, 5);
    RunOne(events, 5);
    NotExpired(a, 0);
    SessionEntered(a, 0, PROGRAMMING);
    assert ChangesSession(a, events[5]) by { ChangeSeen(a); }
    WrongRound(events, 6, 0, PROGRAMMING, 0, 3);
    NextGenerated(3);
    SeedRequested(0, PROGRAMMING, 1, Generated(3));
  }

  lemma ChangeSeen(a: State)
    requires Ticked(a, Tick(0)) == a && a.session == EXTENDED
    ensures ChangesSession(a, SessionEvent(0, PROGRAMMING))
  {
    hide Ticked, Tick;
  }

  lemma NextGenerated(n: nat)
    ensures Generated(n + 1) == NextState(Generated(n))
  {
    hide NextState;
  }

  /** The first time of the second half turn after a delay that began at zero: 24.8 days. */
  const LATE := DELAY_MS + 0x8000_0000

  /** Three wrong keys, the end of the session, and a new one 24.8 days later. */
  function LateRun(): seq<Event> {
    ThreeWrong(0) + [Polled(S3_MS), SessionEvent(LATE, EXTENDED), SeedEvent(LATE)]
  }

  /** The event is refused because a delay is running. */
  predicate RefusedForDelay(a: State, e: Event) {
    && IsSecurity(e) && Ticked(a, Tick(e.time)) == a
    && SecurityAccess(a, Tick(e.time), e.request, e.capacity) == (a, Negative(e.capacity, SECURITY_ACCESS, DELAY_NOT_EXPIRED))
  }

  /** The delay comes back: nothing but a security request ends it, and a tester who returns 24.8 days later
      is refused. */
  lemma DelayComesBack()
    ensures var events := LateRun();
            && Timed(events) && ThirdOfRow(events, 6) && events[9].time > events[6].time + DELAY_MS
            && AsksForSeed(events[9]) && RefusedForDelay(Run(events, 9), events[9])
  {
    hide Step, Run, RefusedForDelay, ThirdOfRow, WrongEvent, SeedOf, Generated, Timed;
    var events := LateRun();
    LateIsTimed();
    ThreeWrongDelay(events, 0);
    assert Tick(0 + DELAY_MS) == DELAY_MS;
    RunOne(events, 7);
    Ended(Generated(3));
    RunOne(events, 8);
    SessionEntered(Run(events, 8), LATE, EXTENDED);
    LateRefused(1, Generated(3));
  }

  lemma LateRefused(timeouts: U32, generator: bv32)
    ensures RefusedForDelay(Waiting(LATE, EXTENDED, 0, DELAY_MS, generator).(timeouts := timeouts), SeedEvent(LATE))
  {
    hide Ticked;
    NotExpired(Waiting(LATE, EXTENDED, 0, DELAY_MS, generator).(timeouts := timeouts), LATE);
  }

  lemma LateIsTimed()
    ensures Timed(LateRun())
  {
    hide SeedOf, Generated, BigEndian, ComputeKey, Crc32.Xor;
  }

  lemma Ended(generator: bv32)
    ensures Step(Waiting(0, EXTENDED, 0, DELAY_MS, generator), Polled(S3_MS))
         == State(DEFAULT, None, 1, false, None, 0, DELAY_MS, generator)
  {}
}
