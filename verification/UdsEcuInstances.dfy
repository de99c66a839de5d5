/** Histories from boot that surprise: lost answers, a late erasure, and a value that nobody wrote. */
module UdsEcuInstances {
  import opened Bytes
  import opened UdsAccess
  import opened ParamStore
  import opened ParamLog
  import opened UdsEcu
  import opened UdsEcuRuns
  import opened UdsEcuHistories
  import opened UdsEcuStorage
  import opened UdsPromises
  import opened UdsSaves
  import opened UdsAnswers
  import A = UdsAccessRuns
  import L = ParamLogRuns
  import Images = ParamImages
  import Torn = ParamTorn
  import Crc32

  // ---- Single calls at tick zero ----

  function Ask(bytes: seq<Byte>): Call { Request(0, bytes, 8, Env(0, SLOT_WORDS)) }

  const LIVE := INITIAL.(session := EXTENDED, s3 := Some(S3_MS))

  /** A request for the self-test or the erasure: its two identifier bytes. */
  function RoutineCall(subfunction: Byte, index: nat): Call
    requires index < 2
  {
    Ask([ROUTINE_CONTROL, subfunction, ROUTINE_IDS[index] / 256, ROUTINE_IDS[index] % 256])
  }

  /** A session that lives at tick zero: its timer runs from there. */
  predicate Lives(a: State, index: nat) {
    a.session == EXTENDED && a.s3 == Some(S3_MS) && (RoutineNeedsUnlock(index) ==> a.unlocked)
  }

  lemma StillLives(a: State)
    requires a.s3 == Some(S3_MS)
    ensures Ticked(a, Tick(0)) == a && KeptAlive(a, Tick(0)) == a
  {}

  lemma ExtendedMayCall()
    ensures SessionAllowed(WRITE_SESSIONS, EXTENDED) && !SessionAllowed(WRITE_SESSIONS, DEFAULT)
  {
    WriteSessions(EXTENDED);
    WriteSessions(DEFAULT);
  }

  lemma FoundByBytes(index: nat)
    requires index < 2
    ensures FindRoutine(Word(ROUTINE_IDS[index] / 256, ROUTINE_IDS[index] % 256)) == index
  {}

  /** Starting a fresh routine. */
  lemma StartStep(w: World, config: Config, index: nat)
    requires |w.routines| == 2 && index < 2 && w.routines[index] == FRESH && Lives(w.access, index)
    requires w.pendingRoutine.Some? ==> w.pendingRoutine.value.index != index
    ensures Step(w, config, RoutineCall(START, index)).0
         == w.(routines := w.routines[index := FRESH.(status := Running)])
  {
    hide Ticked, KeptAlive, SessionAllowed, InitialDids, Tick, Word, FindRoutine;
    StillLives(w.access);
    ExtendedMayCall();
    FoundByBytes(index);
  }

  lemma FirstAsk(w: World, config: Config, index: nat, env: Env)
    requires index < |w.routines| == 2 && w.routines[index] == FRESH.(status := Running)
    ensures Handled(w, config, index, RESULTS, env)
         == (w.(routines := w.routines[index := FRESH.(status := Running, polls := 1)]), Running, [])
  {
    hide RunHook;
    var x := FRESH.(status := Running, polls := 1);
    assert w.routines[index := x][index := x] == w.routines[index := x];
  }

  /** Asking a started routine for its result leaves the answer pending. */
  lemma ResultsStep(w: World, config: Config, index: nat)
    requires |w.routines| == 2 && index < 2 && w.routines[index] == FRESH.(status := Running)
    requires Lives(w.access, index) && (w.pendingRoutine.Some? ==> w.pendingRoutine.value.index != index)
    ensures Step(w, config, RoutineCall(RESULTS, index))
         == (w.(routines := w.routines[index := FRESH.(status := Running, polls := 1)],
                pendingRoutine := Some(PendingRoutine(index, RESULTS, false, []))),
             Pending([0x7F, ROUTINE_CONTROL, RESPONSE_PENDING]))
  {
    hide Ticked, KeptAlive, SessionAllowed, InitialDids, Tick, Word, FindRoutine, Handled;
    StillLives(w.access);
    ExtendedMayCall();
    FoundByBytes(index);
    assert RoutineCall(RESULTS, index).bytes[4..] == [];
    FirstAsk(w, config, index, Env(0, SLOT_WORDS));
  }

  /** Going to another session. */
  lemma SessionStep(w: World, config: Config, session: Byte)
    requires |w.routines| == 2 && (w.access.s3.None? || w.access.s3 == Some(S3_MS)) && DEFAULT <= session <= EXTENDED
    ensures Step(w, config, Ask([SESSION_CONTROL, session])).0 == w.(access := InSession(w.access, session, 0))
  {
    hide SessionAllowed, InSession;
    A.AllSupported(session);
  }

  /** A result request in the default session is refused, and still the pending answer is forgotten: polls
      stay silent from then on. */
  lemma RefusedForgets(w: World, config: Config, index: nat, capacity: nat, env: Env)
    requires |w.routines| == 2 && index < 2 && w.access.session == DEFAULT && w.access.s3.None? && w.pendingDid.None?
    requires w.pendingRoutine.Some? && w.pendingRoutine.value.index == index
    ensures var (w1, reply) := Step(w, config, RoutineCall(RESULTS, index));
            && reply == Response([0x7F, ROUTINE_CONTROL, NOT_IN_SESSION]) && w1 == w.(pendingRoutine := None)
            && Step(w1, config, Poll(capacity, env)) == (w1, NoResponse)
  {
    hide SessionAllowed, InitialDids, Word, FindRoutine;
    ExtendedMayCall();
    FoundByBytes(index);
  }

  /** A history from boot: the self-test is started and asked for its result, the answer is promised, the tester
      returns to the default session, and a refused request there loses the promised answer for good. */
  lemma PromisedAnswerIsLost(config: Config, log: LogState, flash: seq<Byte>, capacity: nat, env: Env)
    ensures var calls := [Ask([SESSION_CONTROL, EXTENDED]), RoutineCall(START, SELF_TEST), RoutineCall(RESULTS, SELF_TEST),
                          Ask([SESSION_CONTROL, DEFAULT]), RoutineCall(RESULTS, SELF_TEST)];
            var w := Booted(config, log, flash);
            && Step(Run(w, config, calls, 2), config, calls[2]).1 == Pending([0x7F, ROUTINE_CONTROL, RESPONSE_PENDING])
            && Run(w, config, calls, 4).pendingRoutine.Some?
            && IsNegative(Step(Run(w, config, calls, 4), config, calls[4]).1)
            && Run(w, config, calls, 5).pendingRoutine.None?
            && Step(Run(w, config, calls, 5), config, Poll(capacity, env)) == (Run(w, config, calls, 5), NoResponse)
  {
    hide Step, Run, InitialDids, Ask, RoutineCall;
    var calls := [Ask([SESSION_CONTROL, EXTENDED]), RoutineCall(START, SELF_TEST), RoutineCall(RESULTS, SELF_TEST),
                  Ask([SESSION_CONTROL, DEFAULT]), RoutineCall(RESULTS, SELF_TEST)];
    var w := Booted(config, log, flash);
    NothingRun(w, config, calls);
    RunOneMore(w, config, calls, 0);
    SessionStep(w, config, EXTENDED);
    RunOneMore(w, config, calls, 1);
    var w1 := Run(w, config, calls, 1);
    assert w1 == w.(access := LIVE);
    StartStep(w1, config, SELF_TEST);
    RunOneMore(w, config, calls, 2);
    var w2 := Run(w, config, calls, 2);
    ResultsStep(w2, config, SELF_TEST);
    RunOneMore(w, config, calls, 3);
    var w3 := Run(w, config, calls, 3);
    SessionStep(w3, config, DEFAULT);
    RunOneMore(w, config, calls, 4);
    var w4 := Run(w, config, calls, 4);
    RefusedForgets(w4, config, SELF_TEST, capacity, env);
  }

  lemma NothingRun(w: World, config: Config, calls: seq<Call>)
    requires |w.routines| == 2
    ensures Run(w, config, calls, 0) == w
  {}

  /** A pending erasure is carried out by a poll, whatever the session and the lock are by then. */
  lemma PollErases(w: World, config: Config, capacity: nat, env: Env)
    requires |w.routines| == 2 && w.pendingDid.None? && w.routines[ERASE] == FRESH.(status := Running, polls := 1)
    requires w.pendingRoutine == Some(PendingRoutine(ERASE, RESULTS, false, []))
    requires !config.hooked || Wiped(w.flash, w.log, env.words).2
    ensures Erases(config, w, Step(w, config, Poll(capacity, env)).0)
    ensures Step(w, config, Poll(capacity, env)).0.access == w.access
  {
    hide Wiped, InitialDids;
  }

  // ---- Getting in ----

  const FIRST_SEED := SeedOf(NextState(DEFAULT_SEED))

  /** Entering a session, asking for a seed, and answering it. */
  function Opening(session: Byte): seq<Call> {
    [Ask([SESSION_CONTROL, session]), Ask([SECURITY_ACCESS, 1]), Ask(A.KeyMessage([0x67, 0x01] + BigEndian(FIRST_SEED)))]
  }

  function Open(session: Byte): State {
    INITIAL.(session := session, s3 := Some(S3_MS), unlocked := true, seedState := NextState(DEFAULT_SEED))
  }

  /** A security request touches the session and security state only. */
  lemma SecurityStep(w: World, config: Config, bytes: seq<Byte>)
    requires |w.routines| == 2 && bytes != [] && bytes[0] == SECURITY_ACCESS
    ensures Step(w, config, Ask(bytes)).0
         == w.(access := A.Step(w.access, A.Requested(0, bytes, 8, false)))
  {
    hide Ticked, KeptAlive, SecurityAccess, InitialDids;
  }

  lemma SeedAsked(session: Byte)
    requires session == PROGRAMMING || session == EXTENDED
    ensures A.Step(INITIAL.(session := session, s3 := Some(S3_MS)), A.Requested(0, [SECURITY_ACCESS, 1], 8, false))
         == INITIAL.(session := session, s3 := Some(S3_MS), seed := Some(FIRST_SEED), seedState := NextState(DEFAULT_SEED))
  {
    hide SecurityAccess, NextState, SeedOf, BigEndian, Ticked, KeptAlive;
    var a := INITIAL.(session := session, s3 := Some(S3_MS));
    StillLives(a);
    A.SeedGiven(a, 0, 8);
    StillLives(a.(seed := Some(FIRST_SEED), seedState := NextState(DEFAULT_SEED)));
  }

  lemma KeySent(session: Byte)
    requires session == PROGRAMMING || session == EXTENDED
    ensures var m := A.KeyMessage([0x67, 0x01] + BigEndian(FIRST_SEED));
            && m != [] && m[0] == SECURITY_ACCESS
            && A.Step(INITIAL.(session := session, s3 := Some(S3_MS), seed := Some(FIRST_SEED), seedState := NextState(DEFAULT_SEED)),
                      A.Requested(0, m, 8, false)) == Open(session)
  {
    hide SecurityAccess, NextState, SeedOf, BigEndian, FromBigEndian, ComputeKey, Ticked, KeptAlive, A.KeyMessage;
    var b := INITIAL.(session := session, s3 := Some(S3_MS), seed := Some(FIRST_SEED), seedState := NextState(DEFAULT_SEED));
    A.KeyAnswers(FIRST_SEED);
    StillLives(b);
    A.KeyTaken(b, 0, A.KeyMessage([0x67, 0x01] + BigEndian(FIRST_SEED)), 8);
    StillLives(Open(session));
  }

  /** However it goes on, a history that opens in this way is unlocked after three calls, with nothing else
      changed. */
  lemma OpeningOpens(config: Config, log: LogState, flash: seq<Byte>, session: Byte, calls: seq<Call>)
    requires session == PROGRAMMING || session == EXTENDED
    requires Opening(session) <= calls
    ensures Run(Booted(config, log, flash), config, calls, 3) == Booted(config, log, flash).(access := Open(session))
  {
    hide Step, Run, InitialDids, Ask, A.Step, A.KeyMessage, NextState, SeedOf, BigEndian;
    var w, front := Booted(config, log, flash), Opening(session);
    assert calls[0] == front[0] && calls[1] == front[1] && calls[2] == front[2];
    NothingRun(w, config, calls);
    RunOneMore(w, config, calls, 0);
    SessionStep(w, config, session);
    RunOneMore(w, config, calls, 1);
    SecurityStep(Run(w, config, calls, 1), config, [SECURITY_ACCESS, 1]);
    SeedAsked(session);
    RunOneMore(w, config, calls, 2);
    KeySent(session);
    SecurityStep(Run(w, config, calls, 2), config, A.KeyMessage([0x67, 0x01] + BigEndian(FIRST_SEED)));
  }

  /** The documented bytes of getting in, with this key. */
  function KeyTry(key: seq<Byte>): seq<Call> {
    [Ask([0x10, 0x03]), Ask([0x27, 0x01]), Ask([0x27, 0x02] + key)]
  }

  /** The right key of the first seed after boot is E1 74 F5 DA, and no other one is. */
  lemma OnlyKey(key: seq<Byte>)
    requires |key| == 4
    ensures FromBigEndian(key) == 0xE174_F5DA <==> key == [0xE1, 0x74, 0xF5, 0xDA]
  {
    hide Crc32.GetU32, Crc32.PutU32;
    A.DocumentedBytes();
    A.BigEndianRoundTrip(0xE174_F5DA);
    Crc32.WordKeepsBytes([key[3], key[2], key[1], key[0]]);
  }

  lemma DocumentedSeed()
    ensures FIRST_SEED == 0x8798_5AA5 && ComputeKey(FIRST_SEED, SALT) == 0xE174_F5DA
    ensures BigEndian(FIRST_SEED) == [0x87, 0x98, 0x5A, 0xA5]
  {
    hide ComputeKey, SeedOf, NextState, BigEndian;
    A.DocumentedVector();
    A.DocumentedBytes();
  }

  lemma KeyAnswered(key: seq<Byte>, capacity: nat)
    requires |key| == 4 && capacity >= 6
    ensures var b := INITIAL.(session := EXTENDED, s3 := Some(S3_MS), seed := Some(FIRST_SEED), seedState := NextState(DEFAULT_SEED));
            var (c, reply) := SecurityAccess(b, Tick(0), [0x27, 0x02] + key, capacity);
            if key == [0xE1, 0x74, 0xF5, 0xDA] then c.unlocked && reply == Response([0x67, 0x02])
            else !c.unlocked && reply == Response([0x7F, 0x27, 0x35])
  {
    hide ComputeKey, FromBigEndian, NextState, SeedOf, BigEndian, Reached, Later, Tick;
    assert ([0x27, 0x02] + key)[2..] == key;
    OnlyKey(key);
    DocumentedSeed();
  }

  /** From boot, by bytes: the session answer, the seed 87 98 5A A5, and exactly the key E1 74 F5 DA is accepted. */
  lemma DocumentedOpening(config: Config, log: LogState, flash: seq<Byte>, key: seq<Byte>)
    requires |key| == 4
    ensures var w, calls := Booted(config, log, flash), KeyTry(key);
            && Step(Run(w, config, calls, 0), config, calls[0]).1 == Response([0x50, 0x03, 0x00, 0x32, 0x01, 0xF4])
            && Step(Run(w, config, calls, 1), config, calls[1]).1 == Response([0x67, 0x01, 0x87, 0x98, 0x5A, 0xA5])
            && Step(Run(w, config, calls, 2), config, calls[2]).1
               == (if key == [0xE1, 0x74, 0xF5, 0xDA] then Response([0x67, 0x02]) else Response([0x7F, 0x27, 0x35]))
            && Run(w, config, calls, 3).access.unlocked == (key == [0xE1, 0x74, 0xF5, 0xDA])
  {
    hide Step, Run, InitialDids, Ask, A.Step, NextState, SeedOf, BigEndian;
    var w, calls := Booted(config, log, flash), KeyTry(key);
    NothingRun(w, config, calls);
    RunOneMore(w, config, calls, 0);
    SessionStep(w, config, EXTENDED);
    SessionReply(w, config);
    RunOneMore(w, config, calls, 1);
    var w1 := Run(w, config, calls, 1);
    SecurityStep(w1, config, [SECURITY_ACCESS, 1]);
    SeedAsked(EXTENDED);
    DocumentedSeed();
    SeedReply(w1, config);
    RunOneMore(w, config, calls, 2);
    KeyReply(Run(w, config, calls, 2), config, key);
  }

  lemma SessionReply(w: World, config: Config)
    requires |w.routines| == 2 && w.access == INITIAL
    ensures Step(w, config, Ask([0x10, 0x03])).1 == Response([0x50, 0x03, 0x00, 0x32, 0x01, 0xF4])
  {
    hide Processed, SessionControl;
    Dispatched(w, config, Tick(0), [0x10, 0x03], 8, Env(0, SLOT_WORDS));
    SessionAnswers(INITIAL, Tick(0), [0x10, 0x03], 8);
  }

  lemma SeedReply(w: World, config: Config)
    requires |w.routines| == 2 && w.access == INITIAL.(session := EXTENDED, s3 := Some(S3_MS))
    ensures Step(w, config, Ask([0x27, 0x01])).1 == Response([0x67, 0x01] + BigEndian(FIRST_SEED))
  {
    hide Processed, SecurityAccess, NextState, SeedOf, BigEndian, Ticked;
    StillLives(w.access);
    Dispatched(w, config, Tick(0), [0x27, 0x01], 8, Env(0, SLOT_WORDS));
    SecurityAnswers(w.access, Tick(0), [0x27, 0x01], 8);
  }

  lemma KeyReply(w: World, config: Config, key: seq<Byte>)
    requires |w.routines| == 2 && |key| == 4
    requires w.access == INITIAL.(session := EXTENDED, s3 := Some(S3_MS), seed := Some(FIRST_SEED), seedState := NextState(DEFAULT_SEED))
    ensures var (w1, reply) := Step(w, config, Ask([0x27, 0x02] + key));
            && reply == (if key == [0xE1, 0x74, 0xF5, 0xDA] then Response([0x67, 0x02]) else Response([0x7F, 0x27, 0x35]))
            && w1.access.unlocked == (key == [0xE1, 0x74, 0xF5, 0xDA])
  {
    hide SecurityAccess, NextState, SeedOf, BigEndian, Ticked, InitialDids;
    StillLives(w.access);
    KeyAnswered(key, 8);
  }

  // ---- A late erasure ----

  function LateCalls(capacity: nat, env: Env): seq<Call> {
    Opening(EXTENDED)
    + [RoutineCall(START, ERASE), RoutineCall(RESULTS, ERASE), Ask([SESSION_CONTROL, DEFAULT]), Poll(capacity, env)]
  }

  /** A history from boot: the tester gets in, starts the erasure and asks for its result, and returns to the
      default session, which locks. The next poll erases all the same. */
  lemma LateErasure(config: Config, log: LogState, flash: seq<Byte>, capacity: nat, env: Env)
    requires !config.hooked || Wiped(flash, log, env.words).2
    ensures var w, calls := Booted(config, log, flash), LateCalls(capacity, env);
            var before, after := Run(w, config, calls, 6), Run(w, config, calls, 7);
            before.access.session == DEFAULT && !before.access.unlocked && Erases(config, before, after)
  {
    hide Step, Run, InitialDids, Ask, RoutineCall, Wiped, Erases, Opening;
    var w, calls := Booted(config, log, flash), LateCalls(capacity, env);
    assert |Opening(EXTENDED)| == 3 by { OpeningLength(EXTENDED); }
    OpeningOpens(config, log, flash, EXTENDED, calls);
    RunOneMore(w, config, calls, 3);
    StartStep(Run(w, config, calls, 3), config, ERASE);
    RunOneMore(w, config, calls, 4);
    ResultsStep(Run(w, config, calls, 4), config, ERASE);
    RunOneMore(w, config, calls, 5);
    SessionStep(Run(w, config, calls, 5), config, DEFAULT);
    RunOneMore(w, config, calls, 6);
    PollErases(Run(w, config, calls, 6), config, capacity, env);
  }

  lemma OpeningLength(session: Byte)
    ensures |Opening(session)| == 3
  {
    hide BigEndian, A.KeyMessage, SeedOf;
  }

  // ---- Overwritten promises ----

  function TwoResults(capacity: nat, env: Env): seq<Call> {
    Opening(EXTENDED)
    + [RoutineCall(START, SELF_TEST), RoutineCall(RESULTS, SELF_TEST), RoutineCall(START, ERASE), RoutineCall(RESULTS, ERASE),
       Poll(capacity, env), Poll(capacity, env)]
  }

  /** A history from boot: the results of both routines are promised, and only the second is ever given. */
  lemma SecondResultReplacesFirst(config: Config, log: LogState, flash: seq<Byte>, capacity: nat, env: Env)
    ensures var w, calls := Booted(config, log, flash), TwoResults(capacity, env);
            && IsNote(Step(Run(w, config, calls, 4), config, calls[4]).1, ROUTINE_CONTROL)
            && IsNote(Step(Run(w, config, calls, 6), config, calls[6]).1, ROUTINE_CONTROL)
            && Run(w, config, calls, 7).pendingRoutine == Some(PendingRoutine(ERASE, RESULTS, false, []))
            && Run(w, config, calls, 8).pendingRoutine.None?
            && Step(Run(w, config, calls, 8), config, calls[8]).1 == NoResponse
  {
    hide Step, Run, InitialDids, Ask, RoutineCall, Opening;
    var w, calls := Booted(config, log, flash), TwoResults(capacity, env);
    assert |Opening(EXTENDED)| == 3 by { OpeningLength(EXTENDED); }
    OpeningOpens(config, log, flash, EXTENDED, calls);
    RunOneMore(w, config, calls, 3);
    StartStep(Run(w, config, calls, 3), config, SELF_TEST);
    RunOneMore(w, config, calls, 4);
    ResultsStep(Run(w, config, calls, 4), config, SELF_TEST);
    RunOneMore(w, config, calls, 5);
    StartStep(Run(w, config, calls, 5), config, ERASE);
    RunOneMore(w, config, calls, 6);
    ResultsStep(Run(w, config, calls, 6), config, ERASE);
    RunOneMore(w, config, calls, 7);
    var a := Run(w, config, calls, 7);
    PollEndsErase(a, config, capacity, env);
    SilentPoll(Run(w, config, calls, 8), config, capacity, env);
  }

  lemma PollEndsErase(w: World, config: Config, capacity: nat, env: Env)
    requires |w.routines| == 2 && w.pendingDid.None? && w.routines[ERASE] == FRESH.(status := Running, polls := 1)
    requires w.pendingRoutine == Some(PendingRoutine(ERASE, RESULTS, false, []))
    ensures Step(w, config, Poll(capacity, env)).0.pendingRoutine.None? && Step(w, config, Poll(capacity, env)).0.pendingDid.None?
  {
    hide Wiped, InitialDids;
  }

  lemma SilentPoll(w: World, config: Config, capacity: nat, env: Env)
    requires |w.routines| == 2 && w.pendingDid.None? && w.pendingRoutine.None?
    ensures Step(w, config, Poll(capacity, env)) == (w, NoResponse)
  {}

  // ---- The life of a self-test ----

  function SelfTestCalls(env: Env): seq<Call> {
    [Ask([0x10, 0x03]), Ask([0x31, 0x01, 0x02, 0x03]), Ask([0x31, 0x03, 0x02, 0x03]), Poll(8, env),
     Ask([0x31, 0x03, 0x02, 0x03]), Ask([0x31, 0x02, 0x02, 0x03]), Ask([0x31, 0x01, 0x02, 0x03]),
     Ask([0x31, 0x02, 0x02, 0x03]), Ask([0x31, 0x03, 0x02, 0x03])]
  }

  /** A request about the self-test neither opens nor ends the session of a living ECU. */
  lemma SelfTestRequest(w: World, config: Config, sub: Byte)
    requires |w.routines| == 2 && Lives(w.access, SELF_TEST)
    ensures Step(w, config, Ask([0x31, sub, 0x02, 0x03])) == Control(w, config, [0x31, sub, 0x02, 0x03], 8, Env(0, SLOT_WORDS))
  {
    hide Ticked, KeptAlive, Tick, Control;
    StillLives(w.access);
    RoutineKeepsAccess(w, config, [0x31, sub, 0x02, 0x03], 8, Env(0, SLOT_WORDS));
  }

  /** What each request about the self-test does to it, and its answer. */
  lemma SelfTestStep(w: World, config: Config, sub: Byte)
    requires |w.routines| == 2 && Lives(w.access, SELF_TEST) && w.pendingRoutine.None? && 1 <= sub <= 3
    requires var r := w.routines[SELF_TEST];
             r.status.Complete? || r == FRESH.(code := r.code) || r == FRESH.(status := Running, code := r.code)
    ensures var (w1, reply) := Step(w, config, Ask([0x31, sub, 0x02, 0x03]));
            var r := w.routines[SELF_TEST];
            var running := FRESH.(status := Running, code := r.code);
            if sub == 1 && r != running then
              w1 == w.(routines := w.routines[SELF_TEST := running]) && reply == Response([0x71, 0x01, 0x02, 0x03])
            else if sub == 2 && r == running then
              w1 == w.(routines := w.routines[SELF_TEST := r.(status := Idle)]) && reply == Response([0x71, 0x02, 0x02, 0x03])
            else if sub == 3 && r == running then
              && w1 == w.(routines := w.routines[SELF_TEST := r.(polls := 1)],
                          pendingRoutine := Some(PendingRoutine(SELF_TEST, RESULTS, false, [])))
              && reply == Pending([0x7F, 0x31, 0x78])
            else if sub == 3 && r.status.Complete? && |r.result| <= 4 then
              w1 == w && reply == Response([0x71, 0x03, 0x02, 0x03] + r.result)
            else w1 == w && (sub == 1 || sub == 2 || r.status.Idle? ==> reply == Response([0x7F, 0x31, if sub == 1 then 0x22 else 0x24]))
  {
    hide Step, SessionAllowed, RunHook, Truncated;
    SelfTestRequest(w, config, sub);
    ExtendedMayCall();
    assert [0x31, sub, 0x02, 0x03][4..] == [];
    assert Truncated([]) == [] by { NothingCut(); }
    var r, running := w.routines[SELF_TEST], FRESH.(status := Running, code := w.routines[SELF_TEST].code);
    assert w.routines[SELF_TEST := r.(polls := 0, executed := false)][SELF_TEST := running] == w.routines[SELF_TEST := running];
  }

  lemma NothingCut()
    ensures Truncated([]) == []
  {}

  lemma SelfTestPoll(w: World, config: Config, env: Env)
    requires |w.routines| == 2 && w.pendingDid.None? && w.routines[SELF_TEST] == FRESH.(status := Running, polls := 1)
    requires w.pendingRoutine == Some(PendingRoutine(SELF_TEST, RESULTS, false, []))
    ensures var (w1, reply) := Step(w, config, Poll(8, env));
            var verdict: Byte := if config.hooked then env.selfTest else 0;
            && w1 == w.(routines := w.routines[SELF_TEST := Routine(Complete, [verdict], 1, true, verdict)],
                        pendingRoutine := None, worked := w.worked + [SELF_TEST])
            && reply == Response([0x71, 0x03, 0x02, 0x03, verdict])
  {
    hide InitialDids, Wiped;
    var verdict: Byte := if config.hooked then env.selfTest else 0;
    var a, b := FRESH.(status := Running, polls := 1, executed := true, code := verdict), Routine(Complete, [verdict], 1, true, verdict);
    assert w.routines[SELF_TEST := a][SELF_TEST := b] == w.routines[SELF_TEST := b];
  }

  /** The booted ECU in its live session, with this self-test. */
  function Testing(config: Config, log: LogState, flash: seq<Byte>, r: Routine, pending: bool, worked: seq<nat>): World {
    Booted(config, log, flash).(access := LIVE, routines := [r, FRESH], worked := worked,
                                pendingRoutine := if pending then Some(PendingRoutine(SELF_TEST, RESULTS, false, [])) else None)
  }

  /** What follows a request about the self-test, and its answer. */
  function Asked(r: Routine, sub: Byte): (Routine, bool, Reply) {
    if sub == 1 then (FRESH.(status := Running, code := r.code), false, Response([0x71, 0x01, 0x02, 0x03]))
    else if sub == 2 && r.status.Running? then (FRESH.(code := r.code), false, Response([0x71, 0x02, 0x02, 0x03]))
    else if sub == 3 && r.status.Running? then (r.(polls := 1), true, Pending([0x7F, 0x31, 0x78]))
    else if sub == 3 && r.status.Complete? then (r, false, Response([0x71, 0x03, 0x02, 0x03] + r.result))
    else (r, false, Response([0x7F, 0x31, 0x24]))
  }

  lemma TestingStep(config: Config, log: LogState, flash: seq<Byte>, r: Routine, worked: seq<nat>, sub: Byte)
    requires 1 <= sub <= 3 && (sub == 1 ==> !r.status.Running?) && |r.result| <= 4
    requires r.status.Complete? || r == FRESH.(code := r.code) || r == FRESH.(status := Running, code := r.code)
    ensures var (r1, pending, reply) := Asked(r, sub);
            Step(Testing(config, log, flash, r, false, worked), config, Ask([0x31, sub, 0x02, 0x03]))
            == (Testing(config, log, flash, r1, pending, worked), reply)
  {
    hide Step, InitialDids, Ask;
    var w := Testing(config, log, flash, r, false, worked);
    SelfTestStep(w, config, sub);
    var r1 := Asked(r, sub).0;
    assert [r, FRESH][0 := r1] == [r1, FRESH];
    assert [r, FRESH] == w.routines;
  }

  lemma TestingPolled(config: Config, log: LogState, flash: seq<Byte>, env: Env)
    ensures var verdict: Byte := if config.hooked then env.selfTest else 0;
            Step(Testing(config, log, flash, FRESH.(status := Running, polls := 1), true, []), config, Poll(8, env))
            == (Testing(config, log, flash, Routine(Complete, [verdict], 1, true, verdict), false, [SELF_TEST]),
                Response([0x71, 0x03, 0x02, 0x03, verdict]))
  {
    hide Step, InitialDids;
    var verdict: Byte := if config.hooked then env.selfTest else 0;
    var done := Routine(Complete, [verdict], 1, true, verdict);
    SelfTestPoll(Testing(config, log, flash, FRESH.(status := Running, polls := 1), true, []), config, env);
    assert [FRESH.(status := Running, polls := 1), FRESH][SELF_TEST := done] == [done, FRESH] && [] + [SELF_TEST] == [SELF_TEST];
  }

  lemma TestingBegins(config: Config, log: LogState, flash: seq<Byte>, env: Env)
    ensures Run(Booted(config, log, flash), config, SelfTestCalls(env), 1) == Testing(config, log, flash, FRESH, false, [])
  {
    hide Step, Run, InitialDids, Ask;
    var w, calls := Booted(config, log, flash), SelfTestCalls(env);
    NothingRun(w, config, calls);
    SessionStep(w, config, EXTENDED);
    RunOneMore(w, config, calls, 0);
  }

  /** A self-test from boot, with all its answers: it starts, its result is announced, given by the next poll and repeated on
      request; a finished test cannot be stopped, a running one can, and a stopped one has no result. */
  lemma SelfTestLife(config: Config, log: LogState, flash: seq<Byte>, env: Env)
    ensures var w, calls := Booted(config, log, flash), SelfTestCalls(env);
            var verdict: Byte := if config.hooked then env.selfTest else 0;
            && Step(Run(w, config, calls, 1), config, calls[1]).1 == Response([0x71, 0x01, 0x02, 0x03])
            && Step(Run(w, config, calls, 2), config, calls[2]).1 == Pending([0x7F, 0x31, 0x78])
            && Step(Run(w, config, calls, 3), config, calls[3]).1 == Response([0x71, 0x03, 0x02, 0x03, verdict])
            && Step(Run(w, config, calls, 4), config, calls[4]).1 == Response([0x71, 0x03, 0x02, 0x03, verdict])
            && Step(Run(w, config, calls, 5), config, calls[5]).1 == Response([0x7F, 0x31, 0x24])
            && Step(Run(w, config, calls, 6), config, calls[6]).1 == Response([0x71, 0x01, 0x02, 0x03])
            && Step(Run(w, config, calls, 7), config, calls[7]).1 == Response([0x71, 0x02, 0x02, 0x03])
            && Step(Run(w, config, calls, 8), config, calls[8]).1 == Response([0x7F, 0x31, 0x24])
  {
    hide Step, Run, InitialDids, Ask, Testing;
    var w, calls := Booted(config, log, flash), SelfTestCalls(env);
    assert |w.routines| == 2;
    var verdict: Byte := if config.hooked then env.selfTest else 0;
    var started, done, again := FRESH.(status := Running), Routine(Complete, [verdict], 1, true, verdict),
                                FRESH.(status := Running, code := verdict);
    TestingBegins(config, log, flash, env);
    TestingStep(config, log, flash, FRESH, [], 1);
    RunOneMore(w, config, calls, 1);
    TestingStep(config, log, flash, started, [], 3);
    RunOneMore(w, config, calls, 2);
    TestingPolled(config, log, flash, env);
    RunOneMore(w, config, calls, 3);
    assert [0x71, 0x03, 0x02, 0x03] + [verdict] == [0x71, 0x03, 0x02, 0x03, verdict];
    TestingStep(config, log, flash, done, [SELF_TEST], 3);
    RunOneMore(w, config, calls, 4);
    TestingStep(config, log, flash, done, [SELF_TEST], 2);
    RunOneMore(w, config, calls, 5);
    TestingStep(config, log, flash, done, [SELF_TEST], 1);
    RunOneMore(w, config, calls, 6);
    TestingStep(config, log, flash, again, [SELF_TEST], 2);
    RunOneMore(w, config, calls, 7);
    TestingStep(config, log, flash, FRESH.(code := verdict), [SELF_TEST], 3);
  }

  // ---- A silenced promise ----

  /** A request for a result that asks to suppress its positive answer. */
  function SilentAsk(): Call { Ask([ROUTINE_CONTROL, 0x80 + RESULTS, 0x02, 0x03]) }

  function SilencedCalls(capacity: nat, env: Env): seq<Call> {
    [Ask([SESSION_CONTROL, EXTENDED]), RoutineCall(START, SELF_TEST), SilentAsk(), Poll(capacity, env)]
  }

  lemma SilentAskStep(w: World, config: Config)
    requires |w.routines| == 2 && w.routines[SELF_TEST] == FRESH.(status := Running)
    requires Lives(w.access, SELF_TEST) && w.pendingRoutine.None?
    ensures var (w1, reply) := Step(w, config, SilentAsk());
            && IsNote(reply, ROUTINE_CONTROL)
            && w1 == w.(routines := w.routines[SELF_TEST := FRESH.(status := Running, polls := 1)],
                        pendingRoutine := Some(PendingRoutine(SELF_TEST, RESULTS, true, [])))
  {
    hide Ticked, KeptAlive, SessionAllowed, InitialDids, Tick, Handled;
    StillLives(w.access);
    ExtendedMayCall();
    assert SilentAsk().bytes[4..] == [];
    FirstAsk(w, config, SELF_TEST, Env(0, SLOT_WORDS));
  }

  lemma SilentEnd(w: World, config: Config, capacity: nat, env: Env)
    requires |w.routines| == 2 && w.pendingDid.None? && w.routines[SELF_TEST] == FRESH.(status := Running, polls := 1)
    requires w.pendingRoutine == Some(PendingRoutine(SELF_TEST, RESULTS, true, []))
    ensures var (w1, reply) := Step(w, config, Poll(capacity, env));
            reply == NoResponse && w1.pendingRoutine.None? && w1.routines[SELF_TEST].status.Complete?
  {
    hide InitialDids;
  }

  /** A history from boot: a result request that asks to suppress the positive answer gets the note that an answer
      follows, the self-test is then carried out, and no answer follows. */
  lemma PromisedAnswerIsSilenced(config: Config, log: LogState, flash: seq<Byte>, capacity: nat, env: Env)
    ensures var w, calls := Booted(config, log, flash), SilencedCalls(capacity, env);
            && IsNote(Step(Run(w, config, calls, 2), config, calls[2]).1, ROUTINE_CONTROL)
            && Step(Run(w, config, calls, 3), config, calls[3]).1 == NoResponse
            && Run(w, config, calls, 4).routines[SELF_TEST].status.Complete?
            && Run(w, config, calls, 4).pendingRoutine.None?
  {
    hide Step, Run, InitialDids, Ask, RoutineCall, SilentAsk;
    var w, calls := Booted(config, log, flash), SilencedCalls(capacity, env);
    NothingRun(w, config, calls);
    RunOneMore(w, config, calls, 0);
    SessionStep(w, config, EXTENDED);
    RunOneMore(w, config, calls, 1);
    StartStep(Run(w, config, calls, 1), config, SELF_TEST);
    RunOneMore(w, config, calls, 2);
    SilentAskStep(Run(w, config, calls, 2), config);
    RunOneMore(w, config, calls, 3);
    SilentEnd(Run(w, config, calls, 3), config, capacity, env);
  }

  // ---- Writes ----

  /** The identifiers that are saved, by their row of the table. */
  function SavedDid(index: nat): U16 { if index == 0 then 0xF190 else if index == 2 then 0x0100 else 0xF191 }

  /** A request to write a saved identifier. */
  function WriteCall(index: nat, data: seq<Byte>): Call {
    Ask([WRITE_DID, SavedDid(index) / 256, SavedDid(index) % 256] + data)
  }

  lemma RowSaved(config: Config, store: Store, index: nat)
    requires config.attached && index in {0, 2, 3}
    ensures InitialDids(config, store)[index].saved
    ensures forall i :: 0 <= i < 6 && i != index ==> InitialDids(config, store)[i].did != InitialDids(config, store)[index].did
  {
    hide Get, Ascii;
  }

  predicate Fits(index: nat, session: Byte, data: seq<Byte>) {
    && index in {0, 2, 3} && (session == PROGRAMMING || (session == EXTENDED && index != 0))
    && |data| <= if index == 0 then 17 else if index == 2 then 16 else 4
  }

  /** An allowed write is deferred, and changes nothing else. */
  lemma DeferStep(w: World, config: Config, index: nat, data: seq<Byte>)
    requires |w.routines| == 2 && config.attached && w.dids == InitialDids(config, w.log.store)
    requires w.access.unlocked && w.access.s3 == Some(S3_MS) && Fits(index, w.access.session, data)
    ensures var (w1, reply) := Step(w, config, WriteCall(index, data));
            w1 == w.(pendingDid := Some(PendingDid(index, data))) && IsNote(reply, WRITE_DID)
  {
    hide Ticked, KeptAlive, InitialDids, FindDid, WriteRefused;
    StillLives(w.access);
    var call := WriteCall(index, data);
    TableRow(config, w.log.store, index);
    RowSaved(config, w.log.store, index);
    assert call.bytes[3..] == data;
    WritesFollowTheRules(config, w.log.store, w.access, call.bytes);
    assert FindDid(w.dids, w.dids[index].did, 0) == index;
  }

  function TwoWrites(capacity: nat, env: Env): seq<Call> {
    Opening(EXTENDED) + [WriteCall(2, [7]), WriteCall(3, [8]), Poll(capacity, env), Poll(capacity, env)]
  }

  /** A history from boot: two writes are promised their answers, and the first is neither saved nor answered. */
  lemma SecondWriteReplacesFirst(config: Config, log: LogState, flash: seq<Byte>, capacity: nat, env: Env)
    requires config.attached
    ensures var w, calls := Booted(config, log, flash), TwoWrites(capacity, env);
            && IsNote(Step(Run(w, config, calls, 3), config, calls[3]).1, WRITE_DID)
            && IsNote(Step(Run(w, config, calls, 4), config, calls[4]).1, WRITE_DID)
            && Run(w, config, calls, 5).pendingDid == Some(PendingDid(3, [8]))
            && |Run(w, config, calls, 6).dids| == 6 && Run(w, config, calls, 6).dids[2] == w.dids[2]
            && Step(Run(w, config, calls, 6), config, calls[6]).1 == NoResponse
  {
    hide Step, Run, InitialDids, Opening, WriteCall;
    var w, calls := Booted(config, log, flash), TwoWrites(capacity, env);
    assert |Opening(EXTENDED)| == 3 by { OpeningLength(EXTENDED); }
    OpeningOpens(config, log, flash, EXTENDED, calls);
    RunOneMore(w, config, calls, 3);
    DeferStep(Run(w, config, calls, 3), config, 2, [7]);
    RunOneMore(w, config, calls, 4);
    DeferStep(Run(w, config, calls, 4), config, 3, [8]);
    RunOneMore(w, config, calls, 5);
    TableRow(config, log.store, 2);
    PollCommitsOne(Run(w, config, calls, 5), config, capacity, env);
    SilentPoll(Run(w, config, calls, 6), config, capacity, env);
  }

  lemma PollCommitsOne(w: World, config: Config, capacity: nat, env: Env)
    requires |w.routines| == 2 && |w.dids| == 6 && w.pendingDid == Some(PendingDid(3, [8])) && w.pendingRoutine.None?
    ensures var w1 := Step(w, config, Poll(capacity, env)).0;
            |w1.dids| == 6 && w1.dids[2] == w.dids[2] && w1.pendingDid.None? && w1.pendingRoutine.None?
  {
    hide Written, Negative, WriteReply;
  }

  function EmptyWrite(capacity: nat, env: Env): seq<Call> { Opening(EXTENDED) + [WriteCall(2, []), Poll(capacity, env)] }

  /** A history from boot: a write of no bytes is accepted and promised its answer, and always fails. */
  lemma EmptyWriteFails(config: Config, size: nat, slots: nat, capacity: nat, env: Env)
    requires config.attached && 1 <= slots <= MAX_SLOTS && IMAGE_SIZE * slots <= size
    ensures var w, calls := Erasing(config, size, slots), EmptyWrite(capacity, env);
            && IsNote(Step(Run(w, config, calls, 3), config, calls[3]).1, WRITE_DID)
            && Step(Run(w, config, calls, 4), config, calls[4]).1 == Negative(capacity, WRITE_DID, PROGRAMMING_FAILURE)
  {
    hide Step, Run, InitialDids, Opening, WriteCall, Negative, L.Healthy, Blank, HasFreeSlot, Commit;
    var w, calls := Erasing(config, size, slots), EmptyWrite(capacity, env);
    assert |Opening(EXTENDED)| == 3 by { OpeningLength(EXTENDED); }
    OpeningOpens(config, LogState(EMPTY, 0, slots), Blank(size), EXTENDED, calls);
    BootedCoherent(config, size, slots);
    RunOneMore(w, config, calls, 3);
    DeferStep(Run(w, config, calls, 3), config, 2, []);
    var a := Run(w, config, calls, 4);
    TableRow(config, EMPTY, 2);
    RowSaved(config, EMPTY, 2);
    PollCommits(a, config, calls[4]);
    SaveSucceedsExactly(a, config, PendingDid(2, []), capacity, env);
  }

  // ---- A value that nobody wrote ----

  /** The state of a history so far: in agreement with a sound log that holds `store` in `next` slots, unlocked,
      nothing pending. */
  ghost predicate Stands(w: World, config: Config, store: Store, next: nat, slots: nat) {
    && Coherent(w, config) && L.Sound(w.flash, w.log) && w.log == LogState(store, next, slots)
    && w.access == Open(PROGRAMMING) && w.pendingDid.None? && w.pendingRoutine.None?
  }

  /** A write and the poll that saves it. */
  function AfterSave(w: World, config: Config, index: nat, data: seq<Byte>): World
    requires |w.routines| == 2
  {
    Step(Step(w, config, WriteCall(index, data)).0, config, Poll(8, Env(0, SLOT_WORDS))).0
  }

  lemma SavedStep(w: World, config: Config, store: Store, next: nat, slots: nat, index: nat, data: seq<Byte>, store1: Store)
    requires config.attached && Stands(w, config, store, next, slots) && next < slots && Fits(index, PROGRAMMING, data)
    requires data != [] && Update(store, SavedDid(index), data) == Some(store1)
    ensures |w.routines| == 2 && Stands(AfterSave(w, config, index, data), config, store1, next + 1, slots)
  {
    hide L.Sound, L.Healthy, InitialDids, WriteCall, Update, Written, Negative, WriteReply, Encode, L.Appended, Known, Images.Tidy;
    DeferStep(w, config, index, data);
    var w1 := Step(w, config, WriteCall(index, data)).0;
    TableRow(config, store, index);
    RowSaved(config, store, index);
    L.SoundParts(w.flash, w.log);
    L.UpdateAccepts(store, w.dids[index].did, data);
    L.WriteAppends(L.System(w.flash, w.log), w.dids[index].did, data, SLOT_WORDS);
    L.CompleteAppend(w.flash, w.log, store1, SLOT_WORDS);
    StepCoherent(w1, config, Poll(8, Env(0, SLOT_WORDS)));
  }

  /** From erased flash: two one-byte values are saved, and a third identifier is written with these data while
      the flash fails after seventeen words. */
  function CutCalls(data: seq<Byte>): seq<Call> {
    Opening(PROGRAMMING)
    + [WriteCall(0, [1]), Poll(8, Env(0, SLOT_WORDS)), WriteCall(3, [1]), Poll(8, Env(0, SLOT_WORDS)),
       WriteCall(2, data), Poll(8, Env(0, Torn.CUT_WORDS))]
  }

  function Erasing(config: Config, size: nat, slots: nat): World {
    Booted(config, LogState(EMPTY, 0, slots), Blank(size))
  }

  lemma OpenedStands(config: Config, size: nat, slots: nat, calls: seq<Call>)
    requires config.attached && 1 <= slots <= MAX_SLOTS && IMAGE_SIZE * slots <= size && Opening(PROGRAMMING) <= calls
    ensures |calls| >= 3 && Stands(Run(Erasing(config, size, slots), config, calls, 3), config, EMPTY, 0, slots)
  {
    hide Step, Run, InitialDids, Opening, L.Sound, L.Healthy, Blank;
    OpeningLength(PROGRAMMING);
    OpeningOpens(config, LogState(EMPTY, 0, slots), Blank(size), PROGRAMMING, calls);
    L.BlankIsSound(size, slots);
    BootedCoherent(config, size, slots);
  }

  const MIDDLE: Store := [Entry(0xF190, [1]), EMPTY_ENTRY, EMPTY_ENTRY]

  lemma TwoUpdates()
    ensures Update(EMPTY, 0xF190, [1]) == Some(MIDDLE) && Update(MIDDLE, 0xF191, [1]) == Some(Torn.BEFORE)
  {
    hide Update;
    Torn.UpdateTakesFree(EMPTY, 0xF190, [1], 0);
    assert EMPTY[0 := Entry(0xF190, [1])] == MIDDLE;
    Torn.UpdateTakesFree(MIDDLE, 0xF191, [1], 1);
    assert MIDDLE[1 := Entry(0xF191, [1])] == Torn.BEFORE;
  }

  lemma TwoSaved(config: Config, size: nat, slots: nat, calls: seq<Call>, data: seq<Byte>)
    requires config.attached && 3 <= slots <= MAX_SLOTS && IMAGE_SIZE * slots <= size && calls == CutCalls(data)
    ensures |calls| == 9 && Stands(Run(Erasing(config, size, slots), config, calls, 7), config, Torn.BEFORE, 2, slots)
  {
    hide Step, Run, Opening, WriteCall, Update, Stands, Erasing;
    assert |Opening(PROGRAMMING)| == 3 by { OpeningLength(PROGRAMMING); }
    var w := Erasing(config, size, slots);
    assert |w.routines| == 2 by { ErasingRoutines(config, size, slots); }
    OpenedStands(config, size, slots, calls);
    TwoUpdates();
    RunOneMore(w, config, calls, 3);
    RunOneMore(w, config, calls, 4);
    SavedStep(Run(w, config, calls, 3), config, EMPTY, 0, slots, 0, [1], MIDDLE);
    RunOneMore(w, config, calls, 5);
    RunOneMore(w, config, calls, 6);
    SavedStep(Run(w, config, calls, 5), config, MIDDLE, 1, slots, 3, [1], Torn.BEFORE);
  }

  lemma ErasingRoutines(config: Config, size: nat, slots: nat)
    ensures |Erasing(config, size, slots).routines| == 2
  {}

  /** A history from boot after which a restart shows a value of identifier 0x0100 that nobody wrote, while RAM
      shows the default. */
  lemma RestartShowsAnother(config: Config, size: nat, slots: nat) returns (data: seq<Byte>)
    requires config.attached && 3 <= slots <= MAX_SLOTS && IMAGE_SIZE * slots <= size
    ensures |CutCalls(data)| == 9
    ensures var w := Run(Erasing(config, size, slots), config, CutCalls(data), 9);
            var restarted := Step(w, config, Reboot).0;
            && |w.dids| == |restarted.dids| == 6 && w.dids[2].did == restarted.dids[2].did == 0x0100
            && w.dids[2].value == [0, 1] && restarted.dids[2].value !in {[0, 1], data}
  {
    hide Step, Run, InitialDids, WriteCall, L.Sound, L.Healthy, Update, Encode, Decode, L.Torn, Commit, Known, Images.Tidy, CutCalls;
    var found;
    data, found := Torn.CollidingData();
    var calls, w0 := CutCalls(data), Erasing(config, size, slots);
    TwoSaved(config, size, slots, calls, data);
    LastCalls(data);
    var a := Run(w0, config, calls, 7);
    RunOneMore(w0, config, calls, 7);
    DeferStep(a, config, 2, data);
    RunOneMore(w0, config, calls, 8);
    var b := Run(w0, config, calls, 8);
    CutPoll(b, config, slots, data, found);
  }

  lemma LastCalls(data: seq<Byte>)
    ensures var calls := CutCalls(data);
            |calls| == 9 && calls[7] == WriteCall(2, data) && calls[8] == Poll(8, Env(0, Torn.CUT_WORDS))
  {
    hide Opening, WriteCall;
    OpeningLength(PROGRAMMING);
  }

  /** The poll that is cut, and the restart after it. */
  lemma CutPoll(w: World, config: Config, slots: nat, data: seq<Byte>, found: Store)
    requires config.attached && Stands(w.(pendingDid := None), config, Torn.BEFORE, 2, slots) && 2 < slots
    requires w.pendingDid == Some(PendingDid(2, data)) && |data| == 16
    requires Update(Torn.BEFORE, 0x0100, data).Some? && Encode(Update(Torn.BEFORE, 0x0100, data).value).Some?
    requires Decode(L.Torn(Encode(Update(Torn.BEFORE, 0x0100, data).value).value, Torn.CUT_WORDS)) == Some(found)
    requires found[0].did == 0xF190 && found[1].did == 0xF191 && found[2].did == 0x0100
    requires |found[2].value| == 16 && found[2].value != data
    ensures |w.routines| == 2
    ensures var w1 := Step(w, config, Poll(8, Env(0, Torn.CUT_WORDS))).0;
            var restarted := Step(w1, config, Reboot).0;
            && |w1.dids| == |restarted.dids| == 6 && w1.dids[2].did == restarted.dids[2].did == 0x0100
            && w1.dids[2].value == [0, 1] && restarted.dids[2].value !in {[0, 1], data}
  {
    hide InitialDids, L.Sound, L.Healthy, L.Jammed, Written, Update, Known, Images.Tidy, Negative, WriteReply, Encode, L.Restarted, Decode,
      L.Torn, Erased, L.Appended;
    TableRow(config, Torn.BEFORE, 2);
    RowSaved(config, Torn.BEFORE, 2);
    L.SoundParts(w.flash, w.log);
    L.UpdateAccepts(Torn.BEFORE, 0x0100, data);
    L.WriteAppends(L.System(w.flash, w.log), 0x0100, data, Torn.CUT_WORDS);
    L.CutRecovers(w.flash, w.log, Encode(Update(Torn.BEFORE, 0x0100, data).value).value, Torn.CUT_WORDS);
    TableRow(config, found, 2);
    ThirdRow(config, Torn.BEFORE);
    ThirdRow(config, found);
  }

  lemma ThirdRow(config: Config, store: Store)
    requires config.attached && store[0].did == 0xF190 && store[1].did == 0xF191
    ensures |InitialDids(config, store)| == 6
    ensures InitialDids(config, store)[2].value
         == if store[2].did == 0x0100 && |store[2].value| <= 16 then store[2].value else [0, 1]
  {
    hide Ascii;
  }
}
