/** Runs of the ECU: what may change identifiers, how often a routine works, and how RAM and flash agree. */
module UdsEcuRuns {
  import opened Bytes
  import opened UdsAccess
  import opened ParamLog
  import opened UdsEcu
  import A = UdsAccessRuns
  import L = ParamLogRuns

  /** The main loop's calls, an outside lock, and a restart of the whole ECU. */
  datatype Call =
    | Ticking(time: nat)
    | Request(time: nat, bytes: seq<Byte>, capacity: nat, env: Env)
    | Poll(capacity: nat, env: Env)
    | Relock(time: nat)
    | Reboot

  function Step(w: World, config: Config, call: Call): (r: (World, Reply))
    requires |w.routines| == 2
    ensures |r.0.routines| == 2
  {
    match call
    case Ticking(time) => (w.(access := Ticked(w.access, Tick(time))), NoResponse)
    case Request(time, bytes, capacity, env) => Processed(w, config, Tick(time), bytes, capacity, env)
    case Poll(capacity, env) => Polled(w, config, capacity, env)
    case Relock(_) => (w.(access := Locked(w.access)), NoResponse)
    case Reboot =>
      var (f, log, _) := L.Restarted(w.flash, w.log.slots);
      (Booted(config, log, f), NoResponse)
  }

  function Run(w: World, config: Config, calls: seq<Call>, n: nat): (r: World)
    requires |w.routines| == 2 && n <= |calls|
    ensures |r.routines| == 2
    decreases n
  {
    if n == 0 then w else Step(Run(w, config, calls, n - 1), config, calls[n - 1]).0
  }

  // ---- Frames ----

  /** A handler call leaves the session, the pending work and the other routines alone. */
  lemma HandledFrame(w: World, config: Config, index: nat, subfunction: Byte, env: Env)
    requires index < |w.routines|
    ensures var w1 := Handled(w, config, index, subfunction, env).0;
            && w1 == w.(dids := w1.dids, routines := w1.routines, log := w1.log, flash := w1.flash, worked := w1.worked)
            && w1.routines == w.routines[index := w1.routines[index]]
  {
    hide InitialDids, Wiped;
  }

  lemma PerformedFrame(w: World, config: Config, index: nat, request: seq<Byte>, capacity: nat, env: Env)
    requires index < |w.routines| == |ROUTINE_IDS| && |request| >= 4
    ensures var w1 := Performed(w, config, index, request, capacity, env).0;
            && w1.access == w.access && w1.pendingDid == w.pendingDid
            && w1.routines == w.routines[index := w1.routines[index]]
  {
    hide Handled, RoutineReply, ReplyPending;
    HandledFrame(w, config, index, request[1] % 0x80, env);
  }

  lemma ControlFrame(w: World, config: Config, request: seq<Byte>, capacity: nat, env: Env)
    requires |w.routines| == |ROUTINE_IDS|
    ensures var w1 := Control(w, config, request, capacity, env).0;
            w1.access == w.access && w1.pendingDid == w.pendingDid
  {
    hide Performed, RoutineRefused, Negative;
    if |request| >= 4 && FindRoutine(Word(request[2], request[3])) < |ROUTINE_IDS| {
      var index := FindRoutine(Word(request[2], request[3]));
      PerformedFrame(w, config, index, request, capacity, env);
      PerformedFrame(w.(pendingRoutine := None), config, index, request, capacity, env);
    }
  }

  lemma WriteFrame(w: World, request: seq<Byte>, capacity: nat)
    ensures var w1 := Write(w, request, capacity).0; w1 == w.(dids := w1.dids, pendingDid := w1.pendingDid)
  {
    hide WriteRefused;
  }

  lemma CommitFrame(w: World, p: PendingDid, capacity: nat, env: Env)
    ensures var w1 := Commit(w, p, capacity, env).0;
            w1 == w.(dids := w1.dids, pendingDid := None, log := w1.log, flash := w1.flash)
  {
    hide Written, Committable;
  }

  // ---- The session and security state within the ECU ----

  /** Polls leave the session and security state alone, and a request does to it what the runs of that
      state say. */
  lemma AccessProjects(w: World, config: Config, call: Call)
    requires |w.routines| == 2
    ensures var (w1, reply) := Step(w, config, call);
            match call
            case Ticking(time) => w1.access == A.Step(w.access, A.Polled(time))
            case Relock(time) => w1.access == A.Step(w.access, A.Relocked(time))
            case Request(time, bytes, capacity, _) =>
              w1.access == A.Step(w.access, A.Requested(time, bytes, capacity, CountsAsAlive(reply)))
            case Poll(_, _) => w1.access == w.access
            case Reboot => w1.access == INITIAL
  {
    hide Ticked, KeptAlive, SessionControl, TesterPresent, SecurityAccess, Control, Write, Read, Commit, Handled,
      L.Restarted, InitialDids, Negative, RoutineReply;
    match call
    case Ticking(_) =>
    case Relock(_) =>
    case Reboot =>
    case Request(time, bytes, capacity, env) =>
      var t := w.(access := Ticked(w.access, Tick(time)));
      ControlFrame(t, config, bytes, capacity, env);
      WriteFrame(t, bytes, capacity);
    case Poll(capacity, env) =>
      if w.pendingDid.Some? {
        CommitFrame(w, w.pendingDid.value, capacity, env);
      } else if w.pendingRoutine.Some? && w.pendingRoutine.value.index < 2 {
        HandledFrame(w, config, w.pendingRoutine.value.index, RESULTS, env);
      }
  }

  /** What the session and security state has seen since the last restart. */
  function Events(w: World, config: Config, calls: seq<Call>, n: nat): seq<A.Event>
    requires |w.routines| == 2 && n <= |calls|
    decreases n
  {
    if n == 0 then []
    else
      var before := Events(w, config, calls, n - 1);
      match calls[n - 1]
      case Ticking(time) => before + [A.Polled(time)]
      case Relock(time) => before + [A.Relocked(time)]
      case Poll(_, _) => before
      case Reboot => []
      case Request(time, bytes, capacity, _) =>
        var reply := Step(Run(w, config, calls, n - 1), config, calls[n - 1]).1;
        before + [A.Requested(time, bytes, capacity, CountsAsAlive(reply))]
  }

  lemma {:induction false} RunOfPrefix(events: seq<A.Event>, e: A.Event, n: nat)
    requires n <= |events|
    ensures A.Run(events + [e], n) == A.Run(events, n)
    decreases n
  {
    hide A.Step;
    if n > 0 { RunOfPrefix(events, e, n - 1); }
  }

  /** The ECU's session and security state is that of the run of its events, so everything proved of
      those runs holds within the ECU. */
  lemma {:induction false} AccessIsARun(w: World, config: Config, calls: seq<Call>, n: nat)
    requires |w.routines| == 2 && w.access == INITIAL && n <= |calls|
    ensures var events := Events(w, config, calls, n);
            Run(w, config, calls, n).access == A.Run(events, |events|)
    decreases n
  {
    hide Step, A.Step;
    if n > 0 {
      AccessIsARun(w, config, calls, n - 1);
      AccessProjects(Run(w, config, calls, n - 1), config, calls[n - 1]);
      var before, events := Events(w, config, calls, n - 1), Events(w, config, calls, n);
      if |events| > 0 && events != before {
        RunOfPrefix(before, events[|events| - 1], |before|);
      }
    }
  }

  /** The ECU is unlocked only by a seed it issued since its last restart, answered rightly by the very
      next key attempt, with no change of session and no expiry since. */
  lemma UnlockedEcuWasOpened(w: World, config: Config, calls: seq<Call>, n: nat)
    requires |w.routines| == 2 && w.access == INITIAL && n <= |calls| && Run(w, config, calls, n).access.unlocked
    ensures Run(w, config, calls, n).access.session != DEFAULT
    ensures var events := Events(w, config, calls, n); exists i, j, s :: A.Opened(events, i, j, |events|, s)
  {
    hide A.Opened, A.Run, Run, Events;
    AccessIsARun(w, config, calls, n);
    var events := Events(w, config, calls, n);
    A.UnlockedMeansOpened(events, |events|);
  }

  // ---- Room for a read ----

  /** The count of the room a read needs exceeds what the values fill by one byte for each identifier. */
  lemma {:induction false} NeededExceeds(dids: seq<Did>, session: Byte, request: seq<Byte>, i: nat)
    requires |request| % 2 == 1 && i % 2 == 1 && i <= |request| && Unreadable(dids, session, request, i).None?
    ensures Needed(dids, request, i) == |Values(dids, request, i)| + (|request| - i) / 2
    decreases |request| - i
  {
    hide FindDid, SessionAllowed, Word;
    if i < |request| { NeededExceeds(dids, session, request, i + 2); }
  }

  /** All identifiers of the request exist and may be read in this session. */
  predicate Readable(dids: seq<Did>, session: Byte, request: seq<Byte>) {
    |request| >= 3 && |request| % 2 == 1 && Unreadable(dids, session, request, 1).None?
  }

  /** A readable request is answered exactly when the buffer has room for the answer and one byte more for
      each identifier. So an answer is refused although it fits exactly when less than that is to spare. */
  lemma ReadAnswersExactly(dids: seq<Did>, session: Byte, request: seq<Byte>, capacity: nat)
    requires Readable(dids, session, request)
    ensures var answer := [0x62] + Values(dids, request, 1);
            Read(dids, session, request, capacity)
            == if |answer| + (|request| - 1) / 2 <= capacity then Response(answer) else BufferTooSmall
  {
    hide Unreadable, Needed, Values;
    NeededExceeds(dids, session, request, 1);
  }

  /** The ECU name fits seven bytes together with its header, and is refused there. */
  lemma FittingReadRefused(session: Byte)
    ensures var request := [READ_DID, 0xF1, 0x9A];
            var answer := [0x62, 0xF1, 0x9A] + Ascii("ecu1");
            && |answer| == 7
            && Read(DefaultDids(F407), session, request, 7) == BufferTooSmall
            && Read(DefaultDids(F407), session, request, 8) == Response(answer)
  {
    hide Ascii, FindDid;
    var dids, request := DefaultDids(F407), [READ_DID, 0xF1, 0x9A];
    assert Word(0xF1, 0x9A) == 0xF19A;
    NameIsFifth(dids);
    assert Values(dids, request, 3) == [] && Unreadable(dids, session, request, 3) == None;
    assert [0x62] + ([0xF1, 0x9A] + Ascii("ecu1") + []) == [0x62, 0xF1, 0x9A] + Ascii("ecu1");
    assert |Ascii("ecu1")| == 4 by { AsciiLength("ecu1"); }
    ReadAnswersExactly(dids, session, request, 7);
    ReadAnswersExactly(dids, session, request, 8);
  }

  lemma AsciiLength(s: string)
    ensures |Ascii(s)| == |s|
  {}

  lemma NameIsFifth(dids: seq<Did>)
    requires dids == DefaultDids(F407)
    ensures FindDid(dids, 0xF19A, 0) == 4
  {
    hide Ascii;
    assert dids[0].did == 0xF190 && dids[1].did == 0xF193 && dids[2].did == 0x0100 && dids[3].did == 0xF191;
    assert dids[4].did == 0xF19A && dids[5].did == 0xF19B;
  }

  // ---- Negative responses ----

  /** A key message that reaches the key check and finds an elapsed delay or a pending seed. */
  predicate ReachesKeys(a: State, now: U32, request: seq<Byte>) {
    && |request| >= 2 && request[0] == SECURITY_ACCESS && request[1] % 0x80 == 2
    && a.session in {PROGRAMMING, EXTENDED} && !DelayChecked(a, now).1
    && (a.delayUntil != 0 || (|request| == 6 && a.seed.Some?))
  }

  /** A routine request names the routine whose answer is pending. */
  predicate NamesPending(w: World, request: seq<Byte>) {
    && w.pendingRoutine.Some? && |request| >= 4 && request[0] == ROUTINE_CONTROL
    && FindRoutine(Word(request[2], request[3])) < |ROUTINE_IDS|
    && FindRoutine(Word(request[2], request[3])) == w.pendingRoutine.value.index
  }

  /** A final negative response leaves everything as the tick alone would, with exactly two exceptions. A
      key message that finds an elapsed delay or a pending seed changes attempts, seed or delay; and a
      routine request that names the routine whose answer is pending forgets that answer. */
  lemma NegativeChangesNothing(w: World, config: Config, now: U32, request: seq<Byte>, capacity: nat, env: Env)
    requires |w.routines| == 2
    requires IsNegative(Processed(w, config, now, request, capacity, env).1)
    ensures var t := w.(access := Ticked(w.access, now));
            var w1 := Processed(w, config, now, request, capacity, env).0;
            && w1 == t.(access := w1.access, pendingRoutine := w1.pendingRoutine)
            && (w1.access != t.access <==> ReachesKeys(t.access, now, request))
            && w1.access == t.access.(seed := w1.access.seed, attempts := w1.access.attempts, delayUntil := w1.access.delayUntil)
            && (w1.pendingRoutine != t.pendingRoutine <==> NamesPending(w, request))
            && (w1.pendingRoutine == t.pendingRoutine || w1.pendingRoutine == None)
  {
    hide Ticked, KeptAlive, SessionControl, TesterPresent, SecurityAccess, Control, Write, Read, ReachesKeys, NamesPending, DelayChecked;
    var t := w.(access := Ticked(w.access, now));
    OtherServices(t, request, now);
    assert w == t.(access := w.access);
    NegativeControl(t, config, request, capacity, env);
    if request != [] {
      NegativeSession(t.access, now, request, capacity);
      NegativeWrite(t, request, capacity);
      if request[0] == SECURITY_ACCESS { NegativeSecurity(t.access, now, request, capacity); }
    }
  }

  lemma OtherServices(w: World, request: seq<Byte>, now: U32)
    ensures ReachesKeys(w.access, now, request) ==> request != [] && request[0] == SECURITY_ACCESS
    ensures NamesPending(w, request) ==> w.pendingRoutine.Some? && request != [] && request[0] == ROUTINE_CONTROL
    ensures forall v: World :: v == w.(access := v.access) ==> NamesPending(v, request) == NamesPending(w, request)
  {
    hide DelayChecked;
  }

  lemma NegativeSession(a: State, now: U32, request: seq<Byte>, capacity: nat)
    ensures IsNegative(SessionControl(a, now, request, capacity).1) ==> SessionControl(a, now, request, capacity).0 == a
    ensures IsNegative(TesterPresent(a, now, request, capacity).1) ==> TesterPresent(a, now, request, capacity).0 == a
  {
    hide SessionAllowed, InSession, KeptAlive;
  }

  lemma NegativeSecurity(a: State, now: U32, request: seq<Byte>, capacity: nat)
    requires request != [] && request[0] == SECURITY_ACCESS
    requires IsNegative(SecurityAccess(a, now, request, capacity).1)
    ensures var b := SecurityAccess(a, now, request, capacity).0;
            && b == a.(seed := b.seed, attempts := b.attempts, delayUntil := b.delayUntil)
            && (b != a <==> ReachesKeys(a, now, request))
  {
    hide RequestSeed, SendKey, Reached, Negative, IsNegative;
    var d := DelayChecked(a, now).0;
    if |request| >= 2 {
      SeedsArePositive(d, request[1], capacity);
      NegativeKey(d, now, request, capacity);
    }
  }

  lemma SeedsArePositive(d: State, subfunction: Byte, capacity: nat)
    ensures !IsNegative(RequestSeed(d, subfunction, capacity).1)
  {
    hide NextState, SeedOf, BigEndian;
  }

  lemma NegativeKey(d: State, now: U32, request: seq<Byte>, capacity: nat)
    requires |request| >= 2
    ensures var (b, reply) := SendKey(d, now, request, capacity);
            IsNegative(reply) ==>
              && b == d.(seed := b.seed, attempts := b.attempts, delayUntil := b.delayUntil)
              && (|request| == 6 && d.seed.Some? ==> b.seed.None?)
              && (|request| != 6 || d.seed.None? ==> b == d)
  {
    hide ComputeKey, FromBigEndian, Later;
  }

  lemma NegativeWrite(w: World, request: seq<Byte>, capacity: nat)
    ensures IsNegative(Write(w, request, capacity).1) ==> Write(w, request, capacity).0 == w
  {
    hide WriteRefused;
  }

  lemma RoutineReplyPositive(capacity: nat, suppress: bool, subfunction: Byte, id: U16, result: seq<Byte>)
    ensures !IsNegative(RoutineReply(capacity, suppress, subfunction, id, result))
  {}

  lemma NegativeControl(w: World, config: Config, request: seq<Byte>, capacity: nat, env: Env)
    requires |w.routines| == 2
    ensures var (w1, reply) := Control(w, config, request, capacity, env);
            IsNegative(reply) && request != [] && request[0] == ROUTINE_CONTROL ==>
              w1 == if NamesPending(w, request) then w.(pendingRoutine := None) else w
  {
    hide RoutineRefused, Handled, RoutineReply, Negative;
    if |request| >= 4 && FindRoutine(Word(request[2], request[3])) < |ROUTINE_IDS| {
      var index := FindRoutine(Word(request[2], request[3]));
      PerformedPositive(w, config, index, request, capacity, env);
      PerformedPositive(w.(pendingRoutine := None), config, index, request, capacity, env);
    }
  }

  lemma PerformedPositive(w: World, config: Config, index: nat, request: seq<Byte>, capacity: nat, env: Env)
    requires index < |w.routines| == |ROUTINE_IDS| && |request| >= 4
    ensures !IsNegative(Performed(w, config, index, request, capacity, env).1)
  {
    hide Handled, RoutineReply;
    var subfunction, suppress, id := request[1] % 0x80, Suppressed(request[1]), ROUTINE_IDS[index];
    RoutineReplyPositive(capacity, suppress, subfunction, id, w.routines[index].result);
    RoutineReplyPositive(capacity, suppress, subfunction, id, Handled(w, config, index, subfunction, env).2);
  }

  // ---- Where identifier values come from ----

  lemma WriteSessions(session: Byte)
    ensures SessionAllowed(WRITE_SESSIONS, session) <==> session == PROGRAMMING || session == EXTENDED
  {
    assert Power(1) == 2;
    assert Power(2) == 2 * Power(1);
    assert Power(3) == 2 * Power(2);
    assert Power(4) == 2 * Power(3);
    assert Power(5) == 2 * Power(4);
    assert Power(6) == 2 * Power(5);
    assert Power(7) == 2 * Power(6);
  }

  /** The request is an accepted write of this data to this identifier. */
  predicate AcceptsWrite(w: World, call: Call, p: PendingDid) {
    call.Request? && |call.bytes| >= 3 && call.bytes[0] == WRITE_DID
    && WriteRefused(w.dids, Ticked(w.access, Tick(call.time)), call.bytes).None?
    && p.index == FindDid(w.dids, Word(call.bytes[1], call.bytes[2]), 0) && p.data == call.bytes[3..]
  }

  /** The erase routine has worked in this step, and the table is what initialisation makes of the log. */
  predicate Erases(config: Config, w: World, w1: World) {
    w1.worked == w.worked + [ERASE] && w1.dids == InitialDids(config, w1.log.store)
  }

  lemma HandledDids(w: World, config: Config, index: nat, subfunction: Byte, env: Env)
    requires index < |w.routines| == 2
    ensures var w1 := Handled(w, config, index, subfunction, env).0; w1.dids == w.dids || Erases(config, w, w1)
  {
    hide InitialDids, Wiped;
  }

  lemma ControlDids(w: World, config: Config, request: seq<Byte>, capacity: nat, env: Env)
    requires |w.routines| == 2
    ensures var w1 := Control(w, config, request, capacity, env).0; w1.dids == w.dids || Erases(config, w, w1)
  {
    hide RoutineRefused, Handled, RoutineReply, Negative, InitialDids;
    if |request| >= 4 && FindRoutine(Word(request[2], request[3])) < |ROUTINE_IDS| {
      var index := FindRoutine(Word(request[2], request[3]));
      HandledDids(w, config, index, request[1] % 0x80, env);
      HandledDids(w.(pendingRoutine := None), config, index, request[1] % 0x80, env);
    }
  }

  /** One identifier takes new data. */
  predicate Takes(dids: seq<Did>, p: PendingDid, dids1: seq<Did>) {
    p.index < |dids| && dids1 == dids[p.index := dids[p.index].(value := p.data)]
  }

  /** A step other than a restart changes the table only by erasing, by committing the pending write, or
      by an accepted write to an identifier that is not saved. */
  lemma DidsStep(w: World, config: Config, call: Call)
    requires |w.routines| == 2 && !call.Reboot?
    ensures var w1 := Step(w, config, call).0;
            || w1.dids == w.dids || Erases(config, w, w1)
            || (call.Poll? && w.pendingDid.Some? && Takes(w.dids, w.pendingDid.value, w1.dids))
            || exists p :: AcceptsWrite(w, call, p) && Takes(w.dids, p, w1.dids)
  {
    hide Ticked, KeptAlive, SessionControl, TesterPresent, SecurityAccess, Control, Read, Handled, Locked,
      InitialDids, Negative, RoutineReply, Written, WriteRefused, Erases;
    match call
    case Ticking(_) =>
    case Relock(_) =>
    case Request(time, bytes, capacity, env) =>
      var t := w.(access := Ticked(w.access, Tick(time)));
      ControlDids(t, config, bytes, capacity, env);
      ErasesIgnoresAccess(config, w, t);
      if bytes != [] && bytes[0] == WRITE_DID && WriteRefused(t.dids, t.access, bytes).None? {
        var p := PendingDid(FindDid(w.dids, Word(bytes[1], bytes[2]), 0), bytes[3..]);
        assert AcceptsWrite(w, call, p);
      }
    case Poll(capacity, env) =>
      if w.pendingDid.None? && w.pendingRoutine.Some? && w.pendingRoutine.value.index < 2 {
        HandledDids(w, config, w.pendingRoutine.value.index, RESULTS, env);
        ErasesIgnoresAccess(config, w, w);
      }
  }

  lemma ErasesIgnoresAccess(config: Config, w: World, t: World)
    requires t.worked == w.worked
    ensures forall w1: World, w2: World :: Erases(config, t, w1) && w2.worked == w1.worked && w2.dids == w1.dids && w2.log == w1.log
              ==> Erases(config, w, w2)
  {
    hide InitialDids;
  }

  /** A pending write is the latest accepted one. */
  lemma PendingStep(w: World, config: Config, call: Call)
    requires |w.routines| == 2 && Step(w, config, call).0.pendingDid.Some?
    ensures var p := Step(w, config, call).0.pendingDid.value;
            || AcceptsWrite(w, call, p)
            || (w.pendingDid == Some(p) && !call.Poll? && forall q :: AcceptsWrite(w, call, q) ==> Takes(w.dids, q, Step(w, config, call).0.dids))
  {
    hide Ticked, KeptAlive, SessionControl, TesterPresent, SecurityAccess, Control, Read, Handled, Locked,
      InitialDids, Negative, RoutineReply, Written, WriteRefused, L.Restarted, Committable;
    match call
    case Ticking(_) =>
    case Relock(_) =>
    case Reboot =>
    case Request(time, bytes, capacity, env) =>
      ControlFrame(w.(access := Ticked(w.access, Tick(time))), config, bytes, capacity, env);
    case Poll(capacity, env) =>
      if w.pendingDid.None? && w.pendingRoutine.Some? && w.pendingRoutine.value.index < 2 {
        HandledFrame(w, config, w.pendingRoutine.value.index, RESULTS, env);
      }
  }

  /** Call `i` was an accepted write that has waited since; any later accepted write took effect at once. */
  ghost predicate Waits(w: World, config: Config, calls: seq<Call>, i: nat, n: nat, p: PendingDid)
    requires |w.routines| == 2 && n <= |calls|
  {
    && i < n && AcceptsWrite(Run(w, config, calls, i), calls[i], p)
    && (forall k :: i < k <= n ==> Run(w, config, calls, k).pendingDid == Some(p))
    && (forall k, q :: i < k < n && AcceptsWrite(Run(w, config, calls, k), calls[k], q) ==>
          Takes(Run(w, config, calls, k).dids, q, Run(w, config, calls, k + 1).dids))
  }

  lemma {:induction false} PendingWasAccepted(w: World, config: Config, calls: seq<Call>, n: nat)
    requires |w.routines| == 2 && w.pendingDid.None? && n <= |calls| && Run(w, config, calls, n).pendingDid.Some?
    ensures exists i :: Waits(w, config, calls, i, n, Run(w, config, calls, n).pendingDid.value)
    decreases n
  {
    hide Step, AcceptsWrite, Takes;
    assert n > 0;
    var p := Run(w, config, calls, n).pendingDid.value;
    PendingStep(Run(w, config, calls, n - 1), config, calls[n - 1]);
    if AcceptsWrite(Run(w, config, calls, n - 1), calls[n - 1], p) {
      assert Waits(w, config, calls, n - 1, n, p);
    } else {
      PendingWasAccepted(w, config, calls, n - 1);
      var i :| Waits(w, config, calls, i, n - 1, p);
      assert Waits(w, config, calls, i, n, p);
    }
  }

  /** Over any run, a value changes only by the erase routine, by the commit of the latest deferred write
      that was accepted, with exactly its bytes, or by an accepted write that is not deferred. */
  lemma DidChangesAreAccounted(w: World, config: Config, calls: seq<Call>, n: nat)
    requires |w.routines| == 2 && w.pendingDid.None? && n < |calls| && !calls[n].Reboot?
    requires Run(w, config, calls, n + 1).dids != Run(w, config, calls, n).dids
    ensures var a, b := Run(w, config, calls, n), Run(w, config, calls, n + 1);
            || Erases(config, a, b)
            || (exists p :: AcceptsWrite(a, calls[n], p) && Takes(a.dids, p, b.dids))
            || (calls[n].Poll? && exists i, p :: Waits(w, config, calls, i, n, p) && Takes(a.dids, p, b.dids))
  {
    hide Step, AcceptsWrite, Takes, Erases, Waits;
    var a := Run(w, config, calls, n);
    DidsStep(a, config, calls[n]);
    if calls[n].Poll? && a.pendingDid.Some? {
      PendingWasAccepted(w, config, calls, n);
    }
  }

  // ---- Routines ----

  /** A routine has worked exactly when it is complete, and then shows what its work returned. */
  predicate RoutineOk(x: Routine) {
    !x.status.Failed? && (x.executed <==> x.status.Complete?) && (x.executed ==> x.result == [x.code])
  }

  /** Only a running routine is waited for. */
  predicate RoutinesOk(w: World) {
    && |w.routines| == 2 && RoutineOk(w.routines[0]) && RoutineOk(w.routines[1])
    && (w.pendingRoutine.Some? ==>
          w.pendingRoutine.value.index < 2 && w.routines[w.pendingRoutine.value.index].status.Running?)
  }

  /** How often a routine may still work before its next start. */
  function Left(x: Routine): nat { if x.status.Running? then 1 else 0 }

  function Works(w: World, r: nat): nat { multiset(w.worked)[r] }

  predicate AcceptedStart(w: World, call: Call, r: nat)
    requires |w.routines| == 2 && r < 2
  {
    call.Request? && |call.bytes| >= 4 && call.bytes[0] == ROUTINE_CONTROL
    && FindRoutine(Word(call.bytes[2], call.bytes[3])) == r && call.bytes[1] % 0x80 == START
    && RoutineRefused(Ticked(w.access, Tick(call.time)), r, w.routines[r].status, START).None?
  }

  lemma HandledWork(w: World, config: Config, index: nat, subfunction: Byte, env: Env)
    requires index < |w.routines| == 2 && RoutineOk(w.routines[index]) && START <= subfunction <= RESULTS
    requires subfunction == RESULTS ==> w.routines[index].status.Running?
    ensures var (w1, status, result) := Handled(w, config, index, subfunction, env);
            var x1 := w1.routines[index];
            && RoutineOk(x1) && x1.status == status && (status.Complete? ==> result == x1.result)
            && (w1.worked == w.worked
                || (w1.worked == w.worked + [index] && subfunction == RESULTS && status.Complete?))
            && (subfunction == STOP ==> status.Idle?) && (subfunction == START ==> status.Running?)
  {
    hide InitialDids, Wiped;
  }

  lemma WorksGrow(w: World, w1: World, index: nat, r: nat)
    requires w1.worked == w.worked || w1.worked == w.worked + [index]
    ensures Works(w1, r) == Works(w, r) + if w1.worked != w.worked && index == r then 1 else 0
  {
    assert multiset(w.worked + [index]) == multiset(w.worked) + multiset{index};
  }

  /** What one routine step may do, seen from routine `r`. */
  predicate StepOk(w: World, w1: World, r: nat, started: bool)
    requires |w.routines| == |w1.routines| == 2 && r < 2
  {
    && Works(w, r) <= Works(w1, r)
    && (!started ==> Works(w1, r) + Left(w1.routines[r]) <= Works(w, r) + Left(w.routines[r]))
    && (!started && w.routines[r].status.Complete? ==> w1.routines[r] == w.routines[r])
  }

  lemma PerformedStep(w: World, config: Config, index: nat, request: seq<Byte>, capacity: nat, env: Env, r: nat)
    requires RoutinesOk(w) && index < 2 && r < 2 && |request| >= 4
    requires RoutineRefused(w.access, index, w.routines[index].status, request[1] % 0x80).None?
    requires w.pendingRoutine.Some? ==> w.pendingRoutine.value.index != index
    ensures var w1 := Performed(w, config, index, request, capacity, env).0;
            RoutinesOk(w1) && StepOk(w, w1, r, index == r && request[1] % 0x80 == START)
  {
    hide Handled, RoutineReply, ReplyPending, SessionAllowed, RoutineOk, Truncated;
    var subfunction := request[1] % 0x80;
    var w1 := Handled(w, config, index, subfunction, env).0;
    if !(subfunction == RESULTS && !w.routines[index].status.Running?) {
      HandledFrame(w, config, index, subfunction, env);
      HandledWork(w, config, index, subfunction, env);
      WorksGrow(w, w1, index, r);
    }
  }

  lemma ControlStep(w: World, config: Config, request: seq<Byte>, capacity: nat, env: Env, r: nat)
    requires RoutinesOk(w) && r < 2
    ensures var w1 := Control(w, config, request, capacity, env).0;
            RoutinesOk(w1)
            && StepOk(w, w1, r, |request| >= 4 && FindRoutine(Word(request[2], request[3])) == r && request[1] % 0x80 == START
                                && RoutineRefused(w.access, r, w.routines[r].status, START).None?)
  {
    hide Performed, RoutineOk, RoutineRefused, Negative;
    if |request| >= 4 && FindRoutine(Word(request[2], request[3])) < |ROUTINE_IDS| {
      var index := FindRoutine(Word(request[2], request[3]));
      var w0 := if w.pendingRoutine.Some? && w.pendingRoutine.value.index == index then w.(pendingRoutine := None) else w;
      if RoutineRefused(w.access, index, w.routines[index].status, request[1] % 0x80).None? {
        PerformedStep(w0, config, index, request, capacity, env, r);
      }
    }
  }

  lemma PollStep(w: World, config: Config, capacity: nat, env: Env, r: nat)
    requires RoutinesOk(w) && r < 2
    ensures var w1 := Polled(w, config, capacity, env).0; RoutinesOk(w1) && StepOk(w, w1, r, false)
  {
    hide Handled, RoutineReply, RoutineOk, Commit;
    if w.pendingDid.Some? {
      CommitFrame(w, w.pendingDid.value, capacity, env);
    } else if w.pendingRoutine.Some? {
      var index := w.pendingRoutine.value.index;
      RoutineIsOk(w, index);
      HandledFrame(w, config, index, RESULTS, env);
      HandledWork(w, config, index, RESULTS, env);
      WorksGrow(w, Handled(w, config, index, RESULTS, env).0, index, r);
    }
  }

  lemma FreshIsOk()
    ensures RoutineOk(FRESH)
  {}

  lemma RoutineIsOk(w: World, index: nat)
    requires RoutinesOk(w) && index < 2
    ensures RoutineOk(w.routines[index])
  {}

  /** Each step keeps the routine states consistent and spends the one piece of work of a start. */
  lemma RoutineStep(w: World, config: Config, call: Call, r: nat)
    requires RoutinesOk(w) && r < 2
    ensures RoutinesOk(Step(w, config, call).0)
    ensures !call.Reboot? ==> StepOk(w, Step(w, config, call).0, r, AcceptedStart(w, call, r))
  {
    hide Ticked, KeptAlive, SessionControl, TesterPresent, SecurityAccess, Control, Write, Read, Polled, Locked,
      InitialDids, Negative, L.Restarted, RoutineRefused, RoutineOk, Word, FindRoutine;
    match call
    case Ticking(_) =>
    case Relock(_) =>
    case Reboot => FreshIsOk();
    case Request(time, bytes, capacity, env) =>
      var t := w.(access := Ticked(w.access, Tick(time)));
      ControlStep(t, config, bytes, capacity, env, r);
      WriteFrame(t, bytes, capacity);
    case Poll(capacity, env) => PollStep(w, config, capacity, env, r);
  }

  lemma {:induction false} RunsKeepRoutinesOk(w: World, config: Config, calls: seq<Call>, n: nat)
    requires RoutinesOk(w) && n <= |calls|
    ensures RoutinesOk(Run(w, config, calls, n))
    decreases n
  {
    hide Step, RoutineOk;
    if n > 0 {
      RunsKeepRoutinesOk(w, config, calls, n - 1);
      RoutineStep(Run(w, config, calls, n - 1), config, calls[n - 1], 0);
    }
  }

  /** No start of routine `r` is accepted and no restart happens from call `from` to before call `till`. */
  ghost predicate NoStart(w: World, config: Config, calls: seq<Call>, from: nat, till: nat, r: nat)
    requires |w.routines| == 2 && till <= |calls| && r < 2
  {
    forall k :: from <= k < till ==> !calls[k].Reboot? && !AcceptedStart(Run(w, config, calls, k), calls[k], r)
  }

  /** Between two accepted starts a routine works at most once, whatever result requests, stops, polls and
      requests to the other routine are mixed in. */
  lemma {:induction false} WorksOncePerStart(w: World, config: Config, calls: seq<Call>, from: nat, till: nat, r: nat)
    requires RoutinesOk(w) && from <= till <= |calls| && r < 2 && NoStart(w, config, calls, from, till, r)
    ensures var a, b := Run(w, config, calls, from), Run(w, config, calls, till);
            Works(b, r) + Left(b.routines[r]) <= Works(a, r) + Left(a.routines[r]) <= Works(a, r) + 1
    decreases till
  {
    hide Step, RoutineOk, AcceptedStart, Works, Left;
    LeftIsSmall(Run(w, config, calls, from).routines[r]);
    if from < till {
      WorksOncePerStart(w, config, calls, from, till - 1, r);
      RunsKeepRoutinesOk(w, config, calls, till - 1);
      RoutineStep(Run(w, config, calls, till - 1), config, calls[till - 1], r);
    }
  }

  lemma LeftIsSmall(x: Routine)
    ensures Left(x) <= 1
  {}

  /** A complete routine keeps its stored result until its next start. */
  lemma {:induction false} ResultStays(w: World, config: Config, calls: seq<Call>, from: nat, till: nat, r: nat)
    requires RoutinesOk(w) && from <= till <= |calls| && r < 2 && NoStart(w, config, calls, from, till, r)
    requires Run(w, config, calls, from).routines[r].status.Complete?
    ensures Run(w, config, calls, till).routines[r] == Run(w, config, calls, from).routines[r]
    decreases till
  {
    hide Step, RoutineOk, AcceptedStart, Works;
    if from < till {
      ResultStays(w, config, calls, from, till - 1, r);
      RunsKeepRoutinesOk(w, config, calls, till - 1);
      RoutineStep(Run(w, config, calls, till - 1), config, calls[till - 1], r);
    }
  }

  /** Every result request to a complete routine that is not refused repeats that result and nothing else
      happens. */
  lemma ResultRepeats(w: World, config: Config, request: seq<Byte>, capacity: nat, env: Env, r: nat)
    requires RoutinesOk(w) && r < 2 && w.routines[r].status.Complete?
    requires |request| >= 4 && Word(request[2], request[3]) == ROUTINE_IDS[r] && request[1] % 0x80 == RESULTS
    requires RoutineRefused(w.access, r, w.routines[r].status, RESULTS).None?
    ensures w.routines[r].result == [w.routines[r].code]
    ensures Control(w, config, request, capacity, env)
         == (w, Positive(capacity, Suppressed(request[1]),
                  [0x71, RESULTS, request[2], request[3], w.routines[r].code]))
  {
    hide Positive, SessionAllowed;
    assert [0x71, RESULTS, request[2], request[3]] + [w.routines[r].code]
        == [0x71, RESULTS, request[2], request[3], w.routines[r].code];
    assert ROUTINE_IDS[r] / 256 == request[2] && ROUTINE_IDS[r] % 256 == request[3];
  }
}
