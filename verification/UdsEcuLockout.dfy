/** The lockout of a whole ECU: it lasts as proved of the security service, but not across a restart. */
module UdsEcuLockout {
  import opened Bytes
  import opened UdsAccess
  import opened ParamLog
  import opened UdsEcu
  import opened UdsEcuRuns
  import opened UdsEcuHistories
  import opened UdsEcuInstances
  import opened UdsLockout
  import A = UdsAccessRuns

  /** Event `j` since the last restart was the third wrong key of a row, and since then no security request has
      come at a time when the delay is released. */
  ghost predicate LockedSince(events: seq<A.Event>, j: nat) {
    && j < |events| && A.Timed(events) && ThirdOfRow(events, j)
    && forall k :: j < k < |events| ==> !(A.IsSecurity(events[k]) && Released(events[j].time, events[k].time))
  }

  /** Within an ECU the delay stands through all calls but a restart. */
  lemma EcuDelayStands(w: World, config: Config, calls: seq<Call>, n: nat, j: nat)
    requires |w.routines| == 2 && w.access == INITIAL && n <= |calls| && LockedSince(Events(w, config, calls, n), j)
    ensures Delayed(Run(w, config, calls, n).access, Events(w, config, calls, n)[j].time)
    ensures A.Consistent(Run(w, config, calls, n).access)
  {
    hide Run, Events, ThirdOfRow, Released, Delayed, A.IsSecurity, A.Run, A.Consistent;
    var events := Events(w, config, calls, n);
    AccessIsARun(w, config, calls, n);
    DelayStands(events, j, |events|);
    A.RunsAreConsistent(events, |events|);
  }

  /** Call `n` as the security service sees it. */
  function EventOf(call: Call, alive: bool): A.Event
    requires call.Request?
  {
    A.Requested(call.time, call.bytes, call.capacity, alive)
  }

  /** So the first seed request to the ECU for which the delay may be released gets its seed exactly if it is. */
  lemma EcuSeedExactly(w: World, config: Config, calls: seq<Call>, n: nat, j: nat, alive: bool)
    requires |w.routines| == 2 && w.access == INITIAL && n < |calls| && LockedSince(Events(w, config, calls, n), j)
    requires calls[n].Request? && Events(w, config, calls, n)[j].time <= calls[n].time && AsksForSeed(EventOf(calls[n], alive))
    requires Ticked(Run(w, config, calls, n).access, Tick(calls[n].time)).session != DEFAULT
    ensures A.IssuesSeed(Run(w, config, calls, n).access, EventOf(calls[n], alive))
       <==> Released(Events(w, config, calls, n)[j].time, calls[n].time)
  {
    hide Run, Events, LockedSince, Released, Delayed, A.Consistent, A.IssuesSeed, Ticked, AsksForSeed;
    assert j < |Events(w, config, calls, n)| by { LockedIndex(Events(w, config, calls, n), j); }
    EcuDelayStands(w, config, calls, n, j);
    LockoutIsExact(Run(w, config, calls, n).access, Events(w, config, calls, n)[j].time, EventOf(calls[n], alive));
  }

  lemma LockedIndex(events: seq<A.Event>, j: nat)
    requires LockedSince(events, j)
    ensures j < |events|
  {
    hide ThirdOfRow, A.IsSecurity, Released;
  }

  // ---- A restart ends the delay ----

  /** A session or security request touches no other part of the ECU. */
  lemma AskIsStep(w: World, config: Config, bytes: seq<Byte>)
    requires |w.routines| == 2 && bytes != [] && !A.IsData(bytes[0])
    ensures Step(w, config, Ask(bytes)).0.access == A.Step(w.access, A.Requested(0, bytes, 8, false))
  {
    hide Step, Ticked, SessionControl, TesterPresent, SecurityAccess, KeptAlive;
    AccessProjects(w, config, Ask(bytes));
  }

  function RequestOf(e: A.Event): seq<Byte> { if e.Requested? then e.request else [] }

  /** The requests of three wrong keys in a row, a restart, and a seed request in a new session. */
  function RestartCalls(): seq<Call> {
    seq(7, k requires 0 <= k < 7 => Ask(RequestOf(ThreeWrong(0)[k])))
    + [Reboot, Ask([SESSION_CONTROL, EXTENDED]), Ask([SECURITY_ACCESS, 1])]
  }

  /** A session or security request at tick zero. */
  predicate IsPlain(e: A.Event) {
    e == A.Requested(0, RequestOf(e), 8, false) && RequestOf(e) != [] && !A.IsData(RequestOf(e)[0])
  }

  lemma WrongIsPlain(s: bv32)
    ensures IsPlain(WrongEvent(0, s))
  {
    hide BigEndian, ComputeKey;
  }

  lemma ThreeWrongArePlain()
    ensures forall k :: 0 <= k < 7 ==> IsPlain(ThreeWrong(0)[k])
    ensures ThreeWrong(0)[6].time == 0
  {
    hide SeedOf, Generated, WrongEvent;
    WrongIsPlain(SeedOf(Generated(1)));
    WrongIsPlain(SeedOf(Generated(2)));
    WrongIsPlain(SeedOf(Generated(3)));
  }

  lemma {:induction false} FollowsEvents(w: World, config: Config, calls: seq<Call>, events: seq<A.Event>, n: nat)
    requires |w.routines| == 2 && w.access == INITIAL && n <= |events| && n <= |calls|
    requires forall k :: 0 <= k < n ==> IsPlain(events[k]) && calls[k] == Ask(RequestOf(events[k]))
    ensures Run(w, config, calls, n).access == A.Run(events, n)
    decreases n
  {
    hide Step, A.Step, Ask, RequestOf;
    if n > 0 {
      FollowsEvents(w, config, calls, events, n - 1);
      AskIsStep(Run(w, config, calls, n - 1), config, RequestOf(events[n - 1]));
    }
  }

  /** After seven requests the delay is set, the eighth call is a restart, and the tenth, a seed request at the same
      tick, gets its seed. */
  ghost predicate RestartOpens(w: World, config: Config, calls: seq<Call>) {
    && |w.routines| == 2 && |calls| == 10 && calls[7].Reboot? && calls[9].Request? && calls[9].time == 0
    && Delayed(Run(w, config, calls, 7).access, 0) && AsksForSeed(EventOf(calls[9], false))
    && A.IssuesSeed(Run(w, config, calls, 9).access, EventOf(calls[9], false))
  }

  lemma DelaySet(config: Config, log: LogState, flash: seq<Byte>)
    ensures |RestartCalls()| == 10 && Delayed(Run(Booted(config, log, flash), config, RestartCalls(), 7).access, 0)
  {
    hide Step, Run, InitialDids, A.Run, A.Step, ThreeWrong, Delayed, Ask, RequestOf, IsPlain, RestartCalls;
    ThreeWrongArePlain();
    CallsAre();
    FollowsEvents(Booted(config, log, flash), config, RestartCalls(), ThreeWrong(0), 7);
    ThreeWrongLocks();
  }

  lemma CallsAre()
    ensures |RestartCalls()| == 10 && forall k :: 0 <= k < 7 ==> RestartCalls()[k] == Ask(RequestOf(ThreeWrong(0)[k]))
    ensures RestartCalls()[7] == Reboot && RestartCalls()[8] == Ask([SESSION_CONTROL, EXTENDED])
    ensures RestartCalls()[9] == Ask([SECURITY_ACCESS, 1])
  {
    hide ThreeWrong, Ask, RequestOf;
  }

  lemma ThreeWrongLocks()
    ensures Delayed(A.Run(ThreeWrong(0), 7), 0)
  {
    hide A.Run, ThreeWrong, Delayed, ThirdOfRow, Generated, Waiting;
    ThreeWrongDelay(ThreeWrong(0), 0);
    ThreeWrongArePlain();
    ThirdOfRowDelays(ThreeWrong(0), 6);
  }

  /** Whatever has happened before it, a restart lets the next session ask for a seed at once. */
  lemma RestartOpensAlways(w: World, config: Config, calls: seq<Call>, n: nat)
    requires |w.routines| == 2 && n + 2 < |calls| && calls[n].Reboot?
    requires calls[n + 1] == Ask([SESSION_CONTROL, EXTENDED]) && calls[n + 2] == Ask([SECURITY_ACCESS, 1])
    ensures calls[n + 2] == Request(0, [SECURITY_ACCESS, 1], 8, Env(0, SLOT_WORDS))
    ensures A.IssuesSeed(Run(w, config, calls, n + 2).access, A.Requested(0, [SECURITY_ACCESS, 1], 8, false))
  {
    hide Step, Run, Ask, A.IssuesSeed;
    RunOneMore(w, config, calls, n);
    RestartForgets(Run(w, config, calls, n), config);
    RunOneMore(w, config, calls, n + 1);
    SessionStep(Run(w, config, calls, n + 1), config, EXTENDED);
    AskedForSeed();
  }

  /** A history from boot: three wrong keys in a row set the delay, a restart forgets it, and the next seed is given,
      all at tick zero. */
  lemma RestartDefeatsLockout(config: Config, log: LogState, flash: seq<Byte>)
    ensures RestartOpens(Booted(config, log, flash), config, RestartCalls())
  {
    hide Step, Run, InitialDids, Delayed, Ask, A.IssuesSeed, RestartCalls;
    CallsAre();
    DelaySet(config, log, flash);
    RestartOpensAlways(Booted(config, log, flash), config, RestartCalls(), 7);
  }

  lemma RestartForgets(w: World, config: Config)
    requires |w.routines| == 2
    ensures Step(w, config, Reboot).0.access == INITIAL
  {
    hide InitialDids;
  }

  lemma AskedForSeed()
    ensures A.IssuesSeed(InSession(INITIAL, EXTENDED, 0), A.Requested(0, [SECURITY_ACCESS, 1], 8, false))
    ensures Ask([SECURITY_ACCESS, 1]) == Request(0, [SECURITY_ACCESS, 1], 8, Env(0, SLOT_WORDS))
  {
    hide NextState, SeedOf;
    var s := SeedOf(NextState(DEFAULT_SEED));
    assert A.Issues(InSession(INITIAL, EXTENDED, 0), A.Requested(0, [SECURITY_ACCESS, 1], 8, false), s);
  }
}
