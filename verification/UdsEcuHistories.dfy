/** Where a routine's work comes from: the start and the result request that led to it, and their permission. */
module UdsEcuHistories {
  import opened Bytes
  import opened UdsAccess
  import opened ParamLog
  import opened UdsEcu
  import opened UdsEcuRuns
  import L = ParamLogRuns

  // ---- What leads to a routine's work ----

  /** The call is a result request for routine `r` that passes session and lock checks. */
  predicate AdmittedResults(w: World, call: Call, r: nat)
    requires |w.routines| == 2 && r < 2
  {
    call.Request? && |call.bytes| >= 4 && call.bytes[0] == ROUTINE_CONTROL
    && FindRoutine(Word(call.bytes[2], call.bytes[3])) == r && call.bytes[1] % 0x80 == RESULTS
    && RoutineRefused(Ticked(w.access, Tick(call.time)), r, w.routines[r].status, RESULTS).None?
  }

  /** A pending answer belongs to a running routine that has been asked for its result. */
  predicate Asked(w: World) {
    w.pendingRoutine.Some? ==>
      w.pendingRoutine.value.index < |w.routines| && w.routines[w.pendingRoutine.value.index].polls != 0
  }

  /** What a step says about routine `r`: where its running comes from, where its being asked comes from, and
      where its work comes from. */
  predicate Caused(w: World, w1: World, r: nat, started: bool, asked: bool, polled: bool)
    requires |w.routines| == |w1.routines| == 2 && r < 2
  {
    && (w1.routines[r].status.Running? && !started ==> w.routines[r].status.Running?)
    && (w1.routines[r].status.Running? && w1.routines[r].polls != 0 && !asked ==>
          !started && w.routines[r].status.Running? && w.routines[r].polls != 0)
    && (Works(w1, r) > Works(w, r) ==>
          (asked || polled) && w.routines[r].status.Running? && w.routines[r].polls != 0)
  }

  lemma HandledCause(w: World, config: Config, index: nat, subfunction: Byte, env: Env, r: nat)
    requires RoutinesOk(w) && index < 2 && r < 2 && START <= subfunction <= RESULTS
    requires subfunction == RESULTS ==> w.routines[index].status.Running?
    ensures var (w1, status, _) := Handled(w, config, index, subfunction, env);
            && |w1.routines| == 2 && w1.routines[index].status == status
            && Caused(w, w1, r, index == r && subfunction == START, index == r && subfunction == RESULTS, false)
            && (subfunction == RESULTS && w1.routines[index].status.Running? ==> w1.routines[index].polls != 0)
  {
    hide InitialDids, Wiped, Works;
    var w1 := Handled(w, config, index, subfunction, env).0;
    HandledFrame(w, config, index, subfunction, env);
    HandledWork(w, config, index, subfunction, env);
    WorksGrow(w, w1, index, r);
  }

  lemma PerformedCause(w: World, config: Config, index: nat, request: seq<Byte>, capacity: nat, env: Env, r: nat)
    requires RoutinesOk(w) && Asked(w) && index < 2 && r < 2 && |request| >= 4
    requires RoutineRefused(w.access, index, w.routines[index].status, request[1] % 0x80).None?
    requires w.pendingRoutine.Some? ==> w.pendingRoutine.value.index != index
    ensures var w1 := Performed(w, config, index, request, capacity, env).0;
            && Asked(w1)
            && Caused(w, w1, r, index == r && request[1] % 0x80 == START, index == r && request[1] % 0x80 == RESULTS, false)
  {
    hide Handled, RoutineReply, ReplyPending, SessionAllowed, RoutineOk, Truncated, Works;
    var subfunction := request[1] % 0x80;
    if !(subfunction == RESULTS && !w.routines[index].status.Running?) {
      HandledFrame(w, config, index, subfunction, env);
      HandledCause(w, config, index, subfunction, env, r);
      SameWork(Performed(w, config, index, request, capacity, env).0, Handled(w, config, index, subfunction, env).0, r);
    }
  }

  lemma ControlCause(w: World, config: Config, request: seq<Byte>, capacity: nat, env: Env, r: nat)
    requires RoutinesOk(w) && Asked(w) && r < 2
    ensures var w1 := Control(w, config, request, capacity, env).0;
            var named := |request| >= 4 && FindRoutine(Word(request[2], request[3])) == r
                         && RoutineRefused(w.access, r, w.routines[r].status, request[1] % 0x80).None?;
            && Asked(w1)
            && Caused(w, w1, r, named && request[1] % 0x80 == START, named && request[1] % 0x80 == RESULTS, false)
  {
    hide Performed, RoutineOk, RoutineRefused, Negative, Works;
    if |request| >= 4 && FindRoutine(Word(request[2], request[3])) < |ROUTINE_IDS| {
      var index := FindRoutine(Word(request[2], request[3]));
      var w0 := if w.pendingRoutine.Some? && w.pendingRoutine.value.index == index then w.(pendingRoutine := None) else w;
      assert Works(w0, r) == Works(w, r) by { SameWork(w0, w, r); }
      if RoutineRefused(w.access, index, w.routines[index].status, request[1] % 0x80).None? {
        PerformedCause(w0, config, index, request, capacity, env, r);
      }
    }
  }

  lemma SameWork(v: World, w: World, r: nat)
    requires v.worked == w.worked
    ensures Works(v, r) == Works(w, r)
  {}

  lemma PollCause(w: World, config: Config, capacity: nat, env: Env, r: nat)
    requires RoutinesOk(w) && Asked(w) && r < 2
    ensures var w1 := Polled(w, config, capacity, env).0; Asked(w1) && Caused(w, w1, r, false, false, true)
  {
    hide Handled, RoutineReply, RoutineOk, Commit, Works;
    if w.pendingDid.Some? {
      CommitFrame(w, w.pendingDid.value, capacity, env);
      SameWork(Commit(w, w.pendingDid.value, capacity, env).0, w, r);
    } else if w.pendingRoutine.Some? {
      var index := w.pendingRoutine.value.index;
      assert w.routines[index].status.Running? && w.routines[index].polls != 0;
      HandledFrame(w, config, index, RESULTS, env);
      HandledCause(w, config, index, RESULTS, env, r);
      var w1 := Handled(w, config, index, RESULTS, env).0;
      SameWork(w1.(pendingRoutine := None), w1, r);
    }
  }

  lemma StepCause(w: World, config: Config, call: Call, r: nat)
    requires RoutinesOk(w) && Asked(w) && r < 2
    ensures Asked(Step(w, config, call).0)
    ensures call.Reboot? ==> Step(w, config, call).0.routines[r] == FRESH
    ensures !call.Reboot? ==>
              Caused(w, Step(w, config, call).0, r, AcceptedStart(w, call, r), AdmittedResults(w, call, r), call.Poll?)
  {
    hide Ticked, KeptAlive, SessionControl, TesterPresent, SecurityAccess, Control, Write, Read, Polled, Locked,
      InitialDids, Negative, L.Restarted, RoutineRefused, Works;
    var w1 := Step(w, config, call).0;
    match call
    case Ticking(_) => SameWork(w1, w, r);
    case Relock(_) => SameWork(w1, w, r);
    case Reboot =>
    case Request(time, bytes, capacity, env) =>
      var t := w.(access := Ticked(w.access, Tick(time)));
      SameWork(t, w, r);
      ControlCause(t, config, bytes, capacity, env, r);
      WriteFrame(t, bytes, capacity);
      SameWork(Write(t, bytes, capacity).0, t, r);
      if bytes == [] || bytes[0] != ROUTINE_CONTROL { SameWork(w1, t, r); }
      if bytes != [] && bytes[0] == ROUTINE_CONTROL { SameWork(w1, Control(t, config, bytes, capacity, env).0, r); }
    case Poll(capacity, env) => PollCause(w, config, capacity, env, r);
  }

  /** Call `i` was an accepted start of routine `r` and no restart or other start has come before call `n`. */
  ghost predicate StartedAt(w: World, config: Config, calls: seq<Call>, i: nat, n: nat, r: nat)
    requires |w.routines| == 2 && n <= |calls| && r < 2
  {
    i < n && AcceptedStart(Run(w, config, calls, i), calls[i], r) && NoStart(w, config, calls, i + 1, n, r)
    && !calls[i].Reboot?
  }

  /** Since that start, call `j` was an admitted result request. */
  ghost predicate AskedAt(w: World, config: Config, calls: seq<Call>, i: nat, j: nat, n: nat, r: nat)
    requires |w.routines| == 2 && n <= |calls| && r < 2
  {
    i < j < n && AdmittedResults(Run(w, config, calls, j), calls[j], r)
  }

  /** A running routine was started, and one that has been asked was asked since. */
  lemma {:induction false} RunningWasStarted(w: World, config: Config, calls: seq<Call>, n: nat, r: nat) returns (i: nat, j: nat)
    requires RoutinesOk(w) && Asked(w) && w.routines[0] == w.routines[1] == FRESH && r < 2 && n <= |calls|
    ensures Asked(Run(w, config, calls, n))
    ensures Run(w, config, calls, n).routines[r].status.Running? ==> StartedAt(w, config, calls, i, n, r)
    ensures Run(w, config, calls, n).routines[r].status.Running? && Run(w, config, calls, n).routines[r].polls != 0 ==>
              AskedAt(w, config, calls, i, j, n, r)
    decreases n
  {
    hide Step, RoutineOk, AcceptedStart, AdmittedResults, Works, Asked;
    i, j := 0, 0;
    if n > 0 {
      i, j := RunningWasStarted(w, config, calls, n - 1, r);
      var a, call := Run(w, config, calls, n - 1), calls[n - 1];
      RunsKeepRoutinesOk(w, config, calls, n - 1);
      StepCause(a, config, call, r);
      if call.Reboot? {
      } else if AcceptedStart(a, call, r) {
        i := n - 1;
        StartIsNoResult(a, call, r);
      } else if AdmittedResults(a, call, r) {
        j := n - 1;
      }
    }
  }

  lemma StartIsNoResult(w: World, call: Call, r: nat)
    requires |w.routines| == 2 && r < 2 && AcceptedStart(w, call, r)
    ensures !AdmittedResults(w, call, r)
  {
    hide RoutineRefused;
  }

  /** The session and lock conditions of a routine were met when the call was admitted. */
  predicate Permitted(w: World, call: Call, r: nat) {
    call.Request? && Ticked(w.access, Tick(call.time)).session in {PROGRAMMING, EXTENDED}
    && (RoutineNeedsUnlock(r) ==> Ticked(w.access, Tick(call.time)).unlocked)
  }

  lemma AdmittedIsPermitted(w: World, call: Call, r: nat)
    requires |w.routines| == 2 && r < 2 && (AcceptedStart(w, call, r) || AdmittedResults(w, call, r))
    ensures Permitted(w, call, r)
  {
    hide Ticked, SessionAllowed, Tick;
    WriteSessions(Ticked(w.access, Tick(call.time)).session);
  }

  /** Before call `n` the routine was started and later asked for its result, each time with permission. */
  ghost predicate Commissioned(w: World, config: Config, calls: seq<Call>, i: nat, j: nat, n: nat, r: nat)
    requires |w.routines| == 2 && n <= |calls| && r < 2
  {
    && StartedAt(w, config, calls, i, n, r) && Permitted(Run(w, config, calls, i), calls[i], r)
    && AskedAt(w, config, calls, i, j, n, r) && Permitted(Run(w, config, calls, j), calls[j], r)
  }

  ghost predicate WorksAt(w: World, config: Config, calls: seq<Call>, n: nat, r: nat)
    requires |w.routines| == 2 && n < |calls|
  {
    Works(Step(Run(w, config, calls, n), config, calls[n]).0, r) > Works(Run(w, config, calls, n), r)
  }

  /** From boot on, whenever a routine works it was started by an accepted request and asked for its result by a
      later admitted one, each while session and lock allowed it, with no restart or other start since. At the
      time of the work itself permission is sure only in a request; a poll may work after it was lost
      (`UdsEcuInstances.LateErasure`). */
  lemma WorkWasPermitted(config: Config, log: LogState, flash: seq<Byte>, calls: seq<Call>, n: nat, r: nat)
    requires r < 2 && n < |calls| && !calls[n].Reboot? && WorksAt(Booted(config, log, flash), config, calls, n, r)
    ensures exists i, j :: Commissioned(Booted(config, log, flash), config, calls, i, j, n, r)
    ensures calls[n].Poll? || Permitted(Run(Booted(config, log, flash), config, calls, n), calls[n], r)
  {
    hide Step, RoutineOk, AcceptedStart, AdmittedResults, Works, Asked, Permitted, NoStart, InitialDids;
    BootedIsFresh(config, log, flash);
    var w := Booted(config, log, flash);
    var i, j := RunningWasStarted(w, config, calls, n, r);
    var a := Run(w, config, calls, n);
    RunsKeepRoutinesOk(w, config, calls, n);
    StepCause(a, config, calls[n], r);
    AdmittedIsPermitted(Run(w, config, calls, i), calls[i], r);
    AdmittedIsPermitted(Run(w, config, calls, j), calls[j], r);
    if !calls[n].Poll? { AdmittedIsPermitted(a, calls[n], r); }
    assert Commissioned(w, config, calls, i, j, n, r);
  }

  lemma RunOneMore(w: World, config: Config, calls: seq<Call>, n: nat)
    requires |w.routines| == 2 && n < |calls|
    ensures Run(w, config, calls, n + 1) == Step(Run(w, config, calls, n), config, calls[n]).0
  {}

  lemma BootedIsFresh(config: Config, log: LogState, flash: seq<Byte>)
    ensures var w := Booted(config, log, flash);
            RoutinesOk(w) && Asked(w) && w.routines[0] == w.routines[1] == FRESH && w.access == INITIAL
  {
    hide InitialDids;
  }

  /** Every erasure of the table was commissioned in this way. */
  lemma ErasureWasPermitted(config: Config, log: LogState, flash: seq<Byte>, calls: seq<Call>, n: nat)
    requires n < |calls| && !calls[n].Reboot?
    requires var a := Run(Booted(config, log, flash), config, calls, n); Erases(config, a, Step(a, config, calls[n]).0)
    ensures exists i, j :: Commissioned(Booted(config, log, flash), config, calls, i, j, n, ERASE)
  {
    hide Step, RoutineOk, Asked, Commissioned, InitialDids, Permitted;
    var a := Run(Booted(config, log, flash), config, calls, n);
    WorksGrow(a, Step(a, config, calls[n]).0, ERASE, ERASE);
    WorkWasPermitted(config, log, flash, calls, n, ERASE);
  }
}
