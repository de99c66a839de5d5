/** When the answer that a pending note promises is given: deferred writes and routine results. */
module UdsPromises {
  import opened Bytes
  import opened UdsAccess
  import opened ParamLog
  import opened UdsEcu
  import opened UdsEcuRuns
  import opened UdsEcuHistories
  import L = ParamLogRuns

  // ---- Deferred writes ----

  /** The write that this request defers: accepted, and to an identifier that is saved. */
  function DeferredWrite(w: World, call: Call): Option<PendingDid> {
    if call.Request? && |call.bytes| >= 3 && call.bytes[0] == WRITE_DID
       && WriteRefused(w.dids, Ticked(w.access, Tick(call.time)), call.bytes).None?
    then
      var at := FindDid(w.dids, Word(call.bytes[1], call.bytes[2]), 0);
      if w.dids[at].saved then Some(PendingDid(at, call.bytes[3..])) else None
    else None
  }

  /** What a call makes of the pending write. */
  lemma PendingDidStep(w: World, config: Config, call: Call)
    requires |w.routines| == 2
    ensures Step(w, config, call).0.pendingDid
         == if call.Reboot? || call.Poll? then None
            else if DeferredWrite(w, call).Some? then DeferredWrite(w, call)
            else w.pendingDid
  {
    hide Ticked, KeptAlive, SessionControl, TesterPresent, SecurityAccess, Control, Read, Handled, Locked,
      InitialDids, Negative, RoutineReply, Written, WriteRefused, L.Restarted, Committable, FindDid, Word;
    match call
    case Ticking(_) =>
    case Relock(_) =>
    case Reboot =>
    case Request(time, bytes, capacity, env) =>
      ControlFrame(w.(access := Ticked(w.access, Tick(time))), config, bytes, capacity, env);
    case Poll(capacity, env) =>
      if w.pendingDid.None? && w.pendingRoutine.Some? && w.pendingRoutine.value.index < 2 {
        HandledFrame(w, config, w.pendingRoutine.value.index, RESULTS, env);
      }
  }

  /** The call whose write is pending. */
  function Writer(w: World, config: Config, calls: seq<Call>, n: nat): (r: Option<nat>)
    requires |w.routines| == 2 && n <= |calls|
    ensures r.Some? ==> r.value < n
    decreases n
  {
    if n == 0 || calls[n - 1].Reboot? || calls[n - 1].Poll? then None
    else if DeferredWrite(Run(w, config, calls, n - 1), calls[n - 1]).Some? then Some(n - 1)
    else Writer(w, config, calls, n - 1)
  }

  /** The pending write is always that of its writer, with exactly its bytes. */
  lemma {:induction false} PendingIsTheWriters(w: World, config: Config, calls: seq<Call>, n: nat)
    requires |w.routines| == 2 && w.pendingDid.None? && n <= |calls|
    ensures Run(w, config, calls, n).pendingDid
         == match Writer(w, config, calls, n)
            case None => None
            case Some(i) => DeferredWrite(Run(w, config, calls, i), calls[i])
    ensures Writer(w, config, calls, n).Some? ==> Run(w, config, calls, n).pendingDid.Some?
    decreases n
  {
    hide Step, DeferredWrite;
    if n > 0 {
      PendingIsTheWriters(w, config, calls, n - 1);
      PendingDidStep(Run(w, config, calls, n - 1), config, calls[n - 1]);
    }
  }

  lemma DeferringIsRequest(w: World, call: Call)
    ensures DeferredWrite(w, call).Some? ==> call.Request?
  {
    hide Ticked, WriteRefused, FindDid, Word;
  }

  /** From call `i` to before call `n` nothing drops or replaces its deferred write. */
  ghost predicate WriteUndisturbed(w: World, config: Config, calls: seq<Call>, i: nat, n: nat)
    requires |w.routines| == 2 && n <= |calls|
  {
    forall k :: i < k < n ==> !calls[k].Reboot? && DeferredWrite(Run(w, config, calls, k), calls[k]).None?
  }

  lemma {:induction false} WriterStays(w: World, config: Config, calls: seq<Call>, i: nat, n: nat)
    requires |w.routines| == 2 && i < n <= |calls| && DeferredWrite(Run(w, config, calls, i), calls[i]).Some?
    requires forall k :: i < k < n ==> !calls[k].Poll?
    ensures Writer(w, config, calls, n) == Some(i) <==> WriteUndisturbed(w, config, calls, i, n)
    decreases n
  {
    hide DeferredWrite, Run;
    if n == i + 1 {
      DeferringIsRequest(Run(w, config, calls, i), calls[i]);
    } else {
      WriterStays(w, config, calls, i, n - 1);
      assert WriteUndisturbed(w, config, calls, i, n) <==>
        WriteUndisturbed(w, config, calls, i, n - 1)
        && !calls[n - 1].Reboot? && DeferredWrite(Run(w, config, calls, n - 1), calls[n - 1]).None?;
    }
  }

  /** The final answers to a deferred write: it has been saved and is shown, or it has failed. */
  predicate AnswersWrite(w: World, w1: World, p: PendingDid, capacity: nat, reply: Reply) {
    || (&& Takes(w.dids, p, w1.dids) && reply == WriteReply(w.dids[p.index].did, capacity))
    || (w1.dids == w.dids && reply == Negative(capacity, WRITE_DID, PROGRAMMING_FAILURE))
  }

  lemma CommitAnswers(w: World, p: PendingDid, capacity: nat, env: Env)
    ensures var (w1, reply) := Commit(w, p, capacity, env); AnswersWrite(w, w1, p, capacity, reply)
  {
    hide Written, Negative, WriteReply;
  }

  /** A final answer to a write is sent exactly if there is room for its three bytes. */
  lemma WriteAnswerSent(w: World, w1: World, p: PendingDid, capacity: nat, reply: Reply)
    requires AnswersWrite(w, w1, p, capacity, reply)
    ensures reply.Response? <==> capacity >= 3
  {}

  /** After a write has been deferred, the next poll sends its final answer exactly if in between there was no
      restart and no other deferred write, and the poll has room for three bytes. Without room the write is
      carried out all the same, and its answer is lost. */
  lemma WritePromiseKeptExactly(w: World, config: Config, calls: seq<Call>, i: nat, n: nat)
    requires |w.routines| == 2 && w.pendingDid.None? && i < n < |calls|
    requires DeferredWrite(Run(w, config, calls, i), calls[i]).Some?
    requires calls[n].Poll? && forall k :: i < k < n ==> !calls[k].Poll?
    ensures Writer(w, config, calls, n) == Some(i) <==> WriteUndisturbed(w, config, calls, i, n)
    ensures Writer(w, config, calls, n) == Some(i) && Step(Run(w, config, calls, n), config, calls[n]).1.Response?
       <==> WriteUndisturbed(w, config, calls, i, n) && calls[n].capacity >= 3
    ensures Writer(w, config, calls, n) == Some(i) ==>
              var a, p := Run(w, config, calls, n), DeferredWrite(Run(w, config, calls, i), calls[i]).value;
              var (b, reply) := Step(a, config, calls[n]);
              (b, reply) == Commit(a, p, calls[n].capacity, calls[n].env)
              && AnswersWrite(a, b, p, calls[n].capacity, reply)
    ensures Writer(w, config, calls, n + 1) == None
  {
    hide DeferredWrite, Run, Commit, Step, AnswersWrite;
    WriterStays(w, config, calls, i, n);
    PendingIsTheWriters(w, config, calls, n);
    if Writer(w, config, calls, n) == Some(i) {
      PollCommits(Run(w, config, calls, n), config, calls[n]);
      var a, p := Run(w, config, calls, n), DeferredWrite(Run(w, config, calls, i), calls[i]).value;
      CommitAnswers(a, p, calls[n].capacity, calls[n].env);
      var (b, reply) := Commit(a, p, calls[n].capacity, calls[n].env);
      WriteAnswerSent(a, b, p, calls[n].capacity, reply);
    }
  }

  lemma PollCommits(w: World, config: Config, call: Call)
    requires |w.routines| == 2 && call.Poll? && w.pendingDid.Some?
    ensures Step(w, config, call) == Commit(w, w.pendingDid.value, call.capacity, call.env)
  {
    hide Commit;
  }

  // ---- Deferred results ----

  /** The request names routine `r`, whatever it asks for and whether or not it is refused. */
  predicate Names(call: Call, r: nat) {
    && call.Request? && |call.bytes| >= 4 && call.bytes[0] == ROUTINE_CONTROL
    && FindRoutine(Word(call.bytes[2], call.bytes[3])) == r
  }

  /** The request is an admitted result request to a routine that has been started and never asked before. */
  predicate DefersResult(w: World, call: Call, r: nat) {
    |w.routines| == 2 && r < 2 && AdmittedResults(w, call, r) && w.routines[r].status.Running? && w.routines[r].polls == 0
  }

  /** The result whose answer this request defers. */
  function DeferredResult(w: World, call: Call): Option<PendingRoutine> {
    if DefersResult(w, call, 0) then Some(AskedFor(call, 0))
    else if DefersResult(w, call, 1) then Some(AskedFor(call, 1))
    else None
  }

  function AskedFor(call: Call, r: nat): PendingRoutine
    requires call.Request? && |call.bytes| >= 4
  {
    PendingRoutine(r, RESULTS, Suppressed(call.bytes[1]), Truncated(call.bytes[4..]))
  }

  /** What one handler call for a result leads to. */
  lemma ResultsHandled(w: World, config: Config, index: nat, env: Env)
    requires index < |w.routines| == 2 && w.routines[index].status.Running? && RoutineOk(w.routines[index])
    ensures var (w1, status, result) := Handled(w, config, index, RESULTS, env);
            && (status.Running? <==> w.routines[index].polls == 0)
            && (!status.Running? ==> status.Complete? && result == [w1.routines[index].code] == w1.routines[index].result)
            && w1.pendingRoutine == w.pendingRoutine && |w1.routines| == 2
  {
    hide InitialDids, Wiped;
  }

  lemma OtherHandled(w: World, config: Config, index: nat, subfunction: Byte, env: Env)
    requires index < |w.routines|
    ensures Handled(w, config, index, subfunction, env).0.pendingRoutine == w.pendingRoutine
  {
    hide InitialDids, Wiped;
  }

  lemma PerformedPending(w: World, config: Config, index: nat, request: seq<Byte>, capacity: nat, env: Env)
    requires RoutinesOk(w) && index < 2 && |request| >= 4
    requires RoutineRefused(w.access, index, w.routines[index].status, request[1] % 0x80).None?
    ensures Performed(w, config, index, request, capacity, env).0.pendingRoutine
         == if request[1] % 0x80 == RESULTS && w.routines[index].status.Running? && w.routines[index].polls == 0
            then Some(PendingRoutine(index, RESULTS, Suppressed(request[1]), Truncated(request[4..])))
            else w.pendingRoutine
  {
    hide Handled, RoutineReply, ReplyPending, RoutineRefused, Truncated;
    OtherHandled(w, config, index, request[1] % 0x80, env);
    RoutineIsOk(w, index);
    if request[1] % 0x80 == RESULTS && w.routines[index].status.Running? {
      ResultsHandled(w, config, index, env);
    }
  }

  lemma ControlPending(w: World, config: Config, request: seq<Byte>, capacity: nat, env: Env)
    requires RoutinesOk(w)
    ensures var w1 := Control(w, config, request, capacity, env).0;
            if |request| < 4 || FindRoutine(Word(request[2], request[3])) >= 2 then w1.pendingRoutine == w.pendingRoutine
            else
              var index := FindRoutine(Word(request[2], request[3]));
              w1.pendingRoutine
              == if && RoutineRefused(w.access, index, w.routines[index].status, request[1] % 0x80).None?
                    && request[1] % 0x80 == RESULTS && w.routines[index].status.Running? && w.routines[index].polls == 0
                 then Some(PendingRoutine(index, RESULTS, Suppressed(request[1]), Truncated(request[4..])))
                 else if w.pendingRoutine.Some? && w.pendingRoutine.value.index == index then None
                 else w.pendingRoutine
  {
    hide Performed, RoutineOk, RoutineRefused, Negative, Truncated, FindRoutine, Word;
    if |request| >= 4 && FindRoutine(Word(request[2], request[3])) < |ROUTINE_IDS| {
      var index := FindRoutine(Word(request[2], request[3]));
      var w1 := if w.pendingRoutine.Some? && w.pendingRoutine.value.index == index then w.(pendingRoutine := None) else w;
      if RoutineRefused(w.access, index, w.routines[index].status, request[1] % 0x80).None? {
        PerformedPending(w1, config, index, request, capacity, env);
      }
    }
  }

  lemma NamedAgain(w: World, call: Call, index: nat)
    requires RoutinesOk(w) && Names(call, index) && index < 2
    ensures var a, sub := Ticked(w.access, Tick(call.time)), call.bytes[1] % 0x80;
            DeferredResult(w, call)
            == if && RoutineRefused(a, index, w.routines[index].status, sub).None?
                  && sub == RESULTS && w.routines[index].status.Running? && w.routines[index].polls == 0
               then Some(AskedFor(call, index)) else None
  {
    hide RoutineRefused, Ticked, Tick, FindRoutine, Word, RoutineOk, Truncated;
  }

  lemma NotNamed(w: World, call: Call)
    requires !Names(call, 0) && !Names(call, 1)
    ensures DeferredResult(w, call) == None
  {
    hide RoutineRefused, Ticked, Tick, FindRoutine, Word;
  }

  /** What a request makes of the pending result. */
  lemma RequestPending(w: World, config: Config, call: Call)
    requires RoutinesOk(w) && call.Request?
    ensures Step(w, config, call).0.pendingRoutine
         == if DeferredResult(w, call).Some? then DeferredResult(w, call)
            else if w.pendingRoutine.Some? && Names(call, w.pendingRoutine.value.index) then None
            else w.pendingRoutine
  {
    hide Ticked, KeptAlive, SessionControl, TesterPresent, SecurityAccess, Control, Write, Read, RoutineRefused, RoutineOk,
      Negative, Word, FindRoutine, DeferredResult, Truncated;
    var t := w.(access := Ticked(w.access, Tick(call.time)));
    WriteFrame(t, call.bytes, call.capacity);
    if |call.bytes| >= 4 && call.bytes[0] == ROUTINE_CONTROL {
      ControlPending(t, config, call.bytes, call.capacity, call.env);
      var index := FindRoutine(Word(call.bytes[2], call.bytes[3]));
      if index < 2 { NamedAgain(w, call, index); } else { NotNamed(w, call); }
    } else {
      NotNamed(w, call);
      if call.bytes != [] && call.bytes[0] == ROUTINE_CONTROL {
        ControlPending(t, config, call.bytes, call.capacity, call.env);
      }
    }
  }

  /** What a poll makes of a deferred result: the routine's work is done, and its code is the answer, unless the
      request asked for silence or there is no room. */
  predicate AnswersResult(w1: World, p: PendingRoutine, capacity: nat, reply: Reply) {
    && |w1.routines| == 2 && p.index < 2 && w1.routines[p.index].status.Complete?
    && w1.routines[p.index].result == [w1.routines[p.index].code]
    && reply == RoutineReply(capacity, p.suppress, p.subfunction, ROUTINE_IDS[p.index], w1.routines[p.index].result)
  }

  /** The five bytes of the final answer for a routine. */
  function ResultBytes(w1: World, r: nat): seq<Byte>
    requires r < |w1.routines| && r < |ROUTINE_IDS|
  {
    [0x71, RESULTS, ROUTINE_IDS[r] / 256, ROUTINE_IDS[r] % 256, w1.routines[r].code]
  }

  lemma ResultSent(w1: World, p: PendingRoutine, capacity: nat, reply: Reply)
    requires AnswersResult(w1, p, capacity, reply) && p.subfunction == RESULTS
    ensures reply.Response? <==> !p.suppress && capacity >= 5
    ensures reply.Response? ==> reply.bytes == ResultBytes(w1, p.index)
  {}

  lemma AskedAsRequested(w: World, call: Call)
    ensures DeferredResult(w, call).Some? ==>
              var p := DeferredResult(w, call).value;
              |call.bytes| >= 4 && p.subfunction == RESULTS && p.suppress == Suppressed(call.bytes[1]) && p.index < 2
  {
    hide Ticked, RoutineRefused, FindRoutine, Word, Truncated;
  }

  /** A poll without pending write answers the pending result, if there is one. */
  lemma PollPendingResult(w: World, config: Config, call: Call)
    requires RoutinesOk(w) && Asked(w) && call.Poll? && w.pendingDid.None?
    ensures var (w1, reply) := Step(w, config, call);
            && w1.pendingRoutine.None?
            && (w.pendingRoutine.None? ==> w1 == w && reply == NoResponse)
            && (w.pendingRoutine.Some? ==> AnswersResult(w1, w.pendingRoutine.value, call.capacity, reply))
  {
    hide Handled, RoutineReply, RoutineOk;
    if w.pendingRoutine.Some? {
      var index := w.pendingRoutine.value.index;
      RoutineIsOk(w, index);
      ResultsHandled(w, config, index, call.env);
      HandledWork(w, config, index, RESULTS, call.env);
    }
  }

  lemma PendingRoutineStep(w: World, config: Config, call: Call)
    requires RoutinesOk(w) && Asked(w)
    ensures Step(w, config, call).0.pendingRoutine
         == if call.Reboot? || (call.Poll? && w.pendingDid.None?) then None
            else if DeferredResult(w, call).Some? then DeferredResult(w, call)
            else if w.pendingRoutine.Some? && Names(call, w.pendingRoutine.value.index) then None
            else w.pendingRoutine
  {
    hide RoutinesOk, Asked, Ticked, Locked, Commit, L.Restarted, InitialDids, Handled, RoutineReply, Dispatch, FindRoutine, Word,
      RoutineRefused;
    match call
    case Request(_, _, _, _) => RequestPending(w, config, call);
    case Poll(capacity, env) =>
      if w.pendingDid.None? {
        PollPendingResult(w, config, call);
      } else {
        CommitFrame(w, w.pendingDid.value, capacity, env);
      }
    case _ =>
  }

  /** The call whose deferred result is pending. */
  function Asker(w: World, config: Config, calls: seq<Call>, n: nat): (r: Option<nat>)
    requires |w.routines| == 2 && n <= |calls|
    ensures r.Some? ==> r.value < n && DeferredResult(Run(w, config, calls, r.value), calls[r.value]).Some?
    decreases n
  {
    if n == 0 then None
    else
      var a, call := Run(w, config, calls, n - 1), calls[n - 1];
      if call.Reboot? || (call.Poll? && a.pendingDid.None?) then None
      else if DeferredResult(a, call).Some? then Some(n - 1)
      else
        match Asker(w, config, calls, n - 1)
        case None => None
        case Some(i) => if Names(call, DeferredResult(Run(w, config, calls, i), calls[i]).value.index) then None else Some(i)
  }

  /** The pending result is always the one its asker asked for. */
  lemma {:induction false} PendingIsTheAskers(w: World, config: Config, calls: seq<Call>, n: nat)
    requires RoutinesOk(w) && Asked(w) && w.routines[0] == w.routines[1] == FRESH && w.pendingRoutine.None? && n <= |calls|
    ensures Run(w, config, calls, n).pendingRoutine
         == match Asker(w, config, calls, n)
            case None => None
            case Some(i) => DeferredResult(Run(w, config, calls, i), calls[i])
    decreases n
  {
    hide Step, DeferredResult, RoutineOk, Names, Asked;
    if n > 0 {
      PendingIsTheAskers(w, config, calls, n - 1);
      RunsKeepRoutinesOk(w, config, calls, n - 1);
      var i, j := RunningWasStarted(w, config, calls, n - 1, 0);
      PendingRoutineStep(Run(w, config, calls, n - 1), config, calls[n - 1]);
    }
  }

  /** From call `i` to before call `n` nothing drops or replaces the answer due for routine `r`. */
  ghost predicate ResultUndisturbed(w: World, config: Config, calls: seq<Call>, i: nat, n: nat, r: nat)
    requires |w.routines| == 2 && n <= |calls|
  {
    forall k :: i < k < n ==>
      !calls[k].Reboot? && !Names(calls[k], r) && DeferredResult(Run(w, config, calls, k), calls[k]).None?
  }

  lemma {:induction false} AskerStays(w: World, config: Config, calls: seq<Call>, i: nat, n: nat, r: nat)
    requires |w.routines| == 2 && i < n <= |calls| && DeferredResult(Run(w, config, calls, i), calls[i]).Some?
    requires DeferredResult(Run(w, config, calls, i), calls[i]).value.index == r
    requires forall k :: i < k < n && calls[k].Poll? ==> Run(w, config, calls, k).pendingDid.Some?
    ensures Asker(w, config, calls, n) == Some(i) <==> ResultUndisturbed(w, config, calls, i, n, r)
    decreases n
  {
    hide DeferredResult, Run, Names;
    if n == i + 1 {
      AskingIsRequest(Run(w, config, calls, i), calls[i]);
    } else {
      AskerStays(w, config, calls, i, n - 1, r);
      assert ResultUndisturbed(w, config, calls, i, n, r) <==>
        ResultUndisturbed(w, config, calls, i, n - 1, r) && !calls[n - 1].Reboot? && !Names(calls[n - 1], r)
        && DeferredResult(Run(w, config, calls, n - 1), calls[n - 1]).None?;
    }
  }

  lemma AskingIsRequest(w: World, call: Call)
    ensures DeferredResult(w, call).Some? ==> call.Request?
  {
    hide Ticked, RoutineRefused, FindRoutine, Word;
  }

  /** A lost promise is lost for good. */
  lemma {:induction false} LostForGood(w: World, config: Config, calls: seq<Call>, i: nat, n: nat, m: nat)
    requires |w.routines| == 2 && i < n <= m <= |calls|
    ensures Writer(w, config, calls, n) != Some(i) ==> Writer(w, config, calls, m) != Some(i)
    ensures Asker(w, config, calls, n) != Some(i) ==> Asker(w, config, calls, m) != Some(i)
    decreases m - n
  {
    hide DeferredWrite, DeferredResult, Run, Names;
    if n < m { LostForGood(w, config, calls, i, n, m - 1); }
  }

  /** After the result of a routine has been deferred, the next poll that finds no pending write sends its final
      answer exactly if in between there was no restart, no request that names the routine - refused or not - and
      no deferred result of another one, and the request had not asked to suppress its positive answer, and the
      poll has room for five bytes. Else that answer is never given: the poll is silent, or answers another call. */
  lemma ResultPromiseKeptExactly(config: Config, log: LogState, flash: seq<Byte>, calls: seq<Call>, i: nat, n: nat)
    requires i < n < |calls|
    requires var w := Booted(config, log, flash);
             && DeferredResult(Run(w, config, calls, i), calls[i]).Some?
             && calls[n].Poll? && Run(w, config, calls, n).pendingDid.None?
             && forall k :: i < k < n && calls[k].Poll? ==> Run(w, config, calls, k).pendingDid.Some?
    ensures |calls[i].bytes| >= 4
    ensures var w := Booted(config, log, flash);
            var r := DeferredResult(Run(w, config, calls, i), calls[i]).value.index;
            var (b, reply) := Step(Run(w, config, calls, n), config, calls[n]);
            && (Asker(w, config, calls, n) == Some(i) <==> ResultUndisturbed(w, config, calls, i, n, r))
            && (Asker(w, config, calls, n) == Some(i) && reply.Response?
                <==> ResultUndisturbed(w, config, calls, i, n, r)
                     && !Suppressed(calls[i].bytes[1]) && calls[n].capacity >= 5)
            && (Asker(w, config, calls, n) == Some(i) && reply.Response? ==> reply.bytes == ResultBytes(b, r))
            && (Asker(w, config, calls, n) == None ==> reply == NoResponse)
            && (Asker(w, config, calls, n).Some? ==>
                  var k := Asker(w, config, calls, n).value;
                  AnswersResult(b, DeferredResult(Run(w, config, calls, k), calls[k]).value, calls[n].capacity, reply))
            && Asker(w, config, calls, n + 1) == None
  {
    hide DeferredResult, Run, Names, Step, AnswersResult, RoutineOk, InitialDids, Asked;
    var w := Booted(config, log, flash);
    BootedIsFresh(config, log, flash);
    var p := DeferredResult(Run(w, config, calls, i), calls[i]).value;
    AskedAsRequested(Run(w, config, calls, i), calls[i]);
    AskerStays(w, config, calls, i, n, p.index);
    PendingIsTheAskers(w, config, calls, n);
    RunsKeepRoutinesOk(w, config, calls, n);
    var s, a := RunningWasStarted(w, config, calls, n, 0);
    PollPendingResult(Run(w, config, calls, n), config, calls[n]);
    if Asker(w, config, calls, n) == Some(i) {
      var (b, reply) := Step(Run(w, config, calls, n), config, calls[n]);
      ResultSent(b, p, calls[n].capacity, reply);
    }
  }

  // ---- Notes ----

  predicate IsNote(reply: Reply, service: Byte) { reply == Pending([0x7F, service, RESPONSE_PENDING]) }

  lemma PlainNotes(w: World, now: U32, request: seq<Byte>, capacity: nat)
    ensures !SessionControl(w.access, now, request, capacity).1.Pending?
    ensures !TesterPresent(w.access, now, request, capacity).1.Pending?
    ensures !SecurityAccess(w.access, now, request, capacity).1.Pending?
    ensures !Read(w.dids, w.access.session, request, capacity).Pending?
  {
    hide SessionAllowed, BigEndian, FromBigEndian, ComputeKey, NextState, SeedOf, Reached, Later, Unreadable, Needed, Values;
  }

  lemma WriteNotes(w: World, request: seq<Byte>, capacity: nat)
    ensures var reply := Write(w, request, capacity).1;
            && (reply.Pending? <==> WriteRefused(w.dids, w.access, request).None? && capacity >= 3
                                    && w.dids[FindDid(w.dids, Word(request[1], request[2]), 0)].saved)
            && (reply.Pending? ==> IsNote(reply, WRITE_DID))
  {
    hide WriteRefused, FindDid, Word;
  }

  /** A result is deferred: the conditions that `ControlPending` finds. */
  predicate Defers(w: World, request: seq<Byte>)
    requires |w.routines| == 2 && |request| >= 4
  {
    var index := FindRoutine(Word(request[2], request[3]));
    index < 2 && RoutineRefused(w.access, index, w.routines[index].status, request[1] % 0x80).None?
    && request[1] % 0x80 == RESULTS && w.routines[index].status.Running? && w.routines[index].polls == 0
  }

  lemma PerformedNotes(w: World, config: Config, index: nat, request: seq<Byte>, capacity: nat, env: Env)
    requires RoutinesOk(w) && index < 2 && |request| >= 4
    ensures var reply := Performed(w, config, index, request, capacity, env).1;
            && (reply.Pending? <==> capacity >= 3 && request[1] % 0x80 == RESULTS && w.routines[index].status.Running?
                                    && w.routines[index].polls == 0)
            && (reply.Pending? ==> IsNote(reply, ROUTINE_CONTROL))
  {
    hide Handled, Truncated;
    RoutineIsOk(w, index);
    if request[1] % 0x80 == RESULTS && w.routines[index].status.Running? {
      ResultsHandled(w, config, index, env);
    }
  }

  lemma ControlNotes(w: World, config: Config, request: seq<Byte>, capacity: nat, env: Env)
    requires RoutinesOk(w)
    ensures var reply := Control(w, config, request, capacity, env).1;
            && (reply.Pending? <==> |request| >= 4 && capacity >= 3 && Defers(w, request))
            && (reply.Pending? ==> IsNote(reply, ROUTINE_CONTROL))
  {
    hide Performed, RoutineOk, RoutineRefused, FindRoutine, Word;
    if |request| >= 4 && FindRoutine(Word(request[2], request[3])) < |ROUTINE_IDS| {
      var index := FindRoutine(Word(request[2], request[3]));
      var w1 := if w.pendingRoutine.Some? && w.pendingRoutine.value.index == index then w.(pendingRoutine := None) else w;
      PerformedNotes(w1, config, index, request, capacity, env);
    }
  }

  lemma PollNotes(w: World, config: Config, capacity: nat, env: Env)
    requires |w.routines| == 2
    ensures !Polled(w, config, capacity, env).1.Pending?
  {
    hide Handled, Written;
  }

  lemma DeferredMeansDefers(w: World, call: Call)
    requires RoutinesOk(w) && call.Request?
    ensures var t := w.(access := Ticked(w.access, Tick(call.time)));
            DeferredResult(w, call).Some? <==>
              |call.bytes| >= 4 && call.bytes[0] == ROUTINE_CONTROL && Defers(t, call.bytes)
  {
    hide RoutineRefused, RoutineOk, FindRoutine, Word, Ticked, Tick, Truncated, DeferredResult;
    if |call.bytes| >= 4 && call.bytes[0] == ROUTINE_CONTROL && FindRoutine(Word(call.bytes[2], call.bytes[3])) < 2 {
      NamedAgain(w, call, FindRoutine(Word(call.bytes[2], call.bytes[3])));
    } else {
      NotNamed(w, call);
    }
  }

  /** The note that an answer follows goes out exactly when a write or a result is deferred and there is room for
      the note's three bytes. */
  lemma NoteMeansDeferred(w: World, config: Config, call: Call)
    requires RoutinesOk(w)
    ensures var reply := Step(w, config, call).1;
            && (reply.Pending? <==>
                  call.Request? && call.capacity >= 3 && (DeferredWrite(w, call).Some? || DeferredResult(w, call).Some?))
            && (reply.Pending? ==> IsNote(reply, call.bytes[0]))
  {
    hide DeferredResult, Ticked, KeptAlive, SessionControl, TesterPresent, SecurityAccess, Control, Write, Read, WriteRefused,
      Polled, Locked, InitialDids, L.Restarted, RoutineOk, Defers, FindDid, Word, IsNote;
    match call
    case Request(time, bytes, capacity, env) =>
      var t := w.(access := Ticked(w.access, Tick(time)));
      PlainNotes(t, Tick(time), bytes, capacity);
      WriteNotes(t, bytes, capacity);
      ControlNotes(t, config, bytes, capacity, env);
      DeferredMeansDefers(w, call);
    case Poll(capacity, env) =>
      PollNotes(w, config, capacity, env);
      DeferringIsRequest(w, call);
    case _ =>
  }
}
