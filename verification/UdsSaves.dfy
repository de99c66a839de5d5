/** When a deferred write is confirmed and when it fails, over whole runs. */
module UdsSaves {
  import opened Bytes
  import opened UdsAccess
  import opened ParamStore
  import opened ParamLog
  import opened UdsEcu
  import opened UdsEcuRuns
  import opened UdsEcuStorage
  import opened UdsPromises
  import L = ParamLogRuns
  import Images = ParamImages

  // ---- One save ----

  /** The next slot of the log exists and is erased. */
  predicate HasFreeSlot(f: seq<Byte>, log: LogState) {
    log.next < log.slots && IMAGE_SIZE * (log.next + 1) <= |f| && Erased(Slot(f, log.next))
  }

  lemma FreeMeansSound(f: seq<Byte>, log: LogState)
    requires L.Healthy(f, log)
    ensures HasFreeSlot(f, log) <==> L.Sound(f, log) && log.next < log.slots
  {
    hide Decode, Slot, Images.Tidy;
    if L.Jammed(f, log) { L.NotErased(Slot(f, log.next)); }
  }

  /** An append works exactly if the next slot is free and all of it is programmed. */
  lemma AppendSucceedsExactly(f: seq<Byte>, log: LogState, store: Store, words: nat)
    requires L.Healthy(f, log) && log.next < log.slots && Images.Tidy(store)
    ensures Encode(store).Some?
    ensures var (f1, _, ok) := Append(f, log, store, Encode(store).value, words);
            && (ok <==> HasFreeSlot(f, log) && words >= SLOT_WORDS)
            && (!HasFreeSlot(f, log) ==> f1 == f)
  {
    hide L.Sound, L.Jammed, Encode, Images.Tidy, L.Appended, Append, HasFreeSlot;
    Images.TidyRoundTrip(store);
    FreeMeansSound(f, log);
    var image := Encode(store).value;
    if L.Sound(f, log) {
      L.AppendOnSound(f, log, store, image, words);
    } else {
      L.JammedRefuses(f, log, store, image, words);
    }
  }

  lemma WriteSucceedsExactly(f: seq<Byte>, log: LogState, did: U16, data: seq<Byte>, words: nat)
    requires L.Healthy(f, log)
    ensures var (f1, log1, ok) := Written(f, log, did, data, words);
            && (ok <==> HasFreeSlot(f, log) && Known(did) && 1 <= |data| <= VALUE_MAX && words >= SLOT_WORDS)
            && (!HasFreeSlot(f, log) ==> (f1, log1) == (f, log))
  {
    hide L.Healthy, Update, Encode, Known, Images.Tidy, Append, Erased;
    HealthyParts(f, log);
    L.UpdateAccepts(log.store, did, data);
    WriteWhole(f, log, did, data, words);
    if log.next < log.slots && Update(log.store, did, data).Some? {
      AppendSucceedsExactly(f, log, Update(log.store, did, data).value, words);
    }
  }

  /** A save is possible: the next slot is free, there are data, and flash works for a whole slot. */
  predicate Savable(w: World, p: PendingDid, env: Env) {
    HasFreeSlot(w.flash, w.log) && p.data != [] && env.words >= SLOT_WORDS
  }

  /** Exactly then a pending write is stored, shown and confirmed; else nothing changes and the answer is the
      programming failure. */
  lemma SaveSucceedsExactly(w: World, config: Config, p: PendingDid, capacity: nat, env: Env)
    requires config.attached && Coherent(w, config) && Committable(w.dids, p)
    ensures var (w1, reply) := Commit(w, p, capacity, env);
            if Savable(w, p, env)
            then Takes(w.dids, p, w1.dids) && Some(w1.log.store) == Update(w.log.store, w.dids[p.index].did, p.data)
                 && reply == WriteReply(w.dids[p.index].did, capacity)
            else w1.dids == w.dids && w1.log == w.log && reply == Negative(capacity, WRITE_DID, PROGRAMMING_FAILURE)
  {
    hide InitialDids, L.Healthy, Written, DefaultDids, Update, Known, Negative, WriteReply, HasFreeSlot;
    TableSize(config, w.log.store);
    ShownKeepsShape(config, w.log.store, p.index);
    TableFacts(config.variant);
    var d := w.dids[p.index];
    WriteWhole(w.flash, w.log, d.did, p.data, env.words);
    WriteSucceedsExactly(w.flash, w.log, d.did, p.data, env.words);
  }

  // ---- Over runs ----

  /** What a request defers can be committed in every later state of an ECU with its log attached. */
  lemma DeferredIsCommittable(w: World, w1: World, config: Config, call: Call)
    requires config.attached && Coherent(w, config) && Coherent(w1, config) && DeferredWrite(w, call).Some?
    ensures Committable(w1.dids, DeferredWrite(w, call).value)
  {
    hide InitialDids, L.Healthy, DefaultDids, SessionAllowed, Ticked;
    var p := DeferredWrite(w, call).value;
    TableSize(config, w.log.store);
    TableSize(config, w1.log.store);
    ShownKeepsShape(config, w.log.store, p.index);
    ShownKeepsShape(config, w1.log.store, p.index);
    SavedStaysSaved(config, w.log.store, w1.log.store, p.index);
  }

  lemma SavedStaysSaved(config: Config, store: Store, other: Store, index: nat)
    requires index < |DefaultDids(config.variant)|
    ensures |InitialDids(config, store)| == |InitialDids(config, other)| == |DefaultDids(config.variant)|
    ensures InitialDids(config, store)[index].saved == InitialDids(config, other)[index].saved
  {
    hide DefaultDids, Get;
  }

  /** The three bytes that confirm this write. */
  predicate IsConfirmation(w: World, p: PendingDid, reply: Reply) {
    && p.index < |w.dids|
    && reply == Response([0x6E, w.dids[p.index].did / 256, w.dids[p.index].did % 256])
  }

  lemma ConfirmedAnswer(w: World, config: Config, p: PendingDid, capacity: nat, env: Env)
    requires config.attached && Coherent(w, config) && Committable(w.dids, p)
    ensures IsConfirmation(w, p, Commit(w, p, capacity, env).1) <==> capacity >= 3 && Savable(w, p, env)
  {
    hide Coherent, Committable, Commit, Savable;
    CommittableIndex(w.dids, p);
    SaveSucceedsExactly(w, config, p, capacity, env);
  }

  /** After a write has been deferred, the next poll confirms it with three bytes exactly if in between there was
      no restart and no other deferred write, the poll has room for them, the request carried data, the log has a
      free slot and flash works for all of it. */
  lemma WriteConfirmedExactly(w: World, config: Config, calls: seq<Call>, i: nat, n: nat)
    requires config.attached && Coherent(w, config) && |w.routines| == 2 && w.pendingDid.None? && i < n < |calls|
    requires DeferredWrite(Run(w, config, calls, i), calls[i]).Some?
    requires calls[n].Poll? && forall k :: i < k < n ==> !calls[k].Poll?
    ensures var a, p := Run(w, config, calls, n), DeferredWrite(Run(w, config, calls, i), calls[i]).value;
            Writer(w, config, calls, n) == Some(i) && IsConfirmation(a, p, Step(a, config, calls[n]).1)
            <==> WriteUndisturbed(w, config, calls, i, n) && calls[n].capacity >= 3 && Savable(a, p, calls[n].env)
  {
    hide DeferredWrite, Run, Commit, Step, AnswersWrite, Savable, Coherent, Committable, IsConfirmation;
    WritePromiseKeptExactly(w, config, calls, i, n);
    RunsStayCoherent(w, config, calls, i);
    RunsStayCoherent(w, config, calls, n);
    var a, p := Run(w, config, calls, n), DeferredWrite(Run(w, config, calls, i), calls[i]).value;
    DeferredIsCommittable(Run(w, config, calls, i), a, config, calls[i]);
    if Writer(w, config, calls, n) == Some(i) { ConfirmedAnswer(a, config, p, calls[n].capacity, calls[n].env); }
  }

  // ---- No free slot ----

  lemma ClearWithoutSlot(f: seq<Byte>, log: LogState, words: nat)
    requires L.Healthy(f, log) && !HasFreeSlot(f, log)
    ensures Wiped(f, log, words) == (f, log, false)
  {
    hide L.Healthy, Encode, Images.Tidy, Append, HasFreeSlot;
    HealthyParts(f, log);
    Images.BlankIsTidy();
    ClearWhole(f, log, words);
    if log.next < log.slots { AppendSucceedsExactly(f, log, EMPTY, words); }
  }

  /** The log is as it was, in RAM and in flash. */
  predicate SameLog(w: World, w1: World) { w1.log == w.log && w1.flash == w.flash }

  lemma HandledKeepsLog(w: World, config: Config, index: nat, subfunction: Byte, env: Env)
    requires index < |w.routines| && L.Healthy(w.flash, w.log) && !HasFreeSlot(w.flash, w.log)
    ensures SameLog(w, Handled(w, config, index, subfunction, env).0)
  {
    hide InitialDids, Wiped, L.Healthy, HasFreeSlot;
    ClearWithoutSlot(w.flash, w.log, env.words);
  }

  lemma ControlKeepsLog(w: World, config: Config, request: seq<Byte>, capacity: nat, env: Env)
    requires |w.routines| == 2 && L.Healthy(w.flash, w.log) && !HasFreeSlot(w.flash, w.log)
    ensures SameLog(w, Control(w, config, request, capacity, env).0)
  {
    hide Handled, RoutineRefused, RoutineReply, ReplyPending, Negative, L.Healthy, HasFreeSlot, Truncated;
    if |request| >= 4 && FindRoutine(Word(request[2], request[3])) < |ROUTINE_IDS| {
      var index := FindRoutine(Word(request[2], request[3]));
      HandledKeepsLog(w, config, index, request[1] % 0x80, env);
      HandledKeepsLog(w.(pendingRoutine := None), config, index, request[1] % 0x80, env);
    }
  }

  /** Without a free slot no call but a restart changes the log, so none frees a slot either. */
  lemma StepKeepsLog(w: World, config: Config, call: Call)
    requires config.attached && Coherent(w, config) && !HasFreeSlot(w.flash, w.log) && !call.Reboot?
    ensures SameLog(w, Step(w, config, call).0)
  {
    hide InitialDids, L.Healthy, HasFreeSlot, Ticked, KeptAlive, SessionControl, TesterPresent, SecurityAccess, Control, Write,
      Read, Handled, Written, Locked, Negative, RoutineReply, WriteReply, L.Restarted;
    match call
    case Ticking(_) =>
    case Relock(_) =>
    case Request(time, bytes, capacity, env) =>
      var t := w.(access := Ticked(w.access, Tick(time)));
      ControlKeepsLog(t, config, bytes, capacity, env);
      WriteFrame(t, bytes, capacity);
    case Poll(capacity, env) =>
      if w.pendingDid.Some? {
        if Committable(w.dids, w.pendingDid.value) {
          var p := w.pendingDid.value;
          WriteSucceedsExactly(w.flash, w.log, w.dids[p.index].did, p.data, env.words);
        }
      } else if w.pendingRoutine.Some? && w.pendingRoutine.value.index < 2 {
        HandledKeepsLog(w, config, w.pendingRoutine.value.index, RESULTS, env);
      }
  }

  /** A log that is full, or jammed by a half write, stays so until a restart: every save and every erasure until
      then fails. */
  lemma {:induction false} StuckUntilRestart(w: World, config: Config, calls: seq<Call>, i: nat, n: nat)
    requires config.attached && Coherent(w, config) && |w.routines| == 2 && i <= n <= |calls|
    requires !HasFreeSlot(Run(w, config, calls, i).flash, Run(w, config, calls, i).log)
    requires forall k :: i <= k < n ==> !calls[k].Reboot?
    ensures SameLog(Run(w, config, calls, i), Run(w, config, calls, n))
    decreases n
  {
    hide Step, Coherent, HasFreeSlot;
    if i < n {
      StuckUntilRestart(w, config, calls, i, n - 1);
      RunsStayCoherent(w, config, calls, n - 1);
      StepKeepsLog(Run(w, config, calls, n - 1), config, calls[n - 1]);
    }
  }

  /** A restart frees a slot whenever the log has two or more. */
  lemma RestartFreesSlot(w: World, config: Config)
    requires Coherent(w, config) && w.log.slots >= 2
    ensures var w1 := Step(w, config, Reboot).0; HasFreeSlot(w1.flash, w1.log)
  {
    hide InitialDids, L.Sound, L.Jammed, L.Restarted, HasFreeSlot, Decode, Slot;
    if L.Sound(w.flash, w.log) {
      L.RestartKeeps(w.flash, w.log);
    } else {
      L.JammedRestarts(w.flash, w.log);
      JammedParts(w.flash, w.log);
    }
    var w1 := Step(w, config, Reboot).0;
    FreeMeansSound(w1.flash, w1.log);
  }

  lemma JammedParts(f: seq<Byte>, log: LogState)
    requires L.Jammed(f, log)
    ensures log.next < log.slots
  {
    hide Decode, Slot, Erased, Images.Tidy;
  }
}
