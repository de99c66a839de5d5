/** RAM and flash agree: the identifier table is always what a restart would show. */
module UdsEcuStorage {
  import opened Bytes
  import opened UdsAccess
  import opened ParamStore
  import opened ParamLog
  import opened UdsEcu
  import opened UdsEcuRuns
  import L = ParamLogRuns
  import Maps = ParamLogMaps
  import Images = ParamImages

  /** The table shows what the log holds, and the log can go on or at least be restarted. */
  ghost predicate Coherent(w: World, config: Config) {
    && |w.routines| == 2 && w.dids == InitialDids(config, w.log.store) && L.Healthy(w.flash, w.log)
  }

  // ---- The log ----

  /** Each programming works completely or not at all. */
  predicate Whole(words: nat) { words == 0 || words >= SLOT_WORDS }

  lemma NothingAppended(f: seq<Byte>, n: nat, image: seq<Byte>)
    requires |image| == IMAGE_SIZE && IMAGE_SIZE * (n + 1) <= |f|
    ensures L.Appended(f, n, image, 0) == f
  {
    assert image[..0] == [];
  }

  /** An append of a tidy store succeeds as a whole or leaves the log's store as it was, wherever the flash
      fails. */
  lemma AppendHealthy(f: seq<Byte>, log: LogState, store: Store, words: nat)
    requires L.Healthy(f, log) && log.next < log.slots && Images.Tidy(store)
    ensures Encode(store).Some?
    ensures var (f1, log1, ok) := Append(f, log, store, Encode(store).value, words);
            && log1 == (if ok then log.(store := store, next := log.next + 1) else log)
            && L.Healthy(f1, log1)
            && (L.Sound(f, log) && Whole(words) ==> L.Sound(f1, log1))
  {
    hide L.Sound, L.Jammed, Encode, Images.Tidy, L.Appended, Append, Decode;
    Images.TidyRoundTrip(store);
    var image := Encode(store).value;
    if !L.Sound(f, log) {
      L.JammedRefuses(f, log, store, image, words);
    } else {
      L.AppendOnSound(f, log, store, image, words);
      L.SoundParts(f, log);
      if words == 0 {
        NothingAppended(f, log.next, image);
      } else if words >= SLOT_WORDS {
        L.CompleteAppend(f, log, store, words);
      } else {
        Maps.HalfWriteJams(f, log, store, words);
      }
    }
  }

  lemma HealthyParts(f: seq<Byte>, log: LogState)
    requires L.Healthy(f, log)
    ensures 1 <= log.slots && log.next <= log.slots && Images.Tidy(log.store) && IMAGE_SIZE * log.slots <= |f|
  {
    hide Images.Tidy, Slot, Decode, Erased;
  }

  /** A write succeeds as a plain assignment to the log's store or leaves the store as it was. */
  lemma WriteWhole(f: seq<Byte>, log: LogState, did: U16, data: seq<Byte>, words: nat)
    requires L.Healthy(f, log)
    ensures var (f1, log1, ok) := Written(f, log, did, data, words);
            && L.Healthy(f1, log1) && log1.slots == log.slots
            && (L.Sound(f, log) && Whole(words) ==> L.Sound(f1, log1))
            && (!ok ==> log1 == log)
            && (ok ==> Known(did) && 1 <= |data| <= VALUE_MAX && Some(log1.store) == Update(log.store, did, data))
  {
    hide L.Healthy, L.Sound, Update, Encode, Known, Images.Tidy, Append;
    HealthyParts(f, log);
    L.UpdateAccepts(log.store, did, data);
    if log.next < log.slots && Update(log.store, did, data).Some? {
      AppendHealthy(f, log, Update(log.store, did, data).value, words);
    }
  }

  /** A clear empties the store or leaves it as it was. */
  lemma ClearWhole(f: seq<Byte>, log: LogState, words: nat)
    requires L.Healthy(f, log)
    ensures var (f1, log1, ok) := Wiped(f, log, words);
            && L.Healthy(f1, log1) && log1.slots == log.slots
            && (L.Sound(f, log) && Whole(words) ==> L.Sound(f1, log1))
            && (if ok then log1.store == EMPTY else log1 == log)
  {
    hide L.Healthy, L.Sound, Encode, Images.Tidy, Append;
    HealthyParts(f, log);
    Images.BlankIsTidy();
    if log.next < log.slots {
      AppendHealthy(f, log, EMPTY, words);
    }
  }

  // ---- The table ----

  lemma TableFacts(variant: Variant)
    ensures var dids := DefaultDids(variant);
            && (forall i, j :: 0 <= i < j < |dids| ==> dids[i].did != dids[j].did)
            && (forall i :: 0 <= i < |dids| && dids[i].stored ==>
                  Known(dids[i].did) && dids[i].writeMask != 0 && 0 < dids[i].capacity <= LOAD_CAPACITY)
  {
    hide Ascii;
  }

  /** The table after one stored value is the old table with that value shown. */
  lemma TableFollowsStore(config: Config, store: Store, store1: Store, index: nat, data: seq<Byte>)
    requires config.attached && Images.Tidy(store) && index < |DefaultDids(config.variant)|
    requires var d := DefaultDids(config.variant)[index]; d.stored && 1 <= |data| <= d.capacity
    requires Some(store1) == Update(store, DefaultDids(config.variant)[index].did, data)
    ensures Takes(InitialDids(config, store), PendingDid(index, data), InitialDids(config, store1))
  {
    hide DefaultDids, Images.Tidy, Update, Get, Known;
    TableFacts(config.variant);
    var dids := DefaultDids(config.variant);
    Images.UpdateIsAssignment(store, dids[index].did, data);
    var x, y := InitialDids(config, store), InitialDids(config, store1);
    var z := x[index := x[index].(value := data)];
    forall i | 0 <= i < |dids| ensures y[i] == z[i] {
      if dids[i].stored && i != index { assert dids[i].did != dids[index].did; }
    }
    assert y == z;
  }

  lemma ShownKeepsShape(config: Config, store: Store, index: nat)
    requires index < |DefaultDids(config.variant)|
    ensures |InitialDids(config, store)| == |DefaultDids(config.variant)|
    ensures var d, s := DefaultDids(config.variant)[index], InitialDids(config, store)[index];
            s == d.(value := s.value, saved := s.saved)
  {
    hide DefaultDids, Get;
  }

  /** The documented write rules: how many bytes each identifier takes, and whether only programming
      sessions may write it. */
  datatype WriteRule = WriteRule(did: U16, bytes: nat, programmingOnly: bool)

  const WRITE_RULES := [WriteRule(0xF190, 17, true), WriteRule(0x0100, 16, false), WriteRule(0xF191, 4, false)]

  predicate Follows(rule: WriteRule, a: State, did: U16, data: seq<Byte>) {
    did == rule.did && |data| <= rule.bytes && a.unlocked
    && (a.session == PROGRAMMING || (a.session == EXTENDED && !rule.programmingOnly))
  }

  predicate SomeRule(a: State, did: U16, data: seq<Byte>) {
    Follows(WRITE_RULES[0], a, did, data) || Follows(WRITE_RULES[1], a, did, data) || Follows(WRITE_RULES[2], a, did, data)
  }

  lemma TableRow(config: Config, store: Store, i: nat)
    requires i < 6
    ensures |InitialDids(config, store)| == 6
    ensures var d := InitialDids(config, store)[i];
            && d.did == [0xF190, 0xF193, 0x0100, 0xF191, 0xF19A, 0xF19B][i]
            && d.stored == (i == 0 || i == 2 || i == 3)
            && (d.stored ==> d.writeMask == WRITE_SESSIONS && d.needsUnlock)
            && (d.stored ==> d.requiredSession == if i == 0 then PROGRAMMING else 0)
            && (d.stored ==> d.capacity == if i == 0 then 17 else if i == 2 then 16 else 4)
  {
    hide Get, Ascii;
  }

  /** A write request is accepted exactly when one of the documented rules allows it, whatever is stored. */
  lemma WritesFollowTheRules(config: Config, store: Store, a: State, request: seq<Byte>)
    ensures WriteRefused(InitialDids(config, store), a, request).None?
       <==> |request| >= 3 && SomeRule(a, Word(request[1], request[2]), request[3..])
  {
    hide SessionAllowed, InitialDids, Word;
    WriteSessions(a.session);
    var dids := InitialDids(config, store);
    forall i | 0 <= i < 6
      ensures |dids| == 6 && dids[i].did == [0xF190, 0xF193, 0x0100, 0xF191, 0xF19A, 0xF19B][i]
    {
      TableRow(config, store, i);
    }
    TableRow(config, store, 0);
    if |request| >= 3 {
      var at := FindDid(dids, Word(request[1], request[2]), 0);
      if at < 6 {
        TableRow(config, store, at);
        assert at == 0 || at == 1 || at == 2 || at == 3 || at == 4 || at == 5;
      } else {
        assert dids[0].did == 0xF190 && dids[2].did == 0x0100 && dids[3].did == 0xF191;
      }
    }
  }

  // ---- Steps ----

  lemma TableSize(config: Config, store: Store)
    ensures |InitialDids(config, store)| == |DefaultDids(config.variant)|
  {}

  lemma CommitCoherent(w: World, config: Config, p: PendingDid, capacity: nat, env: Env)
    requires config.attached && Coherent(w, config)
    ensures var w1 := Commit(w, p, capacity, env).0;
            && w1.log.slots == w.log.slots && Coherent(w1, config)
            && (L.Sound(w.flash, w.log) && Whole(env.words) ==> L.Sound(w1.flash, w1.log))
  {
    hide InitialDids, L.Healthy, L.Sound, Whole, Written, DefaultDids, Update, Known, Images.Tidy, Negative, WriteReply;
    if Committable(w.dids, p) {
      TableSize(config, w.log.store);
      ShownKeepsShape(config, w.log.store, p.index);
      var d := w.dids[p.index];
      WriteWhole(w.flash, w.log, d.did, p.data, env.words);
      HealthyParts(w.flash, w.log);
      if Written(w.flash, w.log, d.did, p.data, env.words).2 {
        TableFollowsStore(config, w.log.store, Written(w.flash, w.log, d.did, p.data, env.words).1.store, p.index, p.data);
      }
    }
  }

  // ---- Reading back ----

  lemma FindsItself(dids: seq<Did>, index: nat, i: nat)
    requires i <= index < |dids| && forall a, b :: 0 <= a < b < |dids| ==> dids[a].did != dids[b].did
    ensures FindDid(dids, dids[index].did, i) == index
  {}

  function ReadRequest(did: U16): seq<Byte> { [READ_DID, did / 256, did % 256] }

  /** The answer that shows one value, when there is room for it. */
  function Shown(did: U16, value: seq<Byte>, room: nat): Reply {
    if 4 + |value| <= room then Response([0x62, did / 256, did % 256] + value) else BufferTooSmall
  }

  /** Reading one identifier that every session may read. */
  lemma ReadOne(dids: seq<Did>, index: nat, session: Byte, room: nat)
    requires index < |dids| && dids[index].readMask == 0
    requires FindDid(dids, dids[index].did, 0) == index
    ensures Read(dids, session, ReadRequest(dids[index].did), room) == Shown(dids[index].did, dids[index].value, room)
  {
    hide FindDid;
    var d := dids[index];
    var request := ReadRequest(d.did);
    assert Word(request[1], request[2]) == d.did;
    assert Unreadable(dids, session, request, 3) == None && Needed(dids, request, 3) == 0 && Values(dids, request, 3) == [];
    assert [0x62] + ([request[1], request[2]] + d.value + []) == [0x62, request[1], request[2]] + d.value;
  }

  /** The poll commits a deferred write and confirms it. */
  predicate Confirms(w: World, p: PendingDid, capacity: nat, env: Env) {
    var reply := Commit(w, p, capacity, env).1;
    p.index < |w.dids| && reply.Response? && !IsNegative(reply)
  }

  /** What a confirmed write has written is what the next read shows, in every session. */
  lemma WrittenIsReadBack(w: World, config: Config, p: PendingDid, capacity: nat, env: Env, session: Byte, room: nat)
    requires config.attached && Coherent(w, config) && Confirms(w, p, capacity, env)
    ensures Read(Commit(w, p, capacity, env).0.dids, session, ReadRequest(w.dids[p.index].did), room)
         == Shown(w.dids[p.index].did, p.data, room)
  {
    hide InitialDids, L.Healthy, Written, DefaultDids, Read, Shown, ReadRequest;
    TableSize(config, w.log.store);
    var dids := Commit(w, p, capacity, env).0.dids;
    forall i | 0 <= i < |w.dids| ensures w.dids[i].did == DefaultDids(config.variant)[i].did && w.dids[i].readMask == 0 {
      ShownKeepsShape(config, w.log.store, i);
      NothingHidden(config.variant, i);
    }
    TableFacts(config.variant);
    FindsItself(dids, p.index, 0);
    ReadOne(dids, p.index, session, room);
  }

  lemma NothingHidden(variant: Variant, i: nat)
    requires i < |DefaultDids(variant)|
    ensures DefaultDids(variant)[i].readMask == 0
  {
    hide Ascii;
  }

  lemma HandledCoherent(w: World, config: Config, index: nat, subfunction: Byte, env: Env)
    requires Coherent(w, config) && index < 2
    ensures var w1 := Handled(w, config, index, subfunction, env).0;
            && w1.log.slots == w.log.slots && Coherent(w1, config)
            && (L.Sound(w.flash, w.log) && Whole(env.words) ==> L.Sound(w1.flash, w1.log))
  {
    hide InitialDids, L.Healthy, L.Sound, Whole, Wiped;
    ClearWhole(w.flash, w.log, env.words);
  }

  lemma ControlCoherent(w: World, config: Config, request: seq<Byte>, capacity: nat, env: Env)
    requires Coherent(w, config)
    ensures var w1 := Control(w, config, request, capacity, env).0;
            && w1.log.slots == w.log.slots && Coherent(w1, config)
            && (L.Sound(w.flash, w.log) && Whole(env.words) ==> L.Sound(w1.flash, w1.log))
  {
    hide InitialDids, L.Healthy, L.Sound, Whole, Handled, RoutineRefused, RoutineReply, ReplyPending, Negative;
    if |request| >= 4 && FindRoutine(Word(request[2], request[3])) < |ROUTINE_IDS| {
      var index := FindRoutine(Word(request[2], request[3]));
      HandledCoherent(w, config, index, request[1] % 0x80, env);
      HandledCoherent(w.(pendingRoutine := None), config, index, request[1] % 0x80, env);
    }
  }

  /** With the log attached every writable identifier is saved, so a write request never touches the table. */
  lemma WriteDefers(w: World, config: Config, request: seq<Byte>, capacity: nat)
    requires config.attached && Coherent(w, config)
    ensures Write(w, request, capacity).0 == w.(pendingDid := Write(w, request, capacity).0.pendingDid)
  {
    hide L.Healthy, SessionAllowed, Get, Negative, ReplyPending, Positive, DefaultDids;
    TableFacts(config.variant);
  }

  /** A restart shows the store that it finds in flash. */
  lemma RebootCoherent(w: World, config: Config)
    requires Coherent(w, config)
    ensures var w1 := Step(w, config, Reboot).0;
            && Coherent(w1, config) && w1.log.slots == w.log.slots && L.Sound(w1.flash, w1.log)
            && w1.dids == InitialDids(config, L.Reloaded(w.flash, w.log))
  {
    hide InitialDids, L.Sound, L.Healthy, L.Restarted, L.Reloaded;
    HealthyReloads(w.flash, w.log);
  }

  lemma HealthyReloads(f: seq<Byte>, log: LogState)
    requires L.Healthy(f, log)
    ensures var (f1, log1, ok) := L.Restarted(f, log.slots);
            && ok && L.Healthy(f1, log1) && L.Sound(f1, log1)
            && log1.store == L.Reloaded(f, log) && log1.slots == log.slots
  {
    hide L.Sound, L.Jammed, L.Restarted, L.Reloaded, Decode, Slot;
    if L.Sound(f, log) {
      L.RestartKeeps(f, log);
      SoundReloads(f, log);
    } else {
      L.JammedRestarts(f, log);
    }
  }

  lemma SoundReloads(f: seq<Byte>, log: LogState)
    requires L.Sound(f, log)
    ensures L.Legible(f, log) && L.Reloaded(f, log) == log.store
  {
    hide Decode, Slot, Erased, Images.Tidy;
    if log.next < log.slots && Decode(Slot(f, log.next)).Some? {
      L.DecodedNotErased(Slot(f, log.next));
    }
  }

  /** Every programming done in this call works completely or not at all. */
  predicate Reliable(call: Call) {
    match call
    case Request(_, _, _, env) => Whole(env.words)
    case Poll(_, env) => Whole(env.words)
    case _ => true
  }

  /** Every call keeps table and log in agreement, wherever programming fails. */
  lemma StepCoherent(w: World, config: Config, call: Call)
    requires config.attached && Coherent(w, config)
    ensures var w1 := Step(w, config, call).0;
            && w1.log.slots == w.log.slots && Coherent(w1, config)
            && (L.Sound(w.flash, w.log) && Reliable(call) ==> L.Sound(w1.flash, w1.log))
  {
    hide InitialDids, L.Healthy, L.Sound, Whole, Ticked, KeptAlive, SessionControl, TesterPresent, SecurityAccess, Control, Write,
      Read, Handled, Commit, Locked, Negative, RoutineReply, L.Restarted;
    match call
    case Ticking(_) =>
    case Relock(_) =>
    case Reboot => RebootCoherent(w, config);
    case Request(time, bytes, capacity, env) =>
      var t := w.(access := Ticked(w.access, Tick(time)));
      ControlCoherent(t, config, bytes, capacity, env);
      WriteDefers(t, config, bytes, capacity);
    case Poll(capacity, env) =>
      if w.pendingDid.Some? {
        CommitCoherent(w, config, w.pendingDid.value, capacity, env);
      } else if w.pendingRoutine.Some? && w.pendingRoutine.value.index < 2 {
        HandledCoherent(w, config, w.pendingRoutine.value.index, RESULTS, env);
      }
  }

  lemma {:induction false} RunsStayCoherent(w: World, config: Config, calls: seq<Call>, n: nat)
    requires config.attached && Coherent(w, config) && n <= |calls|
    ensures Coherent(Run(w, config, calls, n), config)
    decreases n
  {
    hide Step, L.Healthy, InitialDids;
    if n > 0 {
      RunsStayCoherent(w, config, calls, n - 1);
      StepCoherent(Run(w, config, calls, n - 1), config, calls[n - 1]);
    }
  }

  /** What a table shows for a writable identifier: this store's value, or the default if there is none. */
  predicate Shows(dids: seq<Did>, config: Config, store: Store, i: nat)
    requires |dids| == |DefaultDids(config.variant)| && i < |dids|
  {
    var d := DefaultDids(config.variant)[i];
    d.stored ==>
      match Get(store, d.did, d.capacity)
      case Some(v) => dids[i].value == v
      case None => dids[i].value == d.value
  }

  ghost predicate ShowsAll(dids: seq<Did>, config: Config, store: Store) {
    |dids| == |DefaultDids(config.variant)| && forall i :: 0 <= i < |dids| ==> Shows(dids, config, store, i)
  }

  lemma TableShows(config: Config, store: Store)
    requires config.attached
    ensures ShowsAll(InitialDids(config, store), config, store)
  {
    hide DefaultDids, Find;
    TableFacts(config.variant);
  }

  /** A table shows exactly one selection of values: two tables agree when one shows the other's store. */
  lemma ShownDecides(config: Config, store: Store, other: Store)
    requires config.attached
    ensures ShowsAll(InitialDids(config, store), config, other) <==> InitialDids(config, other) == InitialDids(config, store)
  {
    hide DefaultDids, Get;
    TableShows(config, other);
    TableFacts(config.variant);
    if ShowsAll(InitialDids(config, store), config, other) {
      var x, y := InitialDids(config, store), InitialDids(config, other);
      forall i | 0 <= i < |x| ensures x[i] == y[i] {
        assert Shows(x, config, other, i) && Shows(y, config, other, i);
      }
    }
  }

  /** From erased flash, after any calls - reads, deferred writes, saves that fail anywhere, erasures,
      restarts - each writable identifier shows the log's value or its default. A restart shows the same table
      exactly if that table shows the store that the restart finds; so it does whenever the next slot of the log
      does not decode. */
  lemma RamAgreesWithFlash(config: Config, size: nat, slots: nat, calls: seq<Call>, n: nat)
    requires config.attached && 1 <= slots <= MAX_SLOTS && IMAGE_SIZE * slots <= size && n <= |calls|
    ensures var (f, log, ok) := L.Restarted(Blank(size), slots);
            var w := Run(Booted(config, log, f), config, calls, n);
            && ok && ShowsAll(w.dids, config, w.log.store) && |w.routines| == 2
            && (Step(w, config, Reboot).0.dids == w.dids <==> ShowsAll(w.dids, config, L.Reloaded(w.flash, w.log)))
            && (L.Legible(w.flash, w.log) ==> Step(w, config, Reboot).0.dids == w.dids)
  {
    hide L.Healthy, L.Restarted, Blank, DefaultDids, InitialDids, ShowsAll, Run, Step, Decode, Slot;
    L.BlankIsSound(size, slots);
    var w0 := Booted(config, LogState(EMPTY, 0, slots), Blank(size));
    assert Coherent(w0, config) by { BootedCoherent(config, size, slots); }
    RunsStayCoherent(w0, config, calls, n);
    var w := Run(w0, config, calls, n);
    RebootCoherent(w, config);
    TableShows(config, w.log.store);
    ShownDecides(config, w.log.store, L.Reloaded(w.flash, w.log));
  }

  lemma BootedCoherent(config: Config, size: nat, slots: nat)
    requires 1 <= slots <= MAX_SLOTS && IMAGE_SIZE * slots <= size
    ensures Coherent(Booted(config, LogState(EMPTY, 0, slots), Blank(size)), config)
  {
    hide L.Sound, InitialDids, Blank;
    L.BlankIsSound(size, slots);
  }

  /** When every programming works completely or not at all, nothing half-written ever lies in the log. */
  lemma {:induction false} ReliableRunsAreSound(w: World, config: Config, calls: seq<Call>, n: nat)
    requires config.attached && Coherent(w, config) && L.Sound(w.flash, w.log)
    requires n <= |calls| && forall k :: 0 <= k < n ==> Reliable(calls[k])
    ensures L.Sound(Run(w, config, calls, n).flash, Run(w, config, calls, n).log)
    decreases n
  {
    hide Step, L.Sound, L.Healthy, InitialDids, Reliable;
    if n > 0 {
      ReliableRunsAreSound(w, config, calls, n - 1);
      RunsStayCoherent(w, config, calls, n - 1);
      StepCoherent(Run(w, config, calls, n - 1), config, calls[n - 1]);
    }
  }

  /** On flash that works completely or not at all, a restart always shows the same table. */
  lemma RamAgreesOnReliableFlash(config: Config, size: nat, slots: nat, calls: seq<Call>, n: nat)
    requires config.attached && 1 <= slots <= MAX_SLOTS && IMAGE_SIZE * slots <= size
    requires n <= |calls| && forall k :: 0 <= k < n ==> Reliable(calls[k])
    ensures var (f, log, ok) := L.Restarted(Blank(size), slots);
            var w := Run(Booted(config, log, f), config, calls, n);
            ok && ShowsAll(w.dids, config, w.log.store) && Step(w, config, Reboot).0.dids == w.dids
  {
    hide Coherent, L.Restarted, L.Sound, L.Legible, Blank, DefaultDids, InitialDids, ShowsAll, Run, Step, Reliable;
    L.BlankIsSound(size, slots);
    BootedCoherent(config, size, slots);
    var w0 := Booted(config, LogState(EMPTY, 0, slots), Blank(size));
    ReliableRunsAreSound(w0, config, calls, n);
    SoundReloads(Run(w0, config, calls, n).flash, Run(w0, config, calls, n).log);
    RamAgreesWithFlash(config, size, slots, calls, n);
  }

  // ---- Commits follow the rules ----

  /** Call `i` was a write request that one of the documented rules allowed, with this identifier and data. */
  predicate RuledWrite(w: World, call: Call, p: PendingDid) {
    call.Request? && |call.bytes| >= 3 && p.index < |w.dids|
    && w.dids[p.index].did == Word(call.bytes[1], call.bytes[2]) && p.data == call.bytes[3..]
    && SomeRule(Ticked(w.access, Tick(call.time)), Word(call.bytes[1], call.bytes[2]), call.bytes[3..])
  }

  lemma AcceptedIsRuled(w: World, config: Config, call: Call, p: PendingDid)
    requires config.attached && Coherent(w, config) && AcceptsWrite(w, call, p)
    ensures RuledWrite(w, call, p)
  {
    hide InitialDids, L.Healthy, WriteRefused, SomeRule, Ticked;
    WritesFollowTheRules(config, w.log.store, Ticked(w.access, Tick(call.time)), call.bytes);
  }

  /** With the log attached no request writes the table at once. */
  lemma RequestsOnlyDefer(w: World, config: Config, call: Call, p: PendingDid)
    requires config.attached && Coherent(w, config) && AcceptsWrite(w, call, p)
    ensures Step(w, config, call).0.dids == w.dids
  {
    hide InitialDids, L.Healthy, WriteRefused, Ticked, KeptAlive, Write, CountsAsAlive;
    WriteDefers(w.(access := Ticked(w.access, Tick(call.time))), config, call.bytes, call.capacity);
  }

  /** Call `n` commits the write of call `i`, which has waited since and was ruled when it was requested. */
  ghost predicate CommittedAt(w: World, config: Config, calls: seq<Call>, i: nat, n: nat, p: PendingDid)
    requires |w.routines| == 2 && n < |calls|
  {
    && calls[n].Poll? && Waits(w, config, calls, i, n, p)
    && RuledWrite(Run(w, config, calls, i), calls[i], p)
    && Takes(Run(w, config, calls, n).dids, p, Run(w, config, calls, n + 1).dids)
  }

  /** Over any run of an ECU with its log attached, a value changes only by erasure or by a poll that commits the
      latest accepted write, which one of the documented rules allowed when it was requested. */
  lemma CommitsFollowTheRules(w: World, config: Config, calls: seq<Call>, n: nat)
    requires config.attached && Coherent(w, config) && w.pendingDid.None? && n < |calls| && !calls[n].Reboot?
    requires Run(w, config, calls, n + 1).dids != Run(w, config, calls, n).dids
    ensures Erases(config, Run(w, config, calls, n), Run(w, config, calls, n + 1))
         || exists i: nat, p :: CommittedAt(w, config, calls, i, n, p)
  {
    hide Step, AcceptsWrite, Takes, Erases, Coherent, RuledWrite, Waits;
    assert |w.routines| == 2 by { CoherentRoutines(w, config); }
    var a, b := Run(w, config, calls, n), Run(w, config, calls, n + 1);
    DidChangesAreAccounted(w, config, calls, n);
    RunsStayCoherent(w, config, calls, n);
    if Erases(config, a, b) {
    } else if calls[n].Poll? && exists i, p :: Waits(w, config, calls, i, n, p) && Takes(a.dids, p, b.dids) {
      var i: nat, p :| Waits(w, config, calls, i, n, p) && Takes(a.dids, p, b.dids);
      WaitedFor(w, config, calls, i, n, p);
      RunsStayCoherent(w, config, calls, i);
      AcceptedIsRuled(Run(w, config, calls, i), config, calls[i], p);
      assert CommittedAt(w, config, calls, i, n, p);
    } else {
      var p :| AcceptsWrite(a, calls[n], p) && Takes(a.dids, p, b.dids);
      RequestsOnlyDefer(a, config, calls[n], p);
    }
  }

  lemma WaitedFor(w: World, config: Config, calls: seq<Call>, i: nat, n: nat, p: PendingDid)
    requires |w.routines| == 2 && n <= |calls| && Waits(w, config, calls, i, n, p)
    ensures i < n && AcceptsWrite(Run(w, config, calls, i), calls[i], p)
  {
    hide AcceptsWrite, Takes;
  }

  lemma CoherentRoutines(w: World, config: Config)
    requires Coherent(w, config)
    ensures |w.routines| == 2
  {}

  // ---- One failed save ----

  /** The image that committing a deferred write tries to append. */
  function SaveImage(w: World, p: PendingDid): Option<seq<Byte>> {
    if !Committable(w.dids, p) then None
    else
      match Update(w.log.store, w.dids[p.index].did, p.data)
      case None => None
      case Some(store) => Encode(store)
  }

  /** The store that a restart finds after `words` words of this image. */
  function FoundStore(store: Store, image: seq<Byte>, words: nat): Store
    requires |image| == IMAGE_SIZE
  {
    match Decode(L.Torn(image, words))
    case None => store
    case Some(torn) => torn
  }

  /** When a save fails half-way, RAM keeps the old table, and a restart shows the same one exactly if the
      store it finds in the torn slot would show it. `ParamTorn.TornDecodesExactly` says which store that is, and
      `ParamTorn.ThirdStoreAppears` that it need not be the old one. */
  lemma FailedSaveAgreesExactly(w: World, config: Config, p: PendingDid, capacity: nat, env: Env)
    requires config.attached && Coherent(w, config) && L.Sound(w.flash, w.log) && w.log.next < w.log.slots
    requires SaveImage(w, p).Some? && env.words < SLOT_WORDS
    ensures var w1 := Commit(w, p, capacity, env).0;
            && w1.dids == w.dids && |w1.routines| == 2
            && (Step(w1, config, Reboot).0.dids == w1.dids
                <==> InitialDids(config, FoundStore(w.log.store, SaveImage(w, p).value, env.words)) == w.dids)
  {
    hide InitialDids, L.Sound, Written, Update, Known, Images.Tidy, Negative, WriteReply, Encode, L.Restarted, Decode, L.Torn,
      Erased, L.Appended, Committable;
    assert p.index < |w.dids| by { CommittableIndex(w.dids, p); }
    var d := w.dids[p.index];
    L.SoundParts(w.flash, w.log);
    L.UpdateAccepts(w.log.store, d.did, p.data);
    L.WriteAppends(L.System(w.flash, w.log), d.did, p.data, env.words);
    L.CutRecovers(w.flash, w.log, SaveImage(w, p).value, env.words);
  }

  lemma CommittableIndex(dids: seq<Did>, p: PendingDid)
    requires Committable(dids, p)
    ensures p.index < |dids|
  {}
}
