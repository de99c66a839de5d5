/** The UDS server of one ECU: data identifiers, deferred writes, routines, and their flash storage. */
module UdsEcu {
  import opened Bytes
  import opened UdsAccess
  import opened ParamStore
  import opened ParamLog

  const READ_DID: Byte := 0x22
  const WRITE_DID: Byte := 0x2E
  const ROUTINE_CONTROL: Byte := 0x31

  const SERVICE_NOT_SUPPORTED: Byte := 0x11
  const CONDITIONS_NOT_CORRECT: Byte := 0x22
  const OUT_OF_RANGE: Byte := 0x31
  const ACCESS_DENIED: Byte := 0x33
  const PROGRAMMING_FAILURE: Byte := 0x72
  const RESPONSE_PENDING: Byte := 0x78

  const START: Byte := 1
  const STOP: Byte := 2
  const RESULTS: Byte := 3

  const WRITE_SESSIONS: Byte := 0x0C
  const PENDING_DID_MAX := 64
  const PENDING_ROUTINE_MAX := 16
  const RESULT_MAX := 16
  const LOAD_CAPACITY := 17

  // ---- State ----

  datatype Variant = F407 | F103

  /** A data identifier: `stored` when it has a RAM buffer of its own to be written to, `saved` when
      writes go through the parameter log. */
  datatype Did = Did(did: U16, value: seq<Byte>, capacity: nat, readMask: Byte, writeMask: Byte,
                     requiredSession: Byte, needsUnlock: bool, stored: bool, saved: bool)

  datatype Status = Idle | Running | Complete | Failed

  /** The server's state of a routine, and the context its handler keeps. */
  datatype Routine = Routine(status: Status, result: seq<Byte>, polls: Byte, executed: bool, code: Byte)

  datatype PendingDid = PendingDid(index: nat, data: seq<Byte>)

  datatype PendingRoutine = PendingRoutine(index: nat, subfunction: Byte, suppress: bool, data: seq<Byte>)

  /** The whole ECU with its log and flash. `worked` records whose work was carried out, in order. */
  datatype World = World(access: State, dids: seq<Did>, pendingDid: Option<PendingDid>, routines: seq<Routine>,
                         pendingRoutine: Option<PendingRoutine>, log: LogState, flash: seq<Byte>, worked: seq<nat>)

  /** How the ECU is built: its variant, and whether the parameter log and the routine hooks are attached. */
  datatype Config = Config(variant: Variant, attached: bool, hooked: bool)

  /** What the surroundings contribute to a call: the self-test's verdict, and for how many words the
      flash controller works. */
  datatype Env = Env(selfTest: Byte, words: nat)

  const FRESH := Routine(Idle, [], 0, false, 0)
  const ROUTINE_IDS: seq<U16> := [0x0203, 0xFF00]
  const SELF_TEST := 0
  const ERASE := 1

  predicate RoutineNeedsUnlock(index: nat) { index == ERASE }

  // ---- The DID table ----

  function Ascii(s: string): seq<Byte> {
    seq(|s|, i requires 0 <= i < |s| => s[i] as int % 256)
  }

  function ReadOnly(did: U16, value: seq<Byte>): Did {
    Did(did, value, 0, 0, 0, 0, false, false, false)
  }

  function Writable(did: U16, value: seq<Byte>, capacity: nat, requiredSession: Byte): Did {
    Did(did, value, capacity, 0, WRITE_SESSIONS, requiredSession, true, true, false)
  }

  function DefaultDids(variant: Variant): (r: seq<Did>)
    ensures |r| == 6
  {
    [Writable(0xF190, Ascii(if variant.F103? then "P2F103TESTVIN0001" else "P2F407TESTVIN0001"), 17, PROGRAMMING),
     ReadOnly(0xF193, Ascii(if variant.F103? then "F103-HW-REV-A" else "F407-HW-REV-A")),
     Writable(0x0100, [0, 1], 16, 0),
     Writable(0xF191, [0, 0, 0, 0], 4, 0),
     ReadOnly(0xF19A, Ascii(if variant.F103? then "ecu2" else "ecu1")),
     ReadOnly(0xF19B, Ascii("V1.0"))]
  }

  /** One identifier with the value that the log has for it, if any. */
  function AttachedDid(d: Did, store: Store): Did {
    if d.writeMask == 0 || !d.stored || d.capacity == 0 then d
    else
      match Get(store, d.did, LOAD_CAPACITY)
      case Some(v) => if |v| <= d.capacity then d.(value := v, saved := true) else d.(saved := true)
      case None => d.(saved := true)
  }

  function Attached(dids: seq<Did>, store: Store): (r: seq<Did>)
    ensures |r| == |dids|
    ensures forall i :: 0 <= i < |dids| ==> r[i] == AttachedDid(dids[i], store)
  {
    seq(|dids|, i requires 0 <= i < |dids| => AttachedDid(dids[i], store))
  }

  /** The table as initialisation builds it. */
  function InitialDids(config: Config, store: Store): seq<Did> {
    if config.attached then Attached(DefaultDids(config.variant), store) else DefaultDids(config.variant)
  }

  function FindDid(dids: seq<Did>, did: U16, i: nat): (r: nat)
    requires i <= |dids|
    ensures i <= r <= |dids|
    ensures r < |dids| ==> dids[r].did == did
    ensures forall j :: i <= j < r ==> dids[j].did != did
    decreases |dids| - i
  {
    if i == |dids| || dids[i].did == did then i else FindDid(dids, did, i + 1)
  }

  // ---- Reading ----

  function Word(high: Byte, low: Byte): U16 { 256 * high + low }

  /** The response code for the first unreadable identifier of a request, from byte `i` on. */
  function Unreadable(dids: seq<Did>, session: Byte, request: seq<Byte>, i: nat): Option<Byte>
    requires |request| % 2 == 1 && i % 2 == 1 && i <= |request|
    decreases |request| - i
  {
    if i == |request| then None
    else
      var at := FindDid(dids, Word(request[i], request[i + 1]), 0);
      if at == |dids| then Some(OUT_OF_RANGE)
      else if !SessionAllowed(dids[at].readMask, session) then Some(NOT_IN_SESSION)
      else Unreadable(dids, session, request, i + 2)
  }

  /** The room that the values are taken to need: one byte more for each than they fill. */
  function Needed(dids: seq<Did>, request: seq<Byte>, i: nat): nat
    requires |request| % 2 == 1 && i % 2 == 1 && i <= |request|
    decreases |request| - i
  {
    if i == |request| then 0
    else
      var at := FindDid(dids, Word(request[i], request[i + 1]), 0);
      (if at == |dids| then 0 else 3 + |dids[at].value|) + Needed(dids, request, i + 2)
  }

  function Values(dids: seq<Did>, request: seq<Byte>, i: nat): (r: seq<Byte>)
    requires |request| % 2 == 1 && i % 2 == 1 && i <= |request|
    decreases |request| - i
  {
    if i == |request| then []
    else
      var at := FindDid(dids, Word(request[i], request[i + 1]), 0);
      [request[i], request[i + 1]] + (if at == |dids| then [] else dids[at].value) + Values(dids, request, i + 2)
  }

  function Read(dids: seq<Did>, session: Byte, request: seq<Byte>, capacity: nat): Reply {
    if |request| < 3 || (|request| - 1) % 2 != 0 then Negative(capacity, READ_DID, INCORRECT_LENGTH)
    else
      match Unreadable(dids, session, request, 1)
      case Some(nrc) => Negative(capacity, READ_DID, nrc)
      case None =>
        if 1 + Needed(dids, request, 1) > capacity then BufferTooSmall
        else Response([0x62] + Values(dids, request, 1))
  }

  // ---- Writing ----

  function ReplyPending(capacity: nat, service: Byte): Reply {
    if capacity < 3 then BufferTooSmall else Pending([0x7F, service, RESPONSE_PENDING])
  }

  /** Why a write is refused, if it is. */
  function WriteRefused(dids: seq<Did>, a: State, request: seq<Byte>): (r: Option<Byte>)
    ensures r.None? ==> |request| >= 3 && FindDid(dids, Word(request[1], request[2]), 0) < |dids|
  {
    if |request| < 3 then Some(INCORRECT_LENGTH)
    else
      var at := FindDid(dids, Word(request[1], request[2]), 0);
      if at == |dids| || !dids[at].stored || dids[at].writeMask == 0 then Some(OUT_OF_RANGE)
      else
        var d := dids[at];
        if !SessionAllowed(d.writeMask, a.session) then Some(NOT_IN_SESSION)
        else if d.needsUnlock && !a.unlocked then Some(ACCESS_DENIED)
        else if d.requiredSession != 0 && a.session != d.requiredSession then Some(CONDITIONS_NOT_CORRECT)
        else if |request| - 3 > d.capacity then Some(OUT_OF_RANGE)
        else if d.saved && |request| - 3 > PENDING_DID_MAX then Some(OUT_OF_RANGE)
        else None
  }

  function Write(w: World, request: seq<Byte>, capacity: nat): (World, Reply) {
    match WriteRefused(w.dids, w.access, request)
    case Some(nrc) => (w, Negative(capacity, WRITE_DID, nrc))
    case None =>
      var at := FindDid(w.dids, Word(request[1], request[2]), 0);
      if w.dids[at].saved
      then (w.(pendingDid := Some(PendingDid(at, request[3..]))), ReplyPending(capacity, WRITE_DID))
      else (w.(dids := w.dids[at := w.dids[at].(value := request[3..])]),
            Positive(capacity, false, [0x6E, request[1], request[2]]))
  }

  function WriteReply(did: U16, capacity: nat): Reply {
    Positive(capacity, false, [0x6E, did / 256, did % 256])
  }

  /** A deferred write that can still be stored. */
  predicate Committable(dids: seq<Did>, p: PendingDid) {
    p.index < |dids| && dids[p.index].saved && dids[p.index].stored && |p.data| <= dids[p.index].capacity
  }

  /** Saving and then showing the value of a deferred write. */
  function Commit(w: World, p: PendingDid, capacity: nat, env: Env): (World, Reply) {
    var failed := Negative(capacity, WRITE_DID, PROGRAMMING_FAILURE);
    if !Committable(w.dids, p) then (w.(pendingDid := None), failed)
    else
      var d := w.dids[p.index];
      var r := Written(w.flash, w.log, d.did, p.data, env.words);
      if r.2
      then (w.(pendingDid := None, flash := r.0, log := r.1, dids := w.dids[p.index := d.(value := p.data)]),
            WriteReply(d.did, capacity))
      else (w.(pendingDid := None, flash := r.0, log := r.1), failed)
  }

  // ---- Routines ----

  function FindRoutine(id: U16): (r: nat)
    ensures r <= |ROUTINE_IDS| && (r < |ROUTINE_IDS| ==> ROUTINE_IDS[r] == id)
  {
    if id == ROUTINE_IDS[0] then 0 else if id == ROUTINE_IDS[1] then 1 else 2
  }

  /** The routine's own work: the self-test, or clearing the log and then the table. */
  function RunHook(w: World, config: Config, index: nat, env: Env): (World, Byte) {
    var w1 := w.(worked := w.worked + [index]);
    if index == SELF_TEST then (w1, if config.hooked then env.selfTest else 0)
    else
      var r := if config.hooked then Wiped(w.flash, w.log, env.words) else (w.flash, w.log, true);
      if r.2 then (w1.(flash := r.0, log := r.1, dids := InitialDids(config, r.1.store)), 0)
      else (w1.(flash := r.0, log := r.1), 1)
  }

  /** One call of a routine's handler. */
  function Handle(w: World, config: Config, index: nat, subfunction: Byte, env: Env): (r: (World, Status, seq<Byte>))
    requires index < |w.routines|
    ensures |r.0.routines| == |w.routines|
  {
    var routine := w.routines[index];
    if subfunction == START
    then (w.(routines := w.routines[index := routine.(polls := 0, executed := false)]), Running, [])
    else if subfunction == STOP
    then (w.(routines := w.routines[index := routine.(polls := 0, executed := false)]), Idle, [])
    else if subfunction != RESULTS then (w, Failed, [])
    else if routine.executed then (w, Complete, [routine.code])
    else if routine.polls == 0
    then (w.(routines := w.routines[index := routine.(polls := 1)]), Running, [])
    else
      var (w1, code) := RunHook(w, config, index, env);
      (w1.(routines := w.routines[index := routine.(executed := true, code := code)]), Complete, [code])
  }

  /** A handler call whose status and result the server keeps. */
  function Handled(w: World, config: Config, index: nat, subfunction: Byte, env: Env): (r: (World, Status, seq<Byte>))
    requires index < |w.routines|
    ensures |r.0.routines| == |w.routines|
  {
    var (w1, status, result) := Handle(w, config, index, subfunction, env);
    var kept := if |result| > RESULT_MAX then result[..RESULT_MAX] else result;
    (w1.(routines := w1.routines[index := w1.routines[index].(status := status, result := kept)]), status, result)
  }

  function RoutineReply(capacity: nat, suppress: bool, subfunction: Byte, id: U16, result: seq<Byte>): Reply {
    Positive(capacity, suppress, [0x71, subfunction, id / 256, id % 256] + result)
  }

  /** Why a routine request is refused, if it is. */
  function RoutineRefused(a: State, index: nat, status: Status, subfunction: Byte): Option<Byte> {
    if subfunction != START && subfunction != STOP && subfunction != RESULTS then Some(SUBFUNCTION_NOT_SUPPORTED)
    else if !SessionAllowed(WRITE_SESSIONS, a.session) then Some(NOT_IN_SESSION)
    else if RoutineNeedsUnlock(index) && !a.unlocked then Some(ACCESS_DENIED)
    else if subfunction == START then if status.Running? then Some(CONDITIONS_NOT_CORRECT) else None
    else if subfunction == STOP then if !status.Running? then Some(SEQUENCE_ERROR) else None
    else if status.Idle? then Some(SEQUENCE_ERROR) else None
  }

  function Truncated(data: seq<Byte>): seq<Byte> {
    if |data| > PENDING_ROUTINE_MAX then data[..PENDING_ROUTINE_MAX] else data
  }

  /** A routine request that is not refused. */
  function Performed(w: World, config: Config, index: nat, request: seq<Byte>, capacity: nat, env: Env): (r: (World, Reply))
    requires index < |w.routines| && index < |ROUTINE_IDS| && |request| >= 4
    ensures |r.0.routines| == |w.routines|
  {
    var subfunction, suppress, id := request[1] % 0x80, Suppressed(request[1]), ROUTINE_IDS[index];
    if subfunction == RESULTS && !w.routines[index].status.Running?
    then (w, RoutineReply(capacity, suppress, subfunction, id, w.routines[index].result))
    else
      var (w1, status, result) := Handled(w, config, index, subfunction, env);
      if subfunction == RESULTS && status.Running?
      then (w1.(pendingRoutine := Some(PendingRoutine(index, subfunction, suppress, Truncated(request[4..])))),
            ReplyPending(capacity, ROUTINE_CONTROL))
      else (w1, RoutineReply(capacity, suppress, subfunction, id, result))
  }

  function Control(w: World, config: Config, request: seq<Byte>, capacity: nat, env: Env): (r: (World, Reply))
    requires |w.routines| == |ROUTINE_IDS|
    ensures |r.0.routines| == |w.routines|
  {
    if |request| < 4 then (w, Negative(capacity, ROUTINE_CONTROL, INCORRECT_LENGTH))
    else
      var index := FindRoutine(Word(request[2], request[3]));
      if index == |ROUTINE_IDS| then (w, Negative(capacity, ROUTINE_CONTROL, OUT_OF_RANGE))
      else
        var w1 := if w.pendingRoutine.Some? && w.pendingRoutine.value.index == index then w.(pendingRoutine := None) else w;
        match RoutineRefused(w.access, index, w.routines[index].status, request[1] % 0x80)
        case Some(nrc) => (w1, Negative(capacity, ROUTINE_CONTROL, nrc))
        case None => Performed(w1, config, index, request, capacity, env)
  }

  // ---- Calls ----

  function Refreshed(w: World, now: U32, reply: Reply): World {
    if CountsAsAlive(reply) then w.(access := KeptAlive(w.access, now)) else w
  }

  /** One request after the tick. */
  function Dispatch(w: World, config: Config, now: U32, request: seq<Byte>, capacity: nat, env: Env): (r: (World, Reply))
    requires |w.routines| == |ROUTINE_IDS| && request != []
    ensures |r.0.routines| == |w.routines|
  {
    var service := request[0];
    if service == SESSION_CONTROL then
      var (a, reply) := SessionControl(w.access, now, request, capacity);
      (w.(access := a), reply)
    else if service == TESTER_PRESENT then
      var (a, reply) := TesterPresent(w.access, now, request, capacity);
      (w.(access := a), reply)
    else if service == READ_DID then
      var reply := Read(w.dids, w.access.session, request, capacity);
      (Refreshed(w, now, reply), reply)
    else if service == SECURITY_ACCESS then
      var (a, reply) := SecurityAccess(w.access, now, request, capacity);
      (Refreshed(w.(access := a), now, reply), reply)
    else if service == WRITE_DID then
      var (w1, reply) := Write(w, request, capacity);
      (Refreshed(w1, now, reply), reply)
    else if service == ROUTINE_CONTROL then
      var (w1, reply) := Control(w, config, request, capacity, env);
      (Refreshed(w1, now, reply), reply)
    else (w, Negative(capacity, service, SERVICE_NOT_SUPPORTED))
  }

  function Processed(w: World, config: Config, now: U32, request: seq<Byte>, capacity: nat, env: Env): (r: (World, Reply))
    requires |w.routines| == |ROUTINE_IDS|
    ensures |r.0.routines| == |w.routines|
  {
    var w1 := w.(access := Ticked(w.access, now));
    if request == [] then (w1, Negative(capacity, 0, INCORRECT_LENGTH))
    else Dispatch(w1, config, now, request, capacity, env)
  }

  /** One turn of the deferred work: a pending write first, else a pending routine. */
  function Polled(w: World, config: Config, capacity: nat, env: Env): (r: (World, Reply))
    requires |w.routines| == |ROUTINE_IDS|
    ensures |r.0.routines| == |w.routines|
  {
    if w.pendingDid.Some? then Commit(w, w.pendingDid.value, capacity, env)
    else if w.pendingRoutine.None? || w.pendingRoutine.value.index >= |ROUTINE_IDS| then (w, NoResponse)
    else
      var p := w.pendingRoutine.value;
      var (w1, status, result) := Handled(w, config, p.index, RESULTS, env);
      if status.Running? then (w1, NoResponse)
      else (w1.(pendingRoutine := None), RoutineReply(capacity, p.suppress, p.subfunction, ROUTINE_IDS[p.index], result))
  }

  /** The state after initialisation on a loaded log. */
  function Booted(config: Config, log: LogState, flash: seq<Byte>): World {
    World(INITIAL, InitialDids(config, log.store), None, [FRESH, FRESH], None, log, flash, [])
  }

  // ---- The ECU ----

  class Ecu {
    const config: Config
    const access: Access
    const log: Log
    const sector: Sector
    var dids: seq<Did>
    var pendingDid: Option<PendingDid>
    var routines: seq<Routine>
    var pendingRoutine: Option<PendingRoutine>
    ghost var worked: seq<nat>

    ghost predicate Valid()
      reads this
    {
      |routines| == |ROUTINE_IDS|
    }

    ghost function Now(): World
      reads this, access, log, sector.bytes
    {
      World(access.Now(), dids, pendingDid, routines, pendingRoutine, log.State(), sector.bytes[..], worked)
    }

    constructor (variant: Variant, attached: bool, hooked: bool, loaded: Log, storage: Sector)
      ensures Valid() && config == Config(variant, attached, hooked) && log == loaded && sector == storage && fresh(access)
      ensures Now() == Booted(config, loaded.State(), storage.bytes[..])
    {
      config, log, sector := Config(variant, attached, hooked), loaded, storage;
      access := new Access();
      dids := DefaultDids(variant);
      routines, pendingDid, pendingRoutine, worked := [FRESH, FRESH], None, None, [];
      new;
      if attached { AttachStorage(); }
    }

    method AttachStorage()
      modifies this`dids
      ensures dids == Attached(old(dids), log.store)
    {
      var table := dids;
      var attached: seq<Did> := [];
      for index := 0 to |table|
        invariant |attached| == index
        invariant forall i :: 0 <= i < index ==> attached[i] == AttachedDid(table[i], log.store)
      {
        var d := table[index];
        if d.writeMask != 0 && d.stored && d.capacity != 0 {
          d := d.(saved := true);
          var loaded := log.Get(d.did, LOAD_CAPACITY);
          if loaded.Some? && |loaded.value| <= d.capacity {
            d := d.(value := loaded.value);
          }
        }
        attached := attached + [d];
      }
      dids := attached;
    }

    method ResetDids()
      modifies this`dids
      ensures dids == InitialDids(config, log.store)
    {
      dids := DefaultDids(config.variant);
      if config.attached { AttachStorage(); }
    }

    method FindDidIndex(did: U16) returns (index: nat)
      ensures index == FindDid(dids, did, 0)
    {
      index := 0;
      while index < |dids| && dids[index].did != did
        invariant index <= |dids| && FindDid(dids, did, 0) == FindDid(dids, did, index)
      {
        index := index + 1;
      }
    }

    method ReadData(request: seq<Byte>, capacity: nat) returns (reply: Reply)
      ensures reply == Read(dids, access.session, request, capacity)
    {
      hide SessionAllowed, Word, FindDid, Values, Negative;
      if |request| < 3 || (|request| - 1) % 2 != 0 { return Negative(capacity, READ_DID, INCORRECT_LENGTH); }
      var index, required := 1, 1;
      while index < |request|
        invariant index % 2 == 1 && index <= |request|
        invariant Unreadable(dids, access.session, request, 1) == Unreadable(dids, access.session, request, index)
        invariant 1 + Needed(dids, request, 1) == required + Needed(dids, request, index)
      {
        var at := FindDidIndex(Word(request[index], request[index + 1]));
        if at == |dids| { return Negative(capacity, READ_DID, OUT_OF_RANGE); }
        if !SessionAllowed(dids[at].readMask, access.session) { return Negative(capacity, READ_DID, NOT_IN_SESSION); }
        required := required + 3 + |dids[at].value|;
        index := index + 2;
      }
      if required > capacity { return BufferTooSmall; }
      reply := CollectValues(request);
    }

    method CollectValues(request: seq<Byte>) returns (reply: Reply)
      requires |request| % 2 == 1
      ensures reply == Response([0x62] + Values(dids, request, 1))
    {
      hide Word, FindDid;
      var bytes: seq<Byte> := [0x62];
      var index := 1;
      while index < |request|
        invariant index % 2 == 1 && index <= |request|
        invariant [0x62] + Values(dids, request, 1) == bytes + Values(dids, request, index)
      {
        var at := FindDidIndex(Word(request[index], request[index + 1]));
        bytes := bytes + ([request[index], request[index + 1]] + if at == |dids| then [] else dids[at].value);
        index := index + 2;
      }
      return Response(bytes);
    }

    method WriteData(request: seq<Byte>, capacity: nat) returns (reply: Reply)
      modifies this`dids, this`pendingDid
      ensures (Now(), reply) == Write(old(Now()), request, capacity)
    {
      hide SessionAllowed, Negative, Positive, ReplyPending;
      if |request| < 3 { return Negative(capacity, WRITE_DID, INCORRECT_LENGTH); }
      var at := FindDidIndex(Word(request[1], request[2]));
      if at == |dids| || !dids[at].stored || dids[at].writeMask == 0 {
        return Negative(capacity, WRITE_DID, OUT_OF_RANGE);
      }
      var d := dids[at];
      if !SessionAllowed(d.writeMask, access.session) { return Negative(capacity, WRITE_DID, NOT_IN_SESSION); }
      if d.needsUnlock && !access.unlocked { return Negative(capacity, WRITE_DID, ACCESS_DENIED); }
      if d.requiredSession != 0 && access.session != d.requiredSession {
        return Negative(capacity, WRITE_DID, CONDITIONS_NOT_CORRECT);
      }
      if |request| - 3 > d.capacity { return Negative(capacity, WRITE_DID, OUT_OF_RANGE); }
      if d.saved {
        if |request| - 3 > PENDING_DID_MAX { return Negative(capacity, WRITE_DID, OUT_OF_RANGE); }
        pendingDid := Some(PendingDid(at, request[3..]));
        return ReplyPending(capacity, WRITE_DID);
      }
      dids := dids[at := d.(value := request[3..])];
      return Positive(capacity, false, [0x6E, request[1], request[2]]);
    }

    method CallHook(index: nat, env: Env) returns (code: Byte)
      modifies this`dids, this`worked, log, sector.bytes
      ensures (Now(), code) == RunHook(old(Now()), config, index, env)
    {
      hide Wiped, InitialDids;
      worked := worked + [index];
      if index == SELF_TEST { return if config.hooked then env.selfTest else 0; }
      var erased := true;
      if config.hooked {
        erased := log.Clear(sector, env.words);
      }
      if !erased { return 1; }
      ResetDids();
      return 0;
    }

    method HandleRoutine(index: nat, subfunction: Byte, env: Env) returns (status: Status, result: seq<Byte>)
      requires Valid() && index < |ROUTINE_IDS|
      modifies this`dids, this`routines, this`worked, log, sector.bytes
      ensures Valid()
      ensures (Now(), status, result) == Handle(old(Now()), config, index, subfunction, env)
    {
      hide RunHook;
      var routine := routines[index];
      if subfunction == START {
        routines := routines[index := routine.(polls := 0, executed := false)];
        return Running, [];
      }
      if subfunction == STOP {
        routines := routines[index := routine.(polls := 0, executed := false)];
        return Idle, [];
      }
      if subfunction != RESULTS { return Failed, []; }
      if !routine.executed {
        if routine.polls == 0 {
          routines := routines[index := routine.(polls := 1)];
          return Running, [];
        }
        var code := CallHook(index, env);
        routines := routines[index := routine.(executed := true, code := code)];
        return Complete, [code];
      }
      return Complete, [routine.code];
    }

    method CallRoutine(index: nat, subfunction: Byte, env: Env) returns (status: Status, result: seq<Byte>)
      requires Valid() && index < |ROUTINE_IDS|
      modifies this`dids, this`routines, this`worked, log, sector.bytes
      ensures Valid()
      ensures (Now(), status, result) == Handled(old(Now()), config, index, subfunction, env)
    {
      hide Handle;
      status, result := HandleRoutine(index, subfunction, env);
      var kept := if |result| > RESULT_MAX then result[..RESULT_MAX] else result;
      routines := routines[index := routines[index].(status := status, result := kept)];
    }

    method PerformRoutine(index: nat, request: seq<Byte>, capacity: nat, env: Env) returns (reply: Reply)
      requires Valid() && index < |ROUTINE_IDS| && |request| >= 4
      modifies this`dids, this`routines, this`pendingRoutine, this`worked, log, sector.bytes
      ensures Valid()
      ensures (Now(), reply) == Performed(old(Now()), config, index, request, capacity, env)
    {
      hide Handled, RoutineReply, ReplyPending, Truncated;
      var subfunction, suppress, id := request[1] % 0x80, Suppressed(request[1]), ROUTINE_IDS[index];
      if subfunction == RESULTS && !routines[index].status.Running? {
        return RoutineReply(capacity, suppress, subfunction, id, routines[index].result);
      }
      var status, result := CallRoutine(index, subfunction, env);
      if subfunction == RESULTS && status.Running? {
        pendingRoutine := Some(PendingRoutine(index, subfunction, suppress, Truncated(request[4..])));
        return ReplyPending(capacity, ROUTINE_CONTROL);
      }
      return RoutineReply(capacity, suppress, subfunction, id, result);
    }

    method ControlRoutine(request: seq<Byte>, capacity: nat, env: Env) returns (reply: Reply)
      requires Valid()
      modifies this`dids, this`routines, this`pendingRoutine, this`worked, log, sector.bytes
      ensures Valid()
      ensures (Now(), reply) == Control(old(Now()), config, request, capacity, env)
    {
      hide Performed, Negative, SessionAllowed;
      if |request| < 4 { return Negative(capacity, ROUTINE_CONTROL, INCORRECT_LENGTH); }
      var index := FindRoutine(Word(request[2], request[3]));
      if index == |ROUTINE_IDS| { return Negative(capacity, ROUTINE_CONTROL, OUT_OF_RANGE); }
      if pendingRoutine.Some? && pendingRoutine.value.index == index {
        pendingRoutine := None;
      }
      var subfunction, status := request[1] % 0x80, routines[index].status;
      if subfunction != START && subfunction != STOP && subfunction != RESULTS {
        return Negative(capacity, ROUTINE_CONTROL, SUBFUNCTION_NOT_SUPPORTED);
      }
      if !SessionAllowed(WRITE_SESSIONS, access.session) { return Negative(capacity, ROUTINE_CONTROL, NOT_IN_SESSION); }
      if RoutineNeedsUnlock(index) && !access.unlocked { return Negative(capacity, ROUTINE_CONTROL, ACCESS_DENIED); }
      if subfunction == START && status.Running? { return Negative(capacity, ROUTINE_CONTROL, CONDITIONS_NOT_CORRECT); }
      if subfunction == STOP && !status.Running? { return Negative(capacity, ROUTINE_CONTROL, SEQUENCE_ERROR); }
      if subfunction == RESULTS && status.Idle? { return Negative(capacity, ROUTINE_CONTROL, SEQUENCE_ERROR); }
      reply := PerformRoutine(index, request, capacity, env);
    }

    method Process(now: U32, request: seq<Byte>, capacity: nat, env: Env) returns (reply: Reply)
      requires Valid()
      modifies this, access, log, sector.bytes
      ensures Valid()
      ensures (Now(), reply) == Processed(old(Now()), config, now, request, capacity, env)
    {
      hide Ticked, Dispatch;
      access.Tick(now);
      if request == [] { return Negative(capacity, 0, INCORRECT_LENGTH); }
      reply := ServeRequest(now, request, capacity, env);
    }

    method ServeRequest(now: U32, request: seq<Byte>, capacity: nat, env: Env) returns (reply: Reply)
      requires Valid() && request != []
      modifies this, access, log, sector.bytes
      ensures Valid()
      ensures (Now(), reply) == Dispatch(old(Now()), config, now, request, capacity, env)
    {
      hide SessionControl, TesterPresent, SecurityAccess, Read, Write, Control, Negative, KeptAlive;
      var service := request[0];
      if service == SESSION_CONTROL {
        reply := access.ControlSession(now, request, capacity);
        return;
      } else if service == TESTER_PRESENT {
        reply := access.AnswerTester(now, request, capacity);
        return;
      } else if service == READ_DID {
        reply := ReadData(request, capacity);
      } else if service == SECURITY_ACCESS {
        reply := access.AccessSecurity(now, request, capacity);
      } else if service == WRITE_DID {
        reply := WriteData(request, capacity);
      } else if service == ROUTINE_CONTROL {
        reply := ControlRoutine(request, capacity, env);
      } else {
        return Negative(capacity, service, SERVICE_NOT_SUPPORTED);
      }
      if CountsAsAlive(reply) { access.KeepAlive(now); }
    }

    method CommitPending(p: PendingDid, capacity: nat, env: Env) returns (reply: Reply)
      requires pendingDid == Some(p)
      modifies this`dids, this`pendingDid, log, sector.bytes
      ensures (Now(), reply) == Commit(old(Now()), p, capacity, env)
    {
      hide Written, Negative, WriteReply;
      pendingDid := None;
      if p.index >= |dids| { return Negative(capacity, WRITE_DID, PROGRAMMING_FAILURE); }
      var d := dids[p.index];
      if !d.saved || !d.stored || |p.data| > d.capacity { return Negative(capacity, WRITE_DID, PROGRAMMING_FAILURE); }
      var saved := log.Set(sector, d.did, p.data, env.words);
      if !saved { return Negative(capacity, WRITE_DID, PROGRAMMING_FAILURE); }
      dids := dids[p.index := d.(value := p.data)];
      return WriteReply(d.did, capacity);
    }

    method PollPending(capacity: nat, env: Env) returns (reply: Reply)
      requires Valid()
      modifies this`dids, this`pendingDid, this`routines, this`pendingRoutine, this`worked, log, sector.bytes
      ensures Valid()
      ensures (Now(), reply) == Polled(old(Now()), config, capacity, env)
    {
      hide Commit, Handled, RoutineReply;
      if pendingDid.Some? {
        reply := CommitPending(pendingDid.value, capacity, env);
        return;
      }
      if pendingRoutine.None? || pendingRoutine.value.index >= |ROUTINE_IDS| { return NoResponse; }
      var p := pendingRoutine.value;
      var status, result := CallRoutine(p.index, RESULTS, env);
      if status.Running? { return NoResponse; }
      pendingRoutine := None;
      return RoutineReply(capacity, p.suppress, p.subfunction, ROUTINE_IDS[p.index], result);
    }
  }
}
