/** The diagnostic scheduler: one work queue and one worker per node, and exclusive sessions across nodes. */
module Scheduler {
  import opened Bytes

  const DEFAULT_SESSION := 1

  // ---- Jobs ----

  /** A queued job. `serial` tells the futures of one node apart, in the order of their submission; `delay` is
      the pause before a retry, in seconds. */
  datatype Job = Job(serial: nat, session: Option<int>, retries: nat, delay: real)

  /** How one call of a job's function ends. */
  datatype Try = Success | TimedOut | Raised

  datatype Status = Succeeded | Timeout | Error | Skipped

  datatype Outcome = Outcome(status: Status, attempts: nat)

  /** Where a worker stands between two of its atomic sections. */
  datatype Phase =
    | Idle
    | Stopped
    | Acquiring(job: Job)
    | Skipping(job: Job)
    | Trying(job: Job, held: bool, tries: seq<Try>)
    | Tried(job: Job, held: bool, tries: seq<Try>)
    | Recording(job: Job, tries: seq<Try>)

  datatype Stats = Stats(requests: nat, ok: nat, timeouts: nat, errors: nat, skipped: nat)

  /** All that belongs to one node: its queue, in which `None` tells the worker to stop, the number of jobs
      submitted, its worker, its session, its counters and the futures already set. */
  datatype Node = Node(queue: seq<Option<Job>>, submitted: nat, phase: Phase, session: int, stats: Stats,
                       futures: map<nat, Outcome>)

  const FRESH := Node([], 0, Idle, DEFAULT_SESSION, Stats(0, 0, 0, 0, 0), map[])

  datatype State = State(nodes: map<string, Node>, closed: bool)

  datatype BuildError = NegativeDefaultRetries | NegativeDefaultDelay | WaitNotPositive

  datatype SubmitError = Closed | UnknownNode | NegativeRetries | NegativeDelay

  // ---- Atomic sections ----

  predicate Exclusive(exclusive: set<int>, session: Option<int>) {
    session.Some? && session.value in exclusive
  }

  /** Some other node is in an exclusive session. */
  predicate Conflicted(s: State, exclusive: set<int>, name: string) {
    exists other :: other in s.nodes && other != name && s.nodes[other].session in exclusive
  }

  function Submitted(s: State, name: string, session: Option<int>, retries: int, delay: real)
    : (r: Result<State, SubmitError>)
  {
    if s.closed then Result.Err(Closed)
    else if name !in s.nodes then Result.Err(UnknownNode)
    else if retries < 0 then Result.Err(NegativeRetries)
    else if delay < 0.0 then Result.Err(NegativeDelay)
    else
      var n := s.nodes[name];
      var job := Job(n.submitted, session, retries, delay);
      Result.Ok(s.(nodes := s.nodes[name := n.(queue := n.queue + [Some(job)], submitted := n.submitted + 1)]))
  }

  function ClosedState(s: State): State {
    if s.closed then s
    else State(map name | name in s.nodes :: s.nodes[name].(queue := s.nodes[name].queue + [None]), true)
  }

  /** The worker fetches its next job and counts the request. */
  function Took(n: Node, exclusive: set<int>): Node {
    if !n.phase.Idle? || n.queue == [] then n
    else if n.queue[0].None? then n.(queue := n.queue[1..], phase := Stopped)
    else
      var job := n.queue[0].value;
      n.(queue := n.queue[1..],
         stats := n.stats.(requests := n.stats.requests + 1),
         phase := if Exclusive(exclusive, job.session) then Acquiring(job) else Trying(job, false, []))
  }

  /** The worker looks for conflicts, and takes its session or gives up when its time is over. */
  function Acquired(n: Node, conflicted: bool, expired: bool): Node {
    if !n.phase.Acquiring? || n.phase.job.session.None? then n
    else if !conflicted then n.(session := n.phase.job.session.value, phase := Trying(n.phase.job, true, []))
    else if expired then n.(phase := Skipping(n.phase.job))
    else n
  }

  function WithFuture(n: Node, serial: nat, outcome: Outcome): Node {
    n.(futures := n.futures[serial := outcome], phase := Idle)
  }

  function SkippedNode(n: Node): Node {
    if !n.phase.Skipping? then n
    else WithFuture(n.(stats := n.stats.(skipped := n.stats.skipped + 1)), n.phase.job.serial, Outcome(Skipped, 0))
  }

  /** The job's function returns; a timeout is tried again while retries are left. */
  function Called(n: Node, result: Try): Node {
    match n.phase
    case Trying(job, held, tries) =>
      if result.TimedOut? && |tries| + 1 <= job.retries then n.(phase := Trying(job, held, tries + [result]))
      else n.(phase := Tried(job, held, tries + [result]))
    case _ => n
  }

  /** The session is given back, if it was taken. */
  function Released(n: Node): Node {
    match n.phase
    case Tried(job, held, tries) =>
      n.(session := if held then DEFAULT_SESSION else n.session, phase := Recording(job, tries))
    case _ => n
  }

  function StatusOf(tries: seq<Try>): Status {
    if tries == [] then Error
    else match tries[|tries| - 1]
      case Success => Succeeded
      case TimedOut => Timeout
      case Raised => Error
  }

  function Counted(s: Stats, status: Status): Stats {
    match status
    case Succeeded => s.(ok := s.ok + 1)
    case Timeout => s.(timeouts := s.timeouts + 1)
    case Error => s.(errors := s.errors + 1)
    case Skipped => s.(skipped := s.skipped + 1)
  }

  function Recorded(n: Node): Node {
    match n.phase
    case Recording(job, tries) =>
      WithFuture(n.(stats := Counted(n.stats, StatusOf(tries))), job.serial, Outcome(StatusOf(tries), |tries|))
    case _ => n
  }

  // ---- The retry loop ----

  /** The calls a job makes when its function would end as `script` says, from call `k` on. */
  function Calls(script: seq<Try>, retries: nat, k: nat): (r: seq<Try>)
    requires k <= retries < |script|
    decreases retries - k
  {
    if script[k].TimedOut? && k < retries then [script[k]] + Calls(script, retries, k + 1) else [script[k]]
  }

  /** Call `k` of the script ends the job: all before it timed out, and it did not or was the last allowed one. */
  predicate EndsAt(script: seq<Try>, retries: nat, k: nat) {
    k <= retries < |script| && (forall j :: 0 <= j < k ==> script[j].TimedOut?) && (script[k].TimedOut? ==> k == retries)
  }

  /** The status is success, timeout or error as the call that ended the job returned, timed out or raised. */
  method RunAttempts(script: seq<Try>, retries: nat) returns (status: Status, attempts: nat)
    requires retries < |script|
    ensures attempts > 0 && EndsAt(script, retries, attempts - 1)
    ensures status.Succeeded? <==> script[attempts - 1].Success?
    ensures status.Timeout? <==> script[attempts - 1].TimedOut?
    ensures status.Error? <==> script[attempts - 1].Raised?
    ensures status == StatusOf(Calls(script, retries, 0)) && attempts == |Calls(script, retries, 0)|
  {
    hide Calls;
    status, attempts := Error, 0;
    for attempt := 1 to retries + 2
      invariant attempts == attempt - 1 <= retries
      invariant forall k :: 0 <= k < attempts ==> script[k].TimedOut? && k < retries
    {
      attempts := attempt;
      match script[attempt - 1]
      case Success => status := Succeeded; break;
      case TimedOut =>
        status := Timeout;
        if attempt <= retries { continue; }
        break;
      case Raised => status := Error; break;
    }
    CallsEnd(script, retries, 0, attempts - 1);
    assert script[0..attempts] == script[..attempts];
  }

  /** The calls of the script from `i` on, up to the one that ends the job. */
  lemma {:induction false} CallsEnd(script: seq<Try>, retries: nat, i: nat, k: nat)
    requires EndsAt(script, retries, k) && i <= k
    ensures Calls(script, retries, i) == script[i..k + 1]
    decreases k - i
  {
    if i < k { CallsEnd(script, retries, i + 1, k); }
  }

  // ---- The schedulers ----

  class QueuedScheduler {
    const exclusive: set<int>
    const defaultRetries: nat
    const retryDelay: real
    var nodes: map<string, Node>
    var closed: bool

    ghost function Now(): State
      reads this
    {
      State(nodes, closed)
    }

    constructor (names: set<string>, exclusiveSessions: set<int>, retries: nat, delay: real)
      requires delay >= 0.0
      ensures Now() == Start(names) && exclusive == exclusiveSessions && defaultRetries == retries && retryDelay == delay
    {
      exclusive, defaultRetries, retryDelay := exclusiveSessions, retries, delay;
      nodes, closed := map name | name in names :: FRESH, false;
    }

    /** A scheduler for these settings, or the first of them that is refused. */
    static method Build(names: set<string>, exclusiveSessions: set<int>, retries: int, delay: real, wait: real)
      returns (r: Result<QueuedScheduler, BuildError>)
      ensures r.Ok? <==> retries >= 0 && delay >= 0.0 && wait > 0.0
      ensures r.Ok? ==> fresh(r.value) && r.value.Now() == Start(names) && r.value.exclusive == exclusiveSessions
                        && r.value.defaultRetries == retries && r.value.retryDelay == delay
      ensures r.Err? ==> r.error == if retries < 0 then NegativeDefaultRetries
                                    else if delay < 0.0 then NegativeDefaultDelay else WaitNotPositive
    {
      if retries < 0 { return Result.Err(NegativeDefaultRetries); }
      if delay < 0.0 { return Result.Err(NegativeDefaultDelay); }
      if wait <= 0.0 { return Result.Err(WaitNotPositive); }
      var scheduler := new QueuedScheduler(names, exclusiveSessions, retries, delay);
      return Result.Ok(scheduler);
    }

    method Submit(name: string, session: Option<int>, retries: Option<int>, delay: Option<real>)
      returns (r: Result<nat, SubmitError>)
      modifies this`nodes
      ensures var next := Submitted(old(Now()), name, session, if retries.Some? then retries.value else defaultRetries,
                                    if delay.Some? then delay.value else retryDelay);
              match next
              case Ok(s) => Now() == s && name in nodes && r == Result.Ok(nodes[name].submitted - 1)
              case Err(e) => Now() == old(Now()) && r == Result.Err(e)
    {
      if closed { return Result.Err(Closed); }
      if name !in nodes { return Result.Err(UnknownNode); }
      var attempts := if retries.Some? then retries.value else defaultRetries;
      if attempts < 0 { return Result.Err(NegativeRetries); }
      var pause := if delay.Some? then delay.value else retryDelay;
      if pause < 0.0 { return Result.Err(NegativeDelay); }
      var n := nodes[name];
      var job := Job(n.submitted, session, attempts, pause);
      nodes := nodes[name := n.(queue := n.queue + [Some(job)], submitted := n.submitted + 1)];
      return Result.Ok(job.serial);
    }

    method Close()
      modifies this
      ensures Now() == ClosedState(old(Now()))
    {
      if closed { return; }
      closed := true;
      nodes := map name | name in nodes :: nodes[name].(queue := nodes[name].queue + [None]);
    }

    method AnyConflict(name: string) returns (conflict: bool)
      ensures conflict == Conflicted(Now(), exclusive, name)
    {
      var rest := nodes.Keys;
      while rest != {}
        invariant rest <= nodes.Keys
        invariant forall other :: other in nodes && other !in rest && other != name ==> nodes[other].session !in exclusive
        decreases rest
      {
        var other :| other in rest;
        if other != name && nodes[other].session in exclusive { return true; }
        rest := rest - {other};
      }
      return false;
    }

    /** One look at the sessions under the lock; the worker comes back here after each wait. */
    method TryAcquire(name: string, expired: bool)
      requires name in nodes
      modifies this`nodes
      ensures Now() == old(Now()).(nodes :=
                old(nodes)[name := Acquired(old(nodes)[name], Conflicted(old(Now()), exclusive, name), expired)])
    {
      var n := nodes[name];
      var conflict := AnyConflict(name);
      if n.phase.Acquiring? && n.phase.job.session.Some? {
        if !conflict {
          n := n.(session := n.phase.job.session.value, phase := Trying(n.phase.job, true, []));
        } else if expired {
          n := n.(phase := Skipping(n.phase.job));
        }
      }
      nodes := nodes[name := n];
    }

    /** The worker's next job, if there is one; `None` in the queue ends the worker. */
    method TakeJob(name: string)
      requires name in nodes
      modifies this`nodes
      ensures Now() == old(Now()).(nodes := old(nodes)[name := Took(old(nodes)[name], exclusive)])
    {
      var n := nodes[name];
      if n.phase.Idle? && n.queue != [] {
        var job := n.queue[0];
        n := n.(queue := n.queue[1..]);
        if job.None? {
          n := n.(phase := Stopped);
        } else {
          n := n.(stats := n.stats.(requests := n.stats.requests + 1));
          if job.value.session.Some? && job.value.session.value in exclusive {
            n := n.(phase := Acquiring(job.value));
          } else {
            n := n.(phase := Trying(job.value, false, []));
          }
        }
      }
      nodes := nodes[name := n];
    }

    /** Counts how a job ended and sets its future. */
    method RecordJob(name: string)
      requires name in nodes
      modifies this`nodes
      ensures Now() == old(Now()).(nodes := old(nodes)[name := Recorded(SkippedNode(old(nodes)[name]))])
    {
      var n := nodes[name];
      if n.phase.Skipping? {
        var stats := n.stats.(skipped := n.stats.skipped + 1);
        n := n.(stats := stats, futures := n.futures[n.phase.job.serial := Outcome(Skipped, 0)], phase := Idle);
      } else if n.phase.Recording? {
        var status, attempts := StatusOf(n.phase.tries), |n.phase.tries|;
        var stats := n.stats;
        if status.Succeeded? {
          stats := stats.(ok := stats.ok + 1);
        } else if status.Timeout? {
          stats := stats.(timeouts := stats.timeouts + 1);
        } else {
          stats := stats.(errors := stats.errors + 1);
        }
        n := n.(stats := stats, futures := n.futures[n.phase.job.serial := Outcome(status, attempts)], phase := Idle);
      }
      nodes := nodes[name := n];
    }

    method ReleaseSession(name: string)
      requires name in nodes
      modifies this`nodes
      ensures Now() == old(Now()).(nodes := old(nodes)[name := Released(old(nodes)[name])])
    {
      var n := nodes[name];
      if n.phase.Tried? {
        if n.phase.held { n := n.(session := DEFAULT_SESSION); }
        n := n.(phase := Recording(n.phase.job, n.phase.tries));
      }
      nodes := nodes[name := n];
    }
  }

  /** The state before anything is submitted. */
  function Start(names: set<string>): State {
    State(map name | name in names :: FRESH, false)
  }

  // ---- The plain session guard ----

  datatype EnterError = NoSuchNode | SessionConflict

  predicate HeldElsewhere(active: map<string, int>, exclusive: set<int>, name: string) {
    exists other :: other in active && other != name && active[other] in exclusive
  }

  function Entered(active: map<string, int>, names: set<string>, exclusive: set<int>, name: string, session: int)
    : Result<map<string, int>, EnterError>
  {
    if name !in names then Result.Err(NoSuchNode)
    else if session in exclusive && HeldElsewhere(active, exclusive, name) then Result.Err(SessionConflict)
    else Result.Ok(active[name := session])
  }

  class SessionGuard {
    const names: set<string>
    const exclusive: set<int>
    var active: map<string, int>

    constructor (nodeNames: set<string>, exclusiveSessions: set<int>)
      ensures names == nodeNames && exclusive == exclusiveSessions
      ensures active == map name | name in nodeNames :: DEFAULT_SESSION
    {
      names, exclusive := nodeNames, exclusiveSessions;
      active := map name | name in nodeNames :: DEFAULT_SESSION;
    }

    method Enter(name: string, session: int) returns (r: Result<(), EnterError>)
      modifies this`active
      ensures match Entered(old(active), names, exclusive, name, session)
              case Ok(next) => r == Result.Ok(()) && active == next
              case Err(e) => r == Result.Err(e) && active == old(active)
    {
      if name !in names { return Result.Err(NoSuchNode); }
      if session in exclusive {
        var conflict := FindHolder(name);
        if conflict { return Result.Err(SessionConflict); }
      }
      active := active[name := session];
      return Result.Ok(());
    }

    method FindHolder(name: string) returns (found: bool)
      ensures found == HeldElsewhere(active, exclusive, name)
    {
      var rest := active.Keys;
      while rest != {}
        invariant rest <= active.Keys
        invariant forall other :: other in active && other !in rest && other != name ==> active[other] !in exclusive
        decreases rest
      {
        var other :| other in rest;
        if other != name && active[other] in exclusive { return true; }
        rest := rest - {other};
      }
      return false;
    }

    method Leave(name: string)
      modifies this`active
      ensures active == old(active)[name := DEFAULT_SESSION]
    {
      active := active[name := DEFAULT_SESSION];
    }
  }
}

/** All interleavings of clients and workers. */
module SchedulerRuns {
  import opened Bytes
  import opened Scheduler

  datatype Event =
    | Submit(name: string, session: Option<int>, retries: int, delay: real)
    | Close
    | Take(name: string)
    | Acquire(name: string, expired: bool)
    | Skip(name: string)
    | Call(name: string, result: Try)
    | Release(name: string)
    | Record(name: string)

  /** What a worker's atomic section does to its node. */
  function Moved(s: State, exclusive: set<int>, e: Event): Node
    requires !e.Submit? && !e.Close? && e.name in s.nodes
  {
    var n := s.nodes[e.name];
    match e
    case Take(_) => Took(n, exclusive)
    case Acquire(name, expired) => Acquired(n, Conflicted(s, exclusive, name), expired)
    case Skip(_) => SkippedNode(n)
    case Call(_, result) => Called(n, result)
    case Release(_) => Released(n)
    case Record(_) => Recorded(n)
  }

  function Next(s: State, exclusive: set<int>, e: Event): State {
    match e
    case Submit(name, session, retries, delay) =>
      (match Submitted(s, name, session, retries, delay)
       case Ok(s1) => s1
       case Err(_) => s)
    case Close => ClosedState(s)
    case _ => if e.name in s.nodes then s.(nodes := s.nodes[e.name := Moved(s, exclusive, e)]) else s
  }

  function Run(names: set<string>, exclusive: set<int>, events: seq<Event>, n: nat): State
    requires n <= |events|
    decreases n
  {
    if n == 0 then Start(names) else Next(Run(names, exclusive, events, n - 1), exclusive, events[n - 1])
  }

  // ---- One node ----

  /** The job a worker is busy with. */
  function Current(p: Phase): Option<Job> {
    match p
    case Idle => None
    case Stopped => None
    case Acquiring(job) => Some(job)
    case Skipping(job) => Some(job)
    case Trying(job, _, _) => Some(job)
    case Tried(job, _, _) => Some(job)
    case Recording(job, _) => Some(job)
  }

  function Busy(p: Phase): nat { if Current(p).Some? then 1 else 0 }

  predicate Holds(p: Phase) { (p.Trying? || p.Tried?) && p.held }

  /** All calls but the last one timed out. */
  predicate OnlyTimeouts(tries: seq<Try>) {
    forall i :: 0 <= i < |tries| ==> tries[i].TimedOut?
  }

  /** The calls of a finished job: timeouts were tried again until the retries were used up. */
  predicate FinishedTries(tries: seq<Try>, retries: nat) {
    && 1 <= |tries| <= retries + 1 && OnlyTimeouts(tries[..|tries| - 1])
    && (tries[|tries| - 1].TimedOut? ==> |tries| == retries + 1)
  }

  ghost predicate PhaseOk(n: Node, exclusive: set<int>) {
    match n.phase
    case Idle => true
    case Stopped => true
    case Acquiring(job) => Exclusive(exclusive, job.session)
    case Skipping(job) => Exclusive(exclusive, job.session)
    case Trying(job, held, tries) =>
      held == Exclusive(exclusive, job.session) && |tries| <= job.retries && OnlyTimeouts(tries)
    case Tried(job, held, tries) => held == Exclusive(exclusive, job.session) && FinishedTries(tries, job.retries)
    case Recording(job, tries) => FinishedTries(tries, job.retries)
  }

  /** The session of a node is its job's while it holds it, and the default one otherwise. */
  ghost predicate SessionOk(n: Node) {
    if Holds(n.phase) then Some(n.session) == n.phase.job.session else n.session == DEFAULT_SESSION
  }

  function JobsQueued(queue: seq<Option<Job>>): nat {
    if queue == [] then 0 else (if queue[0].Some? then 1 else 0) + JobsQueued(queue[1..])
  }

  /** Jobs wait in the order of their serial numbers, from `next` on. */
  ghost predicate InOrder(queue: seq<Option<Job>>, next: nat) {
    queue == [] || (match queue[0]
                    case None => InOrder(queue[1..], next)
                    case Some(job) => job.serial == next && InOrder(queue[1..], next + 1))
  }

  /** Futures are set for exactly the jobs that were taken and are done, each with a proper outcome. */
  ghost predicate FuturesOk(n: Node) {
    && (forall k: nat :: k in n.futures <==> k < n.stats.requests - Busy(n.phase))
    && (forall k :: k in n.futures ==> (n.futures[k].attempts == 0 <==> n.futures[k].status.Skipped?))
    && (Current(n.phase).Some? ==> Current(n.phase).value.serial == n.stats.requests - 1)
  }

  ghost predicate NodeOk(n: Node, exclusive: set<int>) {
    && PhaseOk(n, exclusive) && SessionOk(n) && FuturesOk(n)
    && n.stats.requests == n.stats.ok + n.stats.timeouts + n.stats.errors + n.stats.skipped + Busy(n.phase)
    && n.submitted == n.stats.requests + JobsQueued(n.queue) && InOrder(n.queue, n.stats.requests)
  }

  lemma FreshOk(exclusive: set<int>)
    ensures NodeOk(FRESH, exclusive)
  {}

  lemma {:induction false} QueueGrows(queue: seq<Option<Job>>, next: nat, x: Option<Job>)
    requires InOrder(queue, next) && (x.Some? ==> x.value.serial == next + JobsQueued(queue))
    ensures InOrder(queue + [x], next)
    ensures JobsQueued(queue + [x]) == JobsQueued(queue) + if x.Some? then 1 else 0
    decreases |queue|
  {
    if queue == [] {
      assert (queue + [x])[1..] == [];
    } else {
      assert (queue + [x])[1..] == queue[1..] + [x];
      QueueGrows(queue[1..], if queue[0].Some? then next + 1 else next, x);
    }
  }

  /** Submitting and closing keep a node in order. */
  lemma QueuedKeeps(n: Node, exclusive: set<int>, x: Option<Job>)
    requires NodeOk(n, exclusive) && (x.Some? ==> x.value.serial == n.submitted)
    ensures NodeOk(n.(queue := n.queue + [x], submitted := n.submitted + if x.Some? then 1 else 0), exclusive)
  {
    hide PhaseOk, InOrder, JobsQueued, FuturesOk;
    QueueGrows(n.queue, n.stats.requests, x);
    FuturesSame(n, n.(queue := n.queue + [x], submitted := n.submitted + if x.Some? then 1 else 0));
    PhaseSame(n, n.(queue := n.queue + [x], submitted := n.submitted + if x.Some? then 1 else 0), exclusive);
  }

  lemma FuturesSame(n: Node, m: Node)
    requires FuturesOk(n) && m.futures == n.futures && m.phase == n.phase && m.stats == n.stats
    ensures FuturesOk(m)
  {}

  lemma PhaseSame(n: Node, m: Node, exclusive: set<int>)
    requires PhaseOk(n, exclusive) && m.phase == n.phase
    ensures PhaseOk(m, exclusive)
  {}

  lemma TookKeeps(n: Node, exclusive: set<int>)
    requires NodeOk(n, exclusive)
    ensures NodeOk(Took(n, exclusive), exclusive) && Took(n, exclusive).futures == n.futures
  {
    hide Exclusive;
  }

  lemma AcquiredKeeps(n: Node, exclusive: set<int>, conflicted: bool, expired: bool)
    requires NodeOk(n, exclusive)
    ensures NodeOk(Acquired(n, conflicted, expired), exclusive)
    ensures Acquired(n, conflicted, expired).futures == n.futures
  {
    hide InOrder, JobsQueued;
  }

  lemma CalledKeeps(n: Node, exclusive: set<int>, result: Try)
    requires NodeOk(n, exclusive)
    ensures NodeOk(Called(n, result), exclusive) && Called(n, result).futures == n.futures
  {
    hide InOrder, JobsQueued, Exclusive;
    if n.phase.Trying? {
      var tries := n.phase.tries + [result];
      assert tries[..|tries| - 1] == n.phase.tries;
    }
  }

  lemma ReleasedKeeps(n: Node, exclusive: set<int>)
    requires NodeOk(n, exclusive)
    ensures NodeOk(Released(n), exclusive) && Released(n).futures == n.futures
  {
    hide InOrder, JobsQueued, Exclusive;
  }

  /** The future that is set was not set before, and no other one changes. */
  lemma SkippedKeeps(n: Node, exclusive: set<int>)
    requires NodeOk(n, exclusive)
    ensures NodeOk(SkippedNode(n), exclusive)
    ensures n.phase.Skipping? ==> n.phase.job.serial !in n.futures
    ensures forall k :: k in n.futures ==> k in SkippedNode(n).futures && SkippedNode(n).futures[k] == n.futures[k]
  {
    hide InOrder, JobsQueued, Exclusive;
  }

  lemma RecordedKeeps(n: Node, exclusive: set<int>)
    requires NodeOk(n, exclusive)
    ensures NodeOk(Recorded(n), exclusive)
    ensures n.phase.Recording? ==> n.phase.job.serial !in n.futures
    ensures forall k :: k in n.futures ==> k in Recorded(n).futures && Recorded(n).futures[k] == n.futures[k]
  {
    hide InOrder, JobsQueued, Exclusive;
  }

  ghost predicate FuturesKept(n: Node, m: Node) {
    forall k :: k in n.futures ==> k in m.futures && m.futures[k] == n.futures[k]
  }

  lemma MovedKeeps(s: State, exclusive: set<int>, e: Event)
    requires !e.Submit? && !e.Close? && e.name in s.nodes && NodeOk(s.nodes[e.name], exclusive)
    ensures NodeOk(Moved(s, exclusive, e), exclusive) && FuturesKept(s.nodes[e.name], Moved(s, exclusive, e))
  {
    hide NodeOk, Took, Acquired, SkippedNode, Called, Released, Recorded, Conflicted;
    var n := s.nodes[e.name];
    match e
    case Take(_) => TookKeeps(n, exclusive);
    case Acquire(name, expired) => AcquiredKeeps(n, exclusive, Conflicted(s, exclusive, name), expired);
    case Skip(_) => SkippedKeeps(n, exclusive);
    case Call(_, result) => CalledKeeps(n, exclusive, result);
    case Release(_) => ReleasedKeeps(n, exclusive);
    case Record(_) => RecordedKeeps(n, exclusive);
  }

  // ---- All nodes ----

  ghost predicate AllOk(s: State, exclusive: set<int>) {
    forall name :: name in s.nodes ==> NodeOk(s.nodes[name], exclusive)
  }

  lemma NextKeepsNodes(s: State, exclusive: set<int>, e: Event)
    requires AllOk(s, exclusive)
    ensures var t := Next(s, exclusive, e);
            AllOk(t, exclusive) && t.nodes.Keys == s.nodes.Keys
            && forall name :: name in s.nodes ==> FuturesKept(s.nodes[name], t.nodes[name])
  {
    hide NodeOk, Moved;
    match e
    case Submit(name, session, retries, delay) =>
      if name in s.nodes && retries >= 0 {
        QueuedKeeps(s.nodes[name], exclusive, Some(Job(s.nodes[name].submitted, session, retries, delay)));
      }
    case Close =>
      forall name | name in s.nodes
        ensures NodeOk(s.nodes[name].(queue := s.nodes[name].queue + [None]), exclusive)
      {
        QueuedKeeps(s.nodes[name], exclusive, None);
      }
    case _ => if e.name in s.nodes { MovedKeeps(s, exclusive, e); }
  }

  lemma {:induction false} RunsKeepNodes(names: set<string>, exclusive: set<int>, events: seq<Event>, n: nat)
    requires n <= |events|
    ensures AllOk(Run(names, exclusive, events, n), exclusive) && Run(names, exclusive, events, n).nodes.Keys == names
    decreases n
  {
    hide NodeOk, Next;
    if n == 0 {
      FreshOk(exclusive);
    } else {
      RunsKeepNodes(names, exclusive, events, n - 1);
      NextKeepsNodes(Run(names, exclusive, events, n - 1), exclusive, events[n - 1]);
    }
  }

  // ---- Exclusive sessions ----

  /** At most one node is in an exclusive session. */
  ghost predicate AtMostOne(s: State, exclusive: set<int>) {
    forall a, b :: a in s.nodes && b in s.nodes && a != b ==>
      s.nodes[a].session !in exclusive || s.nodes[b].session !in exclusive
  }

  lemma SessionMoves(s: State, exclusive: set<int>, e: Event)
    requires !e.Submit? && !e.Close? && e.name in s.nodes
    ensures var n := Moved(s, exclusive, e);
            n.session == s.nodes[e.name].session || n.session == DEFAULT_SESSION
            || (e.Acquire? && !Conflicted(s, exclusive, e.name))
  {
    hide Conflicted, Exclusive;
  }

  lemma NextKeepsAtMostOne(s: State, exclusive: set<int>, e: Event)
    requires AtMostOne(s, exclusive) && DEFAULT_SESSION !in exclusive
    ensures AtMostOne(Next(s, exclusive, e), exclusive)
  {
    hide Moved;
    if !e.Submit? && !e.Close? && e.name in s.nodes {
      SessionMoves(s, exclusive, e);
    }
  }

  lemma {:induction false} RunsKeepAtMostOne(names: set<string>, exclusive: set<int>, events: seq<Event>, n: nat)
    requires n <= |events| && DEFAULT_SESSION !in exclusive
    ensures AtMostOne(Run(names, exclusive, events, n), exclusive)
    decreases n
  {
    hide Next;
    if n > 0 {
      RunsKeepAtMostOne(names, exclusive, events, n - 1);
      NextKeepsAtMostOne(Run(names, exclusive, events, n - 1), exclusive, events[n - 1]);
    }
  }

  /** Mutual exclusion holds after every interleaving. */
  ghost predicate AlwaysAtMostOne(names: set<string>, exclusive: set<int>) {
    forall events: seq<Event>, n: nat :: n <= |events| ==> AtMostOne(Run(names, exclusive, events, n), exclusive)
  }

  /** Mutual exclusion holds in every interleaving exactly when the default session is not listed as
      exclusive, or there are no two nodes. */
  lemma ExclusionExactly(names: set<string>, exclusive: set<int>)
    ensures AlwaysAtMostOne(names, exclusive)
       <==> DEFAULT_SESSION !in exclusive || forall a, b :: a in names && b in names ==> a == b
  {
    hide Next, NodeOk;
    if DEFAULT_SESSION !in exclusive || forall a, b :: a in names && b in names ==> a == b {
      forall events: seq<Event>, n: nat | n <= |events| ensures AtMostOne(Run(names, exclusive, events, n), exclusive) {
        if DEFAULT_SESSION !in exclusive {
          RunsKeepAtMostOne(names, exclusive, events, n);
        } else {
          RunsKeepNodes(names, exclusive, events, n);
        }
      }
    } else {
      StartConflicts(names, exclusive);
      var none: seq<Event> := [];
      assert !AtMostOne(Run(names, exclusive, none, |none|), exclusive);
    }
  }

  lemma StartConflicts(names: set<string>, exclusive: set<int>)
    requires DEFAULT_SESSION in exclusive && exists a, b :: a in names && b in names && a != b
    ensures !AtMostOne(Start(names), exclusive)
  {
    var a, b :| a in names && b in names && a != b;
    assert Start(names).nodes[a] == FRESH && Start(names).nodes[b] == FRESH;
  }

  /** A job that asks for an exclusive session calls its function only while its node holds that session,
      and then no other node is in an exclusive one. */
  lemma CallsWhileHolding(names: set<string>, exclusive: set<int>, events: seq<Event>, n: nat, name: string)
    requires n <= |events| && DEFAULT_SESSION !in exclusive && name in names
    requires var p := Run(names, exclusive, events, n).nodes;
             name in p && p[name].phase.Trying? && Exclusive(exclusive, p[name].phase.job.session)
    ensures var s := Run(names, exclusive, events, n);
            && Some(s.nodes[name].session) == s.nodes[name].phase.job.session
            && forall other :: other in s.nodes && other != name ==> s.nodes[other].session !in exclusive
  {
    hide Run, FuturesOk, InOrder, JobsQueued, OnlyTimeouts;
    RunsKeepNodes(names, exclusive, events, n);
    RunsKeepAtMostOne(names, exclusive, events, n);
  }

  /** The event by which a worker that holds a session goes on: its function returns, or it lets go. */
  function Onward(name: string, p: Phase): Event {
    if p.Trying? then Call(name, Success) else Release(name)
  }

  /** Node `other` is inside its own job, and its worker can finish the call and give the session back without
      waiting for anyone. */
  ghost predicate CanLetGo(s: State, exclusive: set<int>, other: string) {
    && other in s.nodes && Holds(s.nodes[other].phase)
    && var s1 := Next(s, exclusive, Onward(other, s.nodes[other].phase));
    && other in s1.nodes
    && if s.nodes[other].phase.Trying? then
         && s1.nodes[other].phase.Tried? && s1.nodes[other].session == s.nodes[other].session
         && Next(s1, exclusive, Release(other)).nodes == s1.nodes[other := Released(s1.nodes[other])]
         && Released(s1.nodes[other]).session == DEFAULT_SESSION
       else s1.nodes[other].session == DEFAULT_SESSION && s1.nodes[other].phase.Recording?
  }

  lemma HolderLetsGo(s: State, exclusive: set<int>, other: string)
    requires other in s.nodes && NodeOk(s.nodes[other], exclusive) && s.nodes[other].session in exclusive
    requires DEFAULT_SESSION !in exclusive
    ensures CanLetGo(s, exclusive, other)
  {
    hide FuturesOk, InOrder, JobsQueued, PhaseOk;
    assert Holds(s.nodes[other].phase);
  }

  /** Every node that blocks a waiting worker is inside its own job and can give its session back: nothing
      waits on a worker that waits. And a worker is blocked only by such nodes. */
  lemma BlockersMove(names: set<string>, exclusive: set<int>, events: seq<Event>, n: nat, name: string)
    requires n <= |events| && DEFAULT_SESSION !in exclusive
    ensures var s := Run(names, exclusive, events, n);
            && (forall other :: other in s.nodes && other != name && s.nodes[other].session in exclusive ==>
                  CanLetGo(s, exclusive, other))
            && (Conflicted(s, exclusive, name) ==> exists other :: other != name && CanLetGo(s, exclusive, other))
  {
    hide Run, NodeOk, CanLetGo;
    RunsKeepNodes(names, exclusive, events, n);
    var s := Run(names, exclusive, events, n);
    forall other | other in s.nodes && other != name && s.nodes[other].session in exclusive
      ensures CanLetGo(s, exclusive, other)
    {
      HolderLetsGo(s, exclusive, other);
    }
  }

  // ---- Futures and counters ----

  /** In every interleaving and for every node: requests are counted once each as ok, timed out, failed,
      skipped or still running; the futures set are those of the first jobs in order; and zero attempts mean
      skipped. */
  lemma RequestsAreConserved(names: set<string>, exclusive: set<int>, events: seq<Event>, n: nat, name: string)
    requires n <= |events| && name in names
    ensures name in Run(names, exclusive, events, n).nodes
    ensures var node := Run(names, exclusive, events, n).nodes[name];
            && node.stats.requests == node.stats.ok + node.stats.timeouts + node.stats.errors + node.stats.skipped + Busy(node.phase)
            && node.submitted == node.stats.requests + JobsQueued(node.queue)
            && (forall k: nat :: k in node.futures <==> k < node.stats.requests - Busy(node.phase))
            && (forall k :: k in node.futures ==> (node.futures[k].attempts == 0 <==> node.futures[k].status.Skipped?))
  {
    hide Run, InOrder, JobsQueued, PhaseOk, SessionOk;
    RunsKeepNodes(names, exclusive, events, n);
  }

  /** Once set, a future keeps its outcome for ever. */
  lemma {:induction false} FuturesAreSetOnce(names: set<string>, exclusive: set<int>, events: seq<Event>, m: nat, n: nat, name: string)
    requires m <= n <= |events| && name in names
    ensures name in Run(names, exclusive, events, m).nodes && name in Run(names, exclusive, events, n).nodes
    ensures FuturesKept(Run(names, exclusive, events, m).nodes[name], Run(names, exclusive, events, n).nodes[name])
    decreases n
  {
    hide Next, NodeOk;
    RunsKeepNodes(names, exclusive, events, m);
    RunsKeepNodes(names, exclusive, events, n);
    if m < n {
      FuturesAreSetOnce(names, exclusive, events, m, n - 1, name);
      RunsKeepNodes(names, exclusive, events, n - 1);
      NextKeepsNodes(Run(names, exclusive, events, n - 1), exclusive, events[n - 1]);
    }
  }

  /** The status says how the last call ended. */
  predicate SaysLast(status: Status, last: Try) {
    && (status.Succeeded? <==> last.Success?) && (status.Timeout? <==> last.TimedOut?)
    && (status.Error? <==> last.Raised?) && !status.Skipped?
  }

  /** A step that sets a future sets one that was not set, to an outcome with at most `retries + 1` attempts,
      of which all but the last timed out and the last gives the status. */
  lemma SettingIsProper(names: set<string>, exclusive: set<int>, events: seq<Event>, n: nat, name: string, k: nat)
    requires n < |events| && name in names
    requires name in Run(names, exclusive, events, n).nodes && name in Run(names, exclusive, events, n + 1).nodes
    requires k !in Run(names, exclusive, events, n).nodes[name].futures
    requires k in Run(names, exclusive, events, n + 1).nodes[name].futures
    ensures var before := Run(names, exclusive, events, n).nodes[name];
            var outcome := Run(names, exclusive, events, n + 1).nodes[name].futures[k];
            && Current(before.phase).Some? && Current(before.phase).value.serial == k
            && (if before.phase.Recording?
                then FinishedTries(before.phase.tries, before.phase.job.retries)
                     && outcome.attempts == |before.phase.tries|
                     && SaysLast(outcome.status, before.phase.tries[|before.phase.tries| - 1])
                else before.phase.Skipping? && outcome == Outcome(Skipped, 0))
  {
    hide Run, InOrder, JobsQueued, SessionOk, Conflicted, FinishedTries, OnlyTimeouts, Exclusive;
    RunsKeepNodes(names, exclusive, events, n);
    var s, e := Run(names, exclusive, events, n), events[n];
    RunUnfolds(names, exclusive, events, n);
    var before := s.nodes[name];
    assert NodeOk(before, exclusive);
    if before.phase.Recording? { LastSays(before.phase.tries, before.phase.job.retries); }
  }

  lemma LastSays(tries: seq<Try>, retries: nat)
    requires FinishedTries(tries, retries)
    ensures tries != [] && SaysLast(StatusOf(tries), tries[|tries| - 1])
  {}

  lemma RunUnfolds(names: set<string>, exclusive: set<int>, events: seq<Event>, n: nat)
    requires n < |events|
    ensures Run(names, exclusive, events, n + 1) == Next(Run(names, exclusive, events, n), exclusive, events[n])
  {}

  /** The calls that the retry loop makes are those of a finished job. */
  lemma {:induction false} LoopTriesAreFinished(script: seq<Try>, retries: nat, k: nat)
    requires k <= retries < |script|
    ensures var c := Calls(script, retries, k);
            1 <= |c| <= retries + 1 - k && OnlyTimeouts(c[..|c| - 1]) && (c[|c| - 1].TimedOut? ==> |c| == retries + 1 - k)
    decreases retries - k
  {
    if script[k].TimedOut? && k < retries {
      LoopTriesAreFinished(script, retries, k + 1);
      var c, d := Calls(script, retries, k), Calls(script, retries, k + 1);
      assert c[..|c| - 1] == [script[k]] + d[..|d| - 1];
    }
  }

  /** A finished row of calls is the one the retry loop makes of any script that begins with it. */
  lemma {:induction false} FinishedTriesAreTheLoops(tries: seq<Try>, script: seq<Try>, retries: nat, k: nat)
    requires k < |tries| && FinishedTries(tries, retries) && tries <= script && retries < |script|
    ensures Calls(script, retries, k) == tries[k..]
    decreases |tries| - k
  {
    assert script[k] == tries[k];
    if k < |tries| - 1 {
      assert tries[..|tries| - 1][k].TimedOut?;
      FinishedTriesAreTheLoops(tries, script, retries, k + 1);
    }
  }

  // ---- The plain session guard ----

  ghost predicate OneHolder(active: map<string, int>, exclusive: set<int>) {
    forall a, b :: a in active && b in active && a != b ==> active[a] !in exclusive || active[b] !in exclusive
  }

  /** Entering and leaving keep at most one node in an exclusive session, and entering an exclusive session
      is refused exactly while another node holds one. */
  lemma GuardKeepsOneHolder(active: map<string, int>, names: set<string>, exclusive: set<int>, name: string, session: int)
    requires OneHolder(active, exclusive) && DEFAULT_SESSION !in exclusive
    ensures OneHolder(active[name := DEFAULT_SESSION], exclusive)
    ensures match Entered(active, names, exclusive, name, session)
            case Ok(next) => name in names && OneHolder(next, exclusive)
            case Err(NoSuchNode) => name !in names
            case Err(SessionConflict) => name in names && !OneHolder(active[name := session], exclusive)
  {
    if name in names && session in exclusive && HeldElsewhere(active, exclusive, name) {
      var other :| other in active && other != name && active[other] in exclusive;
      var next := active[name := session];
      assert next[other] in exclusive && next[name] in exclusive;
    }
  }
}
