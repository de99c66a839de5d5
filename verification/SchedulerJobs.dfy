/** What becomes of each job: workers take the submitted jobs in order and unchanged, and counters count outcomes. */
module SchedulerJobs {
  import opened Bytes
  import opened Scheduler
  import opened SchedulerRuns

  // ---- Submitted jobs ----

  /** The jobs accepted for a node, in the order of submission. */
  function Accepted(names: set<string>, exclusive: set<int>, events: seq<Event>, n: nat, name: string): seq<Job>
    requires n <= |events|
    decreases n
  {
    if n == 0 then []
    else
      var before, e := Accepted(names, exclusive, events, n - 1, name), events[n - 1];
      if e.Submit? && e.name == name && name in names && !Run(names, exclusive, events, n - 1).closed
         && e.retries >= 0 && e.delay >= 0.0
      then before + [Job(|before|, e.session, e.retries, e.delay)]
      else before
  }

  /** The jobs in a queue, without stop marks. */
  function Waiting(queue: seq<Option<Job>>): seq<Job> {
    if queue == [] then []
    else (if queue[0].Some? then [queue[0].value] else []) + Waiting(queue[1..])
  }

  lemma {:induction false} WaitingGrows(queue: seq<Option<Job>>, x: Option<Job>)
    ensures Waiting(queue + [x]) == Waiting(queue) + if x.Some? then [x.value] else []
    decreases |queue|
  {
    hide Waiting;
    WaitingUnfolds(queue);
    WaitingUnfolds(queue + [x]);
    if queue == [] {
      assert (queue + [x])[1..] == [];
      WaitingUnfolds([]);
    } else {
      assert (queue + [x])[1..] == queue[1..] + [x];
      WaitingGrows(queue[1..], x);
    }
  }

  lemma WaitingUnfolds(queue: seq<Option<Job>>)
    ensures Waiting(queue) == if queue == [] then []
                              else (if queue[0].Some? then [queue[0].value] else []) + Waiting(queue[1..])
  {}

  /** The jobs of a node: those behind the requests counted so far wait, and the current one is the last of these. */
  ghost predicate JobsOk(n: Node, jobs: seq<Job>) {
    && n.submitted == |jobs| && n.stats.requests <= |jobs| && Waiting(n.queue) == jobs[n.stats.requests..]
    && (Current(n.phase).Some? ==> n.stats.requests > 0 && Current(n.phase).value == jobs[n.stats.requests - 1])
  }

  lemma TookJobs(n: Node, exclusive: set<int>, jobs: seq<Job>)
    requires JobsOk(n, jobs)
    ensures JobsOk(Took(n, exclusive), jobs)
  {
    hide Exclusive;
    if n.phase.Idle? && n.queue != [] && n.queue[0].Some? {
      assert Waiting(n.queue)[0] == n.queue[0].value && Waiting(n.queue)[1..] == Waiting(n.queue[1..]);
      assert jobs[n.stats.requests..][1..] == jobs[n.stats.requests + 1..];
    }
  }

  lemma MovedJobs(s: State, exclusive: set<int>, e: Event, jobs: seq<Job>)
    requires !e.Submit? && !e.Close? && e.name in s.nodes && JobsOk(s.nodes[e.name], jobs)
    ensures JobsOk(Moved(s, exclusive, e), jobs)
  {
    hide Took, Conflicted, Exclusive, Waiting;
    if e.Take? { TookJobs(s.nodes[e.name], exclusive, jobs); }
  }

  lemma SubmittedJobs(n: Node, jobs: seq<Job>, job: Job)
    requires JobsOk(n, jobs)
    ensures JobsOk(n.(queue := n.queue + [Some(job)], submitted := n.submitted + 1), jobs + [job])
  {
    hide Waiting;
    WaitingGrows(n.queue, Some(job));
    assert (jobs + [job])[n.stats.requests..] == jobs[n.stats.requests..] + [job];
  }

  lemma ClosedJobs(n: Node, jobs: seq<Job>)
    requires JobsOk(n, jobs)
    ensures JobsOk(n.(queue := n.queue + [None]), jobs)
  {
    hide Waiting;
    WaitingGrows(n.queue, None);
  }

  /** In every interleaving a worker is busy with the very jobs that were submitted to its node, one after the other,
      each with its own session, retries and delay. */
  lemma {:induction false} JobsAreTakenInOrder(names: set<string>, exclusive: set<int>, events: seq<Event>, n: nat, name: string)
    requires n <= |events| && name in names
    ensures name in Run(names, exclusive, events, n).nodes
    ensures JobsOk(Run(names, exclusive, events, n).nodes[name], Accepted(names, exclusive, events, n, name))
    decreases n
  {
    hide Next, JobsOk;
    RunsKeepNodes(names, exclusive, events, n);
    if n == 0 {
      FreshJobs();
    } else {
      RunsKeepNodes(names, exclusive, events, n - 1);
      JobsAreTakenInOrder(names, exclusive, events, n - 1, name);
      NextJobs(Run(names, exclusive, events, n - 1), exclusive, events[n - 1], name,
               Accepted(names, exclusive, events, n - 1, name));
    }
  }

  lemma NextJobs(s: State, exclusive: set<int>, e: Event, name: string, jobs: seq<Job>)
    requires name in s.nodes && JobsOk(s.nodes[name], jobs) && name in Next(s, exclusive, e).nodes
    ensures JobsOk(Next(s, exclusive, e).nodes[name],
                   if e.Submit? && e.name == name && !s.closed && e.retries >= 0 && e.delay >= 0.0
                   then jobs + [Job(|jobs|, e.session, e.retries, e.delay)] else jobs)
  {
    hide Moved, JobsOk;
    assert |jobs| == s.nodes[name].submitted by { JobsCounted(s.nodes[name], jobs); }
    match e
    case Submit(_, session, retries, delay) =>
      if retries >= 0 { SubmittedJobs(s.nodes[name], jobs, Job(|jobs|, session, retries, delay)); }
    case Close => ClosedJobs(s.nodes[name], jobs);
    case _ => if e.name == name { MovedJobs(s, exclusive, e, jobs); }
  }

  lemma FreshJobs()
    ensures JobsOk(FRESH, [])
  {}

  lemma JobsCounted(n: Node, jobs: seq<Job>)
    requires JobsOk(n, jobs)
    ensures n.submitted == |jobs|
  {
    hide Waiting;
  }

  // ---- Answers ----

  /** When a job is refused, and why; a refused one leaves everything as it was. */
  lemma SubmitAnswers(s: State, exclusive: set<int>, name: string, session: Option<int>, retries: int, delay: real)
    ensures var r := Submitted(s, name, session, retries, delay);
            && (r == Result.Err(Closed) <==> s.closed)
            && (r == Result.Err(UnknownNode) <==> !s.closed && name !in s.nodes)
            && (r == Result.Err(NegativeRetries) <==> !s.closed && name in s.nodes && retries < 0)
            && (r == Result.Err(NegativeDelay) <==> !s.closed && name in s.nodes && retries >= 0 && delay < 0.0)
            && (r.Err? ==> Next(s, exclusive, Submit(name, session, retries, delay)) == s)
  {}

  /** What a look for conflicts does for a job that waits for its session: it goes on in its session exactly if no other
      node is in an exclusive one, and is given up exactly if one is and the time is over. */
  lemma AcquireAnswers(s: State, exclusive: set<int>, name: string, expired: bool)
    requires name in s.nodes && s.nodes[name].phase.Acquiring? && s.nodes[name].phase.job.session.Some?
    ensures var n, n1 := s.nodes[name], Next(s, exclusive, Acquire(name, expired)).nodes[name];
            var free := forall other :: other in s.nodes && other != name ==> s.nodes[other].session !in exclusive;
            && (n1.phase.Trying? <==> free) && (n1.phase.Trying? ==> n1.session == n.phase.job.session.value)
            && (n1.phase.Skipping? <==> !free && expired)
            && (n1 == n <==> !free && !expired)
  {}

  /** When the plain guard refuses to enter a session. */
  lemma EnterAnswers(active: map<string, int>, names: set<string>, exclusive: set<int>, name: string, session: int)
    ensures var r := Entered(active, names, exclusive, name, session);
            && (r == Result.Err(NoSuchNode) <==> name !in names)
            && (r == Result.Err(SessionConflict)
                <==> name in names && session in exclusive
                     && exists other :: other in active && other != name && active[other] in exclusive)
            && (r.Ok? ==> r.value == active[name := session])
  {}

  // ---- Calls ----

  /** How the calls of the current job have ended so far, as the events tell. */
  function CallsOf(names: set<string>, exclusive: set<int>, events: seq<Event>, n: nat, name: string): seq<Try>
    requires n <= |events|
    decreases n
  {
    if n == 0 then []
    else
      var s, e := Run(names, exclusive, events, n - 1), events[n - 1];
      var before := CallsOf(names, exclusive, events, n - 1, name);
      if e.Take? && e.name == name && name in s.nodes && s.nodes[name].phase.Idle? then []
      else if e.Call? && e.name == name && name in s.nodes && s.nodes[name].phase.Trying? then before + [e.result]
      else before
  }

  /** What a worker remembers of the calls of its job. */
  predicate Remembers(p: Phase, tries: seq<Try>) {
    match p
    case Trying(_, _, t) => t == tries
    case Tried(_, _, t) => t == tries
    case Recording(_, t) => t == tries
    case Acquiring(_) => tries == []
    case _ => true
  }

  lemma MovedRemembers(s: State, exclusive: set<int>, e: Event, tries: seq<Try>)
    requires !e.Submit? && !e.Close? && e.name in s.nodes && Remembers(s.nodes[e.name].phase, tries)
    ensures var p := s.nodes[e.name].phase;
            Remembers(Moved(s, exclusive, e).phase,
                      if e.Take? && p.Idle? then [] else if e.Call? && p.Trying? then tries + [e.result] else tries)
  {
    hide Conflicted, Exclusive;
  }

  /** The calls that decide a job's outcome are exactly those that were made for it. */
  lemma {:induction false} CallsAreRemembered(names: set<string>, exclusive: set<int>, events: seq<Event>, n: nat, name: string)
    requires n <= |events| && name in names
    ensures name in Run(names, exclusive, events, n).nodes
    ensures Remembers(Run(names, exclusive, events, n).nodes[name].phase, CallsOf(names, exclusive, events, n, name))
    decreases n
  {
    hide Next, Remembers;
    RunsKeepNodes(names, exclusive, events, n);
    if n == 0 {
      IdleRemembers();
    } else {
      RunsKeepNodes(names, exclusive, events, n - 1);
      CallsAreRemembered(names, exclusive, events, n - 1, name);
      NextRemembers(Run(names, exclusive, events, n - 1), exclusive, events[n - 1], name,
                    CallsOf(names, exclusive, events, n - 1, name));
    }
  }

  lemma NextRemembers(s: State, exclusive: set<int>, e: Event, name: string, tries: seq<Try>)
    requires name in s.nodes && Remembers(s.nodes[name].phase, tries) && name in Next(s, exclusive, e).nodes
    ensures var p := s.nodes[name].phase;
            Remembers(Next(s, exclusive, e).nodes[name].phase,
                      if e.Take? && e.name == name && p.Idle? then []
                      else if e.Call? && e.name == name && p.Trying? then tries + [e.result] else tries)
  {
    hide Moved, Remembers;
    match e
    case Submit(_, _, _, _) =>
    case Close =>
    case _ => if e.name == name { MovedRemembers(s, exclusive, e, tries); }
  }

  lemma IdleRemembers()
    ensures Remembers(FRESH.phase, [])
  {}

  // ---- Counters ----

  /** How many of the first `k` futures have this status. */
  function Tally(futures: map<nat, Outcome>, status: Status, k: nat): nat {
    if k == 0 then 0
    else Tally(futures, status, k - 1) + if k - 1 in futures && futures[k - 1].status == status then 1 else 0
  }

  lemma {:induction false} TallySame(futures: map<nat, Outcome>, serial: nat, outcome: Outcome, status: Status, k: nat)
    requires k <= serial
    ensures Tally(futures[serial := outcome], status, k) == Tally(futures, status, k)
    decreases k
  {
    if k > 0 { TallySame(futures, serial, outcome, status, k - 1); }
  }

  function Finished(n: Node): int { n.stats.requests - Busy(n.phase) }

  /** Each counter of a node is the number of futures that were set to its status. */
  ghost predicate CountersOk(n: Node) {
    && 0 <= Finished(n)
    && n.stats.ok == Tally(n.futures, Succeeded, Finished(n))
    && n.stats.timeouts == Tally(n.futures, Timeout, Finished(n))
    && n.stats.errors == Tally(n.futures, Error, Finished(n))
    && n.stats.skipped == Tally(n.futures, Skipped, Finished(n))
  }

  lemma SettingCounts(n: Node, outcome: Outcome)
    requires CountersOk(n) && Current(n.phase).Some? && Current(n.phase).value.serial == Finished(n)
    ensures CountersOk(WithFuture(n.(stats := Counted(n.stats, outcome.status)), Current(n.phase).value.serial, outcome))
  {
    var k: nat := Finished(n);
    TallySame(n.futures, k, outcome, Succeeded, k);
    TallySame(n.futures, k, outcome, Timeout, k);
    TallySame(n.futures, k, outcome, Error, k);
    TallySame(n.futures, k, outcome, Skipped, k);
  }

  lemma MovedCounts(s: State, exclusive: set<int>, e: Event)
    requires !e.Submit? && !e.Close? && e.name in s.nodes && CountersOk(s.nodes[e.name]) && NodeOk(s.nodes[e.name], exclusive)
    ensures CountersOk(Moved(s, exclusive, e))
  {
    hide Conflicted, Exclusive, Tally, InOrder, JobsQueued, SessionOk, PhaseOk, Counted, StatusOf;
    var n := s.nodes[e.name];
    if e.Skip? && n.phase.Skipping? {
      SettingCounts(n, Outcome(Skipped, 0));
      assert Counted(n.stats, Skipped) == n.stats.(skipped := n.stats.skipped + 1) by { SkippedCounted(n.stats); }
    } else if e.Record? && n.phase.Recording? {
      SettingCounts(n, Outcome(StatusOf(n.phase.tries), |n.phase.tries|));
    }
  }

  lemma SkippedCounted(s: Stats)
    ensures Counted(s, Skipped) == s.(skipped := s.skipped + 1)
  {}

  /** In every interleaving the counters of a node are the numbers of its futures that were set to each status. */
  lemma {:induction false} CountersCountOutcomes(names: set<string>, exclusive: set<int>, events: seq<Event>, n: nat, name: string)
    requires n <= |events| && name in names
    ensures name in Run(names, exclusive, events, n).nodes && CountersOk(Run(names, exclusive, events, n).nodes[name])
    decreases n
  {
    hide Moved, CountersOk, NodeOk;
    RunsKeepNodes(names, exclusive, events, n);
    if n == 0 {
      FreshCounts();
    } else {
      RunsKeepNodes(names, exclusive, events, n - 1);
      CountersCountOutcomes(names, exclusive, events, n - 1, name);
      var s, e := Run(names, exclusive, events, n - 1), events[n - 1];
      match e
      case Submit(_, _, _, _) => QueueingCounts(s.nodes[name], Next(s, exclusive, e).nodes[name]);
      case Close => QueueingCounts(s.nodes[name], Next(s, exclusive, e).nodes[name]);
      case _ => if e.name == name { MovedCounts(s, exclusive, e); }
    }
  }

  lemma QueueingCounts(n: Node, m: Node)
    requires CountersOk(n)
    ensures m == n.(queue := m.queue, submitted := m.submitted) ==> CountersOk(m)
  {
    hide Tally;
  }

  lemma FreshCounts()
    ensures CountersOk(FRESH)
  {}
}
