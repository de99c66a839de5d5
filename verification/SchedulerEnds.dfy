/** How scheduling ends: workers stop with empty queues, and every submitted job can be finished. */
module SchedulerEnds {
  import opened Bytes
  import opened Scheduler
  import opened SchedulerRuns

  // ---- Stop marks ----

  /** No stop mark waits in this queue. */
  predicate JobsOnly(queue: seq<Option<Job>>) {
    forall i :: 0 <= i < |queue| ==> queue[i].Some?
  }

  /** Before closing there is no stop mark; afterwards there is one, at the end of the queue, until the worker has
      stopped on it. */
  predicate QueueOk(n: Node, closed: bool) {
    if !closed then JobsOnly(n.queue) && !n.phase.Stopped?
    else if n.phase.Stopped? then n.queue == []
    else n.queue != [] && n.queue[|n.queue| - 1].None? && JobsOnly(n.queue[..|n.queue| - 1])
  }

  ghost predicate Orderly(s: State) {
    forall name :: name in s.nodes ==> QueueOk(s.nodes[name], s.closed)
  }

  lemma TookQueue(n: Node, exclusive: set<int>, closed: bool)
    requires QueueOk(n, closed)
    ensures QueueOk(Took(n, exclusive), closed)
  {
    hide Exclusive;
    if n.phase.Idle? && n.queue != [] {
      var rest := n.queue[1..];
      if closed && n.queue[0].Some? {
        assert rest[..|rest| - 1] == n.queue[..|n.queue| - 1][1..];
      }
    }
  }

  lemma MovedQueue(s: State, exclusive: set<int>, e: Event)
    requires !e.Submit? && !e.Close? && e.name in s.nodes && QueueOk(s.nodes[e.name], s.closed)
    ensures QueueOk(Moved(s, exclusive, e), s.closed)
  {
    hide Took, Conflicted, Exclusive;
    if e.Take? { TookQueue(s.nodes[e.name], exclusive, s.closed); }
  }

  lemma NextStaysOrderly(s: State, exclusive: set<int>, e: Event)
    requires Orderly(s)
    ensures Orderly(Next(s, exclusive, e))
  {
    hide Moved;
    match e
    case Submit(_, _, _, _) =>
    case Close =>
    case _ => if e.name in s.nodes { MovedQueue(s, exclusive, e); }
  }

  lemma {:induction false} RunsStayOrderly(names: set<string>, exclusive: set<int>, events: seq<Event>, n: nat)
    requires n <= |events|
    ensures Orderly(Run(names, exclusive, events, n))
    decreases n
  {
    hide Next;
    if n > 0 {
      RunsStayOrderly(names, exclusive, events, n - 1);
      NextStaysOrderly(Run(names, exclusive, events, n - 1), exclusive, events[n - 1]);
    }
  }

  /** A worker that has stopped leaves no job behind: its queue is empty, and the future of every job that was
      ever submitted to it is set. */
  lemma StoppedMeansDone(names: set<string>, exclusive: set<int>, events: seq<Event>, n: nat, name: string)
    requires n <= |events| && name in Run(names, exclusive, events, n).nodes
    requires Run(names, exclusive, events, n).nodes[name].phase.Stopped?
    ensures var node := Run(names, exclusive, events, n).nodes[name];
            node.queue == [] && forall k: nat :: k in node.futures <==> k < node.submitted
  {
    hide Run, InOrder, PhaseOk, SessionOk;
    RunsKeepNodes(names, exclusive, events, n);
    RunsStayOrderly(names, exclusive, events, n);
    var node := Run(names, exclusive, events, n).nodes[name];
    assert QueueOk(node, Run(names, exclusive, events, n).closed);
  }

  // ---- Finishing ----

  function PhaseRank(p: Phase): nat {
    match p
    case Idle => 0
    case Stopped => 0
    case Acquiring(_) => 4
    case Skipping(_) => 1
    case Trying(_, _, _) => 3
    case Tried(_, _, _) => 2
    case Recording(_, _) => 1
  }

  /** How many of its own steps a node is at most away from having no work. */
  function Rank(n: Node): nat { 5 * JobsQueued(n.queue) + PhaseRank(n.phase) }

  /** The worker's next step, if the function of its job succeeds and its waiting time is over. */
  function Step(name: string, p: Phase): Event {
    match p
    case Idle => Take(name)
    case Stopped => Take(name)
    case Acquiring(_) => Acquire(name, true)
    case Skipping(_) => Skip(name)
    case Trying(_, _, _) => Call(name, Success)
    case Tried(_, _, _) => Release(name)
    case Recording(_, _) => Record(name)
  }

  /** While jobs are queued, one of them is at the front. */
  lemma FrontIsJob(n: Node, closed: bool)
    requires QueueOk(n, closed) && JobsQueued(n.queue) > 0
    ensures n.queue[0].Some?
  {
    if closed && |n.queue| > 1 {
      assert n.queue[..|n.queue| - 1][0] == n.queue[0];
    }
  }

  /** A node with work waits for its worker only, never for another node. */
  lemma StepWorks(s: State, exclusive: set<int>, name: string)
    requires name in s.nodes && NodeOk(s.nodes[name], exclusive) && QueueOk(s.nodes[name], s.closed)
    requires Rank(s.nodes[name]) > 0
    ensures Rank(Moved(s, exclusive, Step(name, s.nodes[name].phase))) < Rank(s.nodes[name])
    ensures Moved(s, exclusive, Step(name, s.nodes[name].phase)).submitted == s.nodes[name].submitted
  {
    hide Conflicted, InOrder, FuturesOk, SessionOk, OnlyTimeouts, FinishedTries;
    var n := s.nodes[name];
    if n.phase.Idle? { FrontIsJob(n, s.closed); }
  }

  function RunFrom(s: State, exclusive: set<int>, events: seq<Event>): State
    decreases |events|
  {
    if events == [] then s else Next(RunFrom(s, exclusive, events[..|events| - 1]), exclusive, events[|events| - 1])
  }

  lemma {:induction false} RunFromJoins(s: State, exclusive: set<int>, x: seq<Event>, y: seq<Event>)
    ensures RunFrom(s, exclusive, x + y) == RunFrom(RunFrom(s, exclusive, x), exclusive, y)
    decreases |y|
  {
    hide Next;
    if y == [] {
      assert x + y == x;
    } else {
      assert (x + y)[..|x + y| - 1] == x + y[..|y| - 1];
      RunFromJoins(s, exclusive, x, y[..|y| - 1]);
    }
  }

  lemma {:induction false} RunIsRunFrom(names: set<string>, exclusive: set<int>, events: seq<Event>, n: nat)
    requires n <= |events|
    ensures Run(names, exclusive, events, n) == RunFrom(Start(names), exclusive, events[..n])
    decreases n
  {
    hide Next;
    if n > 0 {
      RunIsRunFrom(names, exclusive, events, n - 1);
      assert events[..n][..n - 1] == events[..n - 1];
    }
  }

  ghost predicate Workable(s: State, exclusive: set<int>) { AllOk(s, exclusive) && Orderly(s) }

  /** Work of other nodes is left alone, and no job is submitted. */
  ghost predicate OnlyNode(s: State, t: State, name: string) {
    && t.nodes.Keys == s.nodes.Keys && t.closed == s.closed
    && (forall other :: other in s.nodes && other != name ==> t.nodes[other] == s.nodes[other])
    && (name in s.nodes ==> t.nodes[name].submitted == s.nodes[name].submitted)
  }

  lemma StepMoves(s: State, exclusive: set<int>, name: string)
    requires name in s.nodes
    ensures var e := Step(name, s.nodes[name].phase);
            !e.Submit? && !e.Close? && e.name == name
            && Next(s, exclusive, e) == s.(nodes := s.nodes[name := Moved(s, exclusive, e)])
  {
    hide Moved;
  }

  /** One node finishes all its work by its own steps. */
  lemma {:induction false} FinishNode(s: State, exclusive: set<int>, name: string) returns (events: seq<Event>)
    requires Workable(s, exclusive) && name in s.nodes
    ensures var t := RunFrom(s, exclusive, events);
            Workable(t, exclusive) && OnlyNode(s, t, name) && Rank(t.nodes[name]) == 0
    decreases Rank(s.nodes[name])
  {
    hide NodeOk, QueueOk, Next, Moved, Rank, Step;
    if Rank(s.nodes[name]) == 0 {
      events := [];
    } else {
      var e := Step(name, s.nodes[name].phase);
      StepWorks(s, exclusive, name);
      StepMoves(s, exclusive, name);
      NextKeepsNodes(s, exclusive, e);
      NextStaysOrderly(s, exclusive, e);
      var rest := FinishNode(Next(s, exclusive, e), exclusive, name);
      events := [e] + rest;
      assert RunFrom(s, exclusive, [e]) == Next(s, exclusive, e) by { assert [e][..0] == []; }
      RunFromJoins(s, exclusive, [e], rest);
    }
  }

  /** All nodes of a set finish, one after the other. */
  lemma {:induction false} FinishAll(s: State, exclusive: set<int>, rest: set<string>) returns (events: seq<Event>)
    requires Workable(s, exclusive) && rest <= s.nodes.Keys
    ensures var t := RunFrom(s, exclusive, events);
            && Workable(t, exclusive) && t.nodes.Keys == s.nodes.Keys
            && (forall name :: name in rest ==> Rank(t.nodes[name]) == 0)
            && (forall name :: name in s.nodes ==> t.nodes[name].submitted == s.nodes[name].submitted)
            && (forall name :: name in s.nodes && name !in rest ==> t.nodes[name] == s.nodes[name])
    decreases rest
  {
    hide NodeOk, QueueOk, Next, Rank;
    if rest == {} {
      events := [];
    } else {
      var name :| name in rest;
      var first := FinishNode(s, exclusive, name);
      var others := FinishAll(RunFrom(s, exclusive, first), exclusive, rest - {name});
      events := first + others;
      RunFromJoins(s, exclusive, first, others);
    }
  }

  lemma RankZeroIsDone(n: Node, exclusive: set<int>)
    requires NodeOk(n, exclusive) && Rank(n) == 0
    ensures forall k: nat :: k in n.futures <==> k < n.submitted
  {
    hide InOrder, PhaseOk, SessionOk;
  }

  /** However clients and workers have been interleaved, some way to go on sets every future that was promised:
      no worker is ever stuck. */
  lemma EveryFutureCanBeSet(names: set<string>, exclusive: set<int>, events: seq<Event>) returns (more: seq<Event>)
    ensures var s, t := Run(names, exclusive, events, |events|), Run(names, exclusive, events + more, |events + more|);
            && t.nodes.Keys == s.nodes.Keys == names
            && forall name :: name in names ==>
                 && t.nodes[name].submitted == s.nodes[name].submitted
                 && forall k: nat :: k in t.nodes[name].futures <==> k < s.nodes[name].submitted
  {
    hide Run, NodeOk, QueueOk, Rank;
    var s := Run(names, exclusive, events, |events|);
    RunsKeepNodes(names, exclusive, events, |events|);
    RunsStayOrderly(names, exclusive, events, |events|);
    more := FinishAll(s, exclusive, names);
    RunIsRunFrom(names, exclusive, events, |events|);
    RunIsRunFrom(names, exclusive, events + more, |events + more|);
    assert events[..|events|] == events && (events + more)[..|events + more|] == events + more;
    RunFromJoins(Start(names), exclusive, events, more);
    var t := Run(names, exclusive, events + more, |events + more|);
    forall name | name in names
      ensures forall k: nat :: k in t.nodes[name].futures <==> k < s.nodes[name].submitted
    {
      RankZeroIsDone(t.nodes[name], exclusive);
    }
  }
}
