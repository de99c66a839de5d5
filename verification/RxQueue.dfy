/** The receive queue between the CAN interrupt, which pushes, and the main loop, which pops. */
module RxQueue {
  import opened Bytes

  const DEPTH := 16
  const CELLS := 17
  const MAX_DATA := 8

  type Payload = d: seq<Byte> | |d| == MAX_DATA witness [0, 0, 0, 0, 0, 0, 0, 0]

  datatype Frame = Frame(id: U32, length: Byte, data: Payload)

  const BLANK := Frame(0, 0, [0, 0, 0, 0, 0, 0, 0, 0])

  /** The queue's memory. One cell always stays free. */
  datatype Memory = Memory(frames: seq<Frame>, head: nat, tail: nat, dropped: U32)

  predicate Valid(q: Memory) { |q.frames| == CELLS && q.head < CELLS && q.tail < CELLS }

  function After(i: nat): (r: nat)
    ensures r < CELLS
  {
    (i + 1) % CELLS
  }

  /** How many frames lie from `tail` up to `head`, around the ring. */
  function Distance(head: nat, tail: nat): (n: nat)
    requires head < CELLS && tail < CELLS
    ensures n <= DEPTH && (n == 0 <==> head == tail)
  {
    if tail <= head then head - tail else head + CELLS - tail
  }

  /** The frames waiting, oldest first. */
  function Queued(frames: seq<Frame>, head: nat, tail: nat): (r: seq<Frame>)
    requires |frames| == CELLS && head < CELLS && tail < CELLS
    ensures |r| == Distance(head, tail)
    decreases Distance(head, tail)
  {
    if head == tail then [] else [frames[tail]] + Queued(frames, head, After(tail))
  }

  /** The frame as it is stored: unused data bytes are cleared. */
  function Stored(id: U32, data: seq<Byte>): Frame
    requires |data| <= MAX_DATA
  {
    Frame(id, |data|, data + seq(MAX_DATA - |data|, _ => 0))
  }

  function Pushed(q: Memory, id: U32, data: seq<Byte>): (r: (Memory, bool))
    requires Valid(q)
    ensures Valid(r.0)
  {
    if |data| > MAX_DATA || After(q.head) == q.tail then (q.(dropped := Later(q.dropped, 1)), false)
    else (q.(frames := q.frames[q.head := Stored(id, data)], head := After(q.head)), true)
  }

  function Popped(q: Memory): (r: (Memory, Option<Frame>))
    requires Valid(q)
    ensures Valid(r.0)
  {
    if q.head == q.tail then (q, None) else (q.(tail := After(q.tail)), Some(q.frames[q.tail]))
  }

  /** Writing the free cell and moving the head appends one frame. */
  lemma {:induction false} QueuedGrows(frames: seq<Frame>, head: nat, tail: nat, f: Frame)
    requires |frames| == CELLS && head < CELLS && tail < CELLS && After(head) != tail
    ensures Queued(frames[head := f], After(head), tail) == Queued(frames, head, tail) + [f]
    decreases Distance(head, tail)
  {
    if head == tail {
      assert Queued(frames[head := f], After(head), After(tail)) == [];
    } else {
      QueuedGrows(frames, head, After(tail), f);
      QueuedStarts(frames, head, tail);
      QueuedStarts(frames[head := f], After(head), tail);
    }
  }

  lemma QueuedStarts(frames: seq<Frame>, head: nat, tail: nat)
    requires |frames| == CELLS && head < CELLS && tail < CELLS && head != tail
    ensures Queued(frames, head, tail) == [frames[tail]] + Queued(frames, head, After(tail))
  {}

  /** A push is refused exactly when the data are too long or sixteen frames wait; else it goes last. */
  lemma PushAppends(q: Memory, id: U32, data: seq<Byte>)
    requires Valid(q)
    ensures var (q1, ok) := Pushed(q, id, data);
            && ok == (|data| <= MAX_DATA && |Queued(q.frames, q.head, q.tail)| < DEPTH)
            && Queued(q1.frames, q1.head, q1.tail)
               == Queued(q.frames, q.head, q.tail) + (if ok then [Stored(id, data)] else [])
            && q1.dropped == (if ok then q.dropped else Later(q.dropped, 1))
  {
    hide Queued;
    if |data| <= MAX_DATA && After(q.head) != q.tail {
      QueuedGrows(q.frames, q.head, q.tail, Stored(id, data));
    }
  }

  class Queue {
    const frames: array<Frame>
    var head: nat
    var tail: nat
    var dropped: U32

    ghost function Now(): Memory
      reads this, frames
    {
      Memory(frames[..], head, tail, dropped)
    }

    ghost function Contents(): seq<Frame>
      requires Valid(Now())
      reads this, frames
    {
      Queued(frames[..], head, tail)
    }

    constructor ()
      ensures Valid(Now()) && Contents() == [] && dropped == 0 && fresh(frames)
    {
      frames := new Frame[CELLS](_ => BLANK);
      head, tail, dropped := 0, 0, 0;
    }

    method Push(id: U32, data: seq<Byte>) returns (ok: bool)
      requires Valid(Now())
      modifies this`head, this`dropped, frames
      ensures (Now(), ok) == Pushed(old(Now()), id, data) && Valid(Now())
      ensures ok == (|data| <= MAX_DATA && old(|Contents()|) < DEPTH)
      ensures Contents() == old(Contents()) + if ok then [Stored(id, data)] else []
    {
      hide Queued;
      PushAppends(Now(), id, data);
      if |data| > MAX_DATA {
        dropped := Later(dropped, 1);
        return false;
      }
      var index := head;
      var next := After(index);
      if next == tail {
        dropped := Later(dropped, 1);
        return false;
      }
      frames[index] := Frame(id, |data|, data + seq(MAX_DATA - |data|, _ => 0));
      head := next;
      return true;
    }

    method Pop() returns (frame: Option<Frame>)
      requires Valid(Now())
      modifies this`tail
      ensures (Now(), frame) == Popped(old(Now())) && Valid(Now())
      ensures if old(Contents()) == [] then frame == None && Contents() == []
              else frame == Some(old(Contents())[0]) && Contents() == old(Contents())[1..]
    {
      if head == tail { return None; }
      var index := tail;
      frame := Some(frames[index]);
      tail := After(index);
    }
  }
}

/** The same queue with the interrupt free to push between any two statements of a pop. */
module RxQueueRuns {
  import opened Bytes
  import opened RxQueue

  /** Where the main loop stands in a pop: outside, after reading the head, or copying a frame piece by
      piece into the caller's frame, which may hold anything before. */
  datatype Place = Outside | HeadRead(head: nat) | Copying(index: nat, copy: Frame, pieces: nat)

  /** The queue, the place in the pop, and what has been accepted, rejected and popped so far. */
  datatype Machine = Machine(q: Memory, at: Place, accepted: seq<Frame>, rejected: nat, popped: seq<Frame>)

  /** One push by the interrupt, or the next statement of the main loop; `scratch` is the caller's frame. */
  datatype Event = Interrupt(id: U32, data: seq<Byte>) | Statement(scratch: Frame)

  const PIECES := 10

  /** Copies one piece of a frame: its identifier, its length, or one data byte. */
  function Piece(copy: Frame, from: Frame, k: nat): Frame
    requires k < PIECES
  {
    if k == 0 then copy.(id := from.id)
    else if k == 1 then copy.(length := from.length)
    else copy.(data := copy.data[k - 2 := from.data[k - 2]])
  }

  function Next(m: Machine, e: Event): (r: Machine)
    requires Valid(m.q) && (m.at.Copying? ==> m.at.index < CELLS && m.at.pieces <= PIECES)
    ensures Valid(r.q) && (r.at.Copying? ==> r.at.index < CELLS && r.at.pieces <= PIECES)
  {
    match e
    case Interrupt(id, data) =>
      var (q, ok) := Pushed(m.q, id, data);
      if ok && |data| <= MAX_DATA then m.(q := q, accepted := m.accepted + [Stored(id, data)])
      else m.(q := q, rejected := m.rejected + 1)
    case Statement(scratch) =>
      match m.at
      case Outside => m.(at := HeadRead(m.q.head))
      case HeadRead(head) => if head == m.q.tail then m.(at := Outside) else m.(at := Copying(m.q.tail, scratch, 0))
      case Copying(index, copy, pieces) =>
        if pieces < PIECES then m.(at := Copying(index, Piece(copy, m.q.frames[index], pieces), pieces + 1))
        else m.(q := m.q.(tail := After(index)), at := Outside, popped := m.popped + [copy])
  }

  /** The pieces copied so far are those of the frame. */
  ghost predicate CopiedUpTo(copy: Frame, f: Frame, pieces: nat) {
    && (pieces > 0 ==> copy.id == f.id) && (pieces > 1 ==> copy.length == f.length)
    && forall j :: 0 <= j < MAX_DATA && j + 2 < pieces ==> copy.data[j] == f.data[j]
  }

  /** Everything accepted has been popped or waits in order; rejected pushes are counted; a pop under way
      works on the oldest frame and has copied it faithfully so far. */
  ghost predicate Inv(m: Machine) {
    && Valid(m.q)
    && m.accepted == m.popped + Queued(m.q.frames, m.q.head, m.q.tail)
    && m.q.dropped == m.rejected % 0x1_0000_0000
    && (m.at.HeadRead? && m.at.head != m.q.tail ==> m.q.head != m.q.tail)
    && (m.at.Copying? ==>
          && m.at.index == m.q.tail && m.q.head != m.q.tail && m.at.pieces <= PIECES
          && CopiedUpTo(m.at.copy, m.q.frames[m.q.tail], m.at.pieces))
  }

  lemma PieceCopies(copy: Frame, f: Frame, k: nat)
    requires k < PIECES && CopiedUpTo(copy, f, k)
    ensures CopiedUpTo(Piece(copy, f, k), f, k + 1)
  {}

  lemma WholeCopy(copy: Frame, f: Frame)
    requires CopiedUpTo(copy, f, PIECES)
    ensures copy == f
  {
    forall j | 0 <= j < MAX_DATA ensures copy.data[j] == f.data[j] { assert j + 2 < PIECES; }
    assert copy.data == f.data;
  }

  /** A push at any point of a pop keeps the invariant: it never touches the frame being copied. */
  lemma InterruptKeeps(m: Machine, id: U32, data: seq<Byte>)
    requires Inv(m)
    ensures Inv(Next(m, Interrupt(id, data)))
  {
    hide Queued, CopiedUpTo;
    PushAppends(m.q, id, data);
    DroppedCounts(m.rejected);
  }

  lemma DroppedCounts(n: nat)
    ensures Later(n % 0x1_0000_0000, 1) == (n + 1) % 0x1_0000_0000
  {}

  lemma StatementKeeps(m: Machine, scratch: Frame)
    requires Inv(m)
    ensures Inv(Next(m, Statement(scratch)))
  {
    hide CopiedUpTo;
    match m.at
    case Outside =>
    case HeadRead(_) => NothingCopied(scratch, m.q.frames[m.q.tail]);
    case Copying(index, copy, pieces) =>
      if pieces < PIECES {
        PieceCopies(copy, m.q.frames[index], pieces);
      } else {
        WholeCopy(copy, m.q.frames[index]);
      }
  }

  lemma NothingCopied(copy: Frame, f: Frame)
    ensures CopiedUpTo(copy, f, 0)
  {}

  function Run(events: seq<Event>, n: nat): (r: Machine)
    requires n <= |events|
    ensures Valid(r.q) && (r.at.Copying? ==> r.at.index < CELLS && r.at.pieces <= PIECES)
    decreases n
  {
    if n == 0 then Machine(Memory(seq(CELLS, _ => BLANK), 0, 0, 0), Outside, [], 0, [])
    else Next(Run(events, n - 1), events[n - 1])
  }

  lemma {:induction false} RunsKeepInv(events: seq<Event>, n: nat)
    requires n <= |events|
    ensures Inv(Run(events, n))
    decreases n
  {
    hide Next;
    if n > 0 {
      RunsKeepInv(events, n - 1);
      match events[n - 1]
      case Interrupt(id, data) => InterruptKeeps(Run(events, n - 1), id, data);
      case Statement(scratch) => StatementKeeps(Run(events, n - 1), scratch);
    }
  }

  /** However pushes interrupt pops: popped frames are an untorn prefix of the accepted ones, accepted
      frames are exactly the popped and the waiting ones in order, never more than sixteen wait, and
      the drop counter counts the rejected pushes modulo its width. */
  lemma BoundedFifo(events: seq<Event>, n: nat)
    requires n <= |events|
    ensures var m := Run(events, n);
            && m.popped <= m.accepted
            && m.accepted == m.popped + Queued(m.q.frames, m.q.head, m.q.tail)
            && |m.accepted| - |m.popped| <= 16
            && m.q.dropped == m.rejected % 0x1_0000_0000
  {
    hide Run;
    RunsKeepInv(events, n);
  }

  /** The frame holds these data, and zeros behind them. */
  predicate IsFrameOf(f: Frame, id: U32, data: seq<Byte>) {
    && f.id == id && f.length == |data| <= |f.data| && f.data[..|data|] == data
    && forall i :: |data| <= i < |f.data| ==> f.data[i] == 0
  }

  /** Every push of up to eight bytes is accepted as long as fewer than sixteen frames are unpopped. */
  lemma AcceptedUnlessFull(events: seq<Event>, n: nat)
    requires n < |events| && events[n].Interrupt?
    ensures var m, m1 := Run(events, n), Run(events, n + 1);
            && (|m1.accepted| == |m.accepted| + 1
                <==> |events[n].data| <= 8 && |m.accepted| - |m.popped| < 16)
            && (|m1.accepted| == |m.accepted| + 1 ==>
                  m1.accepted[..|m.accepted|] == m.accepted
                  && IsFrameOf(m1.accepted[|m.accepted|], events[n].id, events[n].data))
            && (|m1.accepted| != |m.accepted| + 1 ==> m1.accepted == m.accepted && m1.rejected == m.rejected + 1)
  {
    hide Queued;
    RunsKeepInv(events, n);
    PushAppends(Run(events, n).q, events[n].id, events[n].data);
  }

  /** A pop gives up only if the queue was empty when it read the head: then all accepted frames had been
      popped at that moment. */
  lemma EmptyWhenRead(events: seq<Event>, n: nat)
    requires n < |events| && Run(events, n).at.Outside? && events[n].Statement?
    requires Run(events, n + 1).at.HeadRead? && Run(events, n + 1).at.head == Run(events, n).q.tail
    ensures Run(events, n).accepted == Run(events, n).popped
  {
    RunsKeepInv(events, n);
  }

  /** Statements of the main loop alone. */
  function Statements(m: Machine, scratch: Frame, count: nat): (r: Machine)
    requires Inv(m)
    ensures Inv(r)
    decreases count
  {
    if count == 0 then m
    else
      assert Inv(Next(m, Statement(scratch))) by { StatementKeeps(m, scratch); }
      Statements(Next(m, Statement(scratch)), scratch, count - 1)
  }

  lemma {:induction false} CopyRuns(m: Machine, scratch: Frame, left: nat)
    requires Inv(m) && m.at.Copying? && left == PIECES - m.at.pieces
    ensures var f := m.q.frames[m.q.tail];
            Statements(m, scratch, left + 1)
            == m.(q := m.q.(tail := After(m.q.tail)), at := Outside, popped := m.popped + [f])
    decreases left
  {
    hide CopiedUpTo, Queued;
    StatementKeeps(m, scratch);
    var m1 := Next(m, Statement(scratch));
    if left == 0 {
      WholeCopy(m.at.copy, m.q.frames[m.q.tail]);
      assert Statements(m1, scratch, 0) == m1;
    } else {
      CopyRuns(m1, scratch, left - 1);
    }
  }

  /** Left alone, the statements of a pop do what the pop is specified to do. */
  lemma UninterruptedPop(m: Machine, scratch: Frame)
    requires Inv(m) && m.at.Outside?
    ensures var (q, frame) := Popped(m.q);
            Statements(m, scratch, if frame.Some? then PIECES + 3 else 2)
            == m.(q := q, popped := m.popped + if frame.Some? then [frame.value] else [])
  {
    hide CopiedUpTo, Queued;
    StatementKeeps(m, scratch);
    var m1 := Next(m, Statement(scratch));
    StatementKeeps(m1, scratch);
    var m2 := Next(m1, Statement(scratch));
    if m.q.head == m.q.tail {
      assert Statements(m2, scratch, 0) == m2;
      assert Statements(m1, scratch, 1) == m2;
    } else {
      CopyRuns(m2, scratch, PIECES);
      assert Statements(m1, scratch, PIECES + 2) == Statements(m2, scratch, PIECES + 1);
    }
  }
}
