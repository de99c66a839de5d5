/** What each service answers, byte by byte: codes and contents as the project documents and tests them. */
module UdsAnswers {
  import opened Bytes
  import opened UdsAccess
  import opened ParamStore
  import opened ParamLog
  import opened UdsEcu
  import opened UdsEcuRuns
  import opened UdsEcuStorage
  import opened UdsSaves
  import A = UdsAccessRuns
  import Crc32
  import L = ParamLogRuns

  /** A final negative response of this service with this code. */
  predicate Refuses(reply: Reply, service: Byte, code: Byte) { reply == Response([0x7F, service, code]) }

  // ---- Dispatch ----

  /** Which service answers, by the first byte of the request. */
  lemma Dispatched(w: World, config: Config, now: U32, request: seq<Byte>, capacity: nat, env: Env)
    requires |w.routines| == 2
    ensures var t := w.(access := Ticked(w.access, now));
            var reply := Processed(w, config, now, request, capacity, env).1;
            if request == [] then capacity >= 3 ==> Refuses(reply, 0, 0x13)
            else if request[0] == 0x10 then reply == SessionControl(t.access, now, request, capacity).1
            else if request[0] == 0x22 then reply == Read(t.dids, t.access.session, request, capacity)
            else if request[0] == 0x27 then reply == SecurityAccess(t.access, now, request, capacity).1
            else if request[0] == 0x2E then reply == Write(t, request, capacity).1
            else if request[0] == 0x31 then reply == Control(t, config, request, capacity, env).1
            else if request[0] == 0x3E then reply == TesterPresent(t.access, now, request, capacity).1
            else capacity >= 3 ==> Refuses(reply, request[0], 0x11)
  {
    hide Ticked, SessionControl, TesterPresent, SecurityAccess, Read, Write, Control, KeptAlive;
  }

  /** A request that keeps the session alive though it may stay silent. */
  predicate IsKeepAlive(request: seq<Byte>) {
    |request| == 2 && ((request[0] == 0x10 && 1 <= request[1] % 0x80 <= 3) || (request[0] == 0x3E && request[1] % 0x80 == 0))
  }

  /** The session's end as the time `now` sets it. */
  function EndAt(session: Byte, now: U32): Option<U32> {
    if session == 1 then None else Some((now + 5000) % 0x1_0000_0000)
  }

  predicate TimerOk(a: State) { a.s3.None? <==> a.session == 1 }

  predicate IsPositive(reply: Reply) { reply.Pending? || (reply.Response? && reply.bytes != [] && reply.bytes[0] != 0x7F) }

  /** A positive answer, or the note that one follows, restarts the five seconds of the session, and so do the session and
      tester services also when they stay silent. No other call moves the end of a session. */
  lemma Prolongs(w: World, config: Config, now: U32, request: seq<Byte>, capacity: nat, env: Env)
    requires |w.routines| == 2 && TimerOk(w.access)
    ensures var (w1, reply) := Processed(w, config, now, request, capacity, env);
            w1.access.s3 == if IsKeepAlive(request) || IsPositive(reply) then EndAt(w1.access.session, now)
                            else Ticked(w.access, now).s3
  {
    hide Ticked, Dispatch, IsKeepAlive, EndAt;
    TickKeepsTimer(w.access, now);
    if request == [] {
      assert !IsKeepAlive(request) by { NothingKeeps(); }
    } else {
      DispatchProlongs(w.(access := Ticked(w.access, now)), config, now, request, capacity, env);
    }
  }

  lemma NothingKeeps()
    ensures !IsKeepAlive([])
  {}

  lemma DispatchProlongs(t: World, config: Config, now: U32, request: seq<Byte>, capacity: nat, env: Env)
    requires |t.routines| == 2 && request != [] && TimerOk(t.access)
    ensures var (w1, reply) := Dispatch(t, config, now, request, capacity, env);
            w1.access.s3 == if IsKeepAlive(request) || IsPositive(reply) then EndAt(w1.access.session, now) else t.access.s3
  {
    hide SecurityAccess, Read, Write, Control, SessionControl, TesterPresent, Refreshed, EndAt;
    if request[0] == 0x10 {
      SessionProlongs(t.access, now, request, capacity);
    } else if request[0] == 0x3E {
      TesterProlongs(t.access, now, request, capacity);
    } else if request[0] == 0x22 {
      Refreshes(t, now, Read(t.dids, t.access.session, request, capacity));
    } else if request[0] == 0x27 {
      SecurityKeepsTimer(t.access, now, request, capacity);
      var (a, reply) := SecurityAccess(t.access, now, request, capacity);
      Refreshes(t.(access := a), now, reply);
    } else if request[0] == 0x2E {
      WriteKeepsAccess(t, request, capacity);
      Refreshes(Write(t, request, capacity).0, now, Write(t, request, capacity).1);
    } else if request[0] == 0x31 {
      RoutineKeepsAccess(t, config, request, capacity, env);
      Refreshes(Control(t, config, request, capacity, env).0, now, Control(t, config, request, capacity, env).1);
    }
  }

  lemma Refreshes(w: World, now: U32, reply: Reply)
    requires TimerOk(w.access)
    ensures var a := Refreshed(w, now, reply).access;
            a.session == w.access.session && a.s3 == if IsPositive(reply) then EndAt(a.session, now) else w.access.s3
  {}

  lemma SessionProlongs(a: State, now: U32, request: seq<Byte>, capacity: nat)
    requires request != [] && request[0] == 0x10
    ensures var (b, reply) := SessionControl(a, now, request, capacity);
            b.s3 == if IsKeepAlive(request) then EndAt(b.session, now) else a.s3
    ensures IsPositive(SessionControl(a, now, request, capacity).1) ==> IsKeepAlive(request)
  {
    hide SessionAllowed;
    if |request| == 2 && 1 <= request[1] % 0x80 <= 3 { A.AllSupported(request[1] % 0x80); }
  }

  lemma TesterProlongs(a: State, now: U32, request: seq<Byte>, capacity: nat)
    requires request != [] && request[0] == 0x3E && TimerOk(a)
    ensures var (b, reply) := TesterPresent(a, now, request, capacity);
            b.session == a.session && b.s3 == if IsKeepAlive(request) then EndAt(b.session, now) else a.s3
    ensures IsPositive(TesterPresent(a, now, request, capacity).1) ==> IsKeepAlive(request)
  {}

  lemma TickKeepsTimer(a: State, now: U32)
    requires TimerOk(a)
    ensures TimerOk(Ticked(a, now))
  {
    hide Reached, Later;
  }

  lemma SecurityKeepsTimer(a: State, now: U32, request: seq<Byte>, capacity: nat)
    ensures var b := SecurityAccess(a, now, request, capacity).0; b.s3 == a.s3 && b.session == a.session
  {
    hide ComputeKey, FromBigEndian, BigEndian, NextState, SeedOf, Later, Reached;
  }

  lemma WriteKeepsAccess(w: World, request: seq<Byte>, capacity: nat)
    ensures Write(w, request, capacity).0.access == w.access
  {
    hide WriteRefused;
  }

  lemma RoutineKeepsAccess(w: World, config: Config, request: seq<Byte>, capacity: nat, env: Env)
    requires |w.routines| == 2
    ensures Control(w, config, request, capacity, env).0.access == w.access
  {
    hide RoutineRefused, InitialDids, Wiped, Truncated, RoutineReply, ReplyPending;
  }

  // ---- Session, tester present ----

  lemma SessionAnswers(a: State, now: U32, request: seq<Byte>, capacity: nat)
    requires capacity >= 6
    ensures var (b, reply) := SessionControl(a, now, request, capacity);
            if |request| != 2 then Refuses(reply, 0x10, 0x13)
            else
              var session := request[1] % 0x80;
              if !(1 <= session <= 3) then Refuses(reply, 0x10, 0x12)
              else b == (if session == a.session then a.(s3 := b.s3)
                         else a.(session := session, s3 := b.s3, unlocked := false, seed := None, attempts := 0))
                   && reply == if request[1] >= 0x80 then NoResponse else Response([0x50, session, 0x00, 0x32, 0x01, 0xF4])
  {
    hide SessionAllowed;
    if |request| == 2 && 1 <= request[1] % 0x80 <= 3 { A.AllSupported(request[1] % 0x80); }
  }

  lemma TesterAnswers(a: State, now: U32, request: seq<Byte>, capacity: nat)
    requires capacity >= 3
    ensures var reply := TesterPresent(a, now, request, capacity).1;
            if |request| != 2 then Refuses(reply, 0x3E, 0x13)
            else if request[1] % 0x80 != 0 then Refuses(reply, 0x3E, 0x12)
            else reply == if request[1] >= 0x80 then NoResponse else Response([0x7E, 0x00])
  {
    hide KeptAlive;
  }

  // ---- Security ----

  /** The refusals of the security service in their order, and its positive answers. The third wrong key of a row has
      a code of its own. */
  lemma SecurityAnswers(a: State, now: U32, request: seq<Byte>, capacity: nat)
    requires capacity >= 6
    ensures var reply := SecurityAccess(a, now, request, capacity).1;
            var (d, delayed) := DelayChecked(a, now);
            if |request| < 2 then Refuses(reply, 0x27, 0x13)
            else
              var sub := request[1] % 0x80;
              if sub != 1 && sub != 2 then Refuses(reply, 0x27, 0x12)
              else if a.session != 2 && a.session != 3 then Refuses(reply, 0x27, 0x7E)
              else if delayed then Refuses(reply, 0x27, 0x37)
              else if sub == 1 then
                reply == if request[1] >= 0x80 then NoResponse
                         else Response([0x67, 0x01] + if a.unlocked then [0, 0, 0, 0] else BigEndian(SeedOf(NextState(a.seedState))))
              else if |request| != 6 then Refuses(reply, 0x27, 0x13)
              else if d.seed.None? then Refuses(reply, 0x27, 0x24)
              else if FromBigEndian(request[2..]) == ComputeKey(d.seed.value, 0x50324341) then
                reply == if request[1] >= 0x80 then NoResponse else Response([0x67, 0x02])
              else Refuses(reply, 0x27, if 2 <= d.attempts < 255 then 0x36 else 0x35)
  {
    hide ComputeKey, FromBigEndian, NextState, SeedOf, BigEndian, Reached, Later;
    ZeroBytes();
  }

  lemma ZeroBytes()
    ensures BigEndian(0) == [0, 0, 0, 0]
  {
    assert Crc32.Quarter(0, 0) == 0 && Crc32.Quarter(0, 1) == 0 && Crc32.Quarter(0, 2) == 0 && Crc32.Quarter(0, 3) == 0;
    assert Crc32.LowByte(0) == 0;
  }

  // ---- Reading ----

  lemma {:induction false} SameTail(dids: seq<Did>, session: Byte, x: seq<Byte>, i: nat, y: seq<Byte>, j: nat)
    requires |x| % 2 == 1 && i % 2 == 1 && i <= |x| && |y| % 2 == 1 && j % 2 == 1 && j <= |y| && x[i..] == y[j..]
    ensures Values(dids, x, i) == Values(dids, y, j) && Unreadable(dids, session, x, i) == Unreadable(dids, session, y, j)
    decreases |x| - i
  {
    hide Word, FindDid;
    assert |x| - i == |x[i..]| == |y[j..]| == |y| - j;
    if i < |x| {
      assert x[i] == x[i..][0] && y[j] == y[j..][0] && x[i + 1] == x[i..][1] && y[j + 1] == y[j..][1];
      assert x[i + 2..] == x[i..][2..] && y[j + 2..] == y[j..][2..];
      SameTail(dids, session, x, i + 2, y, j + 2);
    }
  }

  lemma {:induction false} TailsJoin(dids: seq<Did>, session: Byte, a: seq<Byte>, b: seq<Byte>, i: nat)
    requires |a| % 2 == 0 && |b| % 2 == 0 && i % 2 == 1 && i <= 1 + |a|
    ensures var x, y, z := [0x22] + a, [0x22] + b, [0x22] + a + b;
            && Values(dids, z, i) == Values(dids, x, i) + Values(dids, y, 1)
            && (Unreadable(dids, session, z, i) == if Unreadable(dids, session, x, i).Some? then Unreadable(dids, session, x, i)
                                                   else Unreadable(dids, session, y, 1))
    decreases |a| - i
  {
    hide Word, FindDid;
    var x, y, z := [0x22] + a, [0x22] + b, [0x22] + a + b;
    if i == 1 + |a| {
      assert z[i..] == b && y[1..] == b;
      SameTail(dids, session, z, i, y, 1);
    } else {
      assert z[i] == x[i] && z[i + 1] == x[i + 1];
      TailsJoin(dids, session, a, b, i + 2);
    }
  }

  /** Answers join as requests do, in the same order: with room for it, reading the identifiers `a` and then `b` shows
      what reading `a` shows and then what reading `b` shows. */
  lemma ReadsJoin(dids: seq<Did>, session: Byte, a: seq<Byte>, b: seq<Byte>, shownA: seq<Byte>, shownB: seq<Byte>,
                  roomA: nat, roomB: nat, room: nat)
    requires Read(dids, session, [0x22] + a, roomA) == Response([0x62] + shownA)
    requires Read(dids, session, [0x22] + b, roomB) == Response([0x62] + shownB)
    requires room >= 1 + |shownA| + |shownB| + (|a| + |b|) / 2
    ensures Read(dids, session, [0x22] + a + b, room) == Response([0x62] + shownA + shownB)
  {
    hide Values, Unreadable, Needed, Negative;
    AnsweredRead(dids, session, [0x22] + a, shownA, roomA);
    AnsweredRead(dids, session, [0x22] + b, shownB, roomB);
    assert |a| % 2 == 0 && |b| % 2 == 0;
    TailsJoin(dids, session, a, b, 1);
    ReadAnswersExactly(dids, session, [0x22] + a + b, room);
    assert [0x62] + (shownA + shownB) == [0x62] + shownA + shownB;
  }

  /** A positive answer shows the values of a readable request. */
  lemma AnsweredRead(dids: seq<Did>, session: Byte, request: seq<Byte>, shown: seq<Byte>, room: nat)
    requires Read(dids, session, request, room) == Response([0x62] + shown)
    ensures Readable(dids, session, request) && shown == Values(dids, request, 1)
  {
    hide Values, Unreadable, Needed;
    assert ([0x62] + shown)[0] == 0x62;
    if Readable(dids, session, request) {
      assert ([0x62] + shown)[1..] == shown && ([0x62] + Values(dids, request, 1))[1..] == Values(dids, request, 1);
    }
  }

  /** What a read of one identifier answers: its value, or why not. */
  lemma ReadAnswers(dids: seq<Did>, session: Byte, high: Byte, low: Byte, room: nat)
    requires room >= 3
    ensures var did, at := 256 * high as int + low as int, FindDid(dids, Word(high, low), 0);
            var reply := Read(dids, session, [0x22, high, low], room);
            && (at < |dids| ==> dids[at].did == did && forall j :: 0 <= j < at ==> dids[j].did != did)
            && (at == |dids| ==> forall j :: 0 <= j < |dids| ==> dids[j].did != did)
            && if at == |dids| then Refuses(reply, 0x22, 0x31)
               else if !SessionAllowed(dids[at].readMask, session) then Refuses(reply, 0x22, 0x7E)
               else if room < 4 + |dids[at].value| then reply == BufferTooSmall
               else reply == Response([0x62, high, low] + dids[at].value)
  {
    hide FindDid, SessionAllowed;
    var request := [0x22, high, low];
    assert Unreadable(dids, session, request, 3) == None && Needed(dids, request, 3) == 0 && Values(dids, request, 3) == [];
    var at := FindDid(dids, Word(high, low), 0);
    if at < |dids| {
      assert [0x62] + ([high, low] + dids[at].value + []) == [0x62, high, low] + dids[at].value;
    }
  }

  lemma ReadLength(dids: seq<Did>, session: Byte, request: seq<Byte>, room: nat)
    requires room >= 3 && (|request| < 3 || |request| % 2 == 0)
    ensures Refuses(Read(dids, session, request, room), 0x22, 0x13)
  {}

  /** A session mask lets a session pass when its bit is set, and everything when it is zero. */
  lemma Masks(session: Byte)
    ensures SessionAllowed(0, session)
    ensures SessionAllowed(0x0C, session) <==> session == 2 || session == 3
    ensures SessionAllowed(0x0E, session) <==> session == 1 || session == 2 || session == 3
  {
    assert Power(1) == 2;
    assert Power(2) == 4;
    assert Power(3) == 2 * Power(2);
    assert Power(4) == 2 * Power(3);
    assert Power(5) == 2 * Power(4);
    assert Power(6) == 2 * Power(5);
    assert Power(7) == 2 * Power(6);
  }

  /** Two identifiers of the first ECU variant: the hardware name and then the custom value. */
  lemma TwoNames(session: Byte)
    ensures Read(DefaultDids(F407), session, [0x22, 0xF1, 0x93, 0x01, 0x00], 64)
         == Response([0x62, 0xF1, 0x93] + Ascii("F407-HW-REV-A") + [0x01, 0x00, 0x00, 0x01])
    ensures Ascii("F407") == [0x46, 0x34, 0x30, 0x37]
  {
    hide Ascii, FindDid, Read;
    var dids := DefaultDids(F407);
    Masks(session);
    NameLength();
    ReadAnswers(dids, session, 0xF1, 0x93, 64);
    ReadAnswers(dids, session, 0x01, 0x00, 64);
    assert dids[1].did == 0xF193 && dids[2].did == 0x0100 && dids[0].did == 0xF190;
    var name := [0xF1, 0x93] + Ascii("F407-HW-REV-A");
    assert [0x62, 0xF1, 0x93] + Ascii("F407-HW-REV-A") == [0x62] + name;
    assert [0x62, 0x01, 0x00] + [0, 1] == [0x62] + [0x01, 0x00, 0, 1];
    assert [0x22] + [0xF1, 0x93] == [0x22, 0xF1, 0x93] && [0x22] + [0x01, 0x00] == [0x22, 0x01, 0x00];
    ReadsJoin(dids, session, [0xF1, 0x93], [0x01, 0x00], name, [0x01, 0x00, 0, 1], 64, 64, 64);
    assert [0x22] + [0xF1, 0x93] + [0x01, 0x00] == [0x22, 0xF1, 0x93, 0x01, 0x00];
    assert [0x62] + name + [0x01, 0x00, 0, 1] == [0x62, 0xF1, 0x93] + Ascii("F407-HW-REV-A") + [0x01, 0x00, 0x00, 0x01];
  }

  /** The six identifiers, and what they show before anything is written. */
  const IDENTIFIERS := [[0xF1, 0x90], [0xF1, 0x93], [0x01, 0x00], [0xF1, 0x91], [0xF1, 0x9A], [0xF1, 0x9B]]

  function FirstValue(variant: Variant, i: nat): seq<Byte> {
    match i
    case 0 => Ascii(if variant.F103? then "P2F103TESTVIN0001" else "P2F407TESTVIN0001")
    case 1 => Ascii(if variant.F103? then "F103-HW-REV-A" else "F407-HW-REV-A")
    case 2 => [0, 1]
    case 3 => [0, 0, 0, 0]
    case 4 => [0x65, 0x63, 0x75, if variant.F103? then 0x32 else 0x31]
    case _ => [0x56, 0x31, 0x2E, 0x30]
  }

  /** What both variants answer for each identifier before anything is written, in every session. */
  lemma FirstReads(variant: Variant, session: Byte, i: nat)
    requires i < 6
    ensures Read(DefaultDids(variant), session, [0x22] + IDENTIFIERS[i], 64)
         == Response([0x62] + IDENTIFIERS[i] + FirstValue(variant, i))
  {
    hide Ascii, Read, SessionAllowed, FindDid;
    var dids := DefaultDids(variant);
    Masks(session);
    Texts();
    var high, low := IDENTIFIERS[i][0], IDENTIFIERS[i][1];
    ReadAnswers(dids, session, high, low, 64);
    FirstRow(variant, i);
    FirstFound(variant, i);
    assert [0x22] + IDENTIFIERS[i] == [0x22, high, low];
    assert [0x62] + IDENTIFIERS[i] + dids[i].value == [0x62, high, low] + dids[i].value;
  }

  lemma FirstRow(variant: Variant, i: nat)
    requires i < 6
    ensures var d := DefaultDids(variant)[i];
            d.value == FirstValue(variant, i) && d.readMask == 0 && d.did == Word(IDENTIFIERS[i][0], IDENTIFIERS[i][1])
  {
    hide Ascii;
    Texts();
  }

  lemma FirstFound(variant: Variant, i: nat)
    requires i < 6
    ensures FindDid(DefaultDids(variant), Word(IDENTIFIERS[i][0], IDENTIFIERS[i][1]), 0) == i
  {
    hide Ascii;
    FirstRow(variant, 0);
    FirstRow(variant, 1);
    FirstRow(variant, 2);
    FirstRow(variant, 3);
    FirstRow(variant, 4);
    FirstRow(variant, 5);
  }

  lemma Texts()
    ensures |Ascii("P2F103TESTVIN0001")| == 17 && |Ascii("P2F407TESTVIN0001")| == 17
    ensures |Ascii("F103-HW-REV-A")| == 13 && |Ascii("F407-HW-REV-A")| == 13
    ensures Ascii("ecu1") == [0x65, 0x63, 0x75, 0x31] && Ascii("ecu2") == [0x65, 0x63, 0x75, 0x32]
    ensures Ascii("V1.0") == [0x56, 0x31, 0x2E, 0x30]
  {}

  lemma NameLength()
    ensures |Ascii("F407-HW-REV-A")| == 13 && Ascii("F407") == [0x46, 0x34, 0x30, 0x37]
  {}

  /** The first identifier that cannot be read decides the code. */
  lemma RefusalsJoin(dids: seq<Did>, session: Byte, a: seq<Byte>, b: seq<Byte>, code: Byte, room: nat)
    requires a != [] && |a| % 2 == 0 && |b| % 2 == 0 && room >= 3
    requires Refuses(Read(dids, session, [0x22] + a, room), 0x22, code)
          || (Readable(dids, session, [0x22] + a) && b != [] && Refuses(Read(dids, session, [0x22] + b, room), 0x22, code))
    ensures Refuses(Read(dids, session, [0x22] + a + b, room), 0x22, code)
  {
    hide Values, Unreadable, Needed;
    TailsJoin(dids, session, a, b, 1);
    if Readable(dids, session, [0x22] + a) {
      ReadsOrRefuses(dids, session, [0x22] + a, room);
      if b != [] { ReadsOrRefuses(dids, session, [0x22] + b, room); }
    }
  }

  lemma ReadsOrRefuses(dids: seq<Did>, session: Byte, request: seq<Byte>, room: nat)
    requires |request| >= 3 && |request| % 2 == 1
    ensures Readable(dids, session, request) ==> forall code :: !Refuses(Read(dids, session, request, room), 0x22, code)
  {
    hide Values, Unreadable, Needed;
    if Readable(dids, session, request) {
      ReadAnswersExactly(dids, session, request, room);
      assert ([0x62] + Values(dids, request, 1))[0] == 0x62;
    }
  }

  // ---- Writing ----

  /** The largest value of each identifier that may be written. */
  function WriteLimit(did: U16): nat { if did == 0xF190 then 17 else if did == 0x0100 then 16 else if did == 0xF191 then 4 else 0 }

  /** The refusals of the write service in their order, for the table of an ECU with its log attached; else the note that
      the answer follows. */
  lemma WriteAnswers(w: World, config: Config, request: seq<Byte>, capacity: nat)
    requires config.attached && w.dids == InitialDids(config, w.log.store) && capacity >= 3
    ensures var reply := Write(w, request, capacity).1;
            if |request| < 3 then Refuses(reply, 0x2E, 0x13)
            else
              var did := 256 * request[1] as int + request[2] as int;
              if did != 0xF190 && did != 0x0100 && did != 0xF191 then Refuses(reply, 0x2E, 0x31)
              else if w.access.session != 2 && w.access.session != 3 then Refuses(reply, 0x2E, 0x7E)
              else if !w.access.unlocked then Refuses(reply, 0x2E, 0x33)
              else if did == 0xF190 && w.access.session != 2 then Refuses(reply, 0x2E, 0x22)
              else if |request| - 3 > WriteLimit(did) then Refuses(reply, 0x2E, 0x31)
              else reply == Pending([0x7F, 0x2E, 0x78])
  {
    hide SessionAllowed, InitialDids;
    Masks(w.access.session);
    forall i | 0 <= i < 6
      ensures |w.dids| == 6 && w.dids[i].did == [0xF190, 0xF193, 0x0100, 0xF191, 0xF19A, 0xF19B][i]
      ensures i in {0, 2, 3} ==> w.dids[i].saved
    {
      TableRow(config, w.log.store, i);
      if i in {0, 2, 3} { SavedRow(config, w.log.store, i); }
    }
    TableRow(config, w.log.store, 0);
    if |request| >= 3 {
      var at := FindDid(w.dids, Word(request[1], request[2]), 0);
      if at < 6 {
        TableRow(config, w.log.store, at);
        assert at == 0 || at == 1 || at == 2 || at == 3 || at == 4 || at == 5;
      } else {
        assert w.dids[0].did == 0xF190 && w.dids[2].did == 0x0100 && w.dids[3].did == 0xF191;
      }
    }
  }

  lemma SavedRow(config: Config, store: Store, i: nat)
    requires config.attached && i in {0, 2, 3}
    ensures InitialDids(config, store)[i].saved
  {
    hide Get, Ascii;
  }

  /** Without the log a write takes effect at once and is answered. */
  lemma ImmediateWrite(w: World, request: seq<Byte>, capacity: nat, at: nat)
    requires |request| >= 3 && at < |w.dids| && w.dids[at].did == Word(request[1], request[2]) && capacity >= 3
    requires forall j :: 0 <= j < at ==> w.dids[j].did != w.dids[at].did
    requires w.dids[at] == DefaultDids(F407)[2].(value := w.dids[at].value) && |request| <= 19
    requires w.access.session == 3 && w.access.unlocked
    ensures Write(w, request, capacity)
         == (w.(dids := w.dids[at := w.dids[at].(value := request[3..])]), Response([0x6E, 0x01, 0x00]))
  {
    hide SessionAllowed, Ascii;
    Masks(w.access.session);
  }

  /** The code of a failed save. */
  lemma FailureCode(capacity: nat)
    requires capacity >= 3
    ensures Refuses(Negative(capacity, WRITE_DID, PROGRAMMING_FAILURE), 0x2E, 0x72)
  {}

  // ---- Routines ----

  /** The refusals of the routine service in their order, and the answers to a start and a stop. */
  lemma RoutineAnswers(w: World, config: Config, request: seq<Byte>, capacity: nat, env: Env)
    requires |w.routines| == 2 && capacity >= 4
    ensures var reply := Control(w, config, request, capacity, env).1;
            if |request| < 4 then Refuses(reply, 0x31, 0x13)
            else
              var id, sub := 256 * request[2] as int + request[3] as int, request[1] % 0x80;
              if id != 0x0203 && id != 0xFF00 then Refuses(reply, 0x31, 0x31)
              else
                var status := w.routines[if id == 0x0203 then 0 else 1].status;
                if !(1 <= sub <= 3) then Refuses(reply, 0x31, 0x12)
                else if w.access.session != 2 && w.access.session != 3 then Refuses(reply, 0x31, 0x7E)
                else if id == 0xFF00 && !w.access.unlocked then Refuses(reply, 0x31, 0x33)
                else if sub == 1 && status.Running? then Refuses(reply, 0x31, 0x22)
                else if (sub == 2 && !status.Running?) || (sub == 3 && status.Idle?) then Refuses(reply, 0x31, 0x24)
                else sub < 3 ==> reply == if request[1] >= 0x80 then NoResponse
                                          else Response([0x71, sub, request[2], request[3]])
  {
    hide SessionAllowed, InitialDids, Wiped, Truncated;
    Masks(w.access.session);
  }

  /** What a routine's work reports: the verdict of the self-test; and whether the log could be cleared. */
  function Verdict(w: World, config: Config, index: nat, env: Env): Byte {
    if !config.hooked then 0
    else if index == SELF_TEST then env.selfTest
    else if HasFreeSlot(w.flash, w.log) && env.words >= SLOT_WORDS then 0
    else 1
  }

  lemma ClearSucceedsExactly(f: seq<Byte>, log: LogState, words: nat)
    requires L.Healthy(f, log)
    ensures Wiped(f, log, words).2 <==> HasFreeSlot(f, log) && words >= SLOT_WORDS
  {
    hide L.Healthy, Encode, L.Images.Tidy, Append, HasFreeSlot;
    HealthyParts(f, log);
    L.Images.BlankIsTidy();
    if log.next < log.slots { AppendSucceedsExactly(f, log, EMPTY, words); } else { NoSlot(f, log); }
  }

  lemma NoSlot(f: seq<Byte>, log: LogState)
    ensures HasFreeSlot(f, log) ==> log.next < log.slots
  {}

  /** Work is done by the second request for a result, and what it reports is kept and answered as the result. */
  lemma WorkReports(w: World, config: Config, index: nat, env: Env)
    requires RoutinesOk(w) && index < 2 && L.Healthy(w.flash, w.log)
    requires w.routines[index].status.Running? && w.routines[index].polls != 0
    ensures var (w1, status, result) := Handled(w, config, index, RESULTS, env);
            && status == Complete && result == [Verdict(w, config, index, env)]
            && |w1.routines| == 2 && w1.routines[index].result == result && w1.routines[index].code == result[0]
            && w1.worked == w.worked + [index]
  {
    hide InitialDids, Wiped, L.Healthy, HasFreeSlot;
    ClearSucceedsExactly(w.flash, w.log, env.words);
  }
}
