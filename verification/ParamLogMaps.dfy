/** The parameter log under any power cuts at all: a map, in which a cut write may be taken for a finished one. */
module ParamLogMaps {
  import opened Bytes
  import opened ParamStore
  import opened ParamLog
  import opened ParamLogRuns
  import opened ParamTorn
  import Images = ParamImages
  import Crc32
  import ParamEmpty

  // ---- What a torn slot can show ----

  /** The same bytes up to some point, and erased flash behind it. */
  predicate Blurs(seen: seq<Byte>, written: seq<Byte>) {
    |seen| == |written| && exists n: nat :: n <= |written| && Fades(seen, written, n)
  }

  predicate Fades(seen: seq<Byte>, written: seq<Byte>, n: nat)
    requires n <= |seen| == |written|
  {
    seen == written[..n] + Blank(|written| - n)
  }

  /** The same entries, with blurred values. */
  ghost predicate BlurredStore(seen: Store, written: Store) {
    forall i :: 0 <= i < MAX_ENTRIES ==> seen[i].did == written[i].did && Blurs(seen[i].value, written[i].value)
  }

  lemma TornBlurs(image: seq<Byte>, words: nat, from: nat, count: nat)
    requires |image| == IMAGE_SIZE && from + count <= IMAGE_SIZE
    ensures Blurs(Torn(image, words)[from..from + count], image[from..from + count])
  {
    var seen, written := Torn(image, words)[from..from + count], image[from..from + count];
    var n: nat := if 4 * words <= from then 0 else if 4 * words - from < count then 4 * words - from else count;
    forall i | 0 <= i < count ensures seen[i] == (written[..n] + Blank(count - n))[i] {
      assert seen[i] == Torn(image, words)[from + i];
    }
    assert Fades(seen, written, n);
  }

  lemma NothingBlurs(value: seq<Byte>)
    ensures Blurs(value, value)
  {
    assert Fades(value, value, |value|);
  }

  lemma EntryBlurs(entries: seq<Entry>, words: nat, i: nat)
    requires i < |entries| <= MAX_ENTRIES
    ensures var e := Misread(entries, Torn(ImageOf(entries), words))[i];
            e.did == entries[i].did && Blurs(e.value, entries[i].value)
  {
    hide ImageOf, Torn, GetU16, Record, Blurs;
    Images.EntryAt(entries, i);
    Images.EntryFields(ImageOf(entries), EntryStart(i), entries[i]);
    TornBlurs(ImageOf(entries), words, EntryStart(i) + 4, |entries[i].value|);
  }

  lemma FilledAt(entries: seq<Entry>, i: nat)
    requires |entries| <= MAX_ENTRIES && i < MAX_ENTRIES
    ensures Filled(entries)[i] == if i < |entries| then entries[i] else EMPTY_ENTRY
  {}

  /** A torn image that decodes shows the entries that were being written, blurred. */
  lemma TornStore(store: Store, words: nat)
    requires Images.Tidy(store) && words < SLOT_WORDS && Encode(store).Some?
    requires Decode(Torn(Encode(store).value, words)).Some?
    ensures BlurredStore(Decode(Torn(Encode(store).value, words)).value, store) && words >= 2
  {
    hide Decode, Torn, ImageOf, Live, Filled, Misread, Blurs, Known, Images.Tidy, Images.Distinct, Crc32.Crc;
    var entries := Live(store);
    Images.TidyParts(store);
    var misread := Misread(entries, Torn(ImageOf(entries), words));
    TornDecodesExactly(entries, words);
    forall i | 0 <= i < MAX_ENTRIES
      ensures Filled(misread)[i].did == store[i].did && Blurs(Filled(misread)[i].value, store[i].value)
    {
      FilledAt(entries, i);
      FilledAt(misread, i);
      if i < |entries| { EntryBlurs(entries, words, i); } else { NothingBlurs([]); }
    }
  }

  lemma BlurredIsTidy(seen: Store, written: Store)
    requires BlurredStore(seen, written) && Images.Tidy(written)
    ensures Images.Tidy(seen)
  {
    hide Known, Fades;
    assert forall i :: 0 <= i < MAX_ENTRIES ==> (written[i] == EMPTY_ENTRY <==> seen[i] == EMPTY_ENTRY);
  }

  lemma {:induction false} SameFind(seen: Store, written: Store, did: U16, i: nat)
    requires i <= MAX_ENTRIES && forall j :: 0 <= j < MAX_ENTRIES ==> seen[j].did == written[j].did
    ensures Find(seen, did, i) == Find(written, did, i)
    decreases MAX_ENTRIES - i
  {
    if i < MAX_ENTRIES { SameFind(seen, written, did, i + 1); }
  }

  // ---- Half a write ----

  lemma TornStarts(image: seq<Byte>, words: nat)
    requires |image| == IMAGE_SIZE && 0 < words
    ensures Torn(image, words)[0] == image[0]
  {}

  /** Half a write jams the log. */
  lemma HalfWriteJams(f: seq<Byte>, log: LogState, store: Store, words: nat)
    requires Sound(f, log) && log.next < log.slots && Images.Tidy(store) && 0 < words < SLOT_WORDS
    ensures Encode(store).Some? && Jammed(Appended(f, log.next, Encode(store).value, words), log)
  {
    hide Decode, Slot, Erased, Encode, Images.Tidy, Appended, Torn, BlurredStore;
    Images.TidyRoundTrip(store);
    var image := Encode(store).value;
    AppendedSlots(f, log.next, image, words, log.slots);
    DecodedNotErased(image);
    TornStarts(image, words);
    assert image[0] == image[..4][0];
    if Decode(Torn(image, words)).Some? {
      TornStore(store, words);
      BlurredIsTidy(Decode(Torn(image, words)).value, store);
    }
  }

  // ---- The log as a map ----

  /** What a cut write leaves in the next slot, if there is one, does not decode. */
  ghost predicate Refused(s: System, op: Op) {
    s.log.next < s.log.slots && op.Cut? && Update(s.log.store, op.did, op.data).Some? ==>
      TornRefused(Update(s.log.store, op.did, op.data).value, op.words)
  }

  lemma CutStep(s: System, m: Model, slots: nat, did: U16, data: seq<Byte>, words: nat)
    requires Refines(s, m, slots) && Refused(s, Cut(did, data, words))
    ensures var (s', ok) := Step(s, Cut(did, data, words));
            ok && Refines(s', StepModel(m, slots, Cut(did, data, words)).0, slots)
  {
    hide Sound, Answers, Known, Update, Encode, Appended, Written, Images.Tidy, Restarted, TornRefused;
    SoundParts(s.flash, s.log);
    if !Accepted(m, slots, did, data) {
      RefusedWrite(s, did, data, words);
      RestartStep(s, m, slots);
    } else {
      WriteAppends(s, did, data, words);
      UpdateAnswers(s.log.store, did, data, m.values);
      CutAppend(s, m, slots, Update(s.log.store, did, data).value, WriteModel(m, slots, did, data), words);
    }
  }

  lemma CutWipeStep(s: System, m: Model, slots: nat, words: nat)
    requires Refines(s, m, slots)
    ensures var (s', ok) := Step(s, CutWipe(words));
            ok && Refines(s', StepModel(m, slots, CutWipe(words)).0, slots)
  {
    hide Sound, Known, Encode, Appended, Append, Images.Tidy, Get, Restarted, TornRefused, Decode, Erased, Slot, RestartModel;
    SoundParts(s.flash, s.log);
    Images.BlankIsTidy();
    if m.used < slots {
      Images.TidyRoundTrip(EMPTY);
      AppendOnSound(s.flash, s.log, EMPTY, Encode(EMPTY).value, words);
      assert Answers(EMPTY, map[]) by { KnownNotZero(); }
      ParamEmpty.CutClearIsRefused(words);
      CutAppend(s, m, slots, EMPTY, WipeModel(m, slots), words);
    } else {
      RestartStep(s, m, slots);
    }
  }

  /** One operation does to the log what it does to the map; a refused one changes nothing. */
  lemma StepRefines(s: System, m: Model, slots: nat, op: Op)
    requires Refines(s, m, slots) && Refused(s, op)
    ensures var (s', ok) := Step(s, op);
            var (m', accepted) := StepModel(m, slots, op);
            Refines(s', m', slots) && ok == accepted && (!ok ==> s' == s)
  {
    hide Refines, Step, StepModel, Refused;
    match op
    case Write(did, data) =>
      WriteStep(s, m, slots, did, data);
      WriteUnfolds(m, slots, did, data);
    case Wipe => WipeStep(s, m, slots);
    case Restart =>
      RestartStep(s, m, slots);
      RestartUnfolds(m, slots);
    case Cut(did, data, words) =>
      CutStep(s, m, slots, did, data, words);
      CutUnfolds(m, slots, did, data, words);
    case CutWipe(words) =>
      CutWipeStep(s, m, slots, words);
      CutWipeUnfolds(m, slots, words);
  }

  lemma WriteUnfolds(m: Model, slots: nat, did: U16, data: seq<Byte>)
    ensures StepModel(m, slots, Write(did, data)) == (WriteModel(m, slots, did, data), Accepted(m, slots, did, data))
  {}

  lemma RestartUnfolds(m: Model, slots: nat)
    ensures StepModel(m, slots, Restart) == (RestartModel(m, slots), true)
  {}

  lemma CutUnfolds(m: Model, slots: nat, did: U16, data: seq<Byte>, words: nat)
    ensures StepModel(m, slots, Cut(did, data, words)).1
  {}

  lemma CutWipeUnfolds(m: Model, slots: nat, words: nat)
    ensures StepModel(m, slots, CutWipe(words)).1
  {}

  ghost predicate AllRefused(s: System, ops: seq<Op>)
    decreases |ops|
  {
    ops == [] || (Refused(s, ops[0]) && AllRefused(Step(s, ops[0]).0, ops[1..]))
  }

  lemma {:induction false} RunRefines(s: System, m: Model, slots: nat, ops: seq<Op>)
    requires Refines(s, m, slots) && AllRefused(s, ops)
    ensures Refines(Run(s, ops).0, RunModel(m, slots, ops).0, slots)
    ensures Run(s, ops).1 == RunModel(m, slots, ops).1
    decreases |ops|
  {
    hide Refines, Step, StepModel, Refused;
    if ops != [] {
      StepRefines(s, m, slots, ops[0]);
      RunRefines(Step(s, ops[0]).0, StepModel(m, slots, ops[0]).0, slots, ops[1..]);
    }
  }

  /** From erased flash the log accepts and answers exactly what the map does, through any number of
      writes, clears, compactions and power cuts, as long as no cut write leaves a slot that decodes. */
  lemma LogIsAMap(size: nat, slots: nat, ops: seq<Op>)
    requires 1 <= slots <= MAX_SLOTS && IMAGE_SIZE * slots <= size
    requires var (f, log, _) := Restarted(Blank(size), slots); AllRefused(System(f, log), ops)
    ensures var (f, log, ok) := Restarted(Blank(size), slots);
            var (s, oks) := Run(System(f, log), ops);
            var (m, accepted) := RunModel(Model(map[], 0), slots, ops);
            ok && oks == accepted && s.log.next == m.used && Answers(s.log.store, m.values)
  {
    hide Sound, Get, Restarted, AllRefused, Run, RunModel, Blank;
    BlankIsSound(size, slots);
    Images.BlankIsTidy();
    assert Answers(EMPTY, map[]) by { KnownNotZero(); }
    RunRefines(System(Blank(size), LogState(EMPTY, 0, slots)), Model(map[], 0), slots, ops);
  }

  lemma {:induction false} NothingCut(s: System, ops: seq<Op>)
    requires forall i :: 0 <= i < |ops| ==> !ops[i].Cut?
    ensures AllRefused(s, ops)
    decreases |ops|
  {
    hide Step, TornRefused;
    if ops != [] {
      assert !ops[0].Cut?;
      forall i | 0 <= i < |ops| - 1 ensures !ops[1..][i].Cut? { assert ops[1..][i] == ops[i + 1]; }
      NothingCut(Step(s, ops[0]).0, ops[1..]);
    }
  }

  /** Without power cuts in writes the log is a map, with no condition at all; clears may be cut anywhere. */
  lemma UncutLogIsAMap(size: nat, slots: nat, ops: seq<Op>)
    requires 1 <= slots <= MAX_SLOTS && IMAGE_SIZE * slots <= size && forall i :: 0 <= i < |ops| ==> !ops[i].Cut?
    ensures var (f, log, ok) := Restarted(Blank(size), slots);
            var (s, oks) := Run(System(f, log), ops);
            var (m, accepted) := RunModel(Model(map[], 0), slots, ops);
            ok && oks == accepted && s.log.next == m.used && Answers(s.log.store, m.values)
  {
    hide Answers, Restarted, AllRefused, Run, RunModel, Blank;
    var (f, log, _) := Restarted(Blank(size), slots);
    NothingCut(System(f, log), ops);
    LogIsAMap(size, slots, ops);
  }

  // ---- The map with blurred values ----

  /** What a store answers, as a map. */
  function ValuesOf(s: Store): map<U16, seq<Byte>> {
    map did: U16 | did in {0xF190, 0xF191, 0x0100} && Get(s, did, VALUE_MAX).Some? :: Get(s, did, VALUE_MAX).value
  }

  lemma StoreAnswers(s: Store)
    ensures Answers(s, ValuesOf(s))
  {
    hide Find;
  }

  /** The same identifiers with blurred values. */
  ghost predicate BlurredValues(seen: map<U16, seq<Byte>>, written: map<U16, seq<Byte>>) {
    forall did: U16 :: Known(did) ==>
      (did in seen <==> did in written) && (did in seen ==> Blurs(seen[did], written[did]))
  }

  lemma BlurredAnswers(seen: Store, written: Store, values: map<U16, seq<Byte>>)
    requires BlurredStore(seen, written) && Answers(written, values)
    ensures BlurredValues(ValuesOf(seen), values)
  {
    hide Find, Blurs;
    forall did: U16 | Known(did)
      ensures did in ValuesOf(seen) <==> did in values
      ensures did in values ==> Blurs(ValuesOf(seen)[did], values[did])
    {
      SameFind(seen, written, did, 0);
      if did in values { assert Get(written, did, |values[did]|) == Some(values[did]); }
      assert Get(written, did, VALUE_MAX) == if did in values && |values[did]| <= VALUE_MAX then Some(values[did]) else None;
      var i := Find(written, did, 0);
      if i < MAX_ENTRIES { BlurKeepsLength(seen[i].value, written[i].value); }
    }
  }

  lemma BlurKeepsLength(seen: seq<Byte>, written: seq<Byte>)
    ensures Blurs(seen, written) ==> |seen| == |written|
  {}

  /** The cut write is taken for a finished one, with what erased flash shows in place of missing bytes. */
  ghost predicate Mistaken(m: Model, slots: nat, op: Op, m1: Model) {
    && op.Cut? && Accepted(m, slots, op.did, op.data) && 2 <= op.words < SLOT_WORDS
    && m1.used == RestartModel(WriteModel(m, slots, op.did, op.data), slots).used
    && BlurredValues(m1.values, WriteModel(m, slots, op.did, op.data).values)
  }

  /** A cut append whose torn slot decodes, followed by a restart. */
  lemma CutMistaken(s: System, m: Model, slots: nat, store: Store, words: nat)
    requires Refines(s, m, slots) && m.used < slots && Images.Tidy(store) && Encode(store).Some?
    requires !TornRefused(store, words)
    ensures s.log.next < slots && IMAGE_SIZE * (s.log.next + 1) <= |s.flash| && 2 <= words < SLOT_WORDS
    ensures var (f, log, ok) := Restarted(Appended(s.flash, s.log.next, Encode(store).value, words), slots);
            && ok && Sound(f, log) && log.slots == slots && BlurredStore(log.store, store)
            && log.next == if m.used + 1 < slots then m.used + 1 else 1
  {
    hide Sound, Answers, Encode, Appended, Images.Tidy, Restarted, Decode, Torn, Erased, BlurredStore;
    SoundParts(s.flash, s.log);
    TornStore(store, words);
    var torn := Torn(Encode(store).value, words);
    DecodedNotErased(torn);
    BlurredIsTidy(Decode(torn).value, store);
    CutRecovers(s.flash, s.log, Encode(store).value, words);
  }

  lemma CutWriteMistaken(s: System, m: Model, slots: nat, did: U16, data: seq<Byte>, words: nat)
    requires Refines(s, m, slots) && !Refused(s, Cut(did, data, words))
    ensures var (s1, ok) := Step(s, Cut(did, data, words));
            var m1 := Model(ValuesOf(s1.log.store), s1.log.next);
            ok && Refines(s1, m1, slots) && Mistaken(m, slots, Cut(did, data, words), m1)
  {
    hide Sound, Answers, Known, Update, Encode, Appended, Written, Images.Tidy, Restarted, TornRefused, BlurredStore, BlurredValues,
      ValuesOf;
    SoundParts(s.flash, s.log);
    UpdateAccepts(s.log.store, did, data);
    var store := Update(s.log.store, did, data).value;
    WriteAppends(s, did, data, words);
    CutMistaken(s, m, slots, store, words);
    UpdateAnswers(s.log.store, did, data, m.values);
    var s1 := Step(s, Cut(did, data, words)).0;
    StoreAnswers(s1.log.store);
    BlurredAnswers(s1.log.store, store, m.values[did := data]);
  }

  // ---- Runs ----

  /** What an operation does to the map: what it is for, unless a cut write leaves a slot that decodes. */
  ghost predicate MapStep(m: Model, slots: nat, op: Op, refused: bool, m1: Model, ok: bool) {
    if refused then (m1, ok) == StepModel(m, slots, op) else ok && Mistaken(m, slots, op, m1)
  }

  lemma StepTracks(s: System, m: Model, slots: nat, op: Op) returns (m1: Model)
    requires Refines(s, m, slots)
    ensures Refines(Step(s, op).0, m1, slots) && MapStep(m, slots, op, Refused(s, op), m1, Step(s, op).1)
  {
    hide Refines, Step, StepModel, Refused, Mistaken;
    if Refused(s, op) {
      StepRefines(s, m, slots, op);
      m1 := StepModel(m, slots, op).0;
    } else {
      OnlyCuts(s, op);
      var s1 := Step(s, op).0;
      m1 := Model(ValuesOf(s1.log.store), s1.log.next);
      CutWriteMistaken(s, m, slots, op.did, op.data, op.words);
    }
  }

  lemma OnlyCuts(s: System, op: Op)
    requires !Refused(s, op)
    ensures op.Cut?
  {}

  /** The maps `ms` go along with the run: each answers as the log then does, and each follows from the one
      before by the operation, mistaken exactly when a cut write leaves a slot that decodes. */
  ghost predicate Tracks(s: System, slots: nat, ops: seq<Op>, ms: seq<Model>)
    decreases |ops|
  {
    && |ms| == |ops| + 1 && s.log.next == ms[0].used && Answers(s.log.store, ms[0].values)
    && (ops != [] ==>
          var (s1, ok) := Step(s, ops[0]);
          MapStep(ms[0], slots, ops[0], Refused(s, ops[0]), ms[1], ok)
          && Tracks(s1, slots, ops[1..], ms[1..]))
  }

  lemma {:induction false} RunTracks(s: System, m: Model, slots: nat, ops: seq<Op>) returns (ms: seq<Model>)
    requires Refines(s, m, slots)
    ensures |ms| == |ops| + 1 && ms[0] == m && Tracks(s, slots, ops, ms)
    decreases |ops|
  {
    hide Step, StepModel, Refused, MapStep, Answers, Sound;
    if ops == [] {
      ms := [m];
    } else {
      var m1 := StepTracks(s, m, slots, ops[0]);
      var rest := RunTracks(Step(s, ops[0]).0, m1, slots, ops[1..]);
      ms := [m] + rest;
      assert ms[1..] == rest;
    }
  }

  /** From erased flash, any run of writes, clears, restarts and power cuts behaves as a map at every point,
      except that a cut write is taken for a finished one when its torn slot decodes. A cut clear never is. */
  lemma AnyRunIsAMap(size: nat, slots: nat, ops: seq<Op>) returns (ms: seq<Model>)
    requires 1 <= slots <= MAX_SLOTS && IMAGE_SIZE * slots <= size
    ensures var (f, log, ok) := Restarted(Blank(size), slots);
            ok && Tracks(System(f, log), slots, ops, ms)
    ensures |ms| == |ops| + 1 && ms[0] == Model(map[], 0)
  {
    hide Sound, Get, Restarted, Tracks, Blank;
    BlankIsSound(size, slots);
    Images.BlankIsTidy();
    assert Answers(EMPTY, map[]) by { KnownNotZero(); }
    ms := RunTracks(System(Blank(size), LogState(EMPTY, 0, slots)), Model(map[], 0), slots, ops);
  }
}
