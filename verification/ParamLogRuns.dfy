/** Runs of the parameter log: writes, clears, restarts and power cuts, answered like a plain map. */
module ParamLogRuns {
  import opened Bytes
  import opened ParamStore
  import opened ParamLog
  import Images = ParamImages
  import Crc32

  // ---- Programming erased words ----

  ghost predicate Free(f: seq<Byte>, at: nat, n: nat) {
    at + n <= |f| && forall i :: at <= i < at + n ==> f[i] == 0xFF
  }

  function Done(words: nat, n: nat): (r: nat)
    ensures r <= n && (n <= 4 * words ==> r == n)
  {
    if 4 * words < n then 4 * words else n
  }

  lemma OverwriteTwice(f: seq<Byte>, at: nat, x: seq<Byte>, y: seq<Byte>)
    requires at + |x| + |y| <= |f|
    ensures Overwritten(Overwritten(f, at, x), at + |x|, y) == Overwritten(f, at, x + y)
  {}

  lemma OverwriteKeepsFree(f: seq<Byte>, at: nat, x: seq<Byte>, n: nat)
    requires Free(f, at, |x| + n)
    ensures Free(Overwritten(f, at, x), at + |x|, n)
  {}

  /** On erased words exactly the powered prefix of the data is written. */
  lemma {:induction false} ProgramOnFree(f: seq<Byte>, at: nat, data: seq<Byte>, words: nat)
    requires |data| % 4 == 0 && Free(f, at, |data|)
    ensures Program(f, at, data, words) == (Overwritten(f, at, data[..Done(words, |data|)]), |data| <= 4 * words)
    decreases |data|
  {
    hide Overwritten;
    if data == [] || words == 0 {
      assert data[..Done(words, |data|)] == [];
      OverwriteNothing(f, at);
    } else {
      var n := Done(words, |data|);
      OverwriteKeepsFree(f, at, data[..4], |data| - 4);
      ProgramOnFree(Overwritten(f, at, data[..4]), at + 4, data[4..], words - 1);
      assert data[..4] + data[4..][..n - 4] == data[..n];
      OverwriteTwice(f, at, data[..4], data[4..][..n - 4]);
    }
  }

  lemma OverwriteNothing(f: seq<Byte>, at: nat)
    requires at <= |f|
    ensures Overwritten(f, at, []) == f
  {}

  // ---- Slots ----

  lemma OtherSlots(f: seq<Byte>, n: nat, data: seq<Byte>, i: nat)
    requires |data| <= IMAGE_SIZE && IMAGE_SIZE * (n + 1) <= |f| && IMAGE_SIZE * (i + 1) <= |f| && i != n
    ensures Slot(Overwritten(f, IMAGE_SIZE * n, data), i) == Slot(f, i)
  {
    var x, y := Slot(Overwritten(f, IMAGE_SIZE * n, data), i), Slot(f, i);
    forall k | 0 <= k < IMAGE_SIZE ensures x[k] == y[k] {
      assert Overwritten(f, IMAGE_SIZE * n, data)[IMAGE_SIZE * i + k] == f[IMAGE_SIZE * i + k];
    }
  }

  lemma WrittenSlot(f: seq<Byte>, n: nat, data: seq<Byte>)
    requires |data| <= IMAGE_SIZE && IMAGE_SIZE * (n + 1) <= |f|
    ensures Slot(Overwritten(f, IMAGE_SIZE * n, data), n) == data + Slot(f, n)[|data|..]
  {
    var x, y := Slot(Overwritten(f, IMAGE_SIZE * n, data), n), data + Slot(f, n)[|data|..];
    forall k | 0 <= k < IMAGE_SIZE ensures x[k] == y[k] {
      assert x[k] == Overwritten(f, IMAGE_SIZE * n, data)[IMAGE_SIZE * n + k];
    }
  }

  lemma FreeSlot(f: seq<Byte>, n: nat)
    requires IMAGE_SIZE * (n + 1) <= |f|
    ensures Free(f, IMAGE_SIZE * n, IMAGE_SIZE) <==> Erased(Slot(f, n))
  {
    if Erased(Slot(f, n)) {
      forall i | IMAGE_SIZE * n <= i < IMAGE_SIZE * n + IMAGE_SIZE ensures f[i] == 0xFF {
        assert f[i] == Slot(f, n)[i - IMAGE_SIZE * n];
      }
    }
  }

  lemma BlankSlot(n: nat, i: nat)
    requires IMAGE_SIZE * (i + 1) <= n
    ensures Erased(Slot(Blank(n), i))
  {}

  /** A decodable image starts with the magic word, so it is not an erased one. */
  lemma DecodedNotErased(image: seq<Byte>)
    requires |image| == IMAGE_SIZE && Decode(image).Some?
    ensures !Erased(image) && image[..4] == Crc32.PutU32(MAGIC) && GetU16(image[4..6]) == VERSION
    ensures Crc32.PutU32(MAGIC)[0] == 0x42
  {
    hide Crc32.GetU32, Crc32.PutU32, Checked, ReadEntries;
    Crc32.WordKeepsBytes(image[..4]);
    MagicStarts();
    assert image[0] == image[..4][0];
  }

  lemma MagicStarts()
    ensures Crc32.PutU32(MAGIC)[0] == 0x42
  {
    assert Crc32.Quarter(MAGIC, 0) == 0x42;
    assert Crc32.NibbleOf(0x42) == 2;
    assert 0x42 as bv32 >> 4 == 4;
    assert Crc32.NibbleOf(4) == 4;
  }

  // ---- The invariant ----

  function Latest(n: nat): (r: Option<nat>)
    ensures AfterLatest(r) == n
  {
    if n == 0 then None else Some(n - 1)
  }

  ghost predicate Sound(f: seq<Byte>, log: LogState) {
    && 1 <= log.slots <= MAX_SLOTS && IMAGE_SIZE * log.slots <= |f| && log.next <= log.slots
    && (forall i :: 0 <= i < log.next ==> Decode(Slot(f, i)).Some?)
    && (forall i :: log.next <= i < log.slots ==> Erased(Slot(f, i)))
    && log.store == StoreAt(f, Latest(log.next)) && Images.Tidy(log.store)
  }

  /** The scan passes all decodable slots. */
  lemma {:induction false} ScanPasses(f: seq<Byte>, i: nat, n: nat, slots: nat)
    requires i <= n <= slots && IMAGE_SIZE * slots <= |f|
    requires forall k :: i <= k < n ==> Decode(Slot(f, k)).Some?
    ensures ScanFrom(f, i, slots, Latest(i)) == ScanFrom(f, n, slots, Latest(n))
    decreases n - i
  {
    hide Decode, Slot, Erased;
    if i < n {
      DecodedNotErased(Slot(f, i));
      ScanPasses(f, i + 1, n, slots);
    }
  }

  /** Start-up on flash whose erasing and programming work. */
  function Restarted(f: seq<Byte>, slots: nat): (r: (seq<Byte>, LogState, bool))
    ensures |r.0| == |f|
  {
    Loaded(f, UNLOADED, slots, true, SLOT_WORDS)
  }

  lemma BlankIsSound(n: nat, slots: nat)
    requires 1 <= slots <= MAX_SLOTS && IMAGE_SIZE * slots <= n
    ensures Sound(Blank(n), LogState(EMPTY, 0, slots))
    ensures Restarted(Blank(n), slots) == (Blank(n), LogState(EMPTY, 0, slots), true)
  {
    hide Blank, Images.Tidy, Erased, Slot;
    Images.BlankIsTidy();
    forall i | 0 <= i < slots ensures Erased(Slot(Blank(n), i)) { BlankSlot(n, i); }
  }

  /** Compaction keeps the latest store and leaves every other slot free. */
  lemma CompactionKeeps(f: seq<Byte>, n: nat, slots: nat)
    requires 1 <= slots <= MAX_SLOTS && IMAGE_SIZE * slots <= |f| && n <= slots
    requires n > 0 ==> Decode(Slot(f, n - 1)).Some?
    ensures var (f', log, ok) := Compact(f, slots, Latest(n), true, SLOT_WORDS);
            && ok && log == LogState(StoreAt(f, Latest(n)), if n == 0 then 0 else 1, slots)
            && (Images.Tidy(log.store) ==> Sound(f', log))
  {
    hide Decode, Slot, Erased, Images.Tidy, Overwritten, Blank, Program;
    var blank := Blank(|f|);
    if n == 0 {
      BlankIsSound(|f|, slots);
    } else {
      var image := Slot(f, n - 1);
      BlankSlot(|f|, 0);
      FreeSlot(blank, 0);
      ProgramOnFree(blank, 0, image, SLOT_WORDS);
      assert image[..IMAGE_SIZE] == image;
      WrittenSlot(blank, 0, image);
      assert Slot(blank, 0)[IMAGE_SIZE..] == [];
      assert Slot(Overwritten(blank, 0, image), 0) == image;
      forall i | 1 <= i < slots ensures Erased(Slot(Overwritten(blank, 0, image), i)) {
        OtherSlots(blank, 0, image, i);
        BlankSlot(|f|, i);
      }
    }
  }

  /** Start-up takes the log as it is when the first slot that cannot be decoded is free. */
  lemma StartsAtFree(f: seq<Byte>, n: nat, slots: nat)
    requires 1 <= slots <= MAX_SLOTS && IMAGE_SIZE * slots <= |f| && n < slots
    requires (forall i :: 0 <= i < n ==> Decode(Slot(f, i)).Some?) && Erased(Slot(f, n))
    ensures Restarted(f, slots) == (f, LogState(StoreAt(f, Latest(n)), n, slots), true)
  {
    hide Decode, Slot, Erased, Compact;
    ScanPasses(f, 0, n, slots);
  }

  /** Start-up compacts when the first slot that cannot be decoded is not free, or there is none. */
  lemma StartsByCompacting(f: seq<Byte>, n: nat, slots: nat)
    requires 1 <= slots <= MAX_SLOTS && IMAGE_SIZE * slots <= |f| && n <= slots
    requires forall i :: 0 <= i < n ==> Decode(Slot(f, i)).Some?
    requires n < slots ==> !Erased(Slot(f, n)) && Decode(Slot(f, n)).None?
    ensures Restarted(f, slots) == Compact(f, slots, Latest(n), true, SLOT_WORDS)
  {
    hide Decode, Slot, Erased, Compact;
    ScanPasses(f, 0, n, slots);
  }

  /** A restart keeps the store, and compacts exactly when no slot is free. */
  lemma RestartKeeps(f: seq<Byte>, log: LogState)
    requires Sound(f, log)
    ensures var (f', log', ok) := Restarted(f, log.slots);
            && ok && Sound(f', log') && log' == log.(next := if log.next < log.slots then log.next else 1)
            && (log.next < log.slots ==> f' == f)
  {
    hide Decode, Slot, Erased, Images.Tidy, Compact;
    ScanPasses(f, 0, log.next, log.slots);
    if log.next == log.slots {
      CompactionKeeps(f, log.next, log.slots);
    }
  }

  // ---- Start-up on any flash ----

  /** The scan ends at slot `k`: all before it can be decoded, and it is not there, or erased, or cannot be decoded. */
  ghost predicate EndsScan(f: seq<Byte>, slots: nat, k: nat) {
    && k <= slots && IMAGE_SIZE * k <= |f|
    && (forall i :: 0 <= i < k ==> Decode(Slot(f, i)).Some?)
    && (k < slots && IMAGE_SIZE * (k + 1) <= |f| ==> Erased(Slot(f, k)) || Decode(Slot(f, k)).None?)
  }

  /** The scan passes the decodable slots that the flash has. */
  lemma {:induction false} ScanReaches(f: seq<Byte>, i: nat, k: nat, slots: nat)
    requires i <= k && EndsScan(f, slots, k)
    ensures ScanFrom(f, i, slots, Latest(i)) == ScanFrom(f, k, slots, Latest(k))
    decreases k - i
  {
    hide Decode, Slot, Erased;
    if i < k {
      DecodedNotErased(Slot(f, i));
      ScanReaches(f, i + 1, k, slots);
    }
  }

  /** What start-up finds on any flash, and whether it succeeds: with no slots or more than 1638 not at all; at once if the
      scan ends at an erased slot; not if it ends behind the flash; else if the sector can be erased and the last
      image written back within its twenty words. */
  lemma LoadsExactly(f: seq<Byte>, log: LogState, slots: nat, erases: bool, budget: nat, k: nat)
    requires EndsScan(f, slots, k)
    ensures var (f1, log1, ok) := Loaded(f, log, slots, erases, budget);
            var store := if k == 0 then EMPTY else Decode(Slot(f, k - 1)).value;
            if slots == 0 || slots > 1638 then !ok && f1 == f && log1 == log
            else if k < slots && IMAGE_SIZE * (k + 1) > |f| then !ok && f1 == f && log1 == LogState(store, k, slots)
            else if k < slots && Erased(Slot(f, k)) then ok && f1 == f && log1 == LogState(store, k, slots)
            else if !erases then !ok && f1 == f && log1 == LogState(EMPTY, 0, 0)
            else if k == 0 then ok && f1 == Blank(|f|) && log1 == LogState(EMPTY, 0, slots)
            else (ok <==> budget >= 20)
                 && log1 == (if ok then LogState(store, 1, slots) else LogState(EMPTY, 0, 0))
                 && f1 == Overwritten(Blank(|f|), 0, Slot(f, k - 1)[..Done(budget, IMAGE_SIZE)])
  {
    hide Decode, Slot, Erased, Overwritten, Blank, Program;
    if 1 <= slots <= MAX_SLOTS {
      ScanReaches(f, 0, k, slots);
      if k > 0 { RewriteExactly(f, Slot(f, k - 1), budget); }
    }
  }

  /** Writing an image into slot 0 of erased flash. */
  lemma RewriteExactly(f: seq<Byte>, image: seq<Byte>, budget: nat)
    requires |image| == IMAGE_SIZE <= |f|
    ensures Program(Blank(|f|), 0, image, budget)
         == (Overwritten(Blank(|f|), 0, image[..Done(budget, IMAGE_SIZE)]), budget >= 20)
    ensures budget >= 20 ==> Slot(Program(Blank(|f|), 0, image, budget).0, 0) == image
  {
    hide Slot, Erased, Overwritten, Blank, Program;
    var blank := Blank(|f|);
    BlankSlot(|f|, 0);
    FreeSlot(blank, 0);
    ProgramOnFree(blank, 0, image, budget);
    if budget >= 20 {
      assert image[..IMAGE_SIZE] == image;
      WrittenSlot(blank, 0, image);
      assert Slot(blank, 0)[IMAGE_SIZE..] == [];
    }
  }

  // ---- Appending ----

  /** What a slot holds when power fails after `words` words of an image. */
  function Torn(image: seq<Byte>, words: nat): (r: seq<Byte>)
    requires |image| == IMAGE_SIZE
    ensures |r| == IMAGE_SIZE
  {
    image[..Done(words, IMAGE_SIZE)] + Blank(IMAGE_SIZE - Done(words, IMAGE_SIZE))
  }

  lemma TornEnds(image: seq<Byte>)
    requires |image| == IMAGE_SIZE
    ensures Erased(Torn(image, 0)) && forall words :: words >= SLOT_WORDS ==> Torn(image, words) == image
  {}

  /** The flash after an append that had power for `words` words. */
  function Appended(f: seq<Byte>, n: nat, image: seq<Byte>, words: nat): (r: seq<Byte>)
    requires |image| == IMAGE_SIZE && IMAGE_SIZE * (n + 1) <= |f|
    ensures |r| == |f|
  {
    Overwritten(f, IMAGE_SIZE * n, image[..Done(words, IMAGE_SIZE)])
  }

  lemma AppendedSlots(f: seq<Byte>, n: nat, image: seq<Byte>, words: nat, slots: nat)
    requires |image| == IMAGE_SIZE && n < slots && IMAGE_SIZE * slots <= |f| && Erased(Slot(f, n))
    ensures Slot(Appended(f, n, image, words), n) == Torn(image, words)
    ensures forall i :: 0 <= i < slots && i != n ==> Slot(Appended(f, n, image, words), i) == Slot(f, i)
  {
    hide Slot, Overwritten, Decode;
    var data := image[..Done(words, IMAGE_SIZE)];
    WrittenSlot(f, n, data);
    var x, y := Slot(f, n)[|data|..], Blank(IMAGE_SIZE - |data|);
    assert x == y by {
      forall k | 0 <= k < |x| ensures x[k] == y[k] { assert x[k] == Slot(f, n)[|data| + k]; }
    }
    forall i | 0 <= i < slots && i != n ensures Slot(Appended(f, n, image, words), i) == Slot(f, i) {
      OtherSlots(f, n, data, i);
    }
  }

  /** An append writes the powered prefix, and succeeds exactly when it had power for all of it. */
  lemma AppendOnSound(f: seq<Byte>, log: LogState, store: Store, image: seq<Byte>, words: nat)
    requires Sound(f, log) && log.next < log.slots && |image| == IMAGE_SIZE
    ensures var f' := Appended(f, log.next, image, words);
            Append(f, log, store, image, words)
            == if words >= SLOT_WORDS then (f', log.(store := store, next := log.next + 1), true) else (f', log, false)
  {
    hide Decode, Slot, Erased, Images.Tidy, Program, Overwritten;
    FreeSlot(f, log.next);
    ProgramOnFree(f, IMAGE_SIZE * log.next, image, words);
    if words >= SLOT_WORDS {
      TornEnds(image);
      AppendedSlots(f, log.next, image, words, log.slots);
    }
  }

  /** A complete append of a tidy store keeps the invariant. */
  lemma CompleteAppend(f: seq<Byte>, log: LogState, store: Store, words: nat)
    requires Sound(f, log) && log.next < log.slots && Images.Tidy(store) && words >= SLOT_WORDS
    ensures Encode(store).Some?
    ensures Sound(Appended(f, log.next, Encode(store).value, words), log.(store := store, next := log.next + 1))
  {
    hide Decode, Slot, Erased, Images.Tidy, Encode, Appended;
    Images.TidyRoundTrip(store);
    var image := Encode(store).value;
    TornEnds(image);
    AppendedSlots(f, log.next, image, words, log.slots);
  }

  // ---- Power cuts ----

  /** After a power cut at any point of an append, start-up finds the store from before, except that it
      takes over whatever the torn slot decodes to. It always leaves a free slot if there are two. */
  lemma CutRecovers(f: seq<Byte>, log: LogState, image: seq<Byte>, words: nat)
    requires Sound(f, log) && log.next < log.slots && |image| == IMAGE_SIZE
    ensures var torn := Torn(image, words);
            var (f', log', ok) := Restarted(Appended(f, log.next, image, words), log.slots);
            && ok && log'.slots == log.slots
            && log'.store == (if Decode(torn).None? then log.store else Decode(torn).value)
            && (Images.Tidy(log'.store) ==> Sound(f', log'))
            && log'.next == (if Erased(torn) then log.next
                             else if Decode(torn).None? then if log.next == 0 then 0 else 1
                             else if log.next + 1 < log.slots then log.next + 1 else 1)
  {
    hide Decode, Slot, Erased, Images.Tidy, Appended, Torn, Compact, Restarted;
    var n, slots, torn := log.next, log.slots, Torn(image, words);
    var f1 := Appended(f, n, image, words);
    AppendedSlots(f, n, image, words, slots);
    if Decode(torn).Some? { DecodedNotErased(torn); }
    if Erased(torn) {
      StartsAtFree(f1, n, slots);
    } else if Decode(torn).None? {
      StartsByCompacting(f1, n, slots);
      CompactionKeeps(f1, n, slots);
    } else if n + 1 < slots {
      StartsAtFree(f1, n + 1, slots);
    } else {
      StartsByCompacting(f1, n + 1, slots);
      CompactionKeeps(f1, n + 1, slots);
    }
  }

  // ---- Failed writes without a restart ----

  /** A write has failed half-way: the next slot is not free, and the ones behind it are. */
  ghost predicate Jammed(f: seq<Byte>, log: LogState) {
    && 1 <= log.slots <= MAX_SLOTS && IMAGE_SIZE * log.slots <= |f| && log.next < log.slots
    && (forall i :: 0 <= i < log.next ==> Decode(Slot(f, i)).Some?)
    && (forall i :: log.next < i < log.slots ==> Erased(Slot(f, i)))
    && Slot(f, log.next)[0] != 0xFF
    && (Decode(Slot(f, log.next)).Some? ==> Images.Tidy(Decode(Slot(f, log.next)).value))
    && log.store == StoreAt(f, Latest(log.next)) && Images.Tidy(log.store)
  }

  ghost predicate Healthy(f: seq<Byte>, log: LogState) { Sound(f, log) || Jammed(f, log) }

  /** What a failed write leaves behind in the next slot does not decode. */
  predicate Legible(f: seq<Byte>, log: LogState) {
    log.next < log.slots && IMAGE_SIZE * (log.next + 1) <= |f| ==> Decode(Slot(f, log.next)).None?
  }

  /** The store that a restart finds: that of the next slot, if it decodes. */
  function Reloaded(f: seq<Byte>, log: LogState): Store {
    if log.next < log.slots && IMAGE_SIZE * (log.next + 1) <= |f| && Decode(Slot(f, log.next)).Some?
    then Decode(Slot(f, log.next)).value
    else log.store
  }

  /** A jammed log refuses every append and stays as it is. */
  lemma JammedRefuses(f: seq<Byte>, log: LogState, store: Store, image: seq<Byte>, words: nat)
    requires Jammed(f, log) && |image| == IMAGE_SIZE
    ensures Append(f, log, store, image, words) == (f, log, false)
  {
    hide Decode, Images.Tidy, Overwritten, Erased;
    assert Slot(f, log.next)[0] == f[IMAGE_SIZE * log.next];
  }

  /** A restart frees a jammed log. It keeps the store, unless the next slot decodes. */
  lemma JammedRestarts(f: seq<Byte>, log: LogState)
    requires Jammed(f, log)
    ensures var (f', log', ok) := Restarted(f, log.slots);
            && ok && Sound(f', log') && log'.store == Reloaded(f, log) && log'.slots == log.slots
            && log'.next == if Decode(Slot(f, log.next)).None? then if log.next == 0 then 0 else 1
                            else if log.next + 1 < log.slots then log.next + 1 else 1
  {
    hide Decode, Slot, Images.Tidy, Compact, Restarted, Erased;
    var n, slots := log.next, log.slots;
    NotErased(Slot(f, n));
    if Decode(Slot(f, n)).None? {
      StartsByCompacting(f, n, slots);
      CompactionKeeps(f, n, slots);
    } else if n + 1 < slots {
      StartsAtFree(f, n + 1, slots);
    } else {
      StartsByCompacting(f, n + 1, slots);
      CompactionKeeps(f, n + 1, slots);
    }
  }

  lemma NotErased(image: seq<Byte>)
    requires |image| == IMAGE_SIZE && image[0] != 0xFF
    ensures !Erased(image)
  {}

  /** A torn slot is left unfinished, or finished, or refused for sure, when no word, the first word,
      all but the last word, or every word was written. Between those only the checksum can err: the
      torn bytes decode only when their CRC happens to be all ones. */
  lemma TornIsRefused(store: Store, words: nat)
    requires Images.Tidy(store)
    ensures Encode(store).Some?
    ensures var image := Encode(store).value;
            var torn := Torn(image, words);
            && (Erased(torn) <==> words == 0)
            && (words == 0 || words == 1 ==> Decode(torn).None?)
            && (words == SLOT_WORDS - 1 ==> Decode(torn).None? || torn == image)
            && (words >= SLOT_WORDS ==> Decode(torn) == Some(store))
            && (words < SLOT_WORDS && Decode(torn).Some? ==> Crc32.Crc(torn[..CRC_OFFSET]) == 0xFFFF_FFFF)
  {
    hide Decode, Images.Tidy, Encode, Erased, Torn, Crc32.Crc;
    Images.TidyRoundTrip(store);
    var image := Encode(store).value;
    var torn := Torn(image, words);
    TornEnds(image);
    DecodedNotErased(image);
    if Decode(torn).Some? { DecodedNotErased(torn); }
    if 0 < words { FirstWordShows(image, words); }
    if words == 1 { SecondWordMissing(image); }
    if words == SLOT_WORDS - 1 { LastWordMissing(image); }
    if words < SLOT_WORDS && Decode(torn).Some? { ChecksumMissing(image, words); }
  }

  lemma FirstWordShows(image: seq<Byte>, words: nat)
    requires |image| == IMAGE_SIZE && image[0] != 0xFF && 0 < words
    ensures !Erased(Torn(image, words))
  {
    assert Torn(image, words)[0] == image[0];
  }

  lemma SecondWordMissing(image: seq<Byte>)
    requires |image| == IMAGE_SIZE
    ensures Decode(Torn(image, 1)).None?
  {
    hide Crc32.GetU32, Checked, ReadEntries;
    var torn := Torn(image, 1);
    assert torn[4] == 0xFF && torn[5] == 0xFF;
    assert GetU16(torn[4..6]) == 0xFFFF;
  }

  lemma LastWordMissing(image: seq<Byte>)
    requires |image| == IMAGE_SIZE && Decode(image).Some?
    ensures Decode(Torn(image, SLOT_WORDS - 1)).None? || Torn(image, SLOT_WORDS - 1) == image
  {
    hide Decode;
    var torn := Torn(image, SLOT_WORDS - 1);
    if torn != image {
      assert torn[..CRC_OFFSET] == image[..CRC_OFFSET];
      assert torn[IMAGE_SIZE..] == image[IMAGE_SIZE..];
      Images.BurstsAreNoticed(image, torn, CRC_OFFSET);
    }
  }

  lemma ChecksumMissing(image: seq<Byte>, words: nat)
    requires |image| == IMAGE_SIZE && words < SLOT_WORDS && Decode(Torn(image, words)).Some?
    ensures Crc32.Crc(Torn(image, words)[..CRC_OFFSET]) == 0xFFFF_FFFF
  {
    hide Crc32.Crc, Crc32.GetU32, Torn;
    Images.DecodedIsChecked(Torn(image, words));
    LastWordErased(image, words);
    AllOnes(Torn(image, words)[CRC_OFFSET..]);
  }

  lemma LastWordErased(image: seq<Byte>, words: nat)
    requires |image| == IMAGE_SIZE && words < SLOT_WORDS
    ensures Erased(Torn(image, words)[CRC_OFFSET..])
  {}

  lemma AllOnes(word: seq<Byte>)
    requires |word| == 4 && Erased(word)
    ensures Crc32.GetU32(word) == 0xFFFF_FFFF
  {
    hide Crc32.Join;
    assert Crc32.Bits(0xFF) == 0xFF;
    JoinOnes();
  }

  lemma JoinOnes()
    ensures Crc32.Join(0xFF, 0xFF, 0xFF, 0xFF) == 0xFFFF_FFFF
  {}

  // ---- Runs ----

  /** `Cut` is a write during which power fails after some words, followed by a restart, and `CutWipe` such a
      clear. */
  datatype Op =
    | Write(did: U16, data: seq<Byte>)
    | Wipe
    | Restart
    | Cut(did: U16, data: seq<Byte>, words: nat)
    | CutWipe(words: nat)

  datatype System = System(flash: seq<Byte>, log: LogState)

  function Step(s: System, op: Op): (System, bool) {
    match op
    case Write(did, data) =>
      var (f, log, ok) := Written(s.flash, s.log, did, data, SLOT_WORDS);
      (System(f, log), ok)
    case Wipe =>
      var (f, log, ok) := Wiped(s.flash, s.log, SLOT_WORDS);
      (System(f, log), ok)
    case Restart =>
      var (f, log, ok) := Restarted(s.flash, s.log.slots);
      (System(f, log), ok)
    case Cut(did, data, words) =>
      var (torn, _, _) := Written(s.flash, s.log, did, data, words);
      var (f, log, ok) := Restarted(torn, s.log.slots);
      (System(f, log), ok)
    case CutWipe(words) =>
      var (torn, _, _) := Wiped(s.flash, s.log, words);
      var (f, log, ok) := Restarted(torn, s.log.slots);
      (System(f, log), ok)
  }

  /** The log as a plain map, with the number of slots in use. */
  datatype Model = Model(values: map<U16, seq<Byte>>, used: nat)

  predicate Accepted(m: Model, slots: nat, did: U16, data: seq<Byte>) {
    m.used < slots && Known(did) && 1 <= |data| <= VALUE_MAX
  }

  function RestartModel(m: Model, slots: nat): Model {
    if m.used < slots then m else m.(used := 1)
  }

  function WriteModel(m: Model, slots: nat, did: U16, data: seq<Byte>): Model {
    if Accepted(m, slots, did, data) then Model(m.values[did := data], m.used + 1) else m
  }

  function WipeModel(m: Model, slots: nat): Model {
    if m.used < slots then Model(map[], m.used + 1) else m
  }

  /** The restart after `words` words of an append that would lead from `m` to `next`. */
  function CutModel(m: Model, next: Model, slots: nat, words: nat): Model {
    if next == m || words == 0 then RestartModel(m, slots)
    else if words >= SLOT_WORDS then RestartModel(next, slots)
    else m.(used := if m.used == 0 then 0 else 1)
  }

  function StepModel(m: Model, slots: nat, op: Op): (Model, bool) {
    match op
    case Write(did, data) => (WriteModel(m, slots, did, data), Accepted(m, slots, did, data))
    case Wipe => (WipeModel(m, slots), m.used < slots)
    case Restart => (RestartModel(m, slots), true)
    case Cut(did, data, words) => (CutModel(m, WriteModel(m, slots, did, data), slots, words), true)
    case CutWipe(words) => (CutModel(m, WipeModel(m, slots), slots, words), true)
  }

  ghost predicate Answers(store: Store, values: map<U16, seq<Byte>>) {
    forall did: U16, capacity: nat :: Known(did) ==>
      Get(store, did, capacity)
      == if did in values && |values[did]| <= capacity then Some(values[did]) else None
  }

  ghost predicate Refines(s: System, m: Model, slots: nat) {
    Sound(s.flash, s.log) && s.log.slots == slots && s.log.next == m.used && Answers(s.log.store, m.values)
  }

  /** A partly written slot with this store does not decode; `ParamTorn.TornDecodesExactly` says when. */
  predicate TornRefused(store: Store, words: nat) {
    0 < words < SLOT_WORDS && Encode(store).Some? ==> Decode(Torn(Encode(store).value, words)).None?
  }

  lemma UpdateAccepts(s: Store, did: U16, data: seq<Byte>)
    requires Images.Tidy(s)
    ensures Update(s, did, data).Some? <==> Known(did) && 1 <= |data| <= VALUE_MAX
    ensures Update(s, did, data).Some? ==>
              Images.Tidy(Update(s, did, data).value) && Encode(Update(s, did, data).value).Some?
  {
    hide Known, Encode, Images.Tidy, Get, Find, FindFree;
    if Known(did) && 1 <= |data| <= VALUE_MAX {
      Images.UpdateIsAssignment(s, did, data);
      Images.TidyRoundTrip(Update(s, did, data).value);
    }
  }

  lemma UpdateAnswers(s: Store, did: U16, data: seq<Byte>, values: map<U16, seq<Byte>>)
    requires Images.Tidy(s) && Answers(s, values) && Known(did) && 1 <= |data| <= VALUE_MAX
    ensures Update(s, did, data).Some? && Answers(Update(s, did, data).value, values[did := data])
  {
    hide Known, Images.Tidy, Update, Get;
    Images.UpdateIsAssignment(s, did, data);
  }

  /** What a write with power for `words` words leaves, when it is not refused outright. */
  lemma WriteAppends(s: System, did: U16, data: seq<Byte>, words: nat)
    requires Sound(s.flash, s.log) && s.log.next < s.log.slots
    requires Known(did) && 1 <= |data| <= VALUE_MAX
    ensures Update(s.log.store, did, data).Some?
    ensures var store := Update(s.log.store, did, data).value;
            && Images.Tidy(store) && Encode(store).Some?
            && var f := Appended(s.flash, s.log.next, Encode(store).value, words);
            Written(s.flash, s.log, did, data, words)
            == if words >= SLOT_WORDS then (f, s.log.(store := store, next := s.log.next + 1), true) else (f, s.log, false)
  {
    hide Known, Images.Tidy, Update, Encode, Appended, Append, Slot, Decode, Erased;
    UpdateAccepts(s.log.store, did, data);
    var store := Update(s.log.store, did, data).value;
    AppendOnSound(s.flash, s.log, store, Encode(store).value, words);
  }

  /** A refused write changes nothing at all. */
  lemma RefusedWrite(s: System, did: U16, data: seq<Byte>, words: nat)
    requires Sound(s.flash, s.log)
    requires s.log.next >= s.log.slots || !Known(did) || |data| == 0 || |data| > VALUE_MAX
    ensures Written(s.flash, s.log, did, data, words) == (s.flash, s.log, false)
  {
    hide Images.Tidy, Encode, Append, Slot, Decode, Erased;
  }

  lemma WriteStep(s: System, m: Model, slots: nat, did: U16, data: seq<Byte>)
    requires Refines(s, m, slots)
    ensures var (s', ok) := Step(s, Write(did, data));
            Refines(s', WriteModel(m, slots, did, data), slots)
            && ok == Accepted(m, slots, did, data) && (!ok ==> s' == s)
  {
    hide Sound, Answers, Known, Update, Encode, Appended, Written, Images.Tidy;
    assert s.log.next <= slots && Images.Tidy(s.log.store) by { SoundParts(s.flash, s.log); }
    if Accepted(m, slots, did, data) {
      WriteAppends(s, did, data, SLOT_WORDS);
      CompleteAppend(s.flash, s.log, Update(s.log.store, did, data).value, SLOT_WORDS);
      UpdateAnswers(s.log.store, did, data, m.values);
    } else {
      RefusedWrite(s, did, data, SLOT_WORDS);
    }
  }

  lemma SoundParts(f: seq<Byte>, log: LogState)
    requires Sound(f, log)
    ensures 1 <= log.slots && log.next <= log.slots && Images.Tidy(log.store) && IMAGE_SIZE * log.slots <= |f|
  {
    hide Images.Tidy, Slot, Decode, Erased;
  }

  lemma WipeStep(s: System, m: Model, slots: nat)
    requires Refines(s, m, slots)
    ensures var (s', ok) := Step(s, Wipe);
            var (m', accepted) := StepModel(m, slots, Wipe);
            Refines(s', m', slots) && ok == accepted && (!ok ==> s' == s)
  {
    hide Sound, Known, Encode, Appended, Append, Images.Tidy, Get;
    SoundParts(s.flash, s.log);
    Images.BlankIsTidy();
    if s.log.next < slots {
      CompleteAppend(s.flash, s.log, EMPTY, SLOT_WORDS);
      AppendOnSound(s.flash, s.log, EMPTY, Encode(EMPTY).value, SLOT_WORDS);
      assert Answers(EMPTY, map[]) by { KnownNotZero(); }
    }
  }

  lemma KnownNotZero()
    ensures !Known(0)
  {}

  lemma RestartStep(s: System, m: Model, slots: nat)
    requires Refines(s, m, slots)
    ensures var (s', ok) := Step(s, Restart); ok && Refines(s', RestartModel(m, slots), slots)
  {
    hide Sound, Answers, Restarted;
    SoundParts(s.flash, s.log);
    RestartKeeps(s.flash, s.log);
  }

  /** An append that power cuts, followed by a restart. */
  lemma CutAppend(s: System, m: Model, slots: nat, store: Store, next: Model, words: nat)
    requires Refines(s, m, slots) && m.used < slots && Images.Tidy(store) && Encode(store).Some? && TornRefused(store, words)
    requires next.used == m.used + 1 && Answers(store, next.values)
    ensures s.log.next < slots && IMAGE_SIZE * (s.log.next + 1) <= |s.flash|
    ensures var (f, log, ok) := Restarted(Appended(s.flash, s.log.next, Encode(store).value, words), slots);
            ok && Refines(System(f, log), CutModel(m, next, slots, words), slots)
  {
    hide Sound, Answers, Encode, Appended, Images.Tidy, Restarted, Decode, Torn, Erased;
    SoundParts(s.flash, s.log);
    if words >= SLOT_WORDS {
      CompleteAppend(s.flash, s.log, store, words);
      var s1 := System(Appended(s.flash, s.log.next, Encode(store).value, words), s.log.(store := store, next := s.log.next + 1));
      RestartStep(s1, next, slots);
    } else {
      CutRecovers(s.flash, s.log, Encode(store).value, words);
      TornIsRefused(store, words);
    }
  }

  function Run(s: System, ops: seq<Op>): (System, seq<bool>)
    decreases |ops|
  {
    if ops == [] then (s, [])
    else
      var (s1, ok) := Step(s, ops[0]);
      var (s2, oks) := Run(s1, ops[1..]);
      (s2, [ok] + oks)
  }

  function RunModel(m: Model, slots: nat, ops: seq<Op>): (Model, seq<bool>)
    decreases |ops|
  {
    if ops == [] then (m, [])
    else
      var (m1, ok) := StepModel(m, slots, ops[0]);
      var (m2, oks) := RunModel(m1, slots, ops[1..]);
      (m2, [ok] + oks)
  }
}
