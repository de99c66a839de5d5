/** Exactly when a torn slot decodes, and that it can then hold a store that nobody ever wrote. */
module ParamTorn {
  import opened Bytes
  import opened ParamStore
  import opened ParamLog
  import opened ParamLogRuns
  import Images = ParamImages
  import Crc32

  function EntryStart(k: nat): nat { HEADER_SIZE + ENTRY_SIZE * k }

  /** Identifier and length of every entry lie within the first `words` words. */
  predicate HeadersWritten(count: nat, words: nat) {
    count == 0 || EntryStart(count - 1) + 4 <= 4 * words
  }

  /** The entries as a reader of the torn image finds them: its bytes, for the lengths that were written. */
  function Misread(entries: seq<Entry>, torn: seq<Byte>): (r: seq<Entry>)
    requires |torn| == IMAGE_SIZE && |entries| <= MAX_ENTRIES
    ensures |r| == |entries|
  {
    seq(|entries|, k requires 0 <= k < |entries| =>
      Entry(entries[k].did, torn[EntryStart(k) + 4..EntryStart(k) + 4 + |entries[k].value|]))
  }

  lemma TornKeeps(image: seq<Byte>, words: nat, from: nat, till: nat)
    requires |image| == IMAGE_SIZE && from <= till <= 4 * words && till <= IMAGE_SIZE
    ensures Torn(image, words)[from..till] == image[from..till]
  {}

  lemma TornBlank(image: seq<Byte>, words: nat, at: nat)
    requires |image| == IMAGE_SIZE && 4 * words <= at < IMAGE_SIZE
    ensures Torn(image, words)[at] == 0xFF
  {}

  /** The four bytes at `at` are the header of this entry. */
  predicate HasHeader(image: seq<Byte>, at: nat, e: Entry)
    requires at + 4 <= |image|
  {
    GetU16(image[at..at + 2]) == e.did && GetU16(image[at + 2..at + 4]) == |e.value|
  }

  /** The image starts as one with this many entries. */
  predicate HasStart(image: seq<Byte>, count: nat)
    requires |image| == IMAGE_SIZE
  {
    Crc32.GetU32(image[..4]) == MAGIC && GetU16(image[4..6]) == VERSION && GetU16(image[6..8]) == count
  }

  /** Identifier and length of an entry whose header was written. */
  lemma HeaderRead(entries: seq<Entry>, k: nat, words: nat)
    requires |entries| <= MAX_ENTRIES && k < |entries| && EntryStart(k) + 4 <= 4 * words
    ensures HasHeader(Torn(ImageOf(entries), words), EntryStart(k), entries[k])
  {
    hide ImageOf, Torn, GetU16, Record;
    var image, at := ImageOf(entries), EntryStart(k);
    Images.EntryAt(entries, k);
    Images.EntryFields(image, at, entries[k]);
    TornKeeps(image, words, at, at + 2);
    TornKeeps(image, words, at + 2, at + 4);
  }

  /** An entry whose header was not written shows an impossible length. */
  lemma HeaderMissing(image: seq<Byte>, k: nat, words: nat)
    requires |image| == IMAGE_SIZE && k < MAX_ENTRIES && 4 * words < EntryStart(k) + 4
    ensures var torn, at := Torn(image, words), EntryStart(k); GetU16(torn[at + 2..at + 4]) == 0xFFFF
  {
    hide Torn;
    var torn, at := Torn(image, words), EntryStart(k);
    assert 4 * words <= at + 2;
    TornBlank(image, words, at + 2);
    TornBlank(image, words, at + 3);
  }

  lemma MisreadStep(entries: seq<Entry>, torn: seq<Byte>, i: nat)
    requires |torn| == IMAGE_SIZE && i < |entries| <= MAX_ENTRIES
    ensures var at := EntryStart(i);
            Misread(entries, torn)[..i + 1]
            == Misread(entries, torn)[..i] + [Entry(entries[i].did, torn[at + 4..at + 4 + |entries[i].value|])]
  {}

  lemma MisreadDids(entries: seq<Entry>, torn: seq<Byte>, i: nat)
    requires |torn| == IMAGE_SIZE && i < |entries| <= MAX_ENTRIES && Images.Distinct(entries)
    ensures !Repeats(Misread(entries, torn)[..i], entries[i].did)
  {
    forall x | x in Misread(entries, torn)[..i] ensures x.did != entries[i].did {
      var j :| 0 <= j < i && Misread(entries, torn)[j] == x;
      assert entries[j].did == x.did;
    }
  }

  /** Reading a torn image finds all entries, with the bytes that are there, exactly if all their headers were
      written. */
  lemma {:induction false} EntriesMisread(entries: seq<Entry>, words: nat, i: nat)
    requires i <= |entries| <= MAX_ENTRIES && Images.Distinct(entries) && forall e :: e in entries ==> Known(e.did)
    requires i > 0 ==> EntryStart(i - 1) + 4 <= 4 * words
    ensures var torn := Torn(ImageOf(entries), words);
            ReadEntries(torn, i, |entries|, Misread(entries, torn)[..i])
            == if i == |entries| || EntryStart(|entries| - 1) + 4 <= 4 * words then Some(Misread(entries, torn)) else None
    decreases |entries| - i
  {
    hide ImageOf, Torn, Known, GetU16, Misread, Images.Distinct, Repeats, ReadEntries, HasHeader;
    var torn := Torn(ImageOf(entries), words);
    if i == |entries| {
      assert Misread(entries, torn)[..i] == Misread(entries, torn);
      ReadEnds(torn, i, Misread(entries, torn));
    } else if EntryStart(i) + 4 <= 4 * words {
      HeaderRead(entries, i, words);
      MisreadStep(entries, torn, i);
      MisreadDids(entries, torn, i);
      assert entries[i] in entries;
      ReadKnown(torn, i, |entries|, Misread(entries, torn)[..i], entries[i]);
      EntriesMisread(entries, words, i + 1);
    } else {
      HeaderMissing(ImageOf(entries), i, words);
      ReadStep(torn, i, |entries|, Misread(entries, torn)[..i]);
    }
  }

  /** One step of reading at the header of an entry with a new and known identifier. */
  lemma ReadKnown(image: seq<Byte>, i: nat, count: nat, front: seq<Entry>, e: Entry)
    requires |image| == IMAGE_SIZE && i < count <= MAX_ENTRIES && HasHeader(image, EntryStart(i), e)
    requires Known(e.did) && !Repeats(front, e.did)
    ensures var at := EntryStart(i);
            ReadEntries(image, i, count, front)
            == ReadEntries(image, i + 1, count, front + [Entry(e.did, image[at + 4..at + 4 + |e.value|])])
  {
    hide GetU16, Known, Repeats, ReadEntries;
    ReadStep(image, i, count, front);
  }

  /** A torn slot decodes exactly when header and entry headers were written and the CRC of the torn bytes
      happens to be the one that erased flash shows, all ones. It then shows the entries as misread. */
  lemma TornDecodesExactly(entries: seq<Entry>, words: nat)
    requires |entries| <= MAX_ENTRIES && Images.Distinct(entries) && forall e :: e in entries ==> Known(e.did)
    requires words < SLOT_WORDS
    ensures var torn := Torn(ImageOf(entries), words);
            Decode(torn)
            == if words >= 2 && HeadersWritten(|entries|, words) && Crc32.Crc(torn[..CRC_OFFSET]) == 0xFFFF_FFFF
               then Some(Filled(Misread(entries, torn))) else None
  {
    hide ImageOf, Torn, Known, Misread, Images.Distinct, Crc32.Crc, Crc32.GetU32, Crc32.PutU32, GetU16, PutU16, Filled, ReadEntries, Body;
    var image := ImageOf(entries);
    var torn := Torn(image, words);
    NoChecksum(image, words);
    if words >= 2 {
      HeaderIntact(entries, words);
      NothingMisread(entries, torn);
      EntriesMisread(entries, words, 0);
    } else {
      NoVersion(image, words);
    }
  }

  lemma NothingMisread(entries: seq<Entry>, torn: seq<Byte>)
    requires |torn| == IMAGE_SIZE && |entries| <= MAX_ENTRIES
    ensures Misread(entries, torn)[..0] == []
  {}

  lemma NoChecksum(image: seq<Byte>, words: nat)
    requires |image| == IMAGE_SIZE && words < SLOT_WORDS
    ensures Crc32.GetU32(Torn(image, words)[CRC_OFFSET..]) == 0xFFFF_FFFF
  {
    hide Crc32.GetU32, Torn;
    LastWordErased(image, words);
    AllOnes(Torn(image, words)[CRC_OFFSET..]);
  }

  lemma NoVersion(image: seq<Byte>, words: nat)
    requires |image| == IMAGE_SIZE && words < 2
    ensures GetU16(Torn(image, words)[4..6]) != VERSION
  {
    hide Torn;
    TornBlank(image, words, 4);
    TornBlank(image, words, 5);
  }

  lemma HeaderIntact(entries: seq<Entry>, words: nat)
    requires |entries| <= MAX_ENTRIES && 2 <= words
    ensures HasStart(Torn(ImageOf(entries), words), |entries|)
  {
    hide ImageOf, Torn, Crc32.GetU32, Crc32.PutU32, GetU16, PutU16, Body;
    Images.HeaderAt(entries);
    Crc32.WordRoundTrip(MAGIC);
    Images.U16RoundTrip(VERSION);
    Images.U16RoundTrip(|entries|);
    TornKeeps(ImageOf(entries), words, 0, 4);
    TornKeeps(ImageOf(entries), words, 4, 6);
    TornKeeps(ImageOf(entries), words, 6, 8);
  }

  // ---- A store that nobody wrote ----

  const CUT_WORDS := 17

  /** Sixteen bytes of which the first four are free. */
  function Data(x: seq<Byte>): (r: seq<Byte>)
    requires |x| == 4
    ensures |r| == 16 && r[..4] == x && r[15] == 0
  {
    x + Zeros(12)
  }

  const BEFORE: Store := [Entry(0xF190, [1]), Entry(0xF191, [1]), EMPTY_ENTRY]

  function After(x: seq<Byte>): Store
    requires |x| == 4
  {
    [Entry(0xF190, [1]), Entry(0xF191, [1]), Entry(0x0100, Data(x))]
  }

  /** What follows the free bytes in the torn image, up to the checksum. */
  const REST: seq<Byte> := Zeros(8) + Blank(8)

  /** Identifier and length of an entry as its record starts. */
  function Start(e: Entry): seq<Byte> { PutU16(e.did) + PutU16(|e.value|) }

  function Front(count: U16, e0: Entry, e1: Entry, start: seq<Byte>): seq<Byte> {
    Crc32.PutU32(MAGIC) + PutU16(VERSION) + PutU16(count) + Record(e0) + Record(e1) + start
  }

  lemma RecordStarts(e: Entry)
    ensures Record(e)[..4] == Start(e)
  {
    hide PutU16;
    Images.RecordFields(e);
    var record := Record(e);
    assert record[..4] == record[..2] + record[2..4];
  }

  lemma FrontJoins(image: seq<Byte>, count: U16, e0: Entry, e1: Entry, e2: Entry)
    requires |image| == IMAGE_SIZE && image[..4] == Crc32.PutU32(MAGIC) && image[4..6] == PutU16(VERSION)
    requires image[6..8] == PutU16(count) && image[8..30] == Record(e0) && image[30..52] == Record(e1)
    requires image[52..74] == Record(e2)
    ensures image[..56] == Front(count, e0, e1, Start(e2))
  {
    hide Crc32.PutU32, PutU16, Record, Start;
    RecordStarts(e2);
    assert image[52..56] == image[52..74][..4];
    assert image[..56] == image[..4] + image[4..6] + image[6..8] + image[8..30] + image[30..52] + image[52..56];
  }

  lemma FrontOf(entries: seq<Entry>)
    requires |entries| == 3
    ensures ImageOf(entries)[..56] == Front(3, entries[0], entries[1], Start(entries[2]))
  {
    hide ImageOf, Crc32.PutU32, PutU16, Record, Start, Front, Body;
    Images.HeaderAt(entries);
    Images.EntryAt(entries, 0);
    Images.EntryAt(entries, 1);
    Images.EntryAt(entries, 2);
    FrontJoins(ImageOf(entries), 3, entries[0], entries[1], entries[2]);
  }

  /** The bytes before the free ones do not depend on them. */
  lemma SameFront(x: seq<Byte>, y: seq<Byte>)
    requires |x| == |y| == 4
    ensures ImageOf(After(x))[..56] == ImageOf(After(y))[..56]
  {
    hide ImageOf, Data, Front, PutU16;
    FrontOf(After(x));
    FrontOf(After(y));
  }

  /** The torn image, taken apart at the free bytes. */
  lemma TornParts(x: seq<Byte>)
    requires |x| == 4
    ensures var torn := Torn(ImageOf(After(x)), CUT_WORDS);
            && torn[..CRC_OFFSET] == ImageOf(After(x))[..56] + (x + REST)
            && torn[56..72] == x + Zeros(8) + Blank(4)
  {
    hide ImageOf, Torn, Record;
    var image := ImageOf(After(x));
    var torn := Torn(image, CUT_WORDS);
    ThirdValue(x);
    TornKeeps(image, CUT_WORDS, 0, 56);
    TornKeeps(image, CUT_WORDS, 56, 68);
    assert torn[..56] == torn[0..56] && image[..56] == image[0..56];
    forall i | 68 <= i < IMAGE_SIZE ensures torn[i] == 0xFF { TornBlank(image, CUT_WORDS, i); }
    TornJoins(torn, image[..56], x);
  }

  lemma ThirdValue(x: seq<Byte>)
    requires |x| == 4
    ensures ImageOf(After(x))[56..68] == x + Zeros(8)
  {
    hide ImageOf, Record;
    var image, e := ImageOf(After(x)), Entry(0x0100, Data(x));
    Images.EntryAt(After(x), 2);
    Images.EntryFields(image, 52, e);
    assert image[56..72] == Data(x);
    assert image[56..68] == image[56..72][..12];
  }

  lemma TornJoins(torn: seq<Byte>, front: seq<Byte>, x: seq<Byte>)
    requires |torn| == IMAGE_SIZE && |front| == 56 && |x| == 4 && torn[..56] == front && torn[56..68] == x + Zeros(8)
    requires forall i :: 68 <= i < IMAGE_SIZE ==> torn[i] == 0xFF
    ensures torn[..CRC_OFFSET] == front + (x + REST) && torn[56..72] == x + Zeros(8) + Blank(4)
  {
    assert torn[56..72] == torn[56..68] + torn[68..72];
    assert torn[68..72] == Blank(4);
    assert torn[..76] == torn[..56] + (torn[56..68] + torn[68..76]);
    assert torn[68..76] == Blank(8);
    assert (x + Zeros(8)) + Blank(8) == x + REST;
  }

  /** Four bytes exist for which the torn image carries the checksum of erased flash. */
  lemma SomeDataCollides() returns (x: seq<Byte>)
    ensures |x| == 4 && Crc32.Crc(Torn(ImageOf(After(x)), CUT_WORDS)[..CRC_OFFSET]) == 0xFFFF_FFFF
  {
    hide ImageOf, Torn, Crc32.Register, Crc32.Flip;
    var front := ImageOf(After([0, 0, 0, 0]))[..56];
    x := Crc32.FourBytesReach(Crc32.Register(0xFFFF_FFFF, front), REST, 0);
    SameFront([0, 0, 0, 0], x);
    TornParts(x);
    Crc32.RegisterAppend(0xFFFF_FFFF, front, x + REST);
    FlipOfZero();
  }

  lemma FlipOfZero()
    ensures Crc32.Flip(0) == 0xFFFF_FFFF
  {}

  lemma FindsNone(s: Store, did: U16)
    requires s[0].did != did && s[1].did != did && s[2].did != did
    ensures Find(s, did, 0) == MAX_ENTRIES
  {
    hide Find;
    var r := Find(s, did, 0);
    assert r == 0 || r == 1 || r == 2 || r == 3;
  }

  lemma FreeIs(s: Store, i: nat)
    requires i < MAX_ENTRIES && s[i].value == [] && forall j :: 0 <= j < i ==> s[j].value != []
    ensures FindFree(s, 0) == i
  {
    hide FindFree;
  }

  /** A new identifier takes the first free entry. */
  lemma UpdateTakesFree(s: Store, did: U16, data: seq<Byte>, i: nat)
    requires Known(did) && 1 <= |data| <= VALUE_MAX && s[0].did != did && s[1].did != did && s[2].did != did
    requires i < MAX_ENTRIES && s[i].value == [] && forall j :: 0 <= j < i ==> s[j].value != []
    ensures Update(s, did, data) == Some(s[i := Entry(did, data)])
  {
    hide Find, FindFree, Known;
    FindsNone(s, did);
    FreeIs(s, i);
  }

  lemma AfterIsTidy(x: seq<Byte>)
    requires |x| == 4
    ensures Images.Tidy(BEFORE) && Images.Tidy(After(x)) && Update(BEFORE, 0x0100, Data(x)) == Some(After(x))
    ensures Live(After(x)) == After(x) && Images.Distinct(After(x)) && forall e :: e in After(x) ==> Known(e.did)
  {
    hide Live, Data, Update;
    UpdateTakesFree(BEFORE, 0x0100, Data(x), 2);
    assert BEFORE[2 := Entry(0x0100, Data(x))] == After(x);
    Images.LiveOfTidy(After(x));
    Images.TidyParts(After(x));
  }

  lemma MisreadThird(x: seq<Byte>, torn: seq<Byte>)
    requires |x| == 4 && |torn| == IMAGE_SIZE && torn[56..72] == x + Zeros(8) + Blank(4)
    ensures var store := Filled(Misread(After(x), torn));
            && store[0].did == 0xF190 && store[1].did == 0xF191 && store[2].did == 0x0100
            && |store[2].value| == 16 && store[2].value != Data(x)
  {
    hide Data;
    var value := Misread(After(x), torn)[2].value;
    assert value == torn[56..72];
    assert value[15] == 0xFF;
  }

  /** There are data of which the image, cut after seventeen words, decodes to a store with a third value. */
  lemma CollidingData() returns (data: seq<Byte>, found: Store)
    ensures |data| == 16 && Update(BEFORE, 0x0100, data).Some? && Encode(Update(BEFORE, 0x0100, data).value).Some?
    ensures Decode(Torn(Encode(Update(BEFORE, 0x0100, data).value).value, CUT_WORDS)) == Some(found)
    ensures found[0].did == 0xF190 && found[1].did == 0xF191 && found[2].did == 0x0100
    ensures |found[2].value| == 16 && found[2].value != data
  {
    hide Update, Encode, Images.Tidy, Decode, Torn, ImageOf, Live, Filled, Misread, Data, Crc32.Crc, Known;
    var x := SomeDataCollides();
    data := Data(x);
    AfterIsTidy(x);
    EncodedAfter(x);
    var torn := Torn(ImageOf(After(x)), CUT_WORDS);
    TornDecodesExactly(After(x), CUT_WORDS);
    TornParts(x);
    MisreadThird(x, torn);
    found := Filled(Misread(After(x), torn));
  }

  /** There is a write that, cut after seventeen words, leaves a log whose restart shows neither the store from
      before nor the one that was being written: identifier 0x0100 then has a value that nobody wrote. */
  lemma ThirdStoreAppears(f: seq<Byte>, log: LogState) returns (data: seq<Byte>)
    requires Sound(f, log) && log.next < log.slots && log.store == BEFORE
    ensures 1 <= |data| <= VALUE_MAX && Update(BEFORE, 0x0100, data).Some?
    ensures var (s, ok) := Step(System(f, log), Cut(0x0100, data, CUT_WORDS));
            && ok && s.log.store != BEFORE && s.log.store != Update(BEFORE, 0x0100, data).value
            && s.log.store[2].did == 0x0100 && s.log.store[2].value != data
  {
    hide Sound, Encode, Written, Restarted, Images.Tidy, Decode, Torn, ImageOf, Live, Appended, Known, Erased, Update;
    var found;
    data, found := CollidingData();
    KnownCustom();
    WriteAppends(System(f, log), 0x0100, data, CUT_WORDS);
    CutRecovers(f, log, Encode(Update(BEFORE, 0x0100, data).value).value, CUT_WORDS);
    UpdateTakesFree(BEFORE, 0x0100, data, 2);
  }

  lemma EncodedAfter(x: seq<Byte>)
    requires |x| == 4
    ensures Encode(After(x)) == Some(ImageOf(After(x)))
  {
    hide Live, ImageOf, Known, After;
    AfterIsTidy(x);
  }

  lemma KnownCustom()
    ensures Known(0x0100)
  {}

  /** Such a log exists: two writes into erased flash reach it. */
  lemma TwoWritesReachIt(size: nat, slots: nat)
    requires 3 <= slots <= MAX_SLOTS && IMAGE_SIZE * slots <= size
    ensures var s := Run(System(Blank(size), LogState(EMPTY, 0, slots)), [Write(0xF190, [1]), Write(0xF191, [1])]).0;
            Sound(s.flash, s.log) && s.log.next == 2 < s.log.slots && s.log.store == BEFORE
  {
    hide Sound, Step, Blank, Encode, Appended, Images.Tidy, Update;
    var s0 := System(Blank(size), LogState(EMPTY, 0, slots));
    var middle: Store := [Entry(0xF190, [1]), EMPTY_ENTRY, EMPTY_ENTRY];
    BlankIsSound(size, slots);
    UpdateTakesFree(EMPTY, 0xF190, [1], 0);
    assert EMPTY[0 := Entry(0xF190, [1])] == middle;
    UpdateTakesFree(middle, 0xF191, [1], 1);
    assert middle[1 := Entry(0xF191, [1])] == BEFORE;
    WriteOne(s0, 0xF190, [1], middle);
    var s1 := Step(s0, Write(0xF190, [1])).0;
    WriteOne(s1, 0xF191, [1], BEFORE);
    var ops := [Write(0xF190, [1]), Write(0xF191, [1])];
    assert ops[1..] == [Write(0xF191, [1])] && ops[1..][1..] == [];
    var s2 := Step(s1, Write(0xF191, [1])).0;
    assert Run(s2, []).0 == s2;
    assert Run(s1, ops[1..]).0 == s2;
  }

  lemma WriteOne(s: System, did: U16, data: seq<Byte>, store: Store)
    requires Sound(s.flash, s.log) && s.log.next < s.log.slots && Known(did) && 1 <= |data| <= VALUE_MAX
    requires Update(s.log.store, did, data) == Some(store)
    ensures var t := Step(s, Write(did, data)).0;
            Sound(t.flash, t.log) && t.log == s.log.(store := store, next := s.log.next + 1)
  {
    hide Sound, Update, Encode, Written, Appended, Images.Tidy, Known;
    WriteAppends(s, did, data, SLOT_WORDS);
    CompleteAppend(s.flash, s.log, store, SLOT_WORDS);
  }
}
