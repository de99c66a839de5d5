/** What the parameter image guarantees: it reads back, and small damage is always noticed. */
module ParamImages {
  import opened Bytes
  import opened ParamStore
  import Crc32

  /** No DID occurs twice. */
  ghost predicate Distinct(entries: seq<Entry>) {
    forall i, j :: 0 <= i < j < |entries| ==> entries[i].did != entries[j].did
  }

  lemma U16RoundTrip(v: U16)
    ensures GetU16(PutU16(v)) == v
  {}

  lemma {:induction false} RecordAt(entries: seq<Entry>, i: nat)
    requires i < |entries|
    ensures Records(entries)[ENTRY_SIZE * i..ENTRY_SIZE * i + ENTRY_SIZE] == Record(entries[i])
    decreases i
  {
    hide Record;
    if i > 0 {
      RecordAt(entries[1..], i - 1);
      var rest := Records(entries[1..]);
      assert Records(entries)[ENTRY_SIZE * i..ENTRY_SIZE * i + ENTRY_SIZE]
          == rest[ENTRY_SIZE * (i - 1)..ENTRY_SIZE * (i - 1) + ENTRY_SIZE];
    }
  }

  lemma HeaderAt(entries: seq<Entry>)
    requires |entries| <= MAX_ENTRIES
    ensures var image := ImageOf(entries);
            && image[..4] == Crc32.PutU32(MAGIC) && image[4..6] == PutU16(VERSION) && image[6..8] == PutU16(|entries|)
            && image[..CRC_OFFSET] == Body(entries) && image[CRC_OFFSET..] == Checksum(Body(entries))
  {
    hide Crc32.PutU32, PutU16, Records, Checksum, Zeros;
  }

  lemma EntryAt(entries: seq<Entry>, i: nat)
    requires |entries| <= MAX_ENTRIES && i < |entries|
    ensures var at := HEADER_SIZE + ENTRY_SIZE * i;
            ImageOf(entries)[at..at + ENTRY_SIZE] == Record(entries[i])
  {
    hide Crc32.PutU32, PutU16, Records, Checksum, Zeros, Record;
    RecordAt(entries, i);
    var at := HEADER_SIZE + ENTRY_SIZE * i;
    assert ImageOf(entries)[at..at + ENTRY_SIZE] == Records(entries)[ENTRY_SIZE * i..ENTRY_SIZE * i + ENTRY_SIZE];
  }

  lemma EntryFields(image: seq<Byte>, at: nat, e: Entry)
    requires |image| == IMAGE_SIZE && at + ENTRY_SIZE <= IMAGE_SIZE && image[at..at + ENTRY_SIZE] == Record(e)
    ensures GetU16(image[at..at + 2]) == e.did && GetU16(image[at + 2..at + 4]) == |e.value|
    ensures image[at + 4..at + 4 + |e.value|] == e.value
  {
    hide PutU16, GetU16, Record;
    var record := image[at..at + ENTRY_SIZE];
    U16RoundTrip(e.did);
    U16RoundTrip(|e.value|);
    RecordFields(e);
    SliceOfSlice(image, at, ENTRY_SIZE, 0, 2);
    SliceOfSlice(image, at, ENTRY_SIZE, 2, 4);
    SliceOfSlice(image, at, ENTRY_SIZE, 4, 4 + |e.value|);
  }

  lemma SliceOfSlice(bytes: seq<Byte>, at: nat, n: nat, i: nat, j: nat)
    requires at + n <= |bytes| && i <= j <= n
    ensures bytes[at..at + n][i..j] == bytes[at + i..at + j]
  {
    var x, y := bytes[at..at + n][i..j], bytes[at + i..at + j];
    forall k | 0 <= k < |x| ensures x[k] == y[k] {
      assert bytes[at..at + n][i + k] == bytes[at + (i + k)];
    }
  }

  lemma RecordFields(e: Entry)
    ensures Record(e)[..2] == PutU16(e.did) && Record(e)[2..4] == PutU16(|e.value|)
    ensures Record(e)[4..4 + |e.value|] == e.value
  {
    hide PutU16;
    var front := PutU16(e.did) + PutU16(|e.value|);
    assert Record(e) == front + (e.value + Zeros(ENTRY_SIZE - 4 - |e.value|));
    assert Record(e)[..4] == front;
  }

  lemma DistinctGrows(entries: seq<Entry>, i: nat)
    requires i < |entries| && Distinct(entries[..i])
    requires !Repeats(entries[..i], entries[i].did)
    ensures Distinct(entries[..i + 1])
  {
    forall j, k | 0 <= j < k < i + 1 ensures entries[j].did != entries[k].did {
      if k < i {
        assert entries[..i][j].did != entries[..i][k].did;
      } else {
        assert entries[..i][j] in entries[..i];
      }
    }
  }

  lemma RepeatsEarlier(entries: seq<Entry>, i: nat)
    requires i < |entries| && Repeats(entries[..i], entries[i].did)
    ensures !Distinct(entries)
  {
    var x :| x in entries[..i] && x.did == entries[i].did;
    var j :| 0 <= j < i && entries[j] == x;
    assert entries[j].did == entries[i].did;
  }

  /** Reading the entries of an image stops exactly at a repeated DID. */
  lemma {:induction false} EntriesReadBack(entries: seq<Entry>, i: nat)
    requires i <= |entries| <= MAX_ENTRIES && Distinct(entries[..i])
    requires forall e :: e in entries ==> Known(e.did)
    ensures ReadEntries(ImageOf(entries), i, |entries|, entries[..i])
         == if Distinct(entries) then Some(entries) else None
    decreases |entries| - i
  {
    hide ImageOf, Known, GetU16, Record, Repeats;
    if i == |entries| {
      assert entries[..i] == entries;
    } else {
      var e := entries[i];
      EntryAt(entries, i);
      EntryFields(ImageOf(entries), HEADER_SIZE + ENTRY_SIZE * i, e);
      assert entries[..i + 1] == entries[..i] + [e];
      if Repeats(entries[..i], e.did) {
        RepeatsEarlier(entries, i);
      } else {
        DistinctGrows(entries, i);
        EntriesReadBack(entries, i + 1);
      }
    }
  }

  /** Reading back the image of a store gives its values in order, exactly when no DID is repeated. */
  lemma DecodeInvertsEncode(s: Store)
    requires Encode(s).Some?
    ensures Decode(Encode(s).value) == if Distinct(Live(s)) then Some(Filled(Live(s))) else None
  {
    hide Live, ImageOf, Known, Crc32.PutU32, Crc32.GetU32, Crc32.Crc, PutU16, GetU16, Body, Distinct, Filled, ReadEntries;
    var entries := Live(s);
    HeaderAt(entries);
    U16RoundTrip(VERSION);
    U16RoundTrip(|entries|);
    Crc32.WordRoundTrip(MAGIC);
    Crc32.WordRoundTrip(Crc32.Crc(Body(entries)));
    NothingRead(entries);
    EntriesReadBack(entries, 0);
  }

  lemma NothingRead(entries: seq<Entry>)
    ensures entries[..0] == [] && Distinct(entries[..0])
  {}

  // ---- Damage ----

  lemma CheckedMeansResidue(image: seq<Byte>)
    requires |image| == IMAGE_SIZE
    ensures Checked(image) <==> Crc32.Register(0xFFFF_FFFF, image) == Crc32.FourBytes(0xFFFF_FFFF)
  {
    hide Crc32.Crc, Crc32.GetU32, Crc32.Register, Crc32.FourBytes;
    assert image == image[..CRC_OFFSET] + image[CRC_OFFSET..];
    Crc32.ChecksumMeansResidue(image[..CRC_OFFSET], image[CRC_OFFSET..]);
  }

  lemma DecodedIsChecked(image: seq<Byte>)
    requires |image| == IMAGE_SIZE && Decode(image).Some?
    ensures Checked(image)
  {
    hide Crc32.Crc, Crc32.GetU32;
  }

  /** Any change confined to four adjacent bytes of a decodable image, checksum bytes included, makes
      it undecodable. In particular any change of one byte does. */
  lemma BurstsAreNoticed(image: seq<Byte>, damaged: seq<Byte>, at: nat)
    requires |image| == |damaged| == IMAGE_SIZE && at + 4 <= IMAGE_SIZE
    requires image[..at] == damaged[..at] && image[at + 4..] == damaged[at + 4..]
    requires Decode(image).Some? && damaged != image
    ensures Decode(damaged) == None
  {
    hide Decode, Checked, Crc32.Register, Crc32.FourBytes;
    if Decode(damaged).Some? {
      DecodedIsChecked(image);
      DecodedIsChecked(damaged);
      CheckedMeansResidue(image);
      CheckedMeansResidue(damaged);
      Crc32.WindowShows(0xFFFF_FFFF, image, damaged, at);
    }
  }

  lemma OneByteIsNoticed(image: seq<Byte>, at: nat, value: Byte)
    requires |image| == IMAGE_SIZE && at < IMAGE_SIZE && Decode(image).Some? && image[at] != value
    ensures Decode(image[at := value]) == None
  {
    hide Decode;
    var from := if at < IMAGE_SIZE - 4 then at else IMAGE_SIZE - 4;
    assert image[at := value][at] != image[at];
    BurstsAreNoticed(image, image[at := value], from);
  }

  // ---- Stores as maps ----

  /** Values with known, distinct DIDs come first; the entries behind them are blank. */
  ghost predicate Tidy(s: Store) {
    && (forall i :: 0 <= i < MAX_ENTRIES ==> s[i] == EMPTY_ENTRY || (s[i].value != [] && Known(s[i].did)))
    && (forall i, j :: 0 <= i < j < MAX_ENTRIES ==>
          (s[i] == EMPTY_ENTRY ==> s[j] == EMPTY_ENTRY) && (s[j] != EMPTY_ENTRY ==> s[i].did != s[j].did))
  }

  function LiveCount(s: Store): (n: nat)
    ensures n <= MAX_ENTRIES
  {
    if s[0].value == [] then 0 else if s[1].value == [] then 1 else if s[2].value == [] then 2 else 3
  }

  function IfLive(e: Entry): seq<Entry> { if e.value == [] then [] else [e] }

  lemma LiveOfTidy(s: Store)
    requires Tidy(s)
    ensures Live(s) == s[..LiveCount(s)]
  {
    hide Known, Live;
    LiveOfThree(s);
    assert s[0].value == [] ==> s[1] == EMPTY_ENTRY;
    assert s[1].value == [] ==> s[2] == EMPTY_ENTRY;
  }

  lemma LiveOfThree(s: Store)
    ensures Live(s) == IfLive(s[0]) + (IfLive(s[1]) + IfLive(s[2]))
  {
    assert s[1..][0] == s[1] && s[1..][1..] == s[2..] && s[2..][0] == s[2] && s[2..][1..] == [];
    assert Live(s[2..]) == IfLive(s[2]);
    assert Live(s[1..]) == IfLive(s[1]) + Live(s[2..]);
  }

  lemma TidyParts(s: Store)
    requires Tidy(s)
    ensures Filled(Live(s)) == s && Distinct(Live(s)) && forall e :: e in Live(s) ==> Known(e.did)
  {
    hide Known, Live;
    LiveOfTidy(s);
  }

  /** A tidy store survives being written and read back. */
  lemma TidyRoundTrip(s: Store)
    requires Tidy(s)
    ensures Encode(s).Some? && Decode(Encode(s).value) == Some(s)
  {
    hide Live, Decode, Distinct, Filled, Known, ImageOf, Tidy;
    TidyParts(s);
    DecodeInvertsEncode(s);
  }

  /** A tidy store always has room for a known DID, and reads after a write as a map does. */
  lemma UpdateIsAssignment(s: Store, did: U16, data: seq<Byte>)
    requires Tidy(s) && Known(did) && 1 <= |data| <= VALUE_MAX
    ensures Update(s, did, data).Some? && Tidy(Update(s, did, data).value)
    ensures forall other: U16, capacity: nat :: Known(other) ==>
              Get(Update(s, did, data).value, other, capacity)
              == if other != did then Get(s, other, capacity)
                 else if |data| <= capacity then Some(data) else None
  {
    hide Update, Get, Tidy, Known;
    UpdateStaysTidy(s, did, data);
    forall other: U16, capacity: nat | Known(other)
      ensures Get(Update(s, did, data).value, other, capacity)
           == if other != did then Get(s, other, capacity)
              else if |data| <= capacity then Some(data) else None
    {
      GetAfterUpdate(s, did, data, other, capacity);
    }
  }

  lemma UpdateStaysTidy(s: Store, did: U16, data: seq<Byte>)
    requires Tidy(s) && Known(did) && 1 <= |data| <= VALUE_MAX
    ensures Update(s, did, data).Some? && Tidy(Update(s, did, data).value)
  {
    hide Get;
    RoomForKnown(s, did);
  }

  lemma GetAfterUpdate(s: Store, did: U16, data: seq<Byte>, other: U16, capacity: nat)
    requires Tidy(s) && Known(did) && 1 <= |data| <= VALUE_MAX && Known(other) && Update(s, did, data).Some?
    ensures Get(Update(s, did, data).value, other, capacity)
         == if other != did then Get(s, other, capacity)
            else if |data| <= capacity then Some(data) else None
  {
    hide Tidy;
    var u := Update(s, did, data).value;
    var at := if Find(s, did, 0) < MAX_ENTRIES then Find(s, did, 0) else FindFree(s, 0);
    assert u == s[at := Entry(did, data)];
    FoundAfterUpdate(s, at, Entry(did, data), other);
  }

  /** Where a search ends after the update of an entry that is the identifier's own or a blank one. */
  lemma FoundAfterUpdate(s: Store, at: nat, e: Entry, other: U16)
    requires Tidy(s) && at < MAX_ENTRIES && Known(e.did) && Known(other)
    requires s[at].did == e.did || (s[at].value == [] && Find(s, e.did, 0) == MAX_ENTRIES)
    ensures other == e.did ==> Find(s[at := e], other, 0) == at
    ensures other != e.did ==> Find(s[at := e], other, 0) == Find(s, other, 0)
  {}

  lemma RoomForKnown(s: Store, did: U16)
    requires Tidy(s) && Known(did)
    ensures Find(s, did, 0) == MAX_ENTRIES ==> FindFree(s, 0) < MAX_ENTRIES
  {}

  lemma BlankIsTidy()
    ensures Tidy(EMPTY) && forall did: U16, capacity: nat :: did != 0 ==> Get(EMPTY, did, capacity) == None
  {}

  /** DID 0 matches a blank entry: it answers with an empty value exactly while one is left. */
  lemma ZeroDidMatchesBlank(s: Store, capacity: nat)
    requires Tidy(s)
    ensures Get(s, 0, capacity) == if LiveCount(s) < MAX_ENTRIES then Some([]) else None
  {}
}
