/** The parameter snapshot: three entries, and their 80-byte image protected by a CRC-32. */
module ParamStore {
  import opened Bytes
  import Crc32

  const MAX_ENTRIES := 3
  const VALUE_MAX := 17
  const IMAGE_SIZE := 80
  const HEADER_SIZE := 8
  const ENTRY_SIZE := 22
  const CRC_OFFSET := 76
  const MAGIC: bv32 := 0x50324442
  const VERSION := 1

  /** The value bytes in use; the C entry keeps them with their count in a 17-byte array. */
  type Value = v: seq<Byte> | |v| <= VALUE_MAX

  datatype Entry = Entry(did: U16, value: Value)

  type Store = s: seq<Entry> | |s| == MAX_ENTRIES witness [Entry(0, []), Entry(0, []), Entry(0, [])]

  const EMPTY_ENTRY := Entry(0, [])
  const EMPTY: Store := [EMPTY_ENTRY, EMPTY_ENTRY, EMPTY_ENTRY]

  predicate Known(did: U16) { did == 0xF190 || did == 0xF191 || did == 0x0100 }

  // ---- Entries ----

  /** Position of the first entry from `i` on with this DID, or `MAX_ENTRIES`. */
  function Find(s: Store, did: U16, i: nat): (r: nat)
    requires i <= MAX_ENTRIES
    ensures i <= r <= MAX_ENTRIES
    ensures r < MAX_ENTRIES ==> s[r].did == did
    ensures forall j :: i <= j < r ==> s[j].did != did
    decreases MAX_ENTRIES - i
  {
    if i == MAX_ENTRIES || s[i].did == did then i else Find(s, did, i + 1)
  }

  /** Position of the first entry from `i` on without a value, or `MAX_ENTRIES`. */
  function FindFree(s: Store, i: nat): (r: nat)
    requires i <= MAX_ENTRIES
    ensures i <= r <= MAX_ENTRIES
    ensures r < MAX_ENTRIES ==> s[r].value == []
    ensures forall j :: i <= j < r ==> s[j].value != []
    decreases MAX_ENTRIES - i
  {
    if i == MAX_ENTRIES || s[i].value == [] then i else FindFree(s, i + 1)
  }

  /** The value stored for a DID, when it fits the caller's buffer. */
  function Get(s: Store, did: U16, capacity: nat): Option<Value> {
    var i := Find(s, did, 0);
    if i == MAX_ENTRIES || |s[i].value| > capacity then None else Some(s[i].value)
  }

  /** The store with one value set: over its entry, or in the first free one. */
  function Update(s: Store, did: U16, data: seq<Byte>): Option<Store> {
    if |data| == 0 || |data| > VALUE_MAX || !Known(did) then None
    else
      var i := Find(s, did, 0);
      var at := if i < MAX_ENTRIES then i else FindFree(s, 0);
      if at == MAX_ENTRIES then None else Some(s[at := Entry(did, data)])
  }

  method FindEntry(s: Store, did: U16) returns (index: nat)
    ensures index == Find(s, did, 0)
  {
    index := 0;
    while index < MAX_ENTRIES && s[index].did != did
      invariant index <= MAX_ENTRIES && Find(s, did, 0) == Find(s, did, index)
    {
      index := index + 1;
    }
  }

  method UpdateEntry(s: Store, did: U16, data: seq<Byte>) returns (r: Option<Store>)
    ensures r == Update(s, did, data)
  {
    if |data| == 0 || |data| > VALUE_MAX || !Known(did) { return None; }
    var at := FindEntry(s, did);
    if at == MAX_ENTRIES {
      at := 0;
      while at < MAX_ENTRIES && s[at].value != []
        invariant at <= MAX_ENTRIES && FindFree(s, 0) == FindFree(s, at)
      {
        at := at + 1;
      }
      if at == MAX_ENTRIES { return None; }
    }
    return Some(s[at := Entry(did, data)]);
  }

  method GetValue(s: Store, did: U16, capacity: nat) returns (r: Option<Value>)
    ensures r == Get(s, did, capacity)
  {
    var i := FindEntry(s, did);
    if i == MAX_ENTRIES || |s[i].value| > capacity { return None; }
    return Some(s[i].value);
  }

  // ---- Images ----

  function PutU16(v: U16): (r: seq<Byte>)
    ensures |r| == 2
  {
    [v % 256, v / 256]
  }

  function GetU16(bytes: seq<Byte>): U16
    requires |bytes| == 2
  {
    256 * (bytes[1] as int) + bytes[0]
  }

  function Zeros(n: nat): (r: seq<Byte>)
    ensures |r| == n
  {
    seq(n, _ => 0)
  }

  /** The 22 bytes of one entry. */
  function Record(e: Entry): (r: seq<Byte>)
    ensures |r| == ENTRY_SIZE
  {
    PutU16(e.did) + PutU16(|e.value|) + e.value + Zeros(ENTRY_SIZE - 4 - |e.value|)
  }

  /** The entries that carry a value, in order. */
  function Live(entries: seq<Entry>): (r: seq<Entry>)
    ensures |r| <= |entries|
    ensures forall e :: e in r ==> e in entries && e.value != []
  {
    if entries == [] then []
    else if entries[0].value == [] then Live(entries[1..])
    else [entries[0]] + Live(entries[1..])
  }

  function Records(entries: seq<Entry>): (r: seq<Byte>)
    ensures |r| == ENTRY_SIZE * |entries|
  {
    if entries == [] then [] else Record(entries[0]) + Records(entries[1..])
  }

  /** The bytes that the checksum covers, for a list of entries. */
  function Body(entries: seq<Entry>): (r: seq<Byte>)
    requires |entries| <= MAX_ENTRIES
    ensures |r| == CRC_OFFSET
  {
    Crc32.PutU32(MAGIC) + PutU16(VERSION) + PutU16(|entries|) + Records(entries)
    + Zeros(CRC_OFFSET - HEADER_SIZE - ENTRY_SIZE * |entries|)
  }

  function Checksum(body: seq<Byte>): (r: seq<Byte>)
    ensures |r| == 4
  {
    Crc32.PutU32(Crc32.Crc(body))
  }

  function Sealed(body: seq<Byte>): (r: seq<Byte>)
    requires |body| == CRC_OFFSET
    ensures |r| == IMAGE_SIZE
  {
    body + Checksum(body)
  }

  function ImageOf(entries: seq<Entry>): (r: seq<Byte>)
    requires |entries| <= MAX_ENTRIES
    ensures |r| == IMAGE_SIZE
  {
    Sealed(Body(entries))
  }

  /** The image of a store, unless an entry with a value has an unknown DID. */
  function Encode(s: Store): (r: Option<seq<Byte>>)
    ensures r.Some? ==> |r.value| == IMAGE_SIZE
  {
    if forall e :: e in Live(s) ==> Known(e.did) then Some(ImageOf(Live(s))) else None
  }

  predicate Repeats(entries: seq<Entry>, did: U16) { exists e :: e in entries && e.did == did }

  /** The entries read from an image, from number `i` of `count` on, after those already read. */
  function ReadEntries(image: seq<Byte>, i: nat, count: nat, entries: seq<Entry>): (r: Option<seq<Entry>>)
    requires |image| == IMAGE_SIZE && i <= count <= MAX_ENTRIES
    ensures r.Some? ==> |r.value| == |entries| + (count - i)
    decreases count - i
  {
    if i == count then Some(entries)
    else
      var at := HEADER_SIZE + ENTRY_SIZE * i;
      var did, length := GetU16(image[at..at + 2]), GetU16(image[at + 2..at + 4]);
      if length > VALUE_MAX || !Known(did) || Repeats(entries, did) then None
      else ReadEntries(image, i + 1, count, entries + [Entry(did, image[at + 4..at + 4 + length])])
  }

  /** The image carries its own checksum. */
  predicate Checked(image: seq<Byte>)
    requires |image| == IMAGE_SIZE
  {
    Crc32.GetU32(image[CRC_OFFSET..]) == Crc32.Crc(image[..CRC_OFFSET])
  }

  function Filled(entries: seq<Entry>): Store
    requires |entries| <= MAX_ENTRIES
  {
    entries + seq(MAX_ENTRIES - |entries|, _ => EMPTY_ENTRY)
  }

  function Decode(image: seq<Byte>): Option<Store>
    requires |image| == IMAGE_SIZE
  {
    if Crc32.GetU32(image[..4]) != MAGIC || GetU16(image[4..6]) != VERSION || !Checked(image) then None
    else if GetU16(image[6..8]) > MAX_ENTRIES then None
    else
      match ReadEntries(image, 0, GetU16(image[6..8]), [])
      case None => None
      case Some(entries) => Some(Filled(entries))
  }

  // ---- Building and reading images ----

  /** The image while its entries are written: no count and no checksum yet. */
  function Draft(entries: seq<Entry>): (r: seq<Byte>)
    requires |entries| <= MAX_ENTRIES
    ensures |r| == IMAGE_SIZE
  {
    Crc32.PutU32(MAGIC) + PutU16(VERSION) + Zeros(2) + Records(entries)
    + Zeros(IMAGE_SIZE - HEADER_SIZE - ENTRY_SIZE * |entries|)
  }

  function Overwritten(bytes: seq<Byte>, at: nat, data: seq<Byte>): (r: seq<Byte>)
    requires at + |data| <= |bytes|
    ensures |r| == |bytes|
  {
    bytes[..at] + data + bytes[at + |data|..]
  }

  method Put(image: array<Byte>, at: nat, data: seq<Byte>)
    requires at + |data| <= image.Length
    modifies image
    ensures image[..] == Overwritten(old(image[..]), at, data)
  {
    for i := 0 to |data|
      invariant image[..at] == old(image[..at]) && image[at + |data|..] == old(image[at + |data|..])
      invariant image[at..at + i] == data[..i]
    {
      image[at + i] := data[i];
      assert image[at..at + i + 1] == image[at..at + i] + [data[i]];
      assert data[..i + 1] == data[..i] + [data[i]];
    }
    assert image[..] == image[..at] + image[at..at + |data|] + image[at + |data|..];
  }

  method EncodeImage(s: Store) returns (r: Option<seq<Byte>>)
    ensures r == Encode(s)
  {
    hide Crc32.PutU32, Crc32.Crc, PutU16, Record, Records, Draft, Live, Overwritten, Body, ImageOf;
    var image := new Byte[IMAGE_SIZE](_ => 0);
    DraftStarts(image[..]);
    Put(image, 0, Crc32.PutU32(MAGIC));
    Put(image, 4, PutU16(VERSION));
    var count := 0;
    ghost var written: seq<Entry> := [];
    LiveOfNone();
    for index := 0 to MAX_ENTRIES
      invariant written == Live(s[..index]) && |written| == count <= index
      invariant forall e :: e in written ==> Known(e.did)
      invariant image[..] == Draft(written)
    {
      var entry := s[index];
      LiveGrows(s, index);
      if entry.value != [] {
        if !Known(entry.did) {
          LiveKeeps(s, index + 1, entry);
          return None;
        }
        PutEntry(image, entry, written, count);
        written := written + [entry];
        count := count + 1;
      }
    }
    assert s[..MAX_ENTRIES] == s;
    DraftFinishes(written);
    Put(image, 6, PutU16(count));
    var crc := Crc32.ComputeCrc(image[..CRC_OFFSET]);
    Put(image, CRC_OFFSET, Crc32.PutU32(crc));
    r := Some(image[..]);
  }

  /** A draft in which the three fields of one more entry are written. */
  function DraftWith(entries: seq<Entry>, e: Entry): seq<Byte>
    requires |entries| < MAX_ENTRIES
  {
    var at := HEADER_SIZE + ENTRY_SIZE * |entries|;
    var named := Overwritten(Draft(entries), at, PutU16(e.did));
    Overwritten(Overwritten(named, at + 2, PutU16(|e.value|)), at + 4, e.value)
  }

  method PutEntry(image: array<Byte>, entry: Entry, ghost written: seq<Entry>, count: nat)
    requires count == |written| < MAX_ENTRIES && image[..] == Draft(written)
    modifies image
    ensures image[..] == Draft(written + [entry])
  {
    hide PutU16, Draft, Overwritten;
    var offset := HEADER_SIZE + ENTRY_SIZE * count;
    DraftGrows(written, entry);
    Put(image, offset, PutU16(entry.did));
    Put(image, offset + 2, PutU16(|entry.value|));
    Put(image, offset + 4, entry.value);
  }

  lemma DraftStarts(blank: seq<Byte>)
    requires |blank| == IMAGE_SIZE && forall i :: 0 <= i < IMAGE_SIZE ==> blank[i] == 0
    ensures Overwritten(Overwritten(blank, 0, Crc32.PutU32(MAGIC)), 4, PutU16(VERSION)) == Draft([])
  {
    hide Crc32.PutU32, PutU16, Overwritten, Zeros;
    BlankIsZeros(blank);
    var magic, version := Crc32.PutU32(MAGIC), PutU16(VERSION);
    OverwriteBehind([], IMAGE_SIZE, magic);
    assert [] + Zeros(IMAGE_SIZE) == blank;
    assert [] + magic == magic;
    OverwriteBehind(magic, IMAGE_SIZE - 4, version);
    ZerosJoin(2, IMAGE_SIZE - HEADER_SIZE);
    assert Records([]) == [];
  }

  lemma BlankIsZeros(blank: seq<Byte>)
    requires forall i :: 0 <= i < |blank| ==> blank[i] == 0
    ensures blank == Zeros(|blank|)
  {}

  lemma LiveOfNone()
    ensures Live([]) == []
  {}

  lemma {:induction false} LiveOfAppend(entries: seq<Entry>, e: Entry)
    ensures Live(entries + [e]) == Live(entries) + (if e.value == [] then [] else [e])
  {
    if entries == [] {
      assert [e][1..] == [];
    } else {
      assert (entries + [e])[1..] == entries[1..] + [e];
      LiveOfAppend(entries[1..], e);
    }
  }

  lemma LiveGrows(s: Store, index: nat)
    requires index < MAX_ENTRIES
    ensures Live(s[..index + 1]) == Live(s[..index]) + (if s[index].value == [] then [] else [s[index]])
  {
    hide Live;
    assert s[..index + 1] == s[..index] + [s[index]];
    LiveOfAppend(s[..index], s[index]);
  }

  lemma {:induction false} LiveKeeps(s: Store, n: nat, e: Entry)
    requires n <= MAX_ENTRIES && e in Live(s[..n])
    ensures e in Live(s)
    decreases MAX_ENTRIES - n
  {
    hide Live;
    if n < MAX_ENTRIES {
      LiveGrows(s, n);
      LiveKeeps(s, n + 1, e);
    } else {
      assert s[..n] == s;
    }
  }

  lemma {:induction false} RecordsOfAppend(entries: seq<Entry>, e: Entry)
    ensures Records(entries + [e]) == Records(entries) + Record(e)
  {
    hide Record;
    if entries == [] {
      assert [e][1..] == [];
    } else {
      assert (entries + [e])[1..] == entries[1..] + [e];
      RecordsOfAppend(entries[1..], e);
    }
  }

  lemma OverwriteBehind(front: seq<Byte>, n: nat, data: seq<Byte>)
    requires |data| <= n
    ensures Overwritten(front + Zeros(n), |front|, data) == (front + data) + Zeros(n - |data|)
  {}

  lemma DraftGrows(entries: seq<Entry>, e: Entry)
    requires |entries| < MAX_ENTRIES
    ensures DraftWith(entries, e) == Draft(entries + [e])
  {
    hide Crc32.PutU32, PutU16, Records, Overwritten, Zeros;
    RecordsOfAppend(entries, e);
    var front := Crc32.PutU32(MAGIC) + PutU16(VERSION) + Zeros(2) + Records(entries);
    var room := IMAGE_SIZE - HEADER_SIZE - ENTRY_SIZE * |entries|;
    OverwriteBehind(front, room, PutU16(e.did));
    OverwriteBehind(front + PutU16(e.did), room - 2, PutU16(|e.value|));
    OverwriteBehind(front + PutU16(e.did) + PutU16(|e.value|), room - 4, e.value);
    ZerosJoin(ENTRY_SIZE - 4 - |e.value|, room - ENTRY_SIZE);
    RecordTail(front, e, room);
  }

  lemma ZerosJoin(a: nat, b: nat)
    ensures Zeros(a) + Zeros(b) == Zeros(a + b)
  {}

  lemma RecordTail(front: seq<Byte>, e: Entry, room: nat)
    requires ENTRY_SIZE <= room
    ensures front + PutU16(e.did) + PutU16(|e.value|) + e.value + Zeros(room - 4 - |e.value|)
         == front + Record(e) + Zeros(room - ENTRY_SIZE)
  {
    hide PutU16, Zeros;
    ZerosJoin(ENTRY_SIZE - 4 - |e.value|, room - ENTRY_SIZE);
  }

  lemma DraftFinishes(entries: seq<Entry>)
    requires |entries| <= MAX_ENTRIES
    ensures var image := Overwritten(Draft(entries), 6, PutU16(|entries|));
            image[..CRC_OFFSET] == Body(entries)
            && Overwritten(image, CRC_OFFSET, Checksum(Body(entries))) == ImageOf(entries)
  {
    hide Crc32.PutU32, PutU16, Records, Checksum;
  }

  method DecodeImage(image: seq<Byte>) returns (r: Option<Store>)
    requires |image| == IMAGE_SIZE
    ensures r == Decode(image)
  {
    hide Crc32.GetU32, GetU16, Crc32.Crc, Filled, Known, Find, ReadEntries, Repeats;
    FilledStarts();
    var crc := Crc32.ComputeCrc(image[..CRC_OFFSET]);
    if Crc32.GetU32(image[..4]) != MAGIC || GetU16(image[4..6]) != VERSION
       || Crc32.GetU32(image[CRC_OFFSET..]) != crc {
      return None;
    }
    var count := GetU16(image[6..8]);
    if count > MAX_ENTRIES { return None; }
    var store := EMPTY;
    ghost var entries: seq<Entry> := [];
    var offset := HEADER_SIZE;
    for index := 0 to count
      invariant |entries| == index && offset == HEADER_SIZE + ENTRY_SIZE * index
      invariant store == Filled(entries)
      invariant ReadEntries(image, 0, count, []) == ReadEntries(image, index, count, entries)
    {
      var did := GetU16(image[offset..offset + 2]);
      var length := GetU16(image[offset + 2..offset + 4]);
      var at := FindEntry(store, did);
      FoundAmongRead(entries, did);
      ReadStep(image, index, count, entries);
      if length > VALUE_MAX || !Known(did) || at != MAX_ENTRIES { return None; }
      var entry := Entry(did, image[offset + 4..offset + 4 + length]);
      FilledGrows(entries, entry);
      store := store[index := entry];
      entries := entries + [entry];
      offset := offset + ENTRY_SIZE;
    }
    ReadEnds(image, count, entries);
    return Some(store);
  }

  lemma ReadEnds(image: seq<Byte>, count: nat, entries: seq<Entry>)
    requires |image| == IMAGE_SIZE && count <= MAX_ENTRIES
    ensures ReadEntries(image, count, count, entries) == Some(entries)
  {}

  lemma ReadStep(image: seq<Byte>, i: nat, count: nat, entries: seq<Entry>)
    requires |image| == IMAGE_SIZE && i < count <= MAX_ENTRIES
    ensures var at := HEADER_SIZE + ENTRY_SIZE * i;
            var did, length := GetU16(image[at..at + 2]), GetU16(image[at + 2..at + 4]);
            ReadEntries(image, i, count, entries)
            == if length > VALUE_MAX || !Known(did) || Repeats(entries, did) then None
               else ReadEntries(image, i + 1, count, entries + [Entry(did, image[at + 4..at + 4 + length])])
  {
    hide GetU16, Known, Repeats;
  }

  lemma FilledStarts()
    ensures Filled([]) == EMPTY
  {}

  lemma FilledGrows(entries: seq<Entry>, e: Entry)
    requires |entries| < MAX_ENTRIES
    ensures Filled(entries)[|entries| := e] == Filled(entries + [e])
  {}

  /** Free entries have DID 0, so a search for a known DID finds only entries read before. */
  lemma FoundAmongRead(entries: seq<Entry>, did: U16)
    requires |entries| <= MAX_ENTRIES
    ensures Known(did) ==> (Find(Filled(entries), did, 0) != MAX_ENTRIES <==> Repeats(entries, did))
  {
    var s := Filled(entries);
    if Known(did) {
      var i := Find(s, did, 0);
      if i < MAX_ENTRIES {
        assert i < |entries| && entries[i] in entries;
      } else {
        forall e | e in entries ensures e.did != did {
          var j :| 0 <= j < |entries| && entries[j] == e;
          assert s[j] == e;
        }
      }
    }
  }
}
