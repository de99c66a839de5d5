/** Snapshot images byte by byte: what is written, and which images are accepted. */
module ParamBytes {
  import opened Bytes
  import opened Crc32
  import opened ParamStore
  import opened ParamEmpty

  // ---- What is written ----

  lemma EmptyChecksum()
    ensures Crc(Body([])) == 0x4D99_C465
  {
    hide Register, FourBytes, ZerosFed;
    EmptyBody();
    HeaderRegister();
    RegisterAppend(ONES, HEADER, Zeros(4 * 17));
    RegisterOfZeros(FRONTS[0], 17);
    FrontsAre(17);
    assert Flip(FRONTS[17]) == 0x4D99_C465;
  }

  lemma MagicBytes()
    ensures PutU32(MAGIC) == [0x42, 0x44, 0x32, 0x50]
  {
    assert Quarter(MAGIC, 0) == 0x42 && Quarter(MAGIC, 1) == 0x44 && Quarter(MAGIC, 2) == 0x32 && Quarter(MAGIC, 3) == 0x50;
    assert LowByte(0x42) == 0x42 && LowByte(0x44) == 0x44 && LowByte(0x32) == 0x32 && LowByte(0x50) == 0x50;
  }

  lemma ChecksumBytes()
    ensures PutU32(0x4D99_C465) == [0x65, 0xC4, 0x99, 0x4D]
  {
    assert Quarter(0x4D99_C465, 0) == 0x65 && Quarter(0x4D99_C465, 1) == 0xC4;
    assert Quarter(0x4D99_C465, 2) == 0x99 && Quarter(0x4D99_C465, 3) == 0x4D;
    assert LowByte(0x65) == 0x65 && LowByte(0xC4) == 0xC4 && LowByte(0x99) == 0x99 && LowByte(0x4D) == 0x4D;
  }

  predicate IsImageOf(image: seq<Byte>, s: Store) { Encode(s) == Some(image) }

  /** The record of one value: identifier and length, low bytes first, then the value and zeros. */
  lemma RecordBytes()
    ensures Record(Entry(0xF190, [0x41, 0x42])) == [0x90, 0xF1, 2, 0, 0x41, 0x42] + Zeros(16)
  {}

  /** The whole image of a store without values. */
  lemma ImageBytes()
    ensures IsImageOf([0x42, 0x44, 0x32, 0x50, 1, 0, 0, 0] + Zeros(68) + [0x65, 0xC4, 0x99, 0x4D], EMPTY)
  {
    hide PutU32, Crc, Live, Body;
    NothingLives();
    EmptyBody();
    EmptyChecksum();
    MagicBytes();
    ChecksumBytes();
    assert HEADER == [0x42, 0x44, 0x32, 0x50, 1, 0, 0, 0];
    assert ImageOf([]) == Body([]) + PutU32(Crc(Body([])));
  }

  // ---- What is accepted ----

  /** The identifier of record `i`, its length field, and its value: low bytes first, twenty-two bytes a record. */
  function DidAt(image: seq<Byte>, i: nat): U16
    requires |image| == IMAGE_SIZE && i < 3
  {
    256 * image[8 + 22 * i + 1] as int + image[8 + 22 * i]
  }

  function LengthAt(image: seq<Byte>, i: nat): U16
    requires |image| == IMAGE_SIZE && i < 3
  {
    256 * image[8 + 22 * i + 3] as int + image[8 + 22 * i + 2]
  }

  /** Record `i` shows a value of one of the three identifiers, which no record before it has. */
  predicate GoodRecord(image: seq<Byte>, i: nat)
    requires |image| == IMAGE_SIZE && i < 3
  {
    && LengthAt(image, i) <= 17 && DidAt(image, i) in {0xF190, 0xF191, 0x0100}
    && forall j :: 0 <= j < i ==> DidAt(image, j) != DidAt(image, i)
  }

  function RecordOf(image: seq<Byte>, i: nat): Entry
    requires |image| == IMAGE_SIZE && i < 3 && GoodRecord(image, i)
  {
    Entry(DidAt(image, i), image[8 + 22 * i + 4..8 + 22 * i + 4 + LengthAt(image, i)])
  }

  /** The records that follow `entries` are read exactly if all of them are good. */
  lemma {:induction false} ReadsExactly(image: seq<Byte>, i: nat, count: nat, entries: seq<Entry>)
    requires |image| == IMAGE_SIZE && i <= count <= 3 && |entries| == i
    requires forall j :: 0 <= j < i ==> GoodRecord(image, j) && entries[j] == RecordOf(image, j)
    ensures var r := ReadEntries(image, i, count, entries);
            && (r.Some? <==> forall j :: 0 <= j < count ==> GoodRecord(image, j))
            && (r.Some? ==> |r.value| == count && forall j :: 0 <= j < count ==> r.value[j] == RecordOf(image, j))
    decreases count - i
  {
    hide GoodRecord, RecordOf;
    if i < count {
      ReadsRecord(image, i, entries);
      if GoodRecord(image, i) { ReadsExactly(image, i + 1, count, entries + [RecordOf(image, i)]); }
    }
  }

  lemma ReadsRecord(image: seq<Byte>, i: nat, entries: seq<Entry>)
    requires |image| == IMAGE_SIZE && i < 3 && |entries| == i
    requires forall j :: 0 <= j < i ==> GoodRecord(image, j) && entries[j] == RecordOf(image, j)
    ensures var at := HEADER_SIZE + ENTRY_SIZE * i;
            var did, length := GetU16(image[at..at + 2]), GetU16(image[at + 2..at + 4]);
            && (GoodRecord(image, i) <==> length <= VALUE_MAX && Known(did) && !Repeats(entries, did))
            && (GoodRecord(image, i) ==> RecordOf(image, i) == Entry(did, image[at + 4..at + 4 + length]))
  {
    assert forall j :: 0 <= j < i ==> entries[j].did == DidAt(image, j);
  }

  /** An image is accepted exactly if it starts with the bytes of the magic word and of version 1, carries its own
      checksum, and has at most three records, all good; it then stands for these records. */
  lemma DecodesExactly(image: seq<Byte>)
    requires |image| == IMAGE_SIZE
    ensures var count := 256 * image[7] as int + image[6];
            && (Decode(image).Some? <==> image[..6] == [0x42, 0x44, 0x32, 0x50, 1, 0] && Checked(image) && count <= 3
                                         && forall j :: 0 <= j < count ==> GoodRecord(image, j))
            && (Decode(image).Some? ==> forall j :: 0 <= j < 3 ==>
                  Decode(image).value[j] == if j < count then RecordOf(image, j) else Entry(0, []))
  {
    hide GetU32, PutU32, Checked, GoodRecord, RecordOf, ReadEntries;
    MagicBytes();
    WordRoundTrip(MAGIC);
    WordKeepsBytes(image[..4]);
    assert GetU16(image[4..6]) == 256 * image[5] as int + image[4] && GetU16(image[6..8]) == 256 * image[7] as int + image[6];
    assert image[..6] == image[..4] + image[4..6] && image[4..6] == [image[4], image[5]];
    assert [0x42, 0x44, 0x32, 0x50, 1, 0] == [0x42, 0x44, 0x32, 0x50] + [1, 0];
    var count := GetU16(image[6..8]);
    if count <= 3 { ReadsExactly(image, 0, count, []); }
  }
}
