/** The append-only parameter log on a flash sector that programs erased words only. */
module ParamLog {
  import opened Bytes
  import opened ParamStore

  const MAX_SLOTS := 1638
  const SLOT_WORDS := 20

  // ---- The flash sector ----

  /** A word is programmable while all its bits are set. */
  predicate ErasedWord(f: seq<Byte>, at: nat)
    requires at + 4 <= |f|
  {
    f[at] == 0xFF && f[at + 1] == 0xFF && f[at + 2] == 0xFF && f[at + 3] == 0xFF
  }

  /** Programs `data` word by word from `at` on, until a word is not erased or `budget` words are
      done: then power fails or the controller gives up. */
  function Program(f: seq<Byte>, at: nat, data: seq<Byte>, budget: nat): (r: (seq<Byte>, bool))
    requires |data| % 4 == 0 && at + |data| <= |f|
    ensures |r.0| == |f|
    decreases |data|
  {
    if data == [] then (f, true)
    else if budget == 0 || !ErasedWord(f, at) then (f, false)
    else Program(Overwritten(f, at, data[..4]), at + 4, data[4..], budget - 1)
  }

  class Sector {
    const bytes: array<Byte>

    constructor (size: nat)
      ensures bytes.Length == size && fresh(bytes) && forall i :: 0 <= i < size ==> bytes[i] == 0xFF
    {
      bytes := new Byte[size](_ => 0xFF);
    }

    method ReadSlot(slot: nat) returns (r: Option<seq<Byte>>)
      ensures r == if IMAGE_SIZE * (slot + 1) <= bytes.Length then Some(Slot(bytes[..], slot)) else None
    {
      var at := IMAGE_SIZE * slot;
      if at + IMAGE_SIZE > bytes.Length { return None; }
      assert bytes[at..at + IMAGE_SIZE] == bytes[..][at..at + IMAGE_SIZE];
      return Some(bytes[at..at + IMAGE_SIZE]);
    }

    method Erase(works: bool) returns (ok: bool)
      modifies bytes
      ensures ok == works && bytes[..] == if works then Blank(bytes.Length) else old(bytes[..])
    {
      if !works { return false; }
      for i := 0 to bytes.Length
        invariant forall j :: 0 <= j < i ==> bytes[j] == 0xFF
      {
        bytes[i] := 0xFF;
      }
      return true;
    }

    method Write(at: nat, data: seq<Byte>, budget: nat) returns (ok: bool)
      modifies bytes
      ensures if at % 4 == 0 && |data| % 4 == 0 && at + |data| <= bytes.Length
              then (bytes[..], ok) == Program(old(bytes[..]), at, data, budget)
              else !ok && bytes[..] == old(bytes[..])
    {
      if at % 4 != 0 || |data| % 4 != 0 || at + |data| > bytes.Length { return false; }
      ok := ProgramWords(at, data, budget);
    }

    method ProgramWords(at: nat, data: seq<Byte>, budget: nat) returns (ok: bool)
      requires |data| % 4 == 0 && at + |data| <= bytes.Length
      modifies bytes
      ensures (bytes[..], ok) == Program(old(bytes[..]), at, data, budget)
    {
      hide Program, Overwritten;
      var index, left := 0, budget;
      assert data[0..] == data;
      while index < |data|
        invariant 0 <= index <= |data| && index % 4 == 0
        invariant Program(old(bytes[..]), at, data, budget) == Program(bytes[..], at + index, data[index..], left)
      {
        ProgramUnfolds(bytes[..], at + index, data[index..], left);
        if left == 0 || bytes[at + index] != 0xFF || bytes[at + index + 1] != 0xFF
           || bytes[at + index + 2] != 0xFF || bytes[at + index + 3] != 0xFF {
          return false;
        }
        assert data[index..][..4] == data[index..index + 4] && data[index..][4..] == data[index + 4..];
        Put(bytes, at + index, data[index..index + 4]);
        index, left := index + 4, left - 1;
      }
      ProgramUnfolds(bytes[..], at + index, data[index..], left);
      return true;
    }
  }

  lemma ProgramUnfolds(f: seq<Byte>, at: nat, data: seq<Byte>, budget: nat)
    requires |data| % 4 == 0 && at + |data| <= |f|
    ensures Program(f, at, data, budget)
         == if data == [] then (f, true)
            else if budget == 0 || f[at] != 0xFF || f[at + 1] != 0xFF || f[at + 2] != 0xFF || f[at + 3] != 0xFF then (f, false)
            else Program(Overwritten(f, at, data[..4]), at + 4, data[4..], budget - 1)
  {}

  // ---- The log ----

  datatype LogState = LogState(store: Store, next: nat, slots: nat)

  function Slot(f: seq<Byte>, i: nat): (r: seq<Byte>)
    requires IMAGE_SIZE * (i + 1) <= |f|
    ensures |r| == IMAGE_SIZE
  {
    f[IMAGE_SIZE * i..IMAGE_SIZE * i + IMAGE_SIZE]
  }

  predicate Erased(image: seq<Byte>) {
    forall i :: 0 <= i < |image| ==> image[i] == 0xFF
  }

  function Blank(n: nat): (f: seq<Byte>)
    ensures |f| == n && Erased(f)
  {
    seq(n, _ => 0xFF)
  }

  /** How the start-up scan ends: at the first erased slot, at one that cannot be read, or with a
      reason to compact. `latest` is the last decodable slot so far. */
  datatype Scan =
    | AtErased(slot: nat, latest: Option<nat>)
    | AtUnreadable(latest: Option<nat>)
    | AtEnd(latest: Option<nat>)

  function ScanFrom(f: seq<Byte>, i: nat, slots: nat, latest: Option<nat>): (r: Scan)
    requires i <= slots
    requires latest.Some? ==> latest.value < i && IMAGE_SIZE * (latest.value + 1) <= |f|
    ensures r.latest.Some? ==> r.latest.value < slots && IMAGE_SIZE * (r.latest.value + 1) <= |f|
    ensures r.AtErased? ==> i <= r.slot < slots
    decreases slots - i
  {
    if i == slots then AtEnd(latest)
    else if IMAGE_SIZE * (i + 1) > |f| then AtUnreadable(latest)
    else if Erased(Slot(f, i)) then AtErased(i, latest)
    else if Decode(Slot(f, i)).Some? then ScanFrom(f, i + 1, slots, Some(i))
    else AtEnd(latest)
  }

  /** The store of the latest decodable slot. */
  function StoreAt(f: seq<Byte>, latest: Option<nat>): Store
    requires latest.Some? ==> IMAGE_SIZE * (latest.value + 1) <= |f|
  {
    match latest
    case None => EMPTY
    case Some(i) => if Decode(Slot(f, i)).Some? then Decode(Slot(f, i)).value else EMPTY
  }

  const UNLOADED := LogState(EMPTY, 0, 0)

  function AfterLatest(latest: Option<nat>): nat {
    match latest
    case None => 0
    case Some(i) => i + 1
  }

  /** Erases the sector and puts the latest image back into slot 0. */
  function Compact(f: seq<Byte>, slots: nat, latest: Option<nat>, erases: bool, budget: nat): (r: (seq<Byte>, LogState, bool))
    requires latest.Some? ==> IMAGE_SIZE * (latest.value + 1) <= |f|
    ensures |r.0| == |f|
  {
    if !erases then (f, UNLOADED, false)
    else if latest.None? then (Blank(|f|), LogState(EMPTY, 0, slots), true)
    else
      var (f', ok) := Program(Blank(|f|), 0, Slot(f, latest.value), budget);
      if ok && Slot(f', 0) == Slot(f, latest.value) then (f', LogState(StoreAt(f, latest), 1, slots), true)
      else (f', UNLOADED, false)
  }

  /** Start-up: scan, and compact when no slot is free. */
  function Loaded(f: seq<Byte>, log: LogState, slots: nat, erases: bool, budget: nat): (r: (seq<Byte>, LogState, bool))
    ensures |r.0| == |f|
  {
    if slots == 0 || slots > MAX_SLOTS then (f, log, false)
    else
      match ScanFrom(f, 0, slots, None)
      case AtErased(slot, latest) => (f, LogState(StoreAt(f, latest), slot, slots), true)
      case AtUnreadable(latest) => (f, LogState(StoreAt(f, latest), AfterLatest(latest), slots), false)
      case AtEnd(latest) => Compact(f, slots, latest, erases, budget)
  }

  /** Appending an image and reading it back, with power for `budget` words. */
  function Append(f: seq<Byte>, log: LogState, store: Store, image: seq<Byte>, budget: nat): (r: (seq<Byte>, LogState, bool))
    requires |image| == IMAGE_SIZE
    ensures |r.0| == |f|
  {
    var at := IMAGE_SIZE * log.next;
    if at + IMAGE_SIZE > |f| then (f, log, false)
    else
      var (f', ok) := Program(f, at, image, budget);
      if ok && Slot(f', log.next) == image then (f', log.(store := store, next := log.next + 1), true)
      else (f', log, false)
  }

  /** Setting one value. */
  function Written(f: seq<Byte>, log: LogState, did: U16, data: seq<Byte>, budget: nat): (r: (seq<Byte>, LogState, bool))
    ensures |r.0| == |f|
  {
    if log.next >= log.slots then (f, log, false)
    else
      match Update(log.store, did, data)
      case None => (f, log, false)
      case Some(store) =>
        match Encode(store)
        case None => (f, log, false)
        case Some(image) => Append(f, log, store, image, budget)
  }

  /** Clearing all values. */
  function Wiped(f: seq<Byte>, log: LogState, budget: nat): (r: (seq<Byte>, LogState, bool))
    ensures |r.0| == |f|
  {
    if log.next >= log.slots then (f, log, false)
    else
      match Encode(EMPTY)
      case None => (f, log, false)
      case Some(image) => Append(f, log, EMPTY, image, budget)
  }

  method IsErased(image: seq<Byte>) returns (erased: bool)
    ensures erased == Erased(image)
  {
    for index := 0 to |image|
      invariant forall i :: 0 <= i < index ==> image[i] == 0xFF
    {
      if image[index] != 0xFF { return false; }
    }
    return true;
  }

  lemma SlotAligned(n: nat)
    ensures IMAGE_SIZE * n % 4 == 0
  {}

  class Log {
    var store: Store
    var nextSlot: nat
    var slotCount: nat

    constructor ()
      ensures State() == UNLOADED
    {
      store, nextSlot, slotCount := EMPTY, 0, 0;
    }

    ghost function State(): LogState
      reads this
    {
      LogState(store, nextSlot, slotCount)
    }

    method Reset()
      modifies this
      ensures State() == UNLOADED
    {
      store, nextSlot, slotCount := EMPTY, 0, 0;
    }

    method Load(sector: Sector, slots: nat, erases: bool, budget: nat) returns (ok: bool)
      modifies this, sector.bytes
      ensures (sector.bytes[..], State(), ok) == Loaded(old(sector.bytes[..]), old(State()), slots, erases, budget)
    {
      hide Decode, Erased, Program, Compact, Slot;
      if slots == 0 || slots > MAX_SLOTS { return false; }
      Reset();
      slotCount := slots;
      ghost var f := sector.bytes[..];
      var latest: Option<nat> := None;
      var latestImage: seq<Byte> := [];
      var slot := 0;
      while slot < slots
        invariant slot <= slots && slotCount == slots && sector.bytes[..] == f
        invariant latest.Some? ==> latest.value < slot && IMAGE_SIZE * (latest.value + 1) <= |f|
        invariant latestImage == if latest.Some? then Slot(f, latest.value) else []
        invariant store == StoreAt(f, latest) && nextSlot == AfterLatest(latest)
        invariant slot == AfterLatest(latest)
        invariant ScanFrom(f, 0, slots, None) == ScanFrom(f, slot, slots, latest)
      {
        var image := sector.ReadSlot(slot);
        if image.None? { return false; }
        var erased := IsErased(image.value);
        if erased {
          nextSlot := slot;
          return true;
        }
        var candidate := DecodeImage(image.value);
        if candidate.None? { break; }
        store, nextSlot := candidate.value, slot + 1;
        latest, latestImage := Some(slot), image.value;
        slot := slot + 1;
      }
      ok := CompactInto(sector, latest, latestImage, erases, budget);
    }

    method CompactInto(sector: Sector, ghost latest: Option<nat>, latestImage: seq<Byte>, erases: bool, budget: nat)
      returns (ok: bool)
      requires latest.Some? ==> IMAGE_SIZE * (latest.value + 1) <= sector.bytes.Length
      requires latestImage == if latest.Some? then Slot(sector.bytes[..], latest.value) else []
      requires store == StoreAt(sector.bytes[..], latest) && nextSlot == AfterLatest(latest)
      modifies this, sector.bytes
      ensures (sector.bytes[..], State(), ok)
           == Compact(old(sector.bytes[..]), old(slotCount), latest, erases, budget)
    {
      hide Decode, Program, Slot;
      var erased := sector.Erase(erases);
      if !erased {
        Reset();
        return false;
      }
      if |latestImage| != 0 {
        ok := sector.Write(0, latestImage, budget);
        var verification := sector.ReadSlot(0);
        if !ok || verification != Some(latestImage) {
          Reset();
          return false;
        }
        nextSlot := 1;
      }
      return true;
    }

    method Get(did: U16, capacity: nat) returns (r: Option<Value>)
      ensures r == ParamStore.Get(store, did, capacity)
    {
      r := GetValue(store, did, capacity);
    }

    method Set(sector: Sector, did: U16, data: seq<Byte>, budget: nat) returns (ok: bool)
      modifies this, sector.bytes
      ensures (sector.bytes[..], State(), ok) == Written(old(sector.bytes[..]), old(State()), did, data, budget)
    {
      hide Update, Encode, Append;
      if nextSlot >= slotCount { return false; }
      var candidate := UpdateEntry(store, did, data);
      if candidate.None? { return false; }
      var image := EncodeImage(candidate.value);
      if image.None? { return false; }
      ok := AppendImage(sector, candidate.value, image.value, budget);
    }

    method Clear(sector: Sector, budget: nat) returns (ok: bool)
      modifies this, sector.bytes
      ensures (sector.bytes[..], State(), ok) == Wiped(old(sector.bytes[..]), old(State()), budget)
    {
      hide Encode, Append;
      if nextSlot >= slotCount { return false; }
      var image := EncodeImage(EMPTY);
      if image.None? { return false; }
      ok := AppendImage(sector, EMPTY, image.value, budget);
    }

    method AppendImage(sector: Sector, newStore: Store, image: seq<Byte>, budget: nat) returns (ok: bool)
      requires |image| == IMAGE_SIZE
      modifies this, sector.bytes
      ensures (sector.bytes[..], State(), ok) == Append(old(sector.bytes[..]), old(State()), newStore, image, budget)
    {
      hide Program, Slot;
      SlotAligned(nextSlot);
      ok := sector.Write(IMAGE_SIZE * nextSlot, image, budget);
      if !ok { return false; }
      var verification := sector.ReadSlot(nextSlot);
      if verification != Some(image) { return false; }
      store, nextSlot := newStore, nextSlot + 1;
      return true;
    }
  }
}
