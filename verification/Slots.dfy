/** The 64-byte segment header and its two metadata slots (internal/segment/header.go). */
module Slots {
  import opened Bytes
  import opened Errors

  const SEGMENT_HEADER := 64
  const MAGIC: uint32 := 0x414C_4F47
  const VERSION: uint32 := 1

  /** Sixteen bytes: read offset, generation, reserved, checksum. */
  type MetaSlot = m: seq<byte> | |m| == 16 witness Zeroes(16)
  type Header = h: seq<byte> | |h| == 64 witness Zeroes(64)

  function ReadOffset(m: MetaSlot): Result<nat>
  {
    var u := Uint64(m[..8]);
    if u > MAX_INT64 then Err(InvalidSegmentHeader) else Ok(u)
  }

  function Generation(m: MetaSlot): uint16 { Uint16(m[8..10]) }
  function StoredCrc(m: MetaSlot): uint32 { Uint32(m[12..]) }
  function Checksum(m: MetaSlot): uint32 { Crc32c(m[..12]) }
  predicate Valid(m: MetaSlot) { Checksum(m) == StoredCrc(m) }

  function Sealed(fields: seq<byte>): MetaSlot
    requires |fields| == 12
  {
    fields + PutUint32(Crc32c(fields))
  }

  function BumpGeneration(m: MetaSlot): MetaSlot
  {
    Sealed(m[..8] + PutUint16((Generation(m) + 1) % U16) + m[10..12])
  }

  /** The slot that `WriteReadOffset` writes. */
  function NextSlot(m: MetaSlot, offset: uint64): MetaSlot
  {
    Sealed(PutUint64(offset) + BumpGeneration(m)[8..12])
  }

  /** Serial-number comparison of section 3.2 of RFC 1982 with SERIAL_BITS = 16. */
  predicate NewerThan(m: MetaSlot, other: MetaSlot)
  {
    0 < (Generation(m) - Generation(other)) % U16 < 0x8000
  }

  function Magic(h: Header): uint32 { Uint32(h[..4]) }
  function Version(h: Header): uint32 { Uint32(h[4..8]) }
  function StartSequence(h: Header): uint64 { Uint64(h[8..16]) }
  predicate HeaderValid(h: Header) { Magic(h) == MAGIC && Version(h) == VERSION }
  function SlotAt(h: Header, position: nat): MetaSlot
    requires position == 16 || position == 32
  {
    h[position..position + 16]
  }

  /** The newest valid slot of the two. */
  function Newest(a: MetaSlot, b: MetaSlot): Result<MetaSlot>
  {
    if Valid(a) && Valid(b) then (if NewerThan(a, b) then Ok(a) else Ok(b))
    else if Valid(a) then Ok(a)
    else if Valid(b) then Ok(b)
    else Err(InvalidSegmentHeader)
  }

  function Meta(h: Header): Result<MetaSlot>
  {
    Newest(SlotAt(h, 16), SlotAt(h, 32))
  }

  /** The first readable byte that a slot stands for: never inside the header. */
  function Start(m: MetaSlot): nat
  {
    var u := Uint64(m[..8]);
    if u < SEGMENT_HEADER then SEGMENT_HEADER else u
  }

  const FirstSlot: MetaSlot := Sealed(PutUint64(SEGMENT_HEADER) + Zeroes(4))

  function NewHeader(startSequence: uint64): Header
  {
    PutUint32(MAGIC) + PutUint32(VERSION) + PutUint64(startSequence)
    + FirstSlot + Zeroes(32)
  }

  /** The bytes of a new segment header by position: "ALOG", version 1, the start sequence, and a slot for offset 64. */
  lemma {:induction false} HeaderBytes(startSequence: uint64)
    ensures var h, high, low := NewHeader(startSequence), startSequence / 0x1_0000_0000, startSequence % 0x1_0000_0000;
            && h[..8] == [0x41, 0x4C, 0x4F, 0x47, 0, 0, 0, 1]
            && h[8..16] == [
                 high / 0x100_0000, high / 0x1_0000 % 0x100, high / 0x100 % 0x100, high % 0x100,
                 low / 0x100_0000, low / 0x1_0000 % 0x100, low / 0x100 % 0x100, low % 0x100]
            && h[16..28] == [0, 0, 0, 0, 0, 0, 0, 64, 0, 0, 0, 0]
            && h[32..] == Zeroes(32)
            && var crc := Crc32c(h[16..28]);
               h[28..32] == [crc / 0x100_0000, crc / 0x1_0000 % 0x100, crc / 0x100 % 0x100, crc % 0x100]
  {
    hide PutUint32, PutUint64, Sealed;
    var h := NewHeader(startSequence);
    PrefixBytes();
    BigEndian64(startSequence);
    FirstSlotBytes();
    assert h[..8] == PutUint32(MAGIC) + PutUint32(VERSION) && h[8..16] == PutUint64(startSequence);
    assert h[16..28] == FirstSlot[..12] && h[28..32] == FirstSlot[12..] && h[32..] == Zeroes(32);
  }

  lemma {:induction false} FirstSlotBytes()
    ensures FirstSlot[..12] == [0, 0, 0, 0, 0, 0, 0, 64, 0, 0, 0, 0]
    ensures var crc := Crc32c(FirstSlot[..12]);
            FirstSlot[12..] == [crc / 0x100_0000, crc / 0x1_0000 % 0x100, crc / 0x100 % 0x100, crc % 0x100]
  {
    hide PutUint32, PutUint64;
    var fields := PutUint64(SEGMENT_HEADER) + Zeroes(4);
    BigEndian64(SEGMENT_HEADER);
    BigEndian32(Crc32c(fields));
    assert FirstSlot[..12] == fields && FirstSlot[12..] == PutUint32(Crc32c(fields));
  }

  lemma {:induction false} PrefixBytes()
    ensures PutUint32(MAGIC) + PutUint32(VERSION) == [0x41, 0x4C, 0x4F, 0x47, 0, 0, 0, 1]
  {
    hide PutUint32;
    BigEndian32(MAGIC);
    BigEndian32(VERSION);
  }

  /** The bytes of the slot that an update writes by position: the offset, the next generation, and the checksum. */
  lemma {:induction false} NextSlotBytes(m: MetaSlot, offset: uint64)
    ensures var n, high, low := NextSlot(m, offset), offset / 0x1_0000_0000, offset % 0x1_0000_0000;
            && n[..8] == [
                 high / 0x100_0000, high / 0x1_0000 % 0x100, high / 0x100 % 0x100, high % 0x100,
                 low / 0x100_0000, low / 0x1_0000 % 0x100, low / 0x100 % 0x100, low % 0x100]
            && n[8] as int * 0x100 + n[9] == (m[8] as int * 0x100 + m[9] + 1) % 0x1_0000
            && n[10..12] == m[10..12]
            && var crc := Crc32c(n[..12]);
               n[12..] == [crc / 0x100_0000, crc / 0x1_0000 % 0x100, crc / 0x100 % 0x100, crc % 0x100]
  {
    hide PutUint32, PutUint64, PutUint16;
    var g := PutUint16((Generation(m) + 1) % U16);
    var bumped, n := BumpGeneration(m), NextSlot(m, offset);
    SealedFields(m[..8] + g + m[10..12]);
    assert bumped[8..12] == g + m[10..12];
    BigEndian64(offset);
    assert n[..8] == PutUint64(offset) && n[8..10] == g && n[10..12] == m[10..12];
    assert n[..12] == PutUint64(offset) + bumped[8..12];
    BigEndian32(Crc32c(n[..12]));
  }

  /** Where the successor of a slot goes: over the other slot. */
  function WritePosition(m: MetaSlot): nat { if Generation(m) % 2 == 0 then 32 else 16 }

  /** The last bit of the generation decides. */
  lemma {:induction false} WriteByte(m: MetaSlot)
    ensures WritePosition(m) == if m[9] % 2 == 0 then 32 else 16
  {
    var high, low := m[8] as int, m[9] as int;
    assert m[8..10] == [m[8], m[9]];
    assert (high * 0x100 + low) % 2 == low % 2;
  }

  function LivePosition(m: MetaSlot): nat { 48 - WritePosition(m) }

  function PutSlot(h: Header, position: nat, m: MetaSlot): Header
    requires position == 16 || position == 32
  {
    h[..position] + m + h[position + 16..]
  }

  /** Generation parity names the live slot; the other one is unreadable or exactly one generation old. */
  ghost predicate Settled(h: Header, m: MetaSlot)
  {
    && Valid(m)
    && SlotAt(h, LivePosition(m)) == m
    && Outdated(SlotAt(h, WritePosition(m)), m)
  }

  ghost predicate Outdated(other: MetaSlot, m: MetaSlot)
  {
    Valid(other) ==> (Generation(other) + 1) % U16 == Generation(m)
  }

  /** A header no update has reached yet. Its second slot is all zero, which some checksums accept. */
  ghost predicate Fresh(h: Header)
  {
    SlotAt(h, 16) == FirstSlot && SlotAt(h, 32) == Zeroes(16)
  }

  /** What every header written by this code satisfies. */
  ghost predicate Sound(h: Header)
  {
    Meta(h).Ok? && (Fresh(h) || Settled(h, Meta(h).value))
  }

  /** How many generations the one slot is ahead of the other, modulo 2^16. */
  function Ahead(a: MetaSlot, b: MetaSlot): nat
  {
    (a[8] as int * 0x100 + a[9] as int - b[8] as int * 0x100 - b[9] as int) % 0x1_0000
  }

  /** Of two valid slots the one up to 32767 generations ahead is read, in either order; between equals, the second. */
  lemma {:induction false} AheadWins(a: MetaSlot, b: MetaSlot)
    requires Valid(a) && Valid(b)
    ensures 0 < Ahead(a, b) < 0x8000 ==> Newest(a, b) == Ok(a) && Newest(b, a) == Ok(a)
    ensures Ahead(a, b) in {0, 0x8000} ==> Newest(a, b) == Ok(b)
  {
    hide Valid;
    assert a[8..10] == [a[8], a[9]] && b[8..10] == [b[8], b[9]];
    assert Ahead(a, b) == (Generation(a) as int - Generation(b) as int) % U16;
    if 0 < Ahead(a, b) < 0x8000 { BehindWraps(Generation(a), Generation(b)); }
  }

  lemma {:induction false} BehindWraps(x: uint16, y: uint16)
    requires 0 < (x as int - y as int) % 0x1_0000 < 0x8000
    ensures !(0 < (y as int - x as int) % 0x1_0000 < 0x8000)
  {
    var d := (x as int - y as int) % 0x1_0000;
    assert (y as int - x as int) % 0x1_0000 == 0x1_0000 - d;
  }

  lemma {:induction false} OutdatedLoses(other: MetaSlot, m: MetaSlot)
    requires Valid(m) && Outdated(other, m)
    ensures Newest(m, other) == Ok(m)
    ensures Newest(other, m) == Ok(m)
  {
  }

  lemma {:induction false} SettledIsMeta(h: Header, m: MetaSlot)
    requires Settled(h, m)
    ensures Meta(h) == Ok(m) && Sound(h)
  {
    OutdatedLoses(SlotAt(h, WritePosition(m)), m);
  }

  lemma {:induction false} SealedFields(fields: seq<byte>)
    requires |fields| == 12
    ensures var m := Sealed(fields);
            && Valid(m)
            && m[..8] == fields[..8]
            && m[8..12] == fields[8..12]
            && m[8..10] == fields[8..10]
  {
    var m := Sealed(fields);
    assert m[..12] == fields;
    assert m[12..] == PutUint32(Crc32c(fields));
    assert m[..8] == fields[..8];
    assert m[8..10] == fields[8..10];
    assert m[8..12] == fields[8..12];
  }

  lemma {:induction false} BumpFields(m: MetaSlot)
    ensures BumpGeneration(m)[8..10] == PutUint16((Generation(m) + 1) % U16)
  {
    var fields := m[..8] + PutUint16((Generation(m) + 1) % U16) + m[10..12];
    SealedFields(fields);
    assert fields[8..10] == PutUint16((Generation(m) + 1) % U16);
  }

  lemma {:induction false} NextSlotFields(m: MetaSlot, offset: uint64)
    ensures var n := NextSlot(m, offset);
            && Valid(n)
            && Generation(n) == (Generation(m) + 1) % U16
            && Uint64(n[..8]) == offset
  {
    var g := BumpGeneration(m)[8..12];
    var fields := PutUint64(offset) + g;
    SealedFields(fields);
    BumpFields(m);
    assert fields[..8] == PutUint64(offset);
    assert fields[8..10] == g[..2] == BumpGeneration(m)[8..10];
  }

  lemma {:induction false} NextSlotStart(m: MetaSlot, offset: uint64)
    requires SEGMENT_HEADER <= offset
    ensures Start(NextSlot(m, offset)) == offset
  {
    NextSlotFields(m, offset);
  }

  lemma {:induction false} PutSlotSlices(h: Header, position: nat, t: MetaSlot)
    requires position == 16 || position == 32
    ensures var g := PutSlot(h, position, t);
            && SlotAt(g, position) == t
            && SlotAt(g, 48 - position) == SlotAt(h, 48 - position)
            && g[..16] == h[..16]
  {
    var g := PutSlot(h, position, t);
    assert SlotAt(g, position) == t;
    assert g[..16] == h[..16];
    if position == 16 {
      assert g[32..48] == h[32..48];
    } else {
      assert g[16..32] == h[16..32];
    }
  }

  lemma {:induction false} FirstSlotFields()
    ensures Valid(FirstSlot) && Generation(FirstSlot) == 0 && Start(FirstSlot) == SEGMENT_HEADER
    ensures ReadOffset(FirstSlot) == Ok(SEGMENT_HEADER)
    ensures Generation(Zeroes(16)) == 0 && Start(Zeroes(16)) == SEGMENT_HEADER
    ensures ReadOffset(Zeroes(16)) == Ok(0)
  {
    var fields := PutUint64(SEGMENT_HEADER) + Zeroes(4);
    SealedFields(fields);
    assert fields[..8] == PutUint64(SEGMENT_HEADER);
    assert fields[8..10] == [0, 0];
    assert Zeroes(16)[..8] == PutUint64(0);
    assert Zeroes(16)[8..10] == [0, 0];
  }

  /** A fresh header stands for the first slot's values, whichever of its slots the checksum picks. */
  lemma {:induction false} FreshMeta(h: Header)
    requires Fresh(h)
    ensures Sound(h)
    ensures Meta(h).value == FirstSlot || Meta(h).value == Zeroes(16)
    ensures WritePosition(Meta(h).value) == 32
  {
    FirstSlotFields();
  }

  lemma {:induction false} LiveGeneration(h: Header)
    requires Sound(h)
    ensures Generation(SlotAt(h, LivePosition(Meta(h).value))) == Generation(Meta(h).value)
  {
    hide Newest, Start;
    if Fresh(h) {
      FreshMeta(h);
      FirstSlotFields();
    }
  }

  /** Generations take turns between the two positions, past the wrap too. */
  lemma {:induction false} PositionsSwap(m: MetaSlot, n: MetaSlot)
    requires Generation(n) == (Generation(m) + 1) % U16
    ensures LivePosition(n) == WritePosition(m) && WritePosition(n) == LivePosition(m)
    ensures WritePosition(m) in {16, 32}
  {
    hide Generation;
  }

  /** A finished update makes its slot the one that is read. */
  lemma {:induction false} UpdateLands(h: Header, offset: uint64)
    requires Sound(h)
    ensures var m := Meta(h).value;
            var g := PutSlot(h, WritePosition(m), NextSlot(m, offset));
            Sound(g) && Meta(g) == Ok(NextSlot(m, offset))
  {
    hide NextSlot, PutSlot, Meta, Start, Valid, Newest, Generation, Fresh, Settled, SlotAt, WritePosition;
    var m := Meta(h).value;
    var n := NextSlot(m, offset);
    NextSlotFields(m, offset);
    PositionsSwap(m, n);
    PutSlotSlices(h, WritePosition(m), n);
    LiveGeneration(h);
    SettledIsMeta(PutSlot(h, WritePosition(m), n), n);
  }

  /** What checksums are trusted for: a torn slot is the old one, the new one, or not valid. */
  ghost predicate TornSlot(before: MetaSlot, after: MetaSlot, torn: MetaSlot)
  {
    torn == before || torn == after || !Valid(torn)
  }

  ghost predicate Detectable(h: Header, m: MetaSlot, offset: uint64, torn: MetaSlot)
  {
    TornSlot(SlotAt(h, WritePosition(m)), NextSlot(m, offset), torn)
  }

  /** An update cut short that did not land whole leaves the header standing for what it stood for. */
  lemma {:induction false} TornUpdateKeeps(h: Header, offset: uint64, torn: MetaSlot)
    requires Sound(h)
    requires Detectable(h, Meta(h).value, offset, torn) && torn != NextSlot(Meta(h).value, offset)
    ensures var m := Meta(h).value;
            var g := PutSlot(h, WritePosition(m), torn);
            Sound(g) && SameMeaning(Meta(g).value, m)
  {
    var m := Meta(h).value;
    var g := PutSlot(h, WritePosition(m), torn);
    PutSlotSlices(h, WritePosition(m), torn);
    if Fresh(h) {
      FreshMeta(h);
      FirstSlotFields();
      if torn == Zeroes(16) {
        assert Fresh(g);
        FreshMeta(g);
      } else {
        SettledIsMeta(g, FirstSlot);
      }
    } else {
      SettledIsMeta(g, m);
    }
  }

  predicate SameMeaning(a: MetaSlot, b: MetaSlot)
  {
    Start(a) == Start(b) && Generation(a) == Generation(b)
  }

  lemma {:induction false} NewHeaderSlices(start: uint64)
    ensures var h := NewHeader(start);
            && h[..4] == PutUint32(MAGIC) && h[4..8] == PutUint32(VERSION)
            && h[8..16] == PutUint64(start)
            && Fresh(h)
  {
    var h := NewHeader(start);
    assert h[..4] == PutUint32(MAGIC);
    assert h[4..8] == PutUint32(VERSION);
    assert h[8..16] == PutUint64(start);
    assert SlotAt(h, 16) == FirstSlot;
    assert SlotAt(h, 32) == Zeroes(16);
  }

  /** A new header is readable and starts right after itself, at generation 0. */
  lemma {:induction false} NewHeaderSound(start: uint64)
    ensures var h := NewHeader(start);
            && HeaderValid(h) && StartSequence(h) == start && Sound(h)
            && Start(Meta(h).value) == SEGMENT_HEADER && Generation(Meta(h).value) == 0
            && ReadOffset(Meta(h).value).Ok?
  {
    NewHeaderSlices(start);
    FreshMeta(NewHeader(start));
    FirstSlotFields();
  }

  /** One attempt to move the read offset: it finishes, or the process dies with `torn` in the slot. */
  datatype Attempt = Finished(offset: uint64) | Died(offset: uint64, torn: MetaSlot)

  /** The header after an attempt made by a process that loaded `h`. */
  function After(h: Header, a: Attempt): Header
  {
    match Meta(h)
    case Err(_) => h
    case Ok(m) => PutSlot(h, WritePosition(m), if a.Finished? then NextSlot(m, a.offset) else a.torn)
  }

  function AfterAll(h: Header, attempts: seq<Attempt>): Header
  {
    if attempts == [] then h else After(AfterAll(h, attempts[..|attempts| - 1]), attempts[|attempts| - 1])
  }

  /** Whether an attempt took effect. */
  predicate Landed(h: Header, a: Attempt)
  {
    a.Finished? || (Meta(h).Ok? && a.torn == NextSlot(Meta(h).value, a.offset))
  }

  ghost predicate AllDetectable(h: Header, attempts: seq<Attempt>)
  {
    attempts == [] ||
    var before := AfterAll(h, attempts[..|attempts| - 1]);
    var a := attempts[|attempts| - 1];
    && AllDetectable(h, attempts[..|attempts| - 1])
    && (a.Died? && Meta(before).Ok? ==> Detectable(before, Meta(before).value, a.offset, a.torn))
  }

  /** The read start that the last attempt to take effect asked for, or the one at the beginning. */
  function LastLanded(h: Header, attempts: seq<Attempt>): nat
    requires Meta(h).Ok?
  {
    if attempts == [] then Start(Meta(h).value)
    else
      var before, a := attempts[..|attempts| - 1], attempts[|attempts| - 1];
      if !Landed(AfterAll(h, before), a) then LastLanded(h, before)
      else if a.offset < SEGMENT_HEADER then SEGMENT_HEADER
      else a.offset
  }

  function CountLanded(h: Header, attempts: seq<Attempt>): nat
  {
    if attempts == [] then 0
    else
      var before, a := attempts[..|attempts| - 1], attempts[|attempts| - 1];
      CountLanded(h, before) + if Landed(AfterAll(h, before), a) then 1 else 0
  }

  /**
    Over any number of updates and crashes, including past the wrap of the 16-bit generation,
    the header stays readable and yields the last update that took effect.
  */
  lemma {:induction false} MetaIsLastLanded(h: Header, attempts: seq<Attempt>)
    requires Sound(h) && AllDetectable(h, attempts)
    ensures var g := AfterAll(h, attempts);
            && Sound(g)
            && Start(Meta(g).value) == LastLanded(h, attempts)
            && Generation(Meta(g).value) == (Generation(Meta(h).value) + CountLanded(h, attempts)) % U16
            && g[..16] == h[..16]
  {
    hide After, Fresh, Settled, Meta, Start, Generation, Detectable, NextSlot;
    if attempts != [] {
      var before, a := attempts[..|attempts| - 1], attempts[|attempts| - 1];
      MetaIsLastLanded(h, before);
      AttemptStep(AfterAll(h, before), a);
      NextGeneration(Generation(Meta(h).value) + CountLanded(h, before));
    }
  }

  lemma {:induction false} NextGeneration(n: nat)
    ensures (n % U16 + 1) % U16 == (n + 1) % U16
  {
  }

  lemma {:induction false} AttemptStep(h: Header, a: Attempt)
    requires Sound(h)
    requires a.Died? ==> Detectable(h, Meta(h).value, a.offset, a.torn)
    ensures var m, g := Meta(h).value, After(h, a);
            && Sound(g) && g[..16] == h[..16]
            && (if Landed(h, a) then Meta(g) == Ok(NextSlot(m, a.offset)) else SameMeaning(Meta(g).value, m))
            && (Landed(h, a) ==>
                  && Start(Meta(g).value) == (if a.offset < SEGMENT_HEADER then SEGMENT_HEADER else a.offset)
                  && Generation(Meta(g).value) == (Generation(m) + 1) % U16)
  {
    hide NextSlot, PutSlot, Valid, SlotAt, Newest, Meta, Settled, Fresh, SameMeaning, Detectable;
    var m := Meta(h).value;
    NextSlotFields(m, a.offset);
    PutSlotSlices(h, WritePosition(m), if a.Finished? then NextSlot(m, a.offset) else a.torn);
    if Landed(h, a) {
      UpdateLands(h, a.offset);
    } else {
      TornUpdateKeeps(h, a.offset, a.torn);
    }
  }
}
