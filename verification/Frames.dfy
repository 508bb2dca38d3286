/** The frame codec and the reader's classification of short reads (internal/frame). */
module Frames {
  import opened Bytes
  import opened Errors

  const FRAME_HEADER := 16
  const NO_LIMIT: uint32 := 0xFFFF_FFFF

  /** Sixteen bytes: payload length, index, reserved word, checksum. */
  type Header = h: seq<byte> | |h| == 16 witness Zeroes(16)

  datatype Frame = Frame(header: Header, payload: Payload)

  function PayloadLength(h: Header): uint32 { Uint32(h[..4]) }
  function Index(h: Header): uint32 { Uint32(h[4..8]) }
  function StoredCrc(h: Header): uint32 { Uint32(h[12..]) }

  function NextOffset(h: Header, offset: nat): nat { offset + FRAME_HEADER + PayloadLength(h) }

  function NewHeader(index: uint32, payload: Payload): Header
  {
    var fields := PutUint32(|payload| % U32) + PutUint32(index) + Zeroes(4);
    fields + PutUint32(Crc32c(fields + payload))
  }

  function Encode(index: uint32, payload: Payload): (s: seq<byte>)
    ensures |s| == FRAME_HEADER + |payload|
  {
    NewHeader(index, payload) + payload
  }

  function Validate(h: Header, payload: Payload): Option<Error>
  {
    if |payload| >= U32 then Some(PayloadTooLarge)
    else if PayloadLength(h) != |payload| then Some(InvalidFrameHeader)
    else if StoredCrc(h) != Crc32c(h[..12] + payload) then Some(InvalidChecksum)
    else None
  }

  /** `readAt`: fewer bytes than asked for is a clean end only when there were none at all. */
  function ReadAt(file: seq<byte>, n: nat, offset: nat): (r: Result<seq<byte>>)
    ensures r.Ok? ==> |r.value| == n
  {
    if n == 0 then Ok([])
    else if offset + n <= |file| then Ok(file[offset..offset + n])
    else if offset < |file| then Err(UnexpectedEof)
    else Err(Eof)
  }

  function ReadHeader(file: seq<byte>, index: uint32, offset: nat): Result<Header>
  {
    var h :- ReadAt(file, FRAME_HEADER, offset);
    if Index(h) != index then Err(InvalidFrameIndex) else Ok(h)
  }

  function Read(file: seq<byte>, limit: uint32, index: uint32, offset: nat): Result<Frame>
  {
    var h :- ReadHeader(file, index, offset);
    if limit == 0 then Ok(Frame(h, []))
    else
      var n := if PayloadLength(h) <= limit then PayloadLength(h) else limit;
      var payload :- ReadAt(file, n, offset + FRAME_HEADER);
      Ok(Frame(h, payload))
  }

  /** A whole, checksummed frame for `payload` lies at `offset`. */
  ghost predicate FrameAt(file: seq<byte>, index: nat, offset: nat, payload: Payload)
  {
    && index < U32
    && offset + FRAME_HEADER + |payload| <= |file|
    && var r := Read(file, NO_LIMIT, index, offset);
    && r.Ok?
    && r.value.payload == payload
    && Validate(r.value.header, payload).None?
  }

  /** The bytes of a frame header by position: length and index, most significant byte first, zeros, and the checksum. */
  lemma {:induction false} HeaderBytes(index: uint32, payload: Payload)
    requires |payload| < 0x1_0000_0000
    ensures var h, n := NewHeader(index, payload), |payload|;
            && h[..4] == [n / 0x100_0000, n / 0x1_0000 % 0x100, n / 0x100 % 0x100, n % 0x100]
            && h[4..8] == [index / 0x100_0000, index / 0x1_0000 % 0x100, index / 0x100 % 0x100, index % 0x100]
            && h[8..12] == [0, 0, 0, 0]
            && var crc := Crc32c(h[..12] + payload);
               h[12..] == [crc / 0x100_0000, crc / 0x1_0000 % 0x100, crc / 0x100 % 0x100, crc % 0x100]
  {
    hide PutUint32;
    var h, fields := NewHeader(index, payload), PutUint32(|payload| % U32) + PutUint32(index) + Zeroes(4);
    BigEndian32(|payload|);
    BigEndian32(index);
    assert h[..4] == PutUint32(|payload|) && h[4..8] == PutUint32(index) && h[8..12] == Zeroes(4) && h[..12] == fields;
    BigEndian32(Crc32c(fields + payload));
    assert h[12..] == PutUint32(Crc32c(fields + payload));
  }

  lemma {:induction false} NewHeaderFields(index: uint32, payload: Payload)
    ensures var h := NewHeader(index, payload);
            && PayloadLength(h) == |payload| % U32
            && Index(h) == index
            && StoredCrc(h) == Crc32c(h[..12] + payload)
  {
    var h := NewHeader(index, payload);
    var fields := PutUint32(|payload| % U32) + PutUint32(index) + Zeroes(4);
    assert h[..4] == PutUint32(|payload| % U32);
    assert h[4..8] == PutUint32(index);
    assert h[..12] == fields;
    assert h[12..] == PutUint32(Crc32c(fields + payload));
  }

  lemma {:induction false} EncodedSlices(file: seq<byte>, index: uint32, offset: nat, payload: Payload)
    requires offset + FRAME_HEADER + |payload| <= |file|
    requires file[offset..offset + FRAME_HEADER + |payload|] == Encode(index, payload)
    ensures file[offset..offset + FRAME_HEADER] == NewHeader(index, payload)
    ensures file[offset + FRAME_HEADER..offset + FRAME_HEADER + |payload|] == payload
  {
    var e := file[offset..offset + FRAME_HEADER + |payload|];
    assert file[offset..offset + FRAME_HEADER] == e[..16];
    assert file[offset + FRAME_HEADER..offset + FRAME_HEADER + |payload|] == e[16..];
  }

  lemma {:induction false} SlicesRead(file: seq<byte>, index: uint32, offset: nat, h: Header, payload: Payload)
    requires offset + FRAME_HEADER + |payload| <= |file|
    requires file[offset..offset + FRAME_HEADER] == h
    requires file[offset + FRAME_HEADER..offset + FRAME_HEADER + |payload|] == payload
    requires Index(h) == index && Validate(h, payload).None?
    ensures FrameAt(file, index, offset, payload)
    ensures Read(file, NO_LIMIT, index, offset) == Ok(Frame(h, payload))
  {
  }

  /** What was encoded is what is read back, wherever it lies in a file. */
  lemma {:induction false} EncodedFrameReads(file: seq<byte>, index: uint32, offset: nat, payload: Payload)
    requires |payload| < U32
    requires offset + FRAME_HEADER + |payload| <= |file|
    requires file[offset..offset + FRAME_HEADER + |payload|] == Encode(index, payload)
    ensures FrameAt(file, index, offset, payload)
    ensures Read(file, NO_LIMIT, index, offset) == Ok(Frame(NewHeader(index, payload), payload))
  {
    NewHeaderFields(index, payload);
    EncodedSlices(file, index, offset, payload);
    SlicesRead(file, index, offset, NewHeader(index, payload), payload);
  }

  /** What the reader reports at the start of a frame of which only `n` bytes reached the file. */
  function TornError(n: nat): Error
  {
    if n == 0 || n == FRAME_HEADER then Eof else UnexpectedEof
  }

  lemma {:induction false} TornHeader(file: seq<byte>, index: uint32, offset: nat, payload: Payload, n: nat)
    requires FRAME_HEADER <= n <= FRAME_HEADER + |payload|
    requires offset <= |file| && file[offset..] == Encode(index, payload)[..n]
    ensures |file| == offset + n && file[offset..offset + FRAME_HEADER] == NewHeader(index, payload)
  {
    assert file[offset..offset + FRAME_HEADER] == file[offset..][..16];
    assert Encode(index, payload)[..n][..16] == NewHeader(index, payload);
  }

  /** A frame cut after `n` bytes is never read as a frame; a cut on the header boundary looks clean. */
  lemma {:induction false} TornFrameReads(file: seq<byte>, index: uint32, offset: nat, payload: Payload, n: nat)
    requires |payload| < U32
    requires n < FRAME_HEADER + |payload|
    requires offset <= |file| && file[offset..] == Encode(index, payload)[..n]
    ensures Read(file, NO_LIMIT, index, offset) == Err(TornError(n))
  {
    if n >= FRAME_HEADER {
      TornHeader(file, index, offset, payload, n);
      NewHeaderFields(index, payload);
    }
  }

  /** Reading a frame looks at the bytes of that frame and at no others. */
  lemma {:induction false} FrameIsLocal(file: seq<byte>, other: seq<byte>, index: nat, offset: nat, payload: Payload)
    requires FrameAt(file, index, offset, payload)
    requires offset + FRAME_HEADER + |payload| <= |other|
    requires file[offset..offset + FRAME_HEADER + |payload|] == other[offset..offset + FRAME_HEADER + |payload|]
    ensures FrameAt(other, index, offset, payload)
  {
    var whole := file[offset..offset + FRAME_HEADER + |payload|];
    assert file[offset..offset + FRAME_HEADER] == whole[..16] == other[offset..offset + FRAME_HEADER];
    assert file[offset + 16..offset + FRAME_HEADER + |payload|] == whole[16..]
        == other[offset + 16..offset + FRAME_HEADER + |payload|];
  }

  /** A frame's header alone gives its index and the offset of the next frame. */
  lemma {:induction false} FrameHeader(file: seq<byte>, index: nat, offset: nat, payload: Payload)
    requires FrameAt(file, index, offset, payload)
    ensures ReadHeader(file, index, offset).Ok?
    ensures Index(ReadHeader(file, index, offset).value) == index
    ensures NextOffset(ReadHeader(file, index, offset).value, offset) == offset + FRAME_HEADER + |payload|
  {
  }

  lemma {:induction false} ReadPastEnd(file: seq<byte>, index: uint32, offset: nat)
    requires |file| <= offset
    ensures Read(file, NO_LIMIT, index, offset) == Err(Eof)
  {
  }

  /** What is read at an offset does not depend on the bytes before it. */
  lemma {:induction false} ReadIgnoresFront(file: seq<byte>, other: seq<byte>, index: uint32, offset: nat)
    requires |file| == |other| && offset >= 64
    requires |file| >= 64 && file[64..] == other[64..]
    ensures Read(file, NO_LIMIT, index, offset) == Read(other, NO_LIMIT, index, offset)
  {
    forall lo, hi | 64 <= lo <= hi <= |file|
      ensures file[lo..hi] == other[lo..hi]
    {
      SliceBehind(file, lo, hi);
      SliceBehind(other, lo, hi);
    }
  }

  lemma {:induction false} SliceBehind(file: seq<byte>, lo: nat, hi: nat)
    requires 64 <= lo <= hi <= |file|
    ensures file[lo..hi] == file[64..][lo - 64..hi - 64]
  {
    var back := file[64..];
    assert forall i | 0 <= i < hi - lo :: file[lo..hi][i] == back[lo - 64..hi - 64][i];
  }

  lemma {:induction false} FrameReads(file: seq<byte>, index: nat, offset: nat, payload: Payload)
    requires FrameAt(file, index, offset, payload)
    ensures var r := Read(file, NO_LIMIT, index, offset);
            && r.Ok? && r.value.payload == payload && Validate(r.value.header, payload).None?
            && NextOffset(r.value.header, offset) == offset + FRAME_HEADER + |payload|
  {
  }

  /** A payload limit cuts what is returned, never what is stepped over. */
  lemma {:induction false} LimitedRead(file: seq<byte>, limit: uint32, index: nat, offset: nat, payload: Payload)
    requires FrameAt(file, index, offset, payload)
    ensures var r := Read(file, limit, index, offset);
            && r.Ok? && Index(r.value.header) == index
            && r.value.payload == (if |payload| <= limit then payload else payload[..limit])
            && NextOffset(r.value.header, offset) == offset + FRAME_HEADER + |payload|
  {
    var n := if |payload| <= limit then |payload| else limit;
    assert payload == Read(file, NO_LIMIT, index, offset).value.payload;
    assert n > 0 ==> file[offset + 16..offset + 16 + n] == file[offset + 16..offset + 16 + |payload|][..n];
  }
}
