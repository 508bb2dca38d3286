/** Reading the records of one segment in order (internal/segment/scanner.go). */
module Scanners {
  import opened Bytes
  import opened Errors
  import opened Layout
  import opened Segments
  import F = Frames
  import I = Index
  import S = Slots

  /** What a reader with a payload limit returns of a payload. */
  function Clip(payload: Payload, limit: uint32): Payload
  {
    if |payload| <= limit then payload else payload[..limit]
  }

  /** Reads at frame `i` of a segment. */
  lemma {:induction false} ReadAtFrame(file: seq<byte>, v: View, limit: uint32, i: nat)
    requires FileOk(file, v) && i < |v.rows|
    ensures var r := F.Read(file, limit, i, Offset(v.rows, i));
            && r.Ok? && r.value.payload == Clip(v.rows[i], limit) && F.Index(r.value.header) == i
            && F.NextOffset(r.value.header, Offset(v.rows, i)) == Offset(v.rows, i + 1)
  {
    hide HeaderOk, F.FrameAt;
    assert F.FrameAt(file, i, Offset(v.rows, i), v.rows[i]);
    F.LimitedRead(file, limit, i, Offset(v.rows, i), v.rows[i]);
  }

  /**
    Behind the last frame of a file that ends cleanly a reader sees the end; but one that reads headers
    only sees it exactly when no frame header dangles there.
  */
  lemma {:induction false} ReadAtEnd(file: seq<byte>, v: View, limit: uint32)
    requires FileOk(file, v) && |v.rows| < U32 && Quiet(file, v.rows)
    ensures F.Read(file, limit, |v.rows|, v.Size()) == Err(Eof) <==> limit > 0 || |file| == v.Size()
  {
    hide HeaderOk, Holds;
    SizeInFile(file, v);
  }

  class Scanner {
    const segment: Segment
    const limit: uint32
    var err: Option<Error>
    var borrowed: Option<F.Frame>
    var offset: nat
    var index: nat

    constructor (segment: Segment, limit: uint32)
      ensures this.segment == segment && this.limit == limit && err.None?
      ensures index == segment.startIndex
      ensures offset == if segment.startOffset < S.SEGMENT_HEADER then S.SEGMENT_HEADER else segment.startOffset
    {
      this.segment, this.limit := segment, limit;
      offset := if segment.startOffset < S.SEGMENT_HEADER then S.SEGMENT_HEADER else segment.startOffset;
      index, err, borrowed := segment.startIndex, None, None;
    }

    /** The scanner stands before a frame of its segment, or behind the last one. */
    ghost predicate Positioned()
      reads this, segment
    {
      segment.view.start <= index <= |segment.view.rows| && offset == Offset(segment.view.rows, index)
    }

    /** Stands before `sequence`; behind the last record when there is none. */
    method Seek(sequence: uint64) returns (r: Option<Error>)
      requires segment.Valid()
      modifies this`offset, this`index
      ensures segment.Valid()
      ensures r.None? <==> segment.view.First() <= sequence <= segment.base + 0xFFFF_FFFF
      ensures r.Some? ==> r.value == OutOfBounds
      ensures r.None? ==> Positioned()
      ensures r.None? ==> index == (if sequence <= segment.view.Next() then sequence else segment.view.Next()) - segment.base
    {
      hide FileOk, MetaOf, Offset, I.Truthful, I.Marks, Segment.Covered;
      assert |segment.view.rows| < U32 && segment.view.Next() < U64 by { FitsIndex(segment.disk.files[segment.name], segment.view); }
      if sequence < segment.StartSequence() || sequence - segment.base > 0xFFFF_FFFF {
        return Some(OutOfBounds);
      }
      var target := if sequence > segment.NextSequence() then segment.NextSequence() else sequence;
      var found, steps := segment.Find(target);
      if found.Ok? {
        index, offset := found.value.0, found.value.1;
      }
      r := match found case Ok(_) => None case Err(e) => Some(e);
    }

    /** Reads the record the scanner stands before and steps over it; a failed scanner stays failed. */
    method Next() returns (more: bool)
      requires segment.Valid() && Positioned()
      modifies this
      ensures segment.Valid()
      ensures old(err).Some? ==> !more && err == old(err)
      ensures old(err).None? && old(index) < |segment.view.rows| ==>
                && more && err.None? && Positioned() && index == old(index) + 1
                && borrowed.Some? && F.Index(borrowed.value.header) == old(index)
                && borrowed.value.payload == Clip(segment.view.rows[old(index)], limit)
      ensures old(err).None? && old(index) == |segment.view.rows| ==>
                var file := segment.disk.files[segment.name];
                && (Quiet(file, segment.view.rows) && (limit > 0 || |file| == segment.writeOffset) ==>
                      !more && err.None? && Positioned() && index == old(index))
                && (Torn(file, segment.view.rows) && limit == F.NO_LIMIT ==> !more && err == Some(UnexpectedEof))
    {
      hide FileOk, MetaOf, Offset, I.Truthful, I.Marks, F.Read, F.Index, F.NextOffset;
      if err.Some? {
        return false;
      }
      ghost var v, file := segment.view, segment.disk.files[segment.name];
      FitsIndex(file, v);
      if index < |v.rows| {
        ReadAtFrame(file, v, limit, index);
      } else if Quiet(file, v.rows) {
        ReadAtEnd(file, v, limit);
      }
      var r := F.Read(segment.disk.files[segment.name], limit, index % U32, offset);
      match r
      case Err(e) =>
        err := if e != Eof then Some(e) else err;
        more := false;
      case Ok(frame) =>
        borrowed := Some(frame);
        offset, index := F.NextOffset(frame.header, offset), index + 1;
        more := true;
    }
  }
}
