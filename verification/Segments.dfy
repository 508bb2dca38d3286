/** One segment file and the state kept in memory for it (internal/segment/segment.go). */
module Segments {
  import opened Bytes
  import opened Errors
  import opened Layout
  import opened Index
  import opened Disks
  import F = Frames
  import S = Slots

  /** The physical growth of a file that takes these payloads. */
  method AppendSize(payloads: seq<Payload>) returns (size: nat)
    ensures size == BatchSize(payloads)
  {
    size := 0;
    for i := 0 to |payloads|
      invariant size == BatchSize(payloads[..i])
    {
      size := size + F.FRAME_HEADER + |payloads[i]|;
      assert payloads[..i + 1][..i] == payloads[..i];
    }
    assert payloads[..|payloads|] == payloads;
  }

  /** A batch ready to be written: its bytes, and the index and offset behind it. */
  datatype Encoded = Encoded(bytes: seq<byte>, index: nat, offset: nat)

  method EncodeBatch(index: nat, offset: nat, payloads: seq<Payload>) returns (r: Result<Encoded>)
    requires index < U32
    ensures r.Ok? <==> Framable(payloads)
    ensures r.Ok? ==> r.value == Encoded(EncodeAll(index, payloads), (index + |payloads|) % U32,
                                         offset + BatchSize(payloads))
    ensures r.Err? ==> r.error == PayloadTooLarge
  {
    hide F.Encode, EncodeAll, BatchSize;
    var idx, at, bytes := index, offset, [];
    EncodeNothing(index);
    for i := 0 to |payloads|
      invariant idx == (index + i) % U32
      invariant at == offset + BatchSize(payloads[..i])
      invariant bytes == EncodeAll(index, payloads[..i])
      invariant forall k | 0 <= k < i :: |payloads[k]| < U32
    {
      if |payloads[i]| >= U32 {
        return Err(PayloadTooLarge);
      }
      bytes := bytes + F.Encode(idx, payloads[i]);
      idx := (idx + 1) % U32;
      at := at + F.FRAME_HEADER + |payloads[i]|;
      EncodeOneMore(index, payloads, i);
    }
    assert payloads[..|payloads|] == payloads;
    r := Ok(Encoded(bytes, idx, at));
  }

  lemma {:induction false} EncodeOneMore(index: nat, payloads: seq<Payload>, i: nat)
    requires i < |payloads|
    ensures BatchSize(payloads[..i + 1]) == BatchSize(payloads[..i]) + F.FRAME_HEADER + |payloads[i]|
    ensures EncodeAll(index, payloads[..i + 1])
         == EncodeAll(index, payloads[..i]) + F.Encode((index + i) % U32, payloads[i])
  {
    hide F.Encode;
    assert payloads[..i + 1][..i] == payloads[..i];
  }

  /** One step of the walk over frame headers. */
  lemma {:induction false} WalkStep(file: seq<byte>, rows: seq<Payload>, i: nat)
    requires Holds(file, rows) && i < |rows|
    ensures var h := F.ReadHeader(file, i, Offset(rows, i));
            h.Ok? && F.NextOffset(h.value, Offset(rows, i)) == Offset(rows, i + 1)
  {
    hide F.FrameAt, F.ReadHeader, F.NextOffset;
    F.FrameHeader(file, i, Offset(rows, i), rows[i]);
  }

  lemma {:induction false} NextIsLater(h: F.Header, offset: nat)
    ensures F.NextOffset(h, offset) > offset
  {
  }

  /** This byte lies inside frame `i`. */
  predicate InFrame(rows: seq<Payload>, i: nat, target: nat)
  {
    i < |rows| && Offset(rows, i) < target < Offset(rows, i + 1)
  }

  lemma {:induction false} InFrameParts(rows: seq<Payload>, i: nat, target: nat)
    requires InFrame(rows, i, target)
    ensures i < |rows| && Offset(rows, i) < target < Offset(rows, i + 1) && target > 64
  {
    OffsetLowerBound(rows, 0, i);
    OffsetAtZero(rows);
  }

  /** A walk towards `target` reads the next header, or finds that nothing lies behind the last frame. */
  lemma {:induction false} BoundaryStep(file: seq<byte>, rows: seq<Payload>, idx: nat, target: nat, i: nat)
    requires Holds(file, rows) && idx <= |rows| < U32 && Offset(rows, idx) < target
    ensures idx < |rows| ==>
              var h := F.ReadHeader(file, idx, Offset(rows, idx));
              h.Ok? && F.NextOffset(h.value, Offset(rows, idx)) == Offset(rows, idx + 1)
    ensures idx == |rows| && |file| == Offset(rows, |rows|) ==> F.ReadHeader(file, idx, |file|).Err?
    ensures i <= |rows| && target == Offset(rows, i) ==> idx < i
  {
    hide F.FrameAt, F.NextOffset, Offset, Holds;
    if idx < |rows| {
      WalkStep(file, rows, idx);
    }
    if i <= |rows| {
      OffsetOrder(rows, idx, i);
    }
  }

  lemma {:induction false} OffsetOrder(rows: seq<Payload>, i: nat, j: nat)
    requires i <= |rows| && j <= |rows|
    ensures Offset(rows, i) < Offset(rows, j) <==> i < j
    ensures Offset(rows, i) >= S.SEGMENT_HEADER
  {
    hide Offset;
    OffsetAtZero(rows);
    OffsetLowerBound(rows, 0, i);
    if i <= j {
      OffsetLowerBound(rows, i, j);
    } else {
      OffsetLowerBound(rows, j, i);
    }
  }

  /** The checkpoints that every segment keeps: the first frame, the read start and the end. */
  function Anchored(entries: seq<Entry>, start: Entry, end: Entry): seq<Entry>
  {
    Put(Put(Put(entries, Entry(0, S.SEGMENT_HEADER)), start), end)
  }

  lemma {:induction false} AnchoredIncreasing(entries: seq<Entry>, start: Entry, end: Entry)
    requires Increasing(entries)
    ensures Increasing(Anchored(entries, start, end))
    ensures Marks(Anchored(entries, start, end)) == Marks(entries) + {0, start.index, end.index}
  {
    hide Put, Marks, Increasing;
    var one := Put(entries, Entry(0, S.SEGMENT_HEADER));
    PutIncreasing(entries, Entry(0, S.SEGMENT_HEADER));
    PutIncreasing(one, start);
    PutIncreasing(Put(one, start), end);
    PutMarks(entries, Entry(0, S.SEGMENT_HEADER));
    PutMarks(one, start);
    PutMarks(Put(one, start), end);
  }

  lemma {:induction false} AnchoredTruthful(entries: seq<Entry>, start: Entry, end: Entry, rows: seq<Payload>)
    requires Truthful(entries, rows) && Pair(rows, start) && Pair(rows, end)
    ensures Truthful(Anchored(entries, start, end), rows)
  {
    hide Put, Marks, Increasing, Truthful, Offset;
    var zero := Entry(0, S.SEGMENT_HEADER);
    OffsetAtZero(rows);
    PutTruthful(entries, zero, rows);
    PutTruthful(Put(entries, zero), start, rows);
    PutTruthful(Put(Put(entries, zero), start), end, rows);
  }

  /** Checkpoints after the frames from `n` on were cut off. */
  lemma {:induction false} ChoppedIndex(entries: seq<Entry>, rows: seq<Payload>, start: nat, n: nat)
    requires Truthful(entries, rows) && {0, start} <= Marks(entries) && start <= n <= |rows|
    ensures var out := Anchored(KeepUpTo(entries, n), Entry(start, Offset(rows, start)), Entry(n, Offset(rows, n)));
            && Increasing(KeepUpTo(entries, n))
            && Truthful(out, rows[..n]) && {0, start, n} <= Marks(out)
            && (Covers(Marks(entries), start, |rows|) ==> Covers(Marks(out), start, n))
  {
    hide Put, Marks, Offset, Anchored, KeepUpTo;
    var zero := MarkHasEntry(entries, 0);
    var kept := KeepUpTo(entries, n);
    KeepUpToKeeps(entries, n);
    TruthfulPrefix(kept, rows, rows[..n]);
    OffsetPrefix(rows, rows[..n], start);
    OffsetPrefix(rows, rows[..n], n);
    AnchoredIncreasing(kept, Entry(start, Offset(rows, start)), Entry(n, Offset(rows, n)));
    AnchoredTruthful(kept, Entry(start, Offset(rows, start)), Entry(n, Offset(rows, n)), rows[..n]);
  }

  /** Checkpoints after the read start moved to `start`. */
  lemma {:induction false} MovedIndex(entries: seq<Entry>, rows: seq<Payload>, from: nat, start: nat)
    requires Truthful(entries, rows) && start <= |rows|
    ensures var end := Entry(|rows|, Offset(rows, |rows|));
            var out := Anchored(KeepFrom(entries, start), Entry(start, Offset(rows, start)), end);
            && Increasing(KeepFrom(entries, start))
            && Truthful(out, rows) && {0, start, |rows|} <= Marks(out)
            && (Covers(Marks(entries), from, |rows|) && from <= start ==> Covers(Marks(out), start, |rows|))
  {
    hide Put, Marks, Offset, Anchored, KeepFrom, Increasing;
    var kept := KeepFrom(entries, start);
    KeepFromKeeps(entries, start);
    forall k | 0 <= k < |kept|
      ensures Pair(rows, kept[k])
    {
      assert kept[k] in kept;
    }
    var end := Entry(|rows|, Offset(rows, |rows|));
    AnchoredIncreasing(kept, Entry(start, Offset(rows, start)), end);
    AnchoredTruthful(kept, Entry(start, Offset(rows, start)), end, rows);
  }

  class Segment {
    const disk: Disk
    const name: nat
    const base: uint64
    const syncOnAppend: bool
    const offsetIndex: OffsetIndex
    var meta: S.MetaSlot
    var writeOffset: nat
    var startOffset: nat
    var writeIndex: nat
    var startIndex: nat
    /** What the segment stands for. */
    ghost var view: View

    function NextSequence(): nat reads this { base + writeIndex }
    function StartSequence(): nat reads this { base + startIndex }

    /** The fields agree with the view. */
    ghost predicate Mirrors()
      reads this
    {
      && base == name == view.base
      && startIndex == view.start <= |view.rows|
      && startOffset == Offset(view.rows, view.start)
      && writeIndex == |view.rows|
      && writeOffset == view.Size()
    }

    ghost predicate Indexed()
      reads this, offsetIndex
    {
      && Truthful(offsetIndex.entries, view.rows)
      && {0, view.start, |view.rows|} <= Marks(offsetIndex.entries)
    }

    ghost predicate Valid()
      reads this, disk, offsetIndex
    {
      && name in disk.files
      && FileOk(disk.files[name], view)
      && meta == MetaOf(disk.files[name])
      && Mirrors()
      && Indexed()
    }

    /** Every stride boundary between the read start and the end has its checkpoint. */
    ghost predicate Covered()
      reads this, offsetIndex
    {
      Covers(Marks(offsetIndex.entries), view.start, |view.rows|)
    }

    /** A segment with no frames yet. */
    constructor (disk: Disk, name: nat, base: uint64, meta: S.MetaSlot, syncOnAppend: bool)
      ensures this.disk == disk && this.name == name && this.base == base && this.meta == meta
      ensures fresh(offsetIndex) && offsetIndex.entries == [Entry(0, S.SEGMENT_HEADER)]
      ensures writeOffset == startOffset == S.SEGMENT_HEADER && writeIndex == startIndex == 0
      ensures view == View(base, [], 0)
    {
      this.disk, this.name, this.base, this.meta, this.syncOnAppend := disk, name, base, meta, syncOnAppend;
      offsetIndex := new OffsetIndex();
      writeOffset, startOffset := S.SEGMENT_HEADER, S.SEGMENT_HEADER;
      writeIndex, startIndex := 0, 0;
      view := View(base, [], 0);
      new;
      AnchorSparseIndex();
    }

    method AnchorSparseIndex()
      requires Increasing(offsetIndex.entries)
      modifies offsetIndex
      ensures offsetIndex.entries
           == Anchored(old(offsetIndex.entries), Entry(startIndex, startOffset), Entry(writeIndex, writeOffset))
    {
      PutIncreasing(offsetIndex.entries, Entry(0, S.SEGMENT_HEADER));
      offsetIndex.Set(0, S.SEGMENT_HEADER);
      PutIncreasing(offsetIndex.entries, Entry(startIndex, startOffset));
      offsetIndex.Set(startIndex, startOffset);
      offsetIndex.Set(writeIndex, writeOffset);
    }

    /** The offset of frame `target`: a checkpoint, then a walk; also how many headers were read. */
    method OffsetForIndex(target: nat) returns (r: Result<nat>, steps: nat)
      requires name in disk.files && Increasing(offsetIndex.entries)
      ensures Valid() && target <= writeIndex ==> r == Ok(Offset(view.rows, target))
      ensures Valid() && Covered() && startIndex <= target <= writeIndex ==> steps <= 255
    {
      hide F.ReadHeader, F.NextOffset, F.FrameAt, HeaderOk, Marks, Offset;
      steps := 0;
      OffsetAtZero(view.rows);
      if target == 0 {
        return Ok(S.SEGMENT_HEADER), 0;
      }
      var e := offsetIndex.ForFrameIndex(target);
      var idx: nat, offset: nat := 0, S.SEGMENT_HEADER;
      if e.Some? {
        idx, offset := e.value.index, e.value.offset;
      }
      var file := disk.files[name];
      ghost var rows, floor := view.rows, idx;
      ghost var good := Valid() && target <= writeIndex;
      assert good ==> offset == Offset(rows, idx) && Holds(file, rows) && target <= |rows|;
      hide Valid, Holds, Truthful;
      while idx < target
        invariant floor <= idx <= target && steps == idx - floor
        invariant good ==> offset == Offset(rows, idx)
      {
        if good { WalkStep(file, rows, idx); }
        var h := F.ReadHeader(file, idx % U32, offset);
        if h.Err? {
          return Err(h.error), steps;
        }
        offset := F.NextOffset(h.value, offset);
        idx, steps := idx + 1, steps + 1;
      }
      if good && Covered() && startIndex <= target {
        NearestCheckpoint(offsetIndex.entries, view.start, |rows|, target, floor);
      }
      r := Ok(offset);
    }

    /** The checkpoints and the file stand for these frames. */
    ghost predicate Walkable(rows: seq<Payload>)
      reads this, disk, offsetIndex
    {
      && |rows| < U32
      && name in disk.files
      && Holds(disk.files[name], rows)
      && Truthful(offsetIndex.entries, rows)
    }

    /** The index of the frame at `target`: it exists exactly when `target` is a frame boundary. */
    method IndexForOffset(target: nat, ghost rows: seq<Payload>, ghost i: nat) returns (r: Result<nat>)
      requires name in disk.files
      ensures Walkable(rows) && i <= |rows| && target == Offset(rows, i) ==> r == Ok(i)
      ensures Walkable(rows) && |disk.files[name]| == Offset(rows, |rows|) && r.Ok? ==>
                r.value <= |rows| && target == Offset(rows, r.value)
      ensures Walkable(rows) && InFrame(rows, i, target) ==> r == Err(InvalidSegmentHeader)
      ensures r.Ok? ==> r.value < U32
    {
      hide F.ReadHeader, F.NextOffset, F.FrameAt, Marks, Offset, InFrame;
      OffsetAtZero(rows);
      ghost var inside := InFrame(rows, i, target);
      if inside { InFrameParts(rows, i, target); }
      if target == S.SEGMENT_HEADER {
        if i <= |rows| { OffsetOrder(rows, 0, i); }
        return Ok(0);
      }
      var e := offsetIndex.ForOffset(target);
      var idx: nat, offset: nat := 0, S.SEGMENT_HEADER;
      if e.Some? {
        idx, offset := e.value.index, e.value.offset;
      }
      var file := disk.files[name];
      ghost var boundary := i <= |rows| && target == Offset(rows, i);
      ghost var good := Walkable(rows) && (boundary || inside || |file| == Offset(rows, |rows|));
      assert good ==> Holds(file, rows) && idx <= |rows| < U32 && offset == Offset(rows, idx);
      if good && boundary { OffsetOrder(rows, i, idx); }
      if good && inside { OffsetOrder(rows, i + 1, idx); }
      hide Walkable, Holds, Truthful;
      while offset < target
        invariant good ==> idx <= |rows| && offset == Offset(rows, idx)
        invariant good && boundary ==> idx <= i
        invariant good && inside ==> idx <= i + 1
        decreases target - offset
      {
        if good { BoundaryStep(file, rows, idx, target, i); }
        if good && inside { OffsetOrder(rows, idx, i + 1); }
        var h := F.ReadHeader(file, idx % U32, offset);
        if h.Err? {
          return Err(h.error);
        }
        var next := F.NextOffset(h.value, offset);
        assert next > offset by { NextIsLater(h.value, offset); }
        offset, idx := next, idx + 1;
      }
      if good && (boundary || inside) { OffsetOrder(rows, idx, i); }
      r := if offset != target then Err(InvalidSegmentHeader) else Ok(idx % U32);
    }

    /** Where the frame of `sequence` lies; the position behind the last frame counts too. */
    method Find(sequence: uint64) returns (r: Result<(nat, nat)>, steps: nat)
      requires Valid()
      ensures r.Ok? <==> view.First() <= sequence <= view.Next()
      ensures r.Ok? ==> r.value == (sequence - base, Offset(view.rows, sequence - base))
      ensures r.Err? ==> r.error == OutOfBounds
      ensures r.Ok? && Covered() ==> steps <= 255
    {
      hide FileOk, MetaOf, Marks, Covers, Truthful, Offset;
      if sequence < StartSequence() {
        return Err(OutOfBounds), 0;
      }
      var diff: nat := sequence - base;
      if diff > 0xFFFF_FFFF || diff > writeIndex {
        assert |view.rows| < U32 by { FitsIndex(disk.files[name], view); }
        return Err(OutOfBounds), 0;
      }
      assert Increasing(offsetIndex.entries) by { TruthfulIncreasing(offsetIndex.entries, view.rows); }
      var offset, walked := OffsetForIndex(diff);
      steps := walked;
      r := match offset case Ok(o) => Ok((diff, o)) case Err(e) => Err(e);
    }

    /** Only the bytes of this segment's file changed. */
    twostate predicate OnlyMyFile()
      reads this, disk
    {
      name in disk.files && disk.files == old(disk.files)[name := disk.files[name]]
    }

    /** Cuts the file to what the segment tracks. */
    method Trim() returns (ok: bool)
      requires name in disk.files
      modifies disk
      ensures OnlyMyFile()
      ensures ok ==> disk.files[name] == Resize(old(disk.files)[name], writeOffset)
      ensures disk.files[name] == old(disk.files)[name]
           || disk.files[name] == Resize(old(disk.files)[name], writeOffset)
      ensures disk.reliable ==> ok
      ensures || disk.history == old(disk.history)
              || disk.history == old(disk.history) + [old(disk.files)[name := Resize(old(disk.files)[name], writeOffset)]]
    {
      ok := disk.Truncate(name, writeOffset);
      if !ok {
        return;
      }
      var failed := disk.Fails();
      ok := !failed;
    }

    /** Cuts everything from `sequence` on. */
    method Truncate(sequence: uint64) returns (err: Option<Error>)
      requires Valid()
      modifies this, disk, offsetIndex
      ensures OnlyMyFile()
      ensures err == Some(OutOfBounds) <==> !(old(view.First()) <= sequence <= old(view.Next()))
      ensures err.Some? ==> err.value == OutOfBounds || (err.value == IoFailure && !disk.reliable)
      ensures err.None? ==> Valid() && view == old(view).(rows := old(view.rows)[..sequence - base])
      ensures err.None? ==> |disk.files[name]| == writeOffset
      ensures err.None? && old(Covered()) ==> Covered()
      ensures err.Some? ==> unchanged(this) && unchanged(offsetIndex)
      ensures old(view.First()) <= sequence <= old(view.Next()) ==>
                || disk.history == old(disk.history)
                || disk.history == old(disk.history) + [
                     old(disk.files)[name := Resize(old(disk.files)[name], Offset(old(view.rows), sequence - base))]]
    {
      hide FileOk, MetaOf, Marks, Covers, Truthful, Offset, Anchored, KeepUpTo, Quiet;
      ghost var file, v, entries := disk.files[name], view, offsetIndex.entries;
      var found, steps := Find(sequence);
      if found.Err? {
        return Some(found.error);
      }
      var (idx, offset) := found.value;
      FileChop(file, v, idx);
      ChoppedIndex(entries, v.rows, v.start, idx);
      TruthfulIncreasing(entries, v.rows);
      var ok := disk.Truncate(name, offset);
      if !ok {
        return Some(IoFailure);
      }
      var failed := disk.Fails();
      if failed {
        return Some(IoFailure);
      }
      writeOffset, writeIndex := offset, idx;
      assert startIndex <= writeIndex;  // the source's clamp of the start behind the new end is never taken
      offsetIndex.TruncateAfter(writeIndex);
      AnchorSparseIndex();
      view := v.(rows := v.rows[..idx]);
      OffsetOrder(v.rows, idx, idx);
      MetaOfPrefix(file, offset);
      OffsetPrefix(v.rows, v.rows[..idx], v.start);
      err := None;
    }

    /** Writes the successor of the live metadata slot over the other one. */
    method WriteReadOffset(offset: uint64) returns (ok: bool)
      requires Valid()
      modifies this`meta, disk
      ensures OnlyMyFile()
      ensures disk.reliable ==> ok
      ensures !ok ==> meta == old(meta)
      ensures ok ==> meta == S.NextSlot(old(meta), offset)
      ensures ok ==> disk.files[name] == WithSlot(old(disk.files)[name], S.NextSlot(old(meta), offset))
      ensures |disk.history| >= |old(disk.history)| && disk.history[..|old(disk.history)|] == old(disk.history)
      ensures forall k | |old(disk.history)| <= k < |disk.history| ::
                HalfWritten(old(disk.files), name, S.NextSlot(old(meta), offset), disk.history[k])
    {
      hide MetaOf, Marks, Truthful, Offset, Holds, S.NextSlot, Overwrite, HeaderOk;
      var slot := S.NextSlot(meta, offset);
      ghost var before, m := disk.files, meta;
      var written, torn := disk.WriteSlot(name, S.WritePosition(meta), slot);
      SlotOfHeader(before[name], S.WritePosition(m));
      assert HalfWritten(before, name, slot, before[name := WithSlot(before[name], torn)]);
      assert HalfWritten(before, name, slot, before[name := WithSlot(before[name], slot)]);
      var failed := disk.Fails();
      ok := written && !failed;
      if ok {
        meta := slot;
      }
    }

    /** Moves the read start in memory. */
    method MoveStart(offset: nat, index: nat)
      requires Increasing(offsetIndex.entries) && Increasing(KeepFrom(offsetIndex.entries, index))
      modifies this`startOffset, this`startIndex, offsetIndex
      ensures startOffset == offset && startIndex == index
      ensures offsetIndex.entries == Anchored(KeepFrom(old(offsetIndex.entries), index),
                                              Entry(index, offset), Entry(writeIndex, writeOffset))
    {
      startOffset, startIndex := offset, index;
      offsetIndex.TruncateBefore(startIndex);
      AnchorSparseIndex();
    }

    /** Persists the read start. `i` is the frame at `offset`, when there is one. */
    method SetReadOffset(offset: uint64, ghost i: nat) returns (err: Option<Error>)
      requires Valid()
      modifies this, disk, offsetIndex
      ensures OnlyMyFile() && (err.Some? ==> unchanged(this) && unchanged(offsetIndex))
      ensures var exact := i <= |old(view.rows)| && offset == Offset(old(view.rows), i);
              && (exact && err.None? ==> view.start == i)
              && (exact && err.Some? ==> err.value == IoFailure && !disk.reliable)
              && (err.None? && (exact || |old(disk.files)[name]| == old(writeOffset)) ==>
                    && Valid() && view == old(view).(start := view.start)
                    && offset == Offset(view.rows, view.start)
                    && |disk.files[name]| == |old(disk.files)[name]|
                    && End(disk.files[name], view.rows) == End(old(disk.files)[name], view.rows)
                    && (old(Covered()) && old(view.start) <= view.start ==> Covered()))
      ensures |disk.history| >= |old(disk.history)| && disk.history[..|old(disk.history)|] == old(disk.history)
      ensures forall k | |old(disk.history)| <= k < |disk.history| ::
                HalfWritten(old(disk.files), name, S.NextSlot(old(meta), offset), disk.history[k])
    {
      hide HeaderOk, Holds, MetaOf, Marks, Covers, Offset, Anchored, KeepFrom, S.NextSlot, WithSlot, HalfWritten;
      hide End, Pair, Increasing;
      ghost var file, v, entries := disk.files[name], view, offsetIndex.entries;
      var found := IndexForOffset(offset, v.rows, i);
      if found.Err? {
        return Some(if found.error == Eof || found.error == UnexpectedEof then InvalidSegmentHeader else found.error);
      }
      var ok := WriteReadOffset(offset);
      if !ok {
        return Some(IoFailure);
      }
      KeepFromKeeps(entries, found.value);
      MoveStart(offset, found.value);
      if found.value <= |v.rows| && offset == Offset(v.rows, found.value) {
        SlotWriteMovesStart(file, v, found.value, offset);
        MovedIndex(entries, v.rows, v.start, found.value);
        view := v.(start := found.value);
      }
      err := None;
    }

    /** Writes and, if asked to, syncs a batch behind the last frame. */
    method Persist(bytes: seq<byte>) returns (ok: bool)
      requires name in disk.files && writeOffset <= |disk.files[name]|
      modifies disk
      ensures OnlyMyFile()
      ensures disk.reliable ==> ok
      ensures ok ==> disk.files[name] == Overwrite(old(disk.files)[name], writeOffset, bytes)
      ensures writeOffset <= |disk.files[name]|
      ensures disk.files[name][..writeOffset] == old(disk.files)[name][..writeOffset]
      ensures AllGrow(old(disk.files), name, writeOffset, bytes, old(disk.history), disk.history)
    {
      var seekFailed := disk.Fails();
      if seekFailed {
        return false;
      }
      ghost var files, past := disk.files, disk.history;
      var written, n := disk.Write(name, writeOffset, bytes);
      ghost var partly := files[name := Overwrite(files[name], writeOffset, bytes[..n])];
      WriteGrows(files, name, writeOffset, bytes, n);
      WriteGrows(files, name, writeOffset, bytes, |bytes|);
      GrowMore(files, name, writeOffset, bytes, past, past, partly);
      GrowMore(files, name, writeOffset, bytes, past, past + [partly], disk.files);
      if !written {
        return false;
      }
      var syncFailed := disk.Fails();
      ok := !(syncOnAppend && syncFailed);
    }

    /** Writes a batch, or cuts the file back to where it would have begun. */
    method PersistOrTrim(bytes: seq<byte>) returns (err: Option<Error>)
      requires name in disk.files && writeOffset <= |disk.files[name]|
      modifies disk
      ensures OnlyMyFile()
      ensures err.None? ==> disk.files[name] == Overwrite(old(disk.files)[name], writeOffset, bytes)
      ensures err.Some? ==> err.value in {IoFailure, TrimFailure} && !disk.reliable
      ensures writeOffset <= |disk.files[name]|
      ensures disk.files[name][..writeOffset] == old(disk.files)[name][..writeOffset]
      ensures err == Some(IoFailure) ==> |disk.files[name]| == writeOffset
      ensures AllGrow(old(disk.files), name, writeOffset, bytes, old(disk.history), disk.history)
    {
      hide AllGrow, Grows, Overwrite;
      ghost var files, history := disk.files, disk.history;
      var ok := Persist(bytes);
      if ok {
        return None;
      }
      ghost var left, past := disk.files[name], disk.history;
      ghost var grown: Files := files[name := left];
      assert disk.files == grown;
      var trimmed := Trim();
      assert grown[name := Resize(left, writeOffset)] == files[name := Resize(left, writeOffset)];
      TrimGrows(files, name, writeOffset, bytes, left);
      GrowMore(files, name, writeOffset, bytes, history, past, files[name := Resize(left, writeOffset)]);
      err := Some(if trimmed then IoFailure else TrimFailure);
    }

    /** Samples checkpoints from the positions of a batch that was just written. */
    method Checkpoint(payloads: seq<Payload>, ghost all: seq<Payload>)
      requires all == view.rows + payloads && Mirrors()
      requires Truthful(offsetIndex.entries, all)
      modifies offsetIndex
      ensures Truthful(offsetIndex.entries, all)
      ensures Marks(old(offsetIndex.entries)) <= Marks(offsetIndex.entries)
      ensures old(Covered()) ==> Covers(Marks(offsetIndex.entries), view.start, |all|)
    {
      hide Marks, Covers, Truthful, SparsePut;
      ghost var covered := Covered();
      var idx, at := writeIndex, writeOffset;
      assert at == Offset(all, idx) by { OffsetPrefix(all, view.rows, idx); }
      for i := 0 to |payloads|
        invariant idx == writeIndex + i && at == Offset(all, idx)
        invariant Truthful(offsetIndex.entries, all)
        invariant Marks(old(offsetIndex.entries)) <= Marks(offsetIndex.entries)
        invariant covered ==> Covers(Marks(offsetIndex.entries), view.start, idx)
      {
        TruthfulIncreasing(offsetIndex.entries, all);
        SparseSound(offsetIndex.entries, Entry(idx, at), all, view.start);
        offsetIndex.SparseSet(idx, at);
        assert all[idx] == payloads[i];
        idx, at := idx + 1, at + F.FRAME_HEADER + |payloads[i]|;
      }
    }

    /** Takes note of a batch that was written: checkpoints, then the write position. */
    method Advance(payloads: seq<Payload>, index: nat, offset: nat)
      requires Mirrors() && Indexed()
      requires index == |view.rows + payloads| && offset == Offset(view.rows + payloads, index)
      modifies this, offsetIndex
      ensures view == old(view).(rows := old(view.rows) + payloads)
      ensures meta == old(meta) && startIndex == old(startIndex) && startOffset == old(startOffset)
      ensures writeIndex == index && writeOffset == offset
      ensures Indexed()
      ensures old(Covered()) ==> Covered()
    {
      hide Marks, Covers, Offset, Truthful;
      ghost var v, all := view, view.rows + payloads;
      GrownIndex(offsetIndex.entries, v.rows, payloads);
      Checkpoint(payloads, all);
      writeIndex, writeOffset := index, offset;
      view := v.(rows := all);
      TruthfulIncreasing(offsetIndex.entries, all);
      PutMarks(offsetIndex.entries, Entry(index, offset));
      PutTruthful(offsetIndex.entries, Entry(index, offset), all);
      if Covers(Marks(offsetIndex.entries), v.start, |all|) {
        CoversMore(Marks(offsetIndex.entries), index, v.start, |all|);
      }
      offsetIndex.Set(writeIndex, writeOffset);
    }

    /** The machine widths leave room for these payloads. */
    predicate Room(payloads: seq<Payload>)
      reads this
    {
      && writeIndex + |payloads| < U32
      && NextSequence() + |payloads| < U64
      && writeOffset + BatchSize(payloads) <= MAX_INT64
    }

    /** Appends a batch, or leaves the segment as it was. */
    method Append(payloads: seq<Payload>) returns (err: Option<Error>)
      requires Valid() && Room(payloads)
      modifies this, disk, offsetIndex
      ensures Valid() && OnlyMyFile()
      ensures err.None? ==> view == old(view).(rows := old(view.rows) + payloads)
      ensures err.None? && payloads != [] && old(Quiet(disk.files[name], view.rows)) ==>
                |disk.files[name]| == writeOffset
      ensures old(Quiet(disk.files[name], view.rows)) && err != Some(TrimFailure) ==>
                Quiet(disk.files[name], view.rows)
      ensures err.Some? ==> view == old(view) && offsetIndex.entries == old(offsetIndex.entries)
      ensures err == Some(IoFailure) ==> |disk.files[name]| == writeOffset
      ensures err == Some(PayloadTooLarge) <==> !Framable(payloads)
      ensures !Framable(payloads) ==> disk.files == old(disk.files) && disk.history == old(disk.history)
      ensures err.Some? ==> err.value in {PayloadTooLarge, IoFailure, TrimFailure}
      ensures disk.reliable && err.Some? ==> err.value == PayloadTooLarge
      ensures old(Covered()) ==> Covered()
      ensures AllGrow(old(disk.files), name, old(writeOffset), EncodeAll(old(writeIndex), payloads),
                      old(disk.history), disk.history)
    {
      hide HeaderOk, Holds, MetaOf, Marks, Covers, Offset, Truthful, EncodeAll, Overwrite, Quiet, AllGrow;
      ghost var file, v, entries := disk.files[name], view, offsetIndex.entries;
      NothingGrew(disk.files, name, writeOffset, EncodeAll(writeIndex, payloads), disk.history);
      if payloads == [] {
        assert v.rows + payloads == v.rows;
        return None;
      }
      var encoded := EncodeBatch(writeIndex, writeOffset, payloads);
      if encoded.Err? {
        return Some(encoded.error);
      }
      SizeInFile(file, v);
      err := PersistOrTrim(encoded.value.bytes);
      FrontAgrees(file, disk.files[name], v);
      if err.Some? {
        if err.value == IoFailure { QuietAtEnd(disk.files[name], v.rows); }
        return;
      }
      GrownFile(file, v, payloads);
      Advance(payloads, encoded.value.index, encoded.value.offset);
      if |disk.files[name]| == writeOffset { QuietAtEnd(disk.files[name], view.rows); }
      err := None;
    }

    /** Reads and checks every frame from the read start on; stops where the frames end. */
    method ScanFrames(ghost v: View) returns (idx: nat, offset: nat, err: Option<Error>)
      requires name in disk.files && Increasing(offsetIndex.entries) && startIndex < U32
      modifies offsetIndex
      ensures Increasing(offsetIndex.entries)
      ensures old(ScanReady(v)) ==>
                idx == |v.rows| && offset == v.Size() && err == Verdict(disk.files[name], v.rows)
      ensures old(ScanReady(v)) ==>
                && Truthful(offsetIndex.entries, v.rows)
                && Marks(old(offsetIndex.entries)) <= Marks(offsetIndex.entries)
                && Covers(Marks(offsetIndex.entries), v.start, |v.rows|)
    {
      hide F.Read, F.Validate, F.NextOffset, HeaderOk, Marks, Offset, SparsePut;
      var file := disk.files[name];
      idx, offset, err := startIndex, startOffset, None;
      ghost var good := ScanReady(v);
      ghost var marks := Marks(offsetIndex.entries);
      assert good ==> FileOk(file, v) && Ends(file, v) && Truthful(offsetIndex.entries, v.rows);
      hide ScanReady, FileOk, Truthful, Increasing, Covers, Ends;
      CoversNothing(marks, v.start);
      while true
        invariant Increasing(offsetIndex.entries) && idx < U32
        invariant good ==> v.start <= idx <= |v.rows| && offset == Offset(v.rows, idx)
        invariant good ==> Truthful(offsetIndex.entries, v.rows) && marks <= Marks(offsetIndex.entries)
        invariant good ==> Covers(Marks(offsetIndex.entries), v.start, idx)
        decreases |file| - offset
      {
        if good { ScanStep(file, v, idx); }
        var r := F.Read(file, F.NO_LIMIT, idx, offset);
        if r.Err? {
          return idx, offset, if r.error == Eof then None else Some(r.error);
        }
        err := F.Validate(r.value.header, r.value.payload);
        if err.Some? {
          return;
        }
        if good { SparseSound(offsetIndex.entries, Entry(idx, offset), v.rows, v.start); }
        SparseIncreasing(offsetIndex.entries, Entry(idx, offset));
        offsetIndex.SparseSet(idx, offset);
        ReadAdvances(file, idx, offset);
        offset := F.NextOffset(r.value.header, offset);
        idx := (idx + 1) % U32;
      }
    }

    /** Behind the last frame there is not another one. */
    ghost predicate ScanReady(v: View)
      reads this, disk, offsetIndex
    {
      && name in disk.files
      && FileOk(disk.files[name], v) && Ends(disk.files[name], v)
      && startIndex == v.start && startOffset == Offset(v.rows, v.start)
      && Truthful(offsetIndex.entries, v.rows)
    }

    /** Takes the read start from a file whose header was just read. */
    method FindStart(metaOffset: nat, ghost v: View) returns (err: Option<Error>)
      requires name in disk.files
      requires writeOffset == S.SEGMENT_HEADER && writeIndex == 0
      requires offsetIndex.entries == [Entry(0, S.SEGMENT_HEADER)]
      modifies this`startOffset, this`startIndex, offsetIndex
      ensures err.None? ==> Increasing(offsetIndex.entries) && startIndex < U32
      ensures |v.rows| < U32 && Holds(disk.files[name], v.rows) && InFrame(v.rows, v.start, metaOffset) ==>
                err == Some(InvalidSegmentHeader)
      ensures Recoverable(v) && metaOffset == Offset(v.rows, v.start) ==>
                err.None? && ScanReady(v) && {0, v.start} <= Marks(offsetIndex.entries)
    {
      hide HeaderOk, Holds, Marks, Offset, Truthful, Anchored, Ends, Increasing, InFrame;
      FirstCheckpoint(v.rows);
      var readIdx := IndexForOffset(metaOffset, v.rows, v.start);
      if readIdx.Err? {
        return Some(readIdx.error);
      }
      startOffset, startIndex := metaOffset, readIdx.value;
      var start, zero := Entry(startIndex, startOffset), Entry(0, S.SEGMENT_HEADER);
      AnchoredIncreasing(offsetIndex.entries, start, zero);
      if Recoverable(v) && metaOffset == Offset(v.rows, v.start) {
        OffsetAtZero(v.rows);
        AnchoredTruthful(offsetIndex.entries, start, zero, v.rows);
      }
      AnchorSparseIndex();
      err := None;
    }

    /** Takes the write position from the frames behind the read start. */
    method FindEnd(ghost v: View) returns (err: Option<Error>)
      requires name in disk.files && Increasing(offsetIndex.entries) && startIndex < U32
      modifies this`writeOffset, this`writeIndex, this`view, offsetIndex
      ensures err.None? ==> Increasing(offsetIndex.entries)
      ensures old(Recoverable(v) && ScanReady(v) && {0, v.start} <= Marks(offsetIndex.entries)) ==>
                && err == Verdict(disk.files[name], v.rows)
                && (err.None? || err.value == UnexpectedEof ==> Mirrors() && Indexed() && Covered() && view == v)
    {
      hide FileOk, Marks, Offset, Truthful, Covers, Verdict, Continues, Increasing;
      ghost var good := Recoverable(v) && ScanReady(v) && {0, v.start} <= Marks(offsetIndex.entries);
      var idx, offset, scanErr := ScanFrames(v);
      if scanErr.Some? && scanErr.value != UnexpectedEof {
        return scanErr;
      }
      writeOffset, writeIndex := offset, idx;
      view := v;
      var e := Entry(idx, offset);
      PutIncreasing(offsetIndex.entries, e);
      if good {
        PutMarks(offsetIndex.entries, e);
        PutTruthful(offsetIndex.entries, e, v.rows);
        CoversMore(Marks(offsetIndex.entries), idx, v.start, |v.rows|);
        FitsStart(disk.files[name], v);
      }
      offsetIndex.Set(writeIndex, writeOffset);
      err := scanErr;
    }

    ghost predicate Recoverable(v: View)
      reads this, disk
    {
      name in disk.files && name == base == v.base && FileOk(disk.files[name], v) && Ends(disk.files[name], v)
    }
  }

  /** Creates the file of a new segment. When it fails, a partial file may stay behind. */
  method Create(disk: Disk, startSeq: uint64, syncOnAppend: bool) returns (s: Segment?)
    modifies disk
    ensures s != null ==>
              && fresh(s) && fresh(s.offsetIndex) && s.disk == disk && s.name == startSeq
              && s.Valid() && s.Covered() && s.view == View(startSeq, [], 0) && s.writeOffset == S.SEGMENT_HEADER
              && startSeq !in old(disk.files) && disk.files == old(disk.files)[startSeq := S.NewHeader(startSeq)]
    ensures s == null ==>
              || disk.files == old(disk.files)
              || (startSeq !in old(disk.files) && startSeq in disk.files
                  && disk.files == old(disk.files)[startSeq := disk.files[startSeq]])
    ensures disk.reliable && startSeq !in old(disk.files) ==> s != null
    ensures startSeq !in old(disk.files) ==>
              AllGrow(old(disk.files)[startSeq := []], startSeq, 0, S.NewHeader(startSeq), old(disk.history), disk.history)
  {
    hide HeaderOk, Holds, MetaOf, Overwrite, S.NewHeader, View.Fits, AllGrow;
    var header := S.NewHeader(startSeq);
    ghost var begun, past := disk.files[startSeq := []], disk.history;
    NothingGrew(begun, startSeq, 0, header, past);
    var ok := disk.Create(startSeq);
    if !ok {
      return null;
    }
    var written, n := disk.Write(startSeq, 0, header);
    HeaderGrows(begun, startSeq, header, n, past, disk.files, disk.history);
    OverwriteEmpty(header);
    var syncFailed := disk.Fails();
    var dirFailed := disk.Fails();
    if !written || syncFailed || dirFailed {
      return null;
    }
    FreshFile(startSeq);
    s := new Segment(disk, startSeq, startSeq, MetaOf(header), syncOnAppend);
    FreshIndex(s.offsetIndex.entries);
  }

  /** Loads a segment; one that ends in a torn frame is returned together with the error, a corrupt one is not. */
  method Load(disk: Disk, name: nat, syncOnAppend: bool, ghost v: View) returns (s: Segment?, err: Option<Error>)
    requires name in disk.files
    ensures s != null ==> fresh(s) && fresh(s.offsetIndex) && s.disk == disk && s.name == name
    ensures s == null ==> err.Some?
    ensures s != null && err.Some? ==> err.value == UnexpectedEof
    ensures |disk.files[name]| < S.SEGMENT_HEADER ==>
              s == null && err == Some(if disk.files[name] == [] then Eof else UnexpectedEof)
    ensures HeaderFault(disk.files[name]) || StartFault(disk.files[name], v) ==> s == null && err == Some(InvalidSegmentHeader)
    ensures FileOk(disk.files[name], v) && Ends(disk.files[name], v) && name == v.base ==>
              && err == Verdict(disk.files[name], v.rows)
              && (s == null <==> err.Some? && err.value != UnexpectedEof)
              && (s != null ==> s.Valid() && s.Covered() && s.view == v)
    ensures FileOk(disk.files[name], v) && |v.rows| < U32 && name == v.base ==>
              match TailOf(disk.files[name], v.Size(), |v.rows|)
              case CleanEnd => s != null && err.None?
              case TornFrame => s != null && err == Some(UnexpectedEof)
              case Misnumbered => s == null && err == Some(InvalidFrameIndex)
              case BadChecksum => s == null && err == Some(InvalidChecksum)
              case NextFrame => true
  {
    hide Holds, View.Fits, Continues, Verdict, Marks, Truthful, Covers, Offset, S.Fresh, S.Settled, S.Meta, S.Start;
    hide HeaderFault, TailOf, S.HeaderValid, InFrame, StartFault;
    var file := disk.files[name];
    s := null;
    FaultIsLong(file, v);
    if |file| < S.SEGMENT_HEADER {
      return null, Some(if file == [] then Eof else UnexpectedEof);
    }
    var header := file[..S.SEGMENT_HEADER];
    FaultIsReported(file);
    if FileOk(file, v) && |v.rows| < U32 { TailVerdict(file, v); }
    if !S.HeaderValid(header) {
      return null, Some(InvalidSegmentHeader);
    }
    if S.Meta(header).Err? {
      return null, Some(S.Meta(header).error);
    }
    var meta := S.Meta(header).value;
    if FileOk(file, v) { StartIsReadable(file, v); }
    StartFaultMeans(file, v, meta);
    if S.ReadOffset(meta).Err? {
      return null, Some(S.ReadOffset(meta).error);
    }
    var loaded := new Segment(disk, name, S.StartSequence(header), meta, syncOnAppend);
    err := loaded.FindStart(S.Start(meta), v);
    if err.Some? {
      return;
    }
    err := loaded.FindEnd(v);
    if err.None? || err.value == UnexpectedEof {
      s := loaded;
    }
  }

  /** The states of the directory while the header of a new file is written. */
  lemma {:induction false} HeaderGrows(begun: Files, name: nat, header: seq<byte>, n: nat, past: seq<Files>,
                                       files: Files, history: seq<Files>)
    requires name in begun && begun[name] == [] && n <= |header|
    requires files == begun[name := Overwrite([], 0, header)] || files == begun[name := Overwrite([], 0, header[..n])]
    requires history == past + [begun] + [begun[name := Overwrite([], 0, header[..n])], files]
    ensures AllGrow(begun, name, 0, header, past, history)
  {
    hide AllGrow, Grows, Overwrite;
    TrimGrows(begun, name, 0, header, []);
    WriteGrows(begun, name, 0, header, n);
    WriteGrows(begun, name, 0, header, |header|);
    assert begun[name := Resize([], 0)] == begun;
    var one := begun[name := Overwrite([], 0, header[..n])];
    NothingGrew(begun, name, 0, header, past);
    GrowMore(begun, name, 0, header, past, past, begun);
    GrowMore(begun, name, 0, header, past, past + [begun], one);
    GrowMore(begun, name, 0, header, past, past + [begun] + [one], files);
    assert past + [begun] + [one] + [files] == history;
  }

  lemma {:induction false} OverwriteEmpty(data: seq<byte>)
    ensures Overwrite([], 0, data) == data
  {
  }

  lemma {:induction false} FreshFile(startSeq: uint64)
    ensures FileOk(S.NewHeader(startSeq), View(startSeq, [], 0))
    ensures Quiet(S.NewHeader(startSeq), [])
  {
    hide S.NewHeader, S.HeaderValid, S.StartSequence, S.Start, S.Meta;
    var h := S.NewHeader(startSeq);
    S.NewHeaderSound(startSeq);
    assert h[..64] == h;
    QuietAtEnd(h, []);
  }

  lemma {:induction false} FreshIndex(entries: seq<Entry>)
    requires entries == [Entry(0, S.SEGMENT_HEADER)]
    ensures Truthful(entries, []) && 0 in Marks(entries)
  {
  }

  lemma {:induction false} StartIsReadable(file: seq<byte>, v: View)
    requires FileOk(file, v)
    ensures S.ReadOffset(MetaOf(file)).Ok?
  {
    hide S.Meta, Holds;
    OffsetLowerBound(v.rows, v.start, |v.rows|);
  }

  ghost predicate Ends(file: seq<byte>, v: View)
  {
    |v.rows| < U32 && !Continues(file, v.rows)
  }

  lemma {:induction false} EndsOneWay(file: seq<byte>, rows: seq<Payload>)
    requires |rows| < U32
    ensures Quiet(file, rows) <==> !Continues(file, rows) && Verdict(file, rows).None?
    ensures Verdict(file, rows).Some? ==> !Continues(file, rows)
    ensures Torn(file, rows) <==> Verdict(file, rows) == Some(UnexpectedEof)
    ensures Corrupt(file, rows) <==> Verdict(file, rows) == Some(InvalidChecksum)
  {
    ReadErrors(file, |rows|, Offset(rows, |rows|));
  }

  /** What a reader may report. */
  lemma {:induction false} ReadErrors(file: seq<byte>, index: uint32, offset: nat)
    ensures var r := F.Read(file, F.NO_LIMIT, index, offset);
            && (r.Err? ==> r.error in {Eof, UnexpectedEof, InvalidFrameIndex})
            && (r.Ok? ==>
                  var e := F.Validate(r.value.header, r.value.payload);
                  e.Some? ==> e.value == InvalidChecksum)
  {
  }

  /** What a scan reports behind the last frame. */
  ghost function Verdict(file: seq<byte>, rows: seq<Payload>): Option<Error>
    requires |rows| < U32
  {
    match End(file, rows)
    case Err(e) => if e == Eof then None else Some(e)
    case Ok(frame) => F.Validate(frame.header, frame.payload)
  }

  lemma {:induction false} TailVerdict(file: seq<byte>, v: View)
    requires |v.rows| < U32 && FileOk(file, v)
    ensures v.Size() <= |file|
    ensures match TailOf(file, v.Size(), |v.rows|)
            case CleanEnd => Ends(file, v) && Verdict(file, v.rows).None?
            case TornFrame => Ends(file, v) && Verdict(file, v.rows) == Some(UnexpectedEof)
            case Misnumbered => Ends(file, v) && Verdict(file, v.rows) == Some(InvalidFrameIndex)
            case BadChecksum => Ends(file, v) && Verdict(file, v.rows) == Some(InvalidChecksum)
            case NextFrame => !Ends(file, v) && Verdict(file, v.rows).None?
  {
    hide TailOf, F.Read, F.Validate, HeaderOk, View.Fits, F.FrameAt;
    TailReads(file, v.rows);
  }

  /** A segment header that is refused: it does not begin with "ALOG" and version 1, or both slots fail their checksums. */
  predicate HeaderFault(file: seq<byte>)
  {
    && |file| >= 64
    && (|| file[..8] != [0x41, 0x4C, 0x4F, 0x47, 0, 0, 0, 1]
        || (Word(file, 28) != Crc32c(file[16..28]) && Word(file, 44) != Crc32c(file[32..44])))
  }

  /** A good header whose read start is no 63-bit number, or lies inside a frame. */
  ghost predicate StartFault(file: seq<byte>, v: View)
  {
    && |file| >= 64 && !HeaderFault(file)
    && var start := S.Start(MetaOf(file));
       || start > MAX_INT64
       || (|v.rows| < U32 && Holds(file, v.rows) && InFrame(v.rows, v.start, start))
  }

  lemma {:induction false} FaultIsLong(file: seq<byte>, v: View)
    ensures HeaderFault(file) || StartFault(file, v) ==> |file| >= 64
    ensures !(HeaderFault(file) && StartFault(file, v))
  {
  }

  lemma {:induction false} StartFaultMeans(file: seq<byte>, v: View, meta: S.MetaSlot)
    requires |file| >= 64 && S.Meta(file[..64]) == Ok(meta)
    ensures StartFault(file, v) ==>
              || S.ReadOffset(meta).Err?
              || (|v.rows| < U32 && Holds(file, v.rows) && InFrame(v.rows, v.start, S.Start(meta)))
    ensures S.ReadOffset(meta).Err? ==> S.ReadOffset(meta).error == InvalidSegmentHeader
  {
    hide Holds, InFrame, HeaderFault, S.Meta;
  }

  lemma {:induction false} FaultIsReported(file: seq<byte>)
    requires |file| >= 64
    ensures var h: S.Header := file[..64];
            HeaderFault(file) <==> !S.HeaderValid(h) || S.Meta(h) == Err(InvalidSegmentHeader)
    ensures S.Meta(file[..64]).Err? ==> S.Meta(file[..64]) == Err(InvalidSegmentHeader)
  {
    hide Word, Uint32, PutUint32;
    var h: S.Header := file[..64];
    PrefixRead(file);
    SlotRead(file, 16);
    SlotRead(file, 32);
  }

  lemma {:induction false} SlotRead(file: seq<byte>, at: nat)
    requires |file| >= 64 && (at == 16 || at == 32)
    ensures S.Valid(S.SlotAt(file[..64], at)) <==> Word(file, at + 12) == Crc32c(file[at..at + 12])
  {
    hide Word, Uint32;
    var m := S.SlotAt(file[..64], at);
    WordReads(file, at + 12);
    assert m[12..] == file[at + 12..at + 16] && m[..12] == file[at..at + 12];
  }

  lemma {:induction false} PrefixRead(file: seq<byte>)
    requires |file| >= 64
    ensures S.HeaderValid(file[..64]) <==> file[..8] == [0x41, 0x4C, 0x4F, 0x47, 0, 0, 0, 1]
  {
    hide Uint32, PutUint32;
    var h: S.Header := file[..64];
    S.PrefixBytes();
    var magic, version := PutUint32(S.MAGIC), PutUint32(S.VERSION);
    assert file[..8] == h[..4] + h[4..8] && (magic + version)[..4] == magic && (magic + version)[4..] == version;
    if S.HeaderValid(h) {
      Uint32Injective(h[..4], magic);
      Uint32Injective(h[4..8], version);
    }
  }

  /** What the scan sees at frame `idx`, and behind the last one. */
  lemma {:induction false} ScanStep(file: seq<byte>, v: View, idx: nat)
    requires FileOk(file, v) && Ends(file, v) && idx <= |v.rows|
    ensures var r := F.Read(file, F.NO_LIMIT, idx, Offset(v.rows, idx));
            && (idx < |v.rows| ==>
                  && r.Ok? && F.Validate(r.value.header, r.value.payload).None?
                  && F.NextOffset(r.value.header, Offset(v.rows, idx)) == Offset(v.rows, idx + 1))
            && (idx == |v.rows| ==>
                  if r.Err? then Verdict(file, v.rows) == (if r.error == Eof then None else Some(r.error))
                  else Verdict(file, v.rows) == F.Validate(r.value.header, r.value.payload) != None)
  {
    hide F.Read, HeaderOk, F.FrameAt;
    if idx < |v.rows| {
      assert F.FrameAt(file, idx, Offset(v.rows, idx), v.rows[idx]);
      F.FrameReads(file, idx, Offset(v.rows, idx), v.rows[idx]);
    }
  }

  lemma {:induction false} ReadAdvances(file: seq<byte>, idx: uint32, offset: nat)
    requires F.Read(file, F.NO_LIMIT, idx, offset).Ok?
    ensures offset < |file|
    ensures F.NextOffset(F.Read(file, F.NO_LIMIT, idx, offset).value.header, offset) > offset
  {
  }

  lemma {:induction false} SparseIncreasing(entries: seq<Entry>, e: Entry)
    requires Increasing(entries)
    ensures Increasing(SparsePut(entries, e))
  {
    hide Increasing, Put;
    PutIncreasing(entries, e);
  }

  lemma {:induction false} CoversNothing(marks: set<nat>, from: nat)
    ensures Covers(marks, from, from)
  {
  }

  /** A file that agrees up to the end of the last frame stands for the same segment and slot. */
  lemma {:induction false} FrontAgrees(file: seq<byte>, other: seq<byte>, v: View)
    requires FileOk(file, v)
    requires v.Size() <= |other| && v.Size() <= |file| && other[..v.Size()] == file[..v.Size()]
    ensures FileOk(other, v) && MetaOf(other) == MetaOf(file)
  {
    hide HeaderOk, Holds, Offset;
    FileAgrees(file, other, v);
    OffsetOrder(v.rows, |v.rows|, |v.rows|);
    SliceAgrees(file, other, 0, 0, 64, v.Size());
  }

  /** The segment that an appended file stands for. */
  lemma {:induction false} GrownFile(file: seq<byte>, v: View, payloads: seq<Payload>)
    requires FileOk(file, v) && v.Size() <= |file| && payloads != []
    requires |v.rows| + |payloads| < U32 && v.Next() + |payloads| < U64
    requires v.Size() + BatchSize(payloads) <= MAX_INT64
    requires forall k | 0 <= k < |payloads| :: |payloads[k]| < U32
    ensures var g, w := Overwrite(file, v.Size(), EncodeAll(|v.rows|, payloads)), v.(rows := v.rows + payloads);
            && FileOk(g, w) && w.Size() == v.Size() + BatchSize(payloads)
            && Offset(w.rows, v.start) == Offset(v.rows, v.start)
            && (Quiet(file, v.rows) ==> |g| == w.Size())
  {
    hide HeaderOk, Holds, Offset, Overwrite, EncodeAll, Quiet;
    var w := v.(rows := v.rows + payloads);
    OffsetAppend(v.rows, payloads);
    OffsetPrefix(v.rows, w.rows, v.start);
    FileAppend(file, v, payloads);
    if Quiet(file, v.rows) {
      AppendEnds(file, v, payloads);
    }
  }

  lemma {:induction false} GrownIndex(entries: seq<Entry>, rows: seq<Payload>, payloads: seq<Payload>)
    requires Truthful(entries, rows)
    ensures Truthful(entries, rows + payloads)
  {
    hide Offset, Increasing;
    TruthfulPrefix(entries, rows, rows + payloads);
  }

  lemma {:induction false} SlotOfHeader(file: seq<byte>, position: nat)
    requires |file| >= S.SEGMENT_HEADER && (position == 16 || position == 32)
    ensures S.SlotAt(file[..S.SEGMENT_HEADER], position) == file[position..position + 16]
  {
  }

  lemma {:induction false} MetaOfPrefix(file: seq<byte>, n: nat)
    requires S.SEGMENT_HEADER <= n <= |file|
    ensures MetaOf(file[..n]) == MetaOf(file)
  {
    assert file[..n][..64] == file[..64];
  }

  lemma {:induction false} SizeInFile(file: seq<byte>, v: View)
    requires FileOk(file, v)
    ensures v.Size() <= |file|
  {
  }

  lemma {:induction false} CoversMore(marks: set<nat>, m: nat, from: nat, to: nat)
    requires Covers(marks, from, to)
    ensures Covers(marks + {m}, from, to)
  {
  }

  lemma {:induction false} FirstCheckpoint(rows: seq<Payload>)
    ensures Truthful([Entry(0, S.SEGMENT_HEADER)], rows)
  {
  }

  lemma {:induction false} FitsStart(file: seq<byte>, v: View)
    requires FileOk(file, v)
    ensures v.start <= |v.rows| < U32 && Holds(file, v.rows)
  {
  }

  lemma {:induction false} TruthfulIncreasing(entries: seq<Entry>, rows: seq<Payload>)
    requires Truthful(entries, rows)
    ensures Increasing(entries)
  {
  }
}
