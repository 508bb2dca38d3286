/** Reading the records of a whole chain in order (pkg/log/scan.go). */
module Reading {
  import opened Bytes
  import opened Errors
  import opened Layout
  import opened Disks
  import opened Directories
  import opened Retention
  import opened Segments
  import opened Scanners
  import opened Groups
  import opened Chains
  import M = Model
  import F = Frames

  datatype Record = Record(sequence: nat, payload: Payload)

  /** The retained records from `from` on, below `end` unless that is 0. */
  function Window(log: M.Log, from: nat, end: nat): seq<Record>
    requires log.head <= from
    decreases log.Next() - from
  {
    if from < log.Next() && (end == 0 || from < end)
    then [Record(from, log.rows[from - log.head])] + Window(log, from + 1, end)
    else []
  }

  /** The window holds exactly the retained records with a number in the range, each once, in order. */
  lemma {:induction false} WindowExact(log: M.Log, from: nat, end: nat)
    requires log.head <= from
    ensures var last := if end == 0 || end >= log.Next() then log.Next() else end;
            && |Window(log, from, end)| == (if last <= from then 0 else last - from)
            && forall i | 0 <= i < |Window(log, from, end)| ::
                 && from + i < log.Next()
                 && Window(log, from, end)[i] == Record(from + i, log.rows[from + i - log.head])
    decreases log.Next() - from
  {
    if from < log.Next() && (end == 0 || from < end) {
      WindowExact(log, from + 1, end);
    }
  }

  lemma ValidParts(chain: Chain)
    requires chain.Valid()
    ensures chain.views != [] && M.Contiguous(chain.views)
    ensures M.Abs(chain.views).Next() == Last(chain.views).Next() && M.Abs(chain.views).head == chain.views[0].First()
  {
    hide SoundSegments, Ascending, M.Total, M.Contiguous;
    chain.SizesMatch();
    LogSpan(chain.views);
  }

  lemma ReadableParts(chain: Chain)
    requires chain.Readable()
    ensures chain.Valid() && chain.views != [] && M.Contiguous(chain.views)
    ensures M.Abs(chain.views).Next() == Last(chain.views).Next() && M.Abs(chain.views).head == chain.views[0].First()
  {
    hide Chain.Valid;
    ValidParts(chain);
  }

  lemma CleanIsReadable(chain: Chain)
    requires chain.Clean()
    ensures chain.Readable() && chain.Valid()
  {
    hide SoundSegments, Live, Ascending, M.Total, M.Contiguous;
  }

  ghost predicate EndsWithFrames(files: Files, v: View)
  {
    v.base in files && |files[v.base]| == v.Size()
  }

  class LogScanner {
    const chain: Chain
    const segments: seq<Segment>
    const payLimit: uint32
    var segmentIndex: nat
    var segScanner: Scanner?
    var borrowed: Option<Record>
    var endSeq: nat
    var err: Option<Error>
    /** The number of the record the scanner stands before. */
    ghost var position: nat

    constructor (chain: Chain, payLimit: uint32)
      requires chain.Readable()
      ensures chain.Readable() && |segments| == |chain.views| > 0
      ensures this.chain == chain && segments == chain.segments && this.payLimit == payLimit
      ensures segmentIndex == 0 && segScanner == null && endSeq == 0 && err.None?
      ensures position == chain.views[0].First()
    {
      hide Segment.Valid, Segment.Covered, Live, M.Contiguous, Ascending, M.Total;
      this.chain, segments, this.payLimit := chain, chain.segments, payLimit;
      segmentIndex, segScanner, borrowed, endSeq, err := 0, null, None, 0, None;
      position := chain.views[0].First();
    }

    /** A reader of headers only would take a header that dangles behind the last frame for one more record. */
    ghost predicate Ended()
      reads chain, chain.disk
    {
      payLimit > 0 || forall i | 0 <= i < |chain.views| :: EndsWithFrames(chain.disk.files, chain.views[i])
    }

    /** Where the scanner stands. */
    ghost predicate Standing()
      reads this, segScanner, chain, segments
    {
      && segments == chain.segments && |segments| == |chain.views| > 0 && err.None?
      && segmentIndex <= |segments|
      && (segScanner == null ==>
            position == if segmentIndex < |segments| then chain.views[segmentIndex].First() else Last(chain.views).Next())
      && (segScanner != null ==>
            && segmentIndex < |segments|
            && segScanner.segment == segments[segmentIndex] && segScanner.limit == payLimit && segScanner.err.None?
            && segScanner.Positioned()
            && position == chain.views[segmentIndex].base + segScanner.index)
    }

    /** There is a record of the current segment to read, or its end will be seen. */
    ghost predicate Sure()
      reads this, chain, chain.disk
    {
      Ended() || (segmentIndex < |chain.views| && position < chain.views[segmentIndex].Next())
    }

    /** What a reader of record `j` of segment `i` returns. */
    lemma HoldsAt(i: nat, j: nat)
      requires chain.Readable() && i < |chain.views| && chain.views[i].start <= j < |chain.views[i].rows|
      ensures Holds(chain.views[i].base + j, Clip(chain.views[i].rows[j], payLimit))
    {
      hide Segment.Valid, Segment.Covered, Live, M.Contiguous, Ascending, M.Total, Offset, M.Flatten;
      chain.At(i);
      M.RecordPlace(chain.views, i, j);
    }

    /** Puts a scanner at the read start of the current segment. */
    method OpenSegment()
      requires chain.Readable() && Standing() && segmentIndex < |segments| && segScanner == null
      modifies this`segScanner
      ensures chain.Readable() && Standing() && segScanner != null && fresh(segScanner)
    {
      hide Segment.Valid, Segment.Covered, Live, M.Contiguous, Ascending, M.Total, Offset;
      chain.At(segmentIndex);
      OffsetOrder(chain.views[segmentIndex].rows, chain.views[segmentIndex].start, 0);
      segScanner := new Scanner(segments[segmentIndex], payLimit);
    }

    /** Reads the record the scanner stands before from the current segment, if that has one more. */
    method ReadOne() returns (more: bool)
      requires chain.Readable() && Standing() && segScanner != null && Sure()
      modifies this`borrowed, this`position, segScanner
      ensures chain.Readable() && Standing()
      ensures more ==> position == old(position) + 1 && borrowed.Some? && borrowed.value.sequence == old(position)
      ensures more ==> Holds(old(position), borrowed.value.payload)
      ensures !more ==> position == old(position) == chain.views[segmentIndex].Next() && Ended()
    {
      hide Segment.Valid, Segment.Covered, Live, M.Contiguous, Ascending, M.Total, Offset, Quiet, View.Fits, Holds;
      hide FileOk, F.Index, Chain.Objects;
      ghost var i, j := segmentIndex, segScanner.index;
      chain.At(segmentIndex);
      ShutAt(chain.disk.files, chain.views, i);
      assert Ended() ==> payLimit > 0 || EndsWithFrames(chain.disk.files, chain.views[i]);
      if j < |chain.views[i].rows| { HoldsAt(i, j); }
      more := segScanner.Next();
      if more {
        var frame := segScanner.borrowed.value;
        borrowed := Some(Record(segments[segmentIndex].base + F.Index(frame.header), frame.payload));
        position := position + 1;
      }
    }

    /** Reads the next record in range; false when there is none. */
    method Next() returns (more: bool)
      requires chain.Readable() && (err.None? ==> Standing() && Sure())
      modifies this, segScanner
      ensures old(err).Some? ==> !more && err == old(err)
      ensures chain.Readable() && endSeq == old(endSeq) && (old(err).None? ==> Standing() && err.None?)
      ensures segScanner == old(segScanner) || segScanner == null || fresh(segScanner)
      ensures more ==> position == old(position) + 1 && borrowed.Some? && borrowed.value.sequence == old(position)
      ensures more ==> Holds(old(position), borrowed.value.payload)
      ensures more && endSeq > 0 ==> old(position) < endSeq
      ensures !more && old(err).None? ==>
                old(position) >= Last(chain.views).Next() || (endSeq > 0 && old(position) >= endSeq)
    {
      hide Chain.Readable, Holds;
      if err.Some? {
        return false;
      }
      while segmentIndex < |segments|
        invariant chain.Readable() && Standing() && Sure() && position == old(position) && endSeq == old(endSeq)
        invariant segScanner == old(segScanner) || segScanner == null || fresh(segScanner)
        decreases |segments| - segmentIndex
      {
        StartKnown();
        if endSeq > 0 && segments[segmentIndex].StartSequence() >= endSeq {
          return false;
        }
        if segScanner == null {
          OpenSegment();
        }
        more := ReadOne();
        if more {
          if endSeq > 0 && borrowed.value.sequence >= endSeq {
            return false;
          }
          return;
        }
        StepOver();
      }
      more := false;
    }

    /** The scanner never stands before the read start of its segment. */
    lemma StartKnown()
      requires chain.Readable() && Standing() && segmentIndex < |segments|
      ensures segments[segmentIndex].StartSequence() == chain.views[segmentIndex].First() <= position
    {
      hide Segment.Valid, Segment.Covered, Live, M.Contiguous, Ascending, M.Total, Offset;
      chain.At(segmentIndex);
    }

    /** Goes on with the segment behind the current one. */
    method StepOver()
      requires Ended()
      requires chain.Readable() && Standing() && segmentIndex < |segments| && position == chain.views[segmentIndex].Next()
      modifies this`segmentIndex, this`segScanner
      ensures chain.Readable() && Standing() && Ended() && segmentIndex == old(segmentIndex) + 1 && segScanner == null
    {
      hide Segment.Valid, Segment.Covered, Live, Ascending, M.Total, Offset;
      segmentIndex, segScanner := segmentIndex + 1, null;
    }

    /** Puts a scanner before record `sequence` of segment `i`. */
    method SeekIn(i: nat, sequence: uint64)
      requires chain.Readable() && segments == chain.segments && |segments| == |chain.views| > 0 && err.None?
      requires i < |segments| && chain.views[i].First() <= sequence <= chain.views[i].Next()
      modifies this
      ensures chain.Readable() && Standing() && position == sequence && endSeq == old(endSeq)
      ensures segScanner != null && fresh(segScanner)
    {
      hide Segment.Valid, Segment.Covered, Live, M.Contiguous, Ascending, M.Total, Offset;
      chain.At(i);
      var scanner := new Scanner(segments[i], payLimit);
      err := scanner.Seek(sequence);
      segmentIndex, position, segScanner := i, sequence, scanner;
    }

    /** Stands before record `startSeq`, or before the first one behind it, or at the end. */
    method Seek(startSeq: uint64)
      requires chain.Readable() && segments == chain.segments && |segments| == |chain.views| > 0
      modifies this
      ensures chain.Readable() && Standing() && endSeq == old(endSeq)
      ensures segScanner == null || fresh(segScanner)
      ensures position == M.Abs(chain.views).Clamp(startSeq)
    {
      hide Chain.Readable, Chain.Valid, Chain.Objects, Standing, M.Total, Ascending, M.Flatten, M.Contiguous;
      ghost var views := chain.views;
      ReadableParts(chain);
      Rewind();
      var i := 0;
      while i < |segments|
        invariant i <= |segments| && chain.Readable() && err.None? && chain.views == views && endSeq == old(endSeq)
        invariant Standing() && segScanner == null && position == Last(views).Next()
        invariant i > 0 ==> views[i - 1].Next() <= startSeq
      {
        SegmentKnown(i);
        if startSeq < segments[i].NextSequence() {
          var start := segments[i].StartSequence();
          SeekIn(i, if startSeq < start then start else startSeq);
          return;
        }
        i := i + 1;
      }
    }

    /** Goes to the end. */
    method Rewind()
      requires chain.Readable() && segments == chain.segments && |segments| == |chain.views| > 0
      modifies this
      ensures chain.Readable() && Standing() && endSeq == old(endSeq) && err.None?
      ensures segScanner == null && position == Last(chain.views).Next()
    {
      hide Segment.Valid, Segment.Covered, Live, M.Contiguous, Ascending, M.Total, Offset;
      segmentIndex, segScanner, borrowed, err := |segments|, null, None, None;
      position := Last(chain.views).Next();
    }

    lemma SegmentKnown(i: nat)
      requires chain.Readable() && segments == chain.segments && i < |segments| == |chain.views|
      ensures segments[i].NextSequence() == chain.views[i].Next() <= M.Abs(chain.views).Next() < U64
      ensures segments[i].StartSequence() == chain.views[i].First() >= M.Abs(chain.views).head
      ensures chain.views[i].First() <= chain.views[i].Next()
      ensures i > 0 ==> chain.views[i - 1].Next() == chain.views[i].First()
      ensures i == 0 ==> chain.views[i].First() == M.Abs(chain.views).head
      ensures chain.views != [] && M.Contiguous(chain.views)
    {
      hide Segment.Valid, Segment.Covered, Live, Ascending, M.Total, Offset, M.Flatten;
      chain.At(i);
      chain.WidthsOfLast();
      LogSpan(chain.views);
      M.FirstsOrdered(chain.views, 0, i);
      M.FirstsOrdered(chain.views, i, |chain.views| - 1);
    }

    /** Sets the number at which reading stops; 0 for none. */
    method StopAt(endSeq: nat)
      requires chain.Readable() && Standing()
      modifies this`endSeq
      ensures this.endSeq == endSeq && chain.Readable() && Standing()
    {
      hide Segment.Valid, Segment.Covered, Live, M.Contiguous, Ascending, M.Total, Offset;
      this.endSeq := endSeq;
    }

    /** `payload` is what a limited reader returns of record `sequence`. */
    ghost predicate Holds(sequence: nat, payload: Payload)
      reads chain
    {
      && chain.views != [] && M.Contiguous(chain.views)
      && var log := M.Abs(chain.views);
      && log.head <= sequence < log.Next()
      && var row := log.rows[sequence - log.head];
      && |row| < U32 && payload == Clip(row, payLimit)
    }
  }
}
