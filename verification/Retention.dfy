/** The three limits of a chain, and how many of its oldest segments an append must give up. */
module Retention {
  import opened Bytes
  import opened Errors
  import opened Layout
  import opened Model
  import S = Slots

  /** Zero or less means no limit. */
  datatype Limits = Limits(maxSegmentSize: int, maxDiskSize: int, maxSegments: int) {
    /** Segments stay small enough for a 32-bit frame index. */
    predicate Narrow() { 0 < maxSegmentSize <= 64 + 16 * (U32 - 1) }

    /** A batch that no empty segment can take. */
    predicate TooLarge(size: nat) { maxSegmentSize > 0 && S.SEGMENT_HEADER + size > maxSegmentSize }
  }

  function Last(views: seq<View>): View
    requires views != []
  {
    views[|views| - 1]
  }

  predicate Rotates(l: Limits, views: seq<View>, size: nat)
    requires views != []
  {
    l.maxSegmentSize > 0 && Last(views).Size() + size > l.maxSegmentSize
  }

  function Required(l: Limits, views: seq<View>, size: nat): nat
    requires views != []
  {
    size + if Rotates(l, views, size) then S.SEGMENT_HEADER else 0
  }

  predicate OverCount(l: Limits, views: seq<View>, size: nat)
    requires views != []
  {
    Rotates(l, views, size) && l.maxSegments > 0 && |views| >= l.maxSegments
  }

  predicate OverBudget(l: Limits, views: seq<View>, size: nat)
    requires views != []
  {
    l.maxDiskSize > 0 && Total(views) + Required(l, views, size) > l.maxDiskSize
  }

  predicate NeedsReap(l: Limits, views: seq<View>, size: nat)
    requires views != []
  {
    OverCount(l, views, size) || OverBudget(l, views, size)
  }

  /** All three limits are respected. */
  ghost predicate Within(l: Limits, views: seq<View>)
  {
    && (l.maxDiskSize > 0 ==> Total(views) <= l.maxDiskSize)
    && (l.maxSegments > 0 ==> |views| <= l.maxSegments)
    && (l.maxSegmentSize > 0 ==> forall i | 0 <= i < |views| :: views[i].Size() <= l.maxSegmentSize)
  }

  /** The segments after a batch was admitted: it goes to the last one or to a new one. */
  function Admitted(l: Limits, views: seq<View>, batch: seq<Payload>): seq<View>
    requires views != []
  {
    if Rotates(l, views, BatchSize(batch)) then Grown(views + [View(Last(views).Next(), [], 0)], batch)
    else Grown(views, batch)
  }

  /** Giving up one more segment never makes it harder to admit a batch. */
  lemma {:induction false} ReapingHelps(l: Limits, views: seq<View>, size: nat, j: nat, k: nat)
    requires j <= k < |views| && !NeedsReap(l, views[j..], size)
    ensures !NeedsReap(l, views[k..], size)
  {
    hide Total;
    TotalSplit(views[j..], k - j);
    assert views[j..][k - j..] == views[k..];
  }

  /** A batch is refused as full exactly when giving up everything but the last segment is not enough. */
  lemma {:induction false} RefusedIffNoneFits(l: Limits, views: seq<View>, size: nat)
    requires views != []
    ensures NeedsReap(l, views[|views| - 1..], size)
       <==> forall k | 0 <= k < |views| :: NeedsReap(l, views[k..], size)
  {
    forall k | 0 <= k < |views| && !NeedsReap(l, views[k..], size)
      ensures !NeedsReap(l, views[|views| - 1..], size)
    {
      ReapingHelps(l, views, size, k, |views| - 1);
    }
  }

  /** A segment that must be rotated holds frames, so its successor gets a larger name. */
  lemma {:induction false} RotatesNonempty(l: Limits, views: seq<View>, size: nat)
    requires views != [] && Rotates(l, views, size) && !l.TooLarge(size)
    ensures Last(views).base < Last(views).Next()
  {
  }

  lemma {:induction false} WithinDrop(l: Limits, views: seq<View>, k: nat)
    requires Within(l, views) && k < |views|
    ensures Within(l, views[k..])
  {
    hide Total, Offset;
    TotalSplit(views, k);
  }

  lemma {:induction false} WithinGrown(l: Limits, views: seq<View>, batch: seq<Payload>)
    requires views != [] && Contiguous(views) && Within(l, views)
    requires l.maxSegmentSize > 0 ==> Last(views).Size() + BatchSize(batch) <= l.maxSegmentSize
    requires l.maxDiskSize > 0 ==> Total(views) + BatchSize(batch) <= l.maxDiskSize
    ensures Within(l, Grown(views, batch))
  {
    hide Total, Offset, BatchSize, Contiguous, Flatten;
    AbsGrown(views, batch);
    OffsetAppend(Last(views).rows, batch);
  }

  /** Admission keeps all three limits. */
  lemma {:induction false} WithinAdmitted(l: Limits, views: seq<View>, batch: seq<Payload>)
    requires views != [] && Contiguous(views) && Within(l, views)
    requires !NeedsReap(l, views, BatchSize(batch)) && !l.TooLarge(BatchSize(batch))
    ensures Within(l, Admitted(l, views, batch))
  {
    hide Total, Offset, BatchSize, Contiguous, Flatten, Within, Grown;
    var empty := View(Last(views).Next(), [], 0);
    if Rotates(l, views, BatchSize(batch)) {
      OffsetAtZero([]);
      AbsRotated(views, empty);
      WithinRotated(l, views, BatchSize(batch));
      WithinGrown(l, views + [empty], batch);
    } else {
      WithinGrown(l, views, batch);
    }
  }

  lemma {:induction false} FramesTakeRoom(v: View)
    ensures v.Size() >= 64 + 16 * |v.rows|
  {
    OffsetLowerBound(v.rows, 0, |v.rows|);
    OffsetAtZero(v.rows);
  }

  lemma {:induction false} BatchTakesRoom(batch: seq<Payload>)
    ensures BatchSize(batch) >= 16 * |batch|
  {
    if batch != [] {
      BatchTakesRoom(batch[..|batch| - 1]);
    }
  }

  /** In a chain of narrow segments the 32-bit frame index cannot wrap. */
  lemma {:induction false} IndexNeverWraps(l: Limits, v: View, batch: seq<Payload>)
    requires l.Narrow() && v.Size() + BatchSize(batch) <= l.maxSegmentSize
    ensures |v.rows| + |batch| < U32 && v.Size() + BatchSize(batch) <= MAX_INT64
  {
    FramesTakeRoom(v);
    BatchTakesRoom(batch);
  }

  /** Each of the `k` oldest segments stands in the way of a batch. */
  ghost predicate Needed(l: Limits, start: seq<View>, size: nat, k: nat)
  {
    k < |start| && forall j | 0 <= j < k :: NeedsReap(l, start[j..], size)
  }

  lemma {:induction false} NeededIndex(l: Limits, start: seq<View>, size: nat, k: nat)
    requires Needed(l, start, size, k)
    ensures k < |start|
  {
  }

  /** `k` is the least number of oldest segments whose loss makes room for a batch. */
  ghost predicate LeastReap(l: Limits, views: seq<View>, size: nat, k: nat)
  {
    Needed(l, views, size, k) && !NeedsReap(l, views[k..], size)
  }

  /** A batch that fits an empty segment, and the limits once only the last segment is left beside it. */
  ghost predicate Admissible(l: Limits, views: seq<View>, size: nat)
    requires views != []
  {
    !l.TooLarge(size) && !NeedsReap(l, views[|views| - 1..], size)
  }

  lemma {:induction false} LeastReapAdmits(l: Limits, views: seq<View>, size: nat, k: nat)
    requires LeastReap(l, views, size, k) && !l.TooLarge(size)
    ensures Admissible(l, views, size)
  {
    ReapingHelps(l, views, size, k, |views| - 1);
  }

  /** A batch is admissible exactly when giving up some number of oldest segments makes room for it. */
  lemma {:induction false} AdmissibleIffSomeFits(l: Limits, views: seq<View>, size: nat)
    requires views != []
    ensures Admissible(l, views, size)
       <==> !l.TooLarge(size) && exists k | 0 <= k < |views| :: !NeedsReap(l, views[k..], size)
  {
    RefusedIffNoneFits(l, views, size);
  }

  /** What is lost with the `k` oldest segments. */
  function Lost(views: seq<View>, k: nat): int
    requires k < |views|
  {
    views[k].First() - views[0].First()
  }

  /** Admission forgets the records of the reaped segments and adds the batch at the end. */
  lemma {:induction false} AbsAdmitted(l: Limits, views: seq<View>, k: nat, batch: seq<Payload>)
    requires Contiguous(views) && k < |views|
    ensures 0 <= Lost(views, k) <= |Abs(views).rows|
    ensures var after := Admitted(l, views[k..], batch);
            && after != [] && Contiguous(after)
            && Abs(after) == Abs(views).Drop(Lost(views, k)).Add(batch)
  {
    hide Contiguous, Flatten, Total, BatchSize, Grown, Rotates;
    var kept := views[k..];
    AbsDrop(views, k);
    AbsRotated(kept, View(Last(kept).Next(), [], 0));
    AbsGrown(kept, batch);
    AbsGrown(kept + [View(Last(kept).Next(), [], 0)], batch);
    GrownLength(kept, batch);
    GrownLength(kept + [View(Last(kept).Next(), [], 0)], batch);
  }

  lemma {:induction false} GrownLength(views: seq<View>, batch: seq<Payload>)
    requires views != []
    ensures |Grown(views, batch)| == |views|
  {
  }

  /** An append that fails after making room loses the reaped records and no others. */
  lemma {:induction false} AbsRefused(views: seq<View>, k: nat, after: seq<View>)
    requires Contiguous(views) && k < |views|
    requires after == views[k..] || after == views[k..] + [View(Last(views).Next(), [], 0)]
    ensures 0 <= Lost(views, k) <= |Abs(views).rows|
    ensures after != [] && Contiguous(after) && Abs(after) == Abs(views).Drop(Lost(views, k))
  {
    hide Contiguous, Flatten, Total;
    AbsDrop(views, k);
    AbsRotated(views[k..], View(Last(views).Next(), [], 0));
  }

  lemma {:induction false} WithinRotated(l: Limits, views: seq<View>, size: nat)
    requires views != [] && Contiguous(views) && Within(l, views) && Rotates(l, views, size)
    requires !NeedsReap(l, views, size) && !l.TooLarge(size)
    ensures Within(l, views + [View(Last(views).Next(), [], 0)])
  {
    hide Total, Offset;
    OffsetAtZero([]);
    AbsRotated(views, View(Last(views).Next(), [], 0));
  }

  /** Truncating the front keeps the limits, and the last segment keeps its frames. */
  lemma {:induction false} WithinHeaded(l: Limits, views: seq<View>, k: nat, sequence: nat)
    requires k < |views| && views[k].First() <= sequence
    ensures Within(l, views) ==> Within(l, Headed(views, k, sequence))
    ensures Last(Headed(views, k, sequence)).base == Last(views).base
    ensures Last(Headed(views, k, sequence)).rows == Last(views).rows
  {
    hide Offset;
    TotalSplit(views, k);
    var out := Headed(views, k, sequence);
    assert out[1..] == views[k..][1..];
  }

  /** The limits leave room for the header of a first segment. */
  predicate Roomy(l: Limits)
  {
    && (l.maxDiskSize <= 0 || l.maxDiskSize >= S.SEGMENT_HEADER)
    && (l.maxSegmentSize <= 0 || l.maxSegmentSize >= S.SEGMENT_HEADER)
  }

  /** A single empty segment respects the limits exactly when they are roomy. */
  lemma {:induction false} WithinEmpty(l: Limits, base: nat)
    ensures Within(l, [View(base, [], 0)]) <==> Roomy(l)
  {
    TotalOne(View(base, [], 0));
    assert [View(base, [], 0)][0].Size() == 64;
  }

  lemma {:induction false} WithinTailed(l: Limits, views: seq<View>, k: nat, sequence: nat)
    requires k < |views| && views[k].base <= sequence < views[k].Next()
    ensures Within(l, views) ==> Within(l, Tailed(views, k, sequence))
  {
    hide Offset;
    var v, n := views[k], sequence + 1 - views[k].base;
    var w := v.(rows := v.rows[..n]);
    var out := Tailed(views, k, sequence);
    OffsetPrefix(v.rows, v.rows[..n], n);
    OffsetLowerBound(v.rows, n, |v.rows|);
    assert out[..k] == views[..k] && out[k..] == [w];
    TotalSplit(views, k);
    TotalSplit(out, k);
    TotalOne(w);
  }

  /** The machine widths leave room for a batch behind this segment. */
  predicate Takes(v: View, batch: seq<Payload>)
  {
    v.Next() + |batch| < U64 && |v.rows| + |batch| < U32 && v.Size() + BatchSize(batch) <= MAX_INT64
  }

  /** No record number, frame index or file offset would outgrow its machine width. */
  predicate RoomFor(l: Limits, views: seq<View>, batch: seq<Payload>)
    requires views != []
  {
    Last(views).Next() + |batch| < U64 && (l.Narrow() || Takes(Last(views), batch))
  }

  /** The segment that a batch goes to has room for it. */
  lemma {:induction false} TargetTakes(l: Limits, views: seq<View>, batch: seq<Payload>)
    requires views != [] && RoomFor(l, views, batch) && !l.TooLarge(BatchSize(batch))
    ensures Takes(if Rotates(l, views, BatchSize(batch)) then View(Last(views).Next(), [], 0) else Last(views), batch)
  {
    hide Offset, BatchSize;
    var empty := View(Last(views).Next(), [], 0);
    OffsetAtZero([]);
    FramesTakeRoom(Last(views));
    if l.Narrow() {
      IndexNeverWraps(l, if Rotates(l, views, BatchSize(batch)) then empty else Last(views), batch);
    }
  }

  // What the operations of a chain do to its segments

  /** A batch that is too large for any segment is reported as a full segment (pkg/log). */
  function Reported(r: Result<uint64>): Result<uint64>
  {
    if r == Err(BatchTooLarge) then Err(SegmentFull) else r
  }

  /** The segments `w` after an append to the segments `v` that gave up the `k` oldest ones, and its answer. */
  ghost predicate Appends(l: Limits, v: seq<View>, batch: seq<Payload>, result: Result<uint64>, k: nat, w: seq<View>)
  {
    var size := BatchSize(batch);
    && Needed(l, v, size, k)
    && if batch == [] then result == Ok(0) && k == 0 && w == v
       else if l.TooLarge(size) then result == Err(SegmentFull) && k == 0 && w == v
       else if result.Ok? then
         && Framable(batch) && !NeedsReap(l, v[k..], size) && w == Admitted(l, v[k..], batch)
         && result.value == Last(v).Next() + |batch| - 1
       else if result.error in {DiskFull, SegmentFull} then
         && k == |v| - 1 && w == v[k..] && NeedsReap(l, w, size)
         && (result.error == DiskFull <==> OverBudget(l, w, size))
       else if result.error == PayloadTooLarge then
         && !Framable(batch) && !NeedsReap(l, v[k..], size)
         && w == v[k..] + if Rotates(l, v[k..], size) then [View(Last(v).Next(), [], 0)] else []
       else
         || w == v[k..]
         || (!NeedsReap(l, v[k..], size) && Rotates(l, v[k..], size) && w == v[k..] + [View(Last(v).Next(), [], 0)])
  }

  /** The answer of a disk that does not fail. */
  predicate Deliberate(result: Result<uint64>)
  {
    result.Ok? || result.error in {DiskFull, SegmentFull, PayloadTooLarge}
  }

  /** Without disk failures an append succeeds exactly when its batch is admissible and every payload fits a frame. */
  lemma {:induction false} AppendDecided(l: Limits, v: seq<View>, batch: seq<Payload>, result: Result<uint64>, k: nat,
                                         w: seq<View>)
    requires v != [] && Appends(l, v, batch, result, k, w) && Deliberate(result)
    ensures result.Ok? <==> batch == [] || (Admissible(l, v, BatchSize(batch)) && Framable(batch))
    ensures result == Err(PayloadTooLarge) <==> batch != [] && Admissible(l, v, BatchSize(batch)) && !Framable(batch)
    ensures Contiguous(v) && Within(l, v) ==>
              var fits := exists j: nat :: FitsWithout(l, v, j, batch);
              && (result.Ok? <==> batch == [] || (fits && Framable(batch)))
              && (result == Err(PayloadTooLarge) <==> batch != [] && fits && !Framable(batch))
  {
    hide NeedsReap, BatchSize, OverBudget, Admitted, Limits.TooLarge, Rotates, Framable, FitsWithout, Within, Contiguous;
    if Contiguous(v) && Within(l, v) { AdmissibleExactly(l, v, batch); }
    if batch != [] && !l.TooLarge(BatchSize(batch)) && (result.Ok? || result.error == PayloadTooLarge) {
      LeastReapAdmits(l, v, BatchSize(batch), k);
    }
  }

  // What the admission of a batch means for the limits

  /** A batch goes to the last segment if that stays within its limit, and to a new one otherwise. */
  function Placed(l: Limits, views: seq<View>, batch: seq<Payload>): seq<View>
    requires views != []
  {
    var here := Grown(views, batch);
    if l.maxSegmentSize <= 0 || here[|views| - 1].Size() <= l.maxSegmentSize then here
    else Grown(views + [View(Last(views).Next(), [], 0)], batch)
  }

  lemma {:induction false} GrownSize(views: seq<View>, batch: seq<Payload>)
    requires views != [] && Contiguous(views)
    ensures |Grown(views, batch)| == |views| && Total(Grown(views, batch)) == Total(views) + BatchSize(batch)
    ensures Last(Grown(views, batch)).Size() == Last(views).Size() + BatchSize(batch)
    ensures forall i | 0 <= i < |views| - 1 :: Grown(views, batch)[i] == views[i]
  {
    hide Total, Offset, BatchSize, Contiguous, Flatten;
    AbsGrown(views, batch);
    OffsetAppend(Last(views).rows, batch);
  }

  /** A batch goes to a new segment exactly when it would make the last one larger than a segment may be. */
  lemma {:induction false} RotatesExactly(l: Limits, views: seq<View>, batch: seq<Payload>)
    requires views != [] && Contiguous(views)
    ensures Rotates(l, views, BatchSize(batch)) <==> l.maxSegmentSize > 0 && Last(Grown(views, batch)).Size() > l.maxSegmentSize
  {
    hide Total, Offset, BatchSize, Contiguous, Grown;
    GrownSize(views, batch);
  }

  lemma {:induction false} PlacedExactly(l: Limits, views: seq<View>, batch: seq<Payload>)
    requires views != [] && Contiguous(views)
    ensures Admitted(l, views, batch) == Placed(l, views, batch)
  {
    hide Total, Offset, BatchSize, Contiguous, Grown, Rotates;
    GrownLength(views, batch);
    RotatesExactly(l, views, batch);
  }

  /** A batch is too large exactly when a segment of nothing else would be larger than a segment may be. */
  lemma {:induction false} TooLargeExactly(l: Limits, batch: seq<Payload>, base: nat)
    ensures l.TooLarge(BatchSize(batch)) <==> l.maxSegmentSize > 0 && View(base, batch, 0).Size() > l.maxSegmentSize
  {
    hide Offset, BatchSize;
    OffsetAppend([], batch);
    OffsetAtZero([]);
    assert [] + batch == batch;
  }

  /** Each limit stands in the way of a batch exactly when the segments with the batch would break it. */
  lemma {:induction false} PressureExactly(l: Limits, views: seq<View>, batch: seq<Payload>)
    requires views != [] && Contiguous(views) && (l.maxSegments > 0 ==> |views| <= l.maxSegments)
    ensures var w, size := Placed(l, views, batch), BatchSize(batch);
            && (OverBudget(l, views, size) <==> l.maxDiskSize > 0 && Total(w) > l.maxDiskSize)
            && (OverCount(l, views, size) <==> l.maxSegments > 0 && |w| > l.maxSegments)
  {
    hide Total, Offset, BatchSize, Contiguous, Grown, Flatten;
    var empty := View(Last(views).Next(), [], 0);
    PlacedExactly(l, views, batch);
    GrownSize(views, batch);
    AbsRotated(views, empty);
    GrownSize(views + [empty], batch);
  }

  /** What the limits say to a batch, in terms of the segments with the batch. */
  ghost predicate Presses(l: Limits, views: seq<View>, batch: seq<Payload>, rotate: bool, needReap: bool, overBudget: bool)
    requires views != []
  {
    && (rotate <==> l.maxSegmentSize > 0 && Last(Grown(views, batch)).Size() > l.maxSegmentSize)
    && (l.maxSegments <= 0 || |views| <= l.maxSegments ==>
          var w := Placed(l, views, batch);
          && (overBudget <==> l.maxDiskSize > 0 && Total(w) > l.maxDiskSize)
          && (needReap <==> overBudget || (l.maxSegments > 0 && |w| > l.maxSegments)))
  }

  lemma {:induction false} PressesExactly(l: Limits, views: seq<View>, batch: seq<Payload>)
    requires views != [] && Contiguous(views)
    ensures var size := BatchSize(batch);
            Presses(l, views, batch, Rotates(l, views, size), NeedsReap(l, views, size), OverBudget(l, views, size))
  {
    hide Total, Offset, BatchSize, Contiguous, Grown, Flatten, Placed, Rotates, OverCount, OverBudget;
    GrownLength(views, batch);
    RotatesExactly(l, views, batch);
    if l.maxSegments <= 0 || |views| <= l.maxSegments { PressureExactly(l, views, batch); }
  }

  lemma {:induction false} BrokenLimit(l: Limits, views: seq<View>)
    requires Within(l, views)
    ensures l.maxDiskSize > 0 ==> Total(views) <= l.maxDiskSize
    ensures l.maxSegments > 0 ==> |views| <= l.maxSegments
    ensures l.maxSegmentSize > 0 && views != [] ==> Last(views).Size() <= l.maxSegmentSize
  {
  }

  /** A batch that is not too large needs no segment to go exactly when the segments with it are within the limits. */
  lemma {:induction false} NeedsReapExactly(l: Limits, views: seq<View>, batch: seq<Payload>)
    requires views != [] && Contiguous(views) && Within(l, views) && !l.TooLarge(BatchSize(batch))
    ensures !NeedsReap(l, views, BatchSize(batch)) <==> Within(l, Placed(l, views, batch))
  {
    hide Total, Offset, BatchSize, Contiguous, Grown, Flatten, Within, Admitted, OverCount, OverBudget, Limits.TooLarge;
    hide Placed;
    PlacedExactly(l, views, batch);
    BrokenLimit(l, views);
    PressureExactly(l, views, batch);
    if !NeedsReap(l, views, BatchSize(batch)) {
      WithinAdmitted(l, views, batch);
    }
    if Within(l, Admitted(l, views, batch)) {
      BrokenLimit(l, Admitted(l, views, batch));
    }
  }

  /** Without its `k` oldest segments a chain can take the batch, in its last segment or in a new one, within the limits. */
  ghost predicate FitsWithout(l: Limits, views: seq<View>, k: nat, batch: seq<Payload>)
  {
    && k < |views|
    && (|| Within(l, Grown(views[k..], batch))
        || Within(l, Grown(views[k..] + [View(Last(views).Next(), [], 0)], batch)))
  }

  lemma {:induction false} FitsExactly(l: Limits, views: seq<View>, batch: seq<Payload>)
    requires views != [] && Contiguous(views) && Within(l, views)
    ensures FitsWithout(l, views, 0, batch) <==> !l.TooLarge(BatchSize(batch)) && !NeedsReap(l, views, BatchSize(batch))
  {
    hide Total, Offset, BatchSize, Contiguous, Grown, Flatten, Within, NeedsReap;
    var empty, size := View(Last(views).Next(), [], 0), BatchSize(batch);
    assert views[0..] == views;
    GrownSize(views, batch);
    AbsRotated(views, empty);
    GrownSize(views + [empty], batch);
    OffsetAtZero([]);
    FramesTakeRoom(Last(views));
    if Within(l, Grown(views, batch)) {
      BrokenLimit(l, Grown(views, batch));
      NeedsReapExactly(l, views, batch);
    } else if Within(l, Grown(views + [empty], batch)) {
      BrokenLimit(l, Grown(views + [empty], batch));
      if !Rotates(l, views, size) { WithinGrown(l, views, batch); }
      NeedsReapExactly(l, views, batch);
    } else if !l.TooLarge(size) {
      NeedsReapExactly(l, views, batch);
    }
  }

  lemma {:induction false} FitsFrom(l: Limits, views: seq<View>, k: nat, batch: seq<Payload>)
    requires Contiguous(views) && Within(l, views) && k < |views|
    ensures FitsWithout(l, views, k, batch) <==> !l.TooLarge(BatchSize(batch)) && !NeedsReap(l, views[k..], BatchSize(batch))
  {
    hide Within, NeedsReap, BatchSize, Grown, Contiguous, Flatten;
    WithinDrop(l, views, k);
    AbsDrop(views, k);
    FitsExactly(l, views[k..], batch);
    assert views[k..][0..] == views[k..] && Last(views[k..]) == Last(views);
  }

  /** A batch is admissible exactly when, without some of its oldest segments, the chain can take it within the limits. */
  lemma {:induction false} AdmissibleExactly(l: Limits, views: seq<View>, batch: seq<Payload>)
    requires views != [] && Contiguous(views) && Within(l, views)
    ensures Admissible(l, views, BatchSize(batch)) <==> exists k: nat :: FitsWithout(l, views, k, batch)
  {
    hide Within, NeedsReap, BatchSize, Contiguous, FitsWithout, Limits.TooLarge;
    var n := |views| - 1;
    FitsFrom(l, views, n, batch);
    if k: nat :| FitsWithout(l, views, k, batch) {
      assert k < |views| by { FitsInside(l, views, k, batch); }
      FitsFrom(l, views, k, batch);
      ReapingHelps(l, views, BatchSize(batch), k, n);
    }
  }

  lemma {:induction false} FitsInside(l: Limits, views: seq<View>, k: nat, batch: seq<Payload>)
    requires FitsWithout(l, views, k, batch)
    ensures k < |views|
  {
  }

  /** An admissible batch costs no segment without which the chain could still have taken it. */
  lemma {:induction false} LeastExactly(l: Limits, views: seq<View>, batch: seq<Payload>, k: nat)
    requires Contiguous(views) && Within(l, views) && !l.TooLarge(BatchSize(batch))
    ensures LeastReap(l, views, BatchSize(batch), k)
       <==> FitsWithout(l, views, k, batch) && forall j: nat | j < k :: !FitsWithout(l, views, j, batch)
  {
    hide Within, NeedsReap, BatchSize, Contiguous, FitsWithout, Limits.TooLarge;
    forall j: nat | j < |views|
      ensures FitsWithout(l, views, j, batch) <==> !NeedsReap(l, views[j..], BatchSize(batch))
    {
      FitsFrom(l, views, j, batch);
    }
    if FitsWithout(l, views, k, batch) { FitsInside(l, views, k, batch); }
  }

  /** The records after an append: those of the segments given up are lost, and the batch is added as a whole or not at all. */
  lemma {:induction false} AppendsAbs(l: Limits, v: seq<View>, batch: seq<Payload>, result: Result<uint64>, k: nat,
                                      w: seq<View>)
    requires v != [] && Contiguous(v) && Appends(l, v, batch, result, k, w)
    ensures k < |v| && 0 <= Lost(v, k) <= |Abs(v).rows|
    ensures w != [] && Contiguous(w)
    ensures Abs(w) == Abs(v).Drop(Lost(v, k)).Add(if result.Ok? then batch else [])
  {
    hide Contiguous, Flatten, BatchSize, NeedsReap, OverBudget, Admitted, Limits.TooLarge, Rotates;
    AbsAdmitted(l, v, k, batch);
    assert v[0..] == v;
    if result.Err? || batch == [] {
      AbsRefused(v, k, w);
      assert Abs(w).rows + [] == Abs(w).rows;
    }
  }

  lemma {:induction false} AppendsWithin(l: Limits, v: seq<View>, batch: seq<Payload>, result: Result<uint64>, k: nat,
                                         w: seq<View>)
    requires v != [] && Contiguous(v) && Appends(l, v, batch, result, k, w)
    ensures Within(l, v) ==> Within(l, w)
  {
    hide Contiguous, Flatten, BatchSize, NeedsReap, OverBudget, Admitted, Limits.TooLarge, Rotates, Within;
    if Within(l, v) && batch != [] && !l.TooLarge(BatchSize(batch)) {
      WithinDrop(l, v, k);
      AbsDrop(v, k);
      assert Last(v[k..]) == Last(v);
      if result.Ok? {
        WithinAdmitted(l, v[k..], batch);
      } else if w != v[k..] {
        WithinRotated(l, v[k..], BatchSize(batch));
      }
    }
  }

  /** Segment `k` holds record `sequence`. */
  predicate HasRecord(v: seq<View>, k: nat, sequence: nat)
  {
    k < |v| && v[k].First() <= sequence < v[k].Next()
  }

  /** The segments `w` after the records below `sequence` were removed from the segments `v`. */
  ghost predicate CutsFront(v: seq<View>, sequence: nat, w: seq<View>)
    requires v != [] && Contiguous(v)
  {
    if sequence < v[0].First() then w == v
    else if sequence >= Last(v).Next() then w == Headed(v, |v| - 1, Last(v).Next())
    else exists k: nat :: HasRecord(v, k, sequence) && w == Headed(v, k, sequence)
  }

  /** The segments `w` after the records above `sequence` were removed; below the head everything starts over. */
  ghost predicate CutsEnd(v: seq<View>, sequence: nat, first: nat, w: seq<View>)
    requires v != []
  {
    if sequence < v[0].First() then w == [View(first, [], 0)]
    else if sequence >= Last(v).Next() then w == v
    else exists k: nat :: HasRecord(v, k, sequence) && w == Tailed(v, k, sequence)
  }

  /** Segment `k` is the first one with a record at or above `sequence`, or the last one. */
  ghost predicate Foremost(v: seq<View>, sequence: nat, k: nat)
  {
    k < |v| && forall i | 0 <= i < |v| - 1 :: i < k <==> v[i].base + |v[i].rows| <= sequence
  }

  lemma {:induction false} RecordIsForemost(v: seq<View>, sequence: nat, k: nat)
    requires Contiguous(v) && k < |v| && (sequence < v[k].First() ==> k == 0)
    requires v[k].Next() <= sequence ==> k == |v| - 1
    ensures Foremost(v, sequence, k)
  {
    hide Contiguous;
    forall i | 0 <= i < |v| - 1
      ensures i < k <==> v[i].Next() <= sequence
    {
      if i < k { FirstsOrdered(v, i, k); } else { FirstsOrdered(v, k, i); }
      Starts(v, i);
    }
  }

  /** Where an append puts its batch, and which batches it can take. */
  lemma {:induction false} AppendPlaced(l: Limits, v: seq<View>, batch: seq<Payload>, r: Result<uint64>, k: nat, w: seq<View>)
    requires v != [] && Contiguous(v) && batch != [] && Appends(l, v, batch, r, k, w)
    ensures k < |v| && (r.Ok? ==> w == Placed(l, v[k..], batch))
    ensures Within(l, v) ==> (Admissible(l, v, BatchSize(batch)) <==> exists j: nat :: FitsWithout(l, v, j, batch))
  {
    hide Flatten, Contiguous, BatchSize, Limits.TooLarge, NeedsReap, Rotates, Admitted, Within, FitsWithout, Placed;
    AbsDrop(v, k);
    if r.Ok? { PlacedExactly(l, v[k..], batch); }
    if Within(l, v) { AdmissibleExactly(l, v, batch); }
  }

  /**
    Of all segments but the last exactly those are removed that have no record at or above `sequence`. The others keep
    their frames, and all but the first of them their start.
  */
  lemma {:induction false} CutsFrontExactly(v: seq<View>, sequence: nat, w: seq<View>)
    requires v != [] && Contiguous(v) && CutsFront(v, sequence, w)
    ensures var k := |v| - |w|;
            && 0 <= k && Foremost(v, sequence, k)
            && (forall i | 0 <= i < |w| :: w[i].base == v[k + i].base && w[i].rows == v[k + i].rows)
            && (forall i | 0 < i < |w| :: w[i] == v[k + i])
  {
    hide Contiguous, Foremost, Headed;
    var k: nat := 0;
    if v[0].First() <= sequence {
      k := |v| - 1;
      Starts(v, k);
      if sequence < Last(v).Next() {
        k :| HasRecord(v, k, sequence) && w == Headed(v, k, sequence);
        HeadedShape(v, k, sequence);
      } else {
        HeadedShape(v, k, Last(v).Next());
      }
    } else {
      Starts(v, 0);
    }
    RecordIsForemost(v, sequence, k);
  }

  lemma {:induction false} HeadedShape(v: seq<View>, k: nat, sequence: nat)
    requires k < |v| && v[k].First() <= sequence
    ensures var w := Headed(v, k, sequence);
            && |w| == |v| - k && w[0].base == v[k].base && w[0].rows == v[k].rows
            && forall i | 0 < i < |w| :: w[i] == v[k + i]
  {
  }

  lemma {:induction false} Starts(v: seq<View>, i: nat)
    requires Contiguous(v) && i < |v|
    ensures v[i].First() <= v[i].Next()
  {
  }

  /** Unless the log starts over, exactly the segments are removed that begin above `sequence`, and the last one kept is cut. */
  lemma {:induction false} CutsEndExactly(v: seq<View>, sequence: nat, first: nat, w: seq<View>)
    requires v != [] && Contiguous(v) && CutsEnd(v, sequence, first, w) && v[0].First() <= sequence
    ensures && 0 < |w| <= |v|
            && (forall i | 0 < i < |v| :: i < |w| <==> v[i].base + v[i].start <= sequence)
            && (forall i | 0 <= i < |w| - 1 :: w[i] == v[i])
            && var last, kept := v[|w| - 1], w[|w| - 1];
               kept.base == last.base && kept.start == last.start
               && kept.rows == if last.Next() <= sequence then last.rows else last.rows[..sequence + 1 - last.base]
  {
    hide Contiguous;
    var n := |v| - 1;
    var k: nat := n;
    if sequence < Last(v).Next() { k :| HasRecord(v, k, sequence) && w == Tailed(v, k, sequence); }
    forall i | 0 < i < |v|
      ensures i <= k <==> v[i].First() <= sequence
    {
      if i <= k { FirstsOrdered(v, i, k); } else { FirstsOrdered(v, k, i); }
      Starts(v, k);
    }
  }

  lemma {:induction false} CutsFrontAbs(l: Limits, v: seq<View>, sequence: nat, w: seq<View>)
    requires v != [] && Contiguous(v) && CutsFront(v, sequence, w)
    ensures w != [] && Contiguous(w) && Abs(w) == Abs(v).Before(sequence)
    ensures Within(l, v) ==> Within(l, w)
  {
    hide Flatten, Headed, Within;
    var n := |v| - 1;
    FlattenLength(v);
    FirstsOrdered(v, 0, n);
    if sequence >= v[0].First() {
      var k: nat, x: nat := n, Last(v).Next();
      if sequence < Last(v).Next() {
        k :| HasRecord(v, k, sequence) && w == Headed(v, k, sequence);
        x := sequence;
      }
      AbsHeaded(v, k, x);
      WithinHeaded(l, v, k, x);
      HeadedLength(v, k, x);
    }
  }

  lemma {:induction false} HeadedLength(v: seq<View>, k: nat, sequence: nat)
    requires k < |v| && v[k].First() <= sequence
    ensures |Headed(v, k, sequence)| == |v| - k
  {
  }

  lemma {:induction false} CutsEndAbs(l: Limits, v: seq<View>, sequence: nat, first: nat, w: seq<View>)
    requires v != [] && Contiguous(v) && CutsEnd(v, sequence, first, w)
    ensures w != [] && Contiguous(w) && Abs(w) == Abs(v).After(sequence, first)
    ensures Within(l, v) && Roomy(l) ==> Within(l, w)
  {
    hide Flatten, Tailed, Within, Roomy;
    FlattenLength(v);
    if sequence < v[0].First() {
      FlattenOne(View(first, [], 0));
      WithinEmpty(l, first);
    } else if sequence < Last(v).Next() {
      var k: nat :| HasRecord(v, k, sequence) && w == Tailed(v, k, sequence);
      AbsTailed(v, k, sequence, first);
      WithinTailed(l, v, k, sequence);
      TailedLength(v, k, sequence);
    }
  }

  lemma {:induction false} TailedLength(v: seq<View>, k: nat, sequence: nat)
    requires HasRecord(v, k, sequence)
    ensures |Tailed(v, k, sequence)| == k + 1
  {
  }

  // Room for more

  /** Every segment has room for that many more frames and bytes. */
  ghost predicate Spacious(l: Limits, views: seq<View>, rows: nat, bytes: nat)
  {
    l.Narrow() || forall i | 0 <= i < |views| :: |views[i].rows| + rows < U32 && views[i].Size() + bytes <= MAX_INT64
  }

  lemma {:induction false} SpaciousRoom(l: Limits, views: seq<View>, batch: seq<Payload>, rows: nat, bytes: nat)
    requires views != [] && Spacious(l, views, |batch| + rows, BatchSize(batch) + bytes)
    requires Last(views).Next() + |batch| < U64
    ensures RoomFor(l, views, batch)
  {
    hide BatchSize, Offset;
  }

  lemma {:induction false} SpaciousLess(l: Limits, views: seq<View>, k: nat, rows: nat, bytes: nat, more: nat, size: nat)
    requires k <= |views| && Spacious(l, views, more + rows, size + bytes)
    ensures Spacious(l, views[k..], rows, bytes) && Spacious(l, views, rows, bytes)
  {
    hide Offset;
  }

  lemma {:induction false} SpaciousAdd(l: Limits, views: seq<View>, v: View, rows: nat, bytes: nat)
    requires Spacious(l, views, rows, bytes) && Spacious(l, [v], rows, bytes)
    ensures Spacious(l, views + [v], rows, bytes)
  {
    hide Offset;
    assert [v][0] == v;
  }

  lemma {:induction false} SpaciousEmpty(l: Limits, views: seq<View>, rows: nat, bytes: nat, base: nat)
    requires views != [] && Spacious(l, views, rows, bytes)
    ensures Spacious(l, [View(base, [], 0)], rows, bytes)
  {
    hide Offset;
    FramesTakeRoom(views[0]);
    OffsetAtZero([]);
  }

  lemma {:induction false} SpaciousGrown(l: Limits, views: seq<View>, batch: seq<Payload>, rows: nat, bytes: nat)
    requires views != [] && Spacious(l, views, |batch| + rows, BatchSize(batch) + bytes)
    ensures Spacious(l, Grown(views, batch), rows, bytes)
  {
    hide Offset, BatchSize;
    var n := |views| - 1;
    OffsetAppend(views[n].rows, batch);
    var out := Grown(views, batch);
    forall i | 0 <= i < |out| && !l.Narrow()
      ensures |out[i].rows| + rows < U32 && out[i].Size() + bytes <= MAX_INT64
    {
      assert i < n ==> out[i] == views[i];
    }
  }

  lemma {:induction false} SpaciousAppends(l: Limits, v: seq<View>, batch: seq<Payload>, result: Result<uint64>, k: nat,
                                           w: seq<View>, rows: nat, bytes: nat)
    requires v != [] && Appends(l, v, batch, result, k, w) && Spacious(l, v, |batch| + rows, BatchSize(batch) + bytes)
    ensures Spacious(l, w, rows, bytes)
  {
    hide NeedsReap, BatchSize, OverBudget, Limits.TooLarge, Rotates, Spacious, Grown;
    var size, empty := BatchSize(batch), View(Last(v).Next(), [], 0);
    SpaciousLess(l, v, k, rows, bytes, |batch|, size);
    SpaciousLess(l, v, k, |batch| + rows, size + bytes, 0, 0);
    SpaciousEmpty(l, v, |batch| + rows, size + bytes, empty.base);
    SpaciousEmpty(l, v, rows, bytes, empty.base);
    SpaciousAdd(l, v[k..], empty, |batch| + rows, size + bytes);
    SpaciousAdd(l, v[k..], empty, rows, bytes);
    SpaciousGrown(l, v[k..], batch, rows, bytes);
    SpaciousGrown(l, v[k..] + [empty], batch, rows, bytes);
    assert Last(v[k..]) == Last(v);
  }

  lemma {:induction false} SpaciousFront(l: Limits, v: seq<View>, sequence: nat, w: seq<View>, rows: nat, bytes: nat)
    requires v != [] && Contiguous(v) && CutsFront(v, sequence, w) && Spacious(l, v, rows, bytes)
    ensures Spacious(l, w, rows, bytes)
  {
    hide Offset, Spacious, Headed;
    if sequence >= v[0].First() {
      var k: nat, x: nat := |v| - 1, Last(v).Next();
      if sequence < Last(v).Next() {
        k :| HasRecord(v, k, sequence) && w == Headed(v, k, sequence);
        x := sequence;
      }
      SpaciousHeaded(l, v, k, x, rows, bytes);
    }
  }

  lemma {:induction false} SpaciousHeaded(l: Limits, v: seq<View>, k: nat, x: nat, rows: nat, bytes: nat)
    requires k < |v| && v[k].First() <= x && Spacious(l, v, rows, bytes)
    ensures Spacious(l, Headed(v, k, x), rows, bytes)
  {
    hide Offset;
  }

  lemma {:induction false} SpaciousEnd(l: Limits, v: seq<View>, sequence: nat, first: nat, w: seq<View>, rows: nat, bytes: nat)
    requires v != [] && CutsEnd(v, sequence, first, w) && Spacious(l, v, rows, bytes)
    ensures Spacious(l, w, rows, bytes)
  {
    hide Offset, Spacious;
    if sequence < v[0].First() {
      SpaciousEmpty(l, v, rows, bytes, first);
    } else if sequence < Last(v).Next() {
      var k: nat :| HasRecord(v, k, sequence) && w == Tailed(v, k, sequence);
      SpaciousTailed(l, v, k, sequence, rows, bytes);
    }
  }

  lemma {:induction false} SpaciousTailed(l: Limits, v: seq<View>, k: nat, sequence: nat, rows: nat, bytes: nat)
    requires HasRecord(v, k, sequence) && Spacious(l, v, rows, bytes)
    ensures Spacious(l, Tailed(v, k, sequence), rows, bytes)
  {
    hide Offset;
    var n := sequence + 1 - v[k].base;
    OffsetPrefix(v[k].rows, v[k].rows[..n], n);
    OffsetLowerBound(v[k].rows, n, |v[k].rows|);
  }

  // The sizing of an archive (pkg/archive)

  function ArchiveLimits(immutableSegments: nat, maxSegmentSize: int): Limits
  {
    Limits(maxSegmentSize, (immutableSegments + 1) * maxSegmentSize, immutableSegments + 1)
  }

  lemma {:induction false} TotalBound(views: seq<View>, size: nat)
    requires forall i | 0 <= i < |views| :: views[i].Size() <= size
    ensures Total(views) <= |views| * size
  {
    if views != [] {
      TotalBound(views[1..], size);
      assert |views| * size == size + |views[1..]| * size;
    }
  }

  /** What `views` and one more batch take, when every segment is at most `size`. */
  lemma {:induction false} BudgetBound(l: Limits, views: seq<View>, size: nat, m: nat)
    requires views != [] && l.maxSegmentSize > 0 && !l.TooLarge(size)
    requires forall i | 0 <= i < |views| :: views[i].Size() <= l.maxSegmentSize
    requires |views| + (if Rotates(l, views, size) then 1 else 0) <= m
    ensures Total(views) + Required(l, views, size) <= m * l.maxSegmentSize
  {
    hide Total, Offset;
    var n, s := |views| - 1, l.maxSegmentSize;
    TotalSplit(views, n);
    assert views[n..] == [Last(views)];
    TotalOne(Last(views));
    TotalBound(views[..n], s);
    var used := if Rotates(l, views, size) then n + 2 else n + 1;
    assert used * s == n * s + (used - n) * s;
    assert (m - used) * s >= 0;
    assert m * s == used * s + (m - used) * s;
  }

  /**
    With archive sizing and an immutable segment to give up, every batch that fits an empty segment is
    admitted after at most one reaping, and the byte budget never bites before the count limit.
  */
  lemma {:induction false} ArchiveAdmits(immutableSegments: nat, maxSegmentSize: int, views: seq<View>, size: nat)
    requires immutableSegments >= 1 && maxSegmentSize > 0 && views != []
    requires var l := ArchiveLimits(immutableSegments, maxSegmentSize); Within(l, views) && !l.TooLarge(size)
    ensures var l := ArchiveLimits(immutableSegments, maxSegmentSize);
            && (OverBudget(l, views, size) ==> OverCount(l, views, size))
            && (NeedsReap(l, views, size) ==> |views| > 1 && !NeedsReap(l, views[1..], size))
            && |views| <= immutableSegments + 1 && (NeedsReap(l, views, size) ==> |views| == immutableSegments + 1)
  {
    hide Total, Offset;
    var l := ArchiveLimits(immutableSegments, maxSegmentSize);
    if OverCount(l, views, size) {
      var rest := views[1..];
      assert Last(rest) == Last(views);
      BudgetBound(l, rest, size, l.maxSegments);
    } else {
      BudgetBound(l, views, size, l.maxSegments);
    }
  }
}
