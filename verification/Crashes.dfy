/** What a crash in the middle of an append leaves in the directory. */
module Crashes {
  import opened Bytes
  import opened Layout
  import opened Model
  import opened Disks
  import opened Directories
  import opened Retention
  import opened Recovery
  import opened Segments
  import opened Mixes
  import F = Frames
  import S = Slots

  /** An admitted batch is being written: to the last segment, or to a new one that may itself be unfinished. */
  ghost predicate Writing(l: Limits, files: Files, views: seq<View>, batch: seq<Payload>, after: Files)
    requires views != []
  {
    var v := Last(views);
    && v.Next() < U64
    && if Rotates(l, views, BatchSize(batch)) then
         || Grows(files[v.Next() := []], v.Next(), 0, S.NewHeader(v.Next()), after)
         || (&& Framable(batch)
             && Grows(files[v.Next() := S.NewHeader(v.Next())], v.Next(), S.SEGMENT_HEADER, EncodeAll(0, batch), after))
       else
         Framable(batch) && Grows(files, v.base, v.Size(), EncodeAll(|v.rows|, batch), after)
  }

  ghost predicate AllWriting(l: Limits, files: Files, views: seq<View>, batch: seq<Payload>,
                             past: seq<Files>, history: seq<Files>)
    requires views != []
  {
    && |past| <= |history| && history[..|past|] == past
    && forall j | |past| <= j < |history| :: Writing(l, files, views, batch, history[j])
  }

  /** The `k` oldest segments had to go, and when that is enough, the batch may be under way. */
  ghost predicate AppendStep(l: Limits, files: Files, start: seq<View>, batch: seq<Payload>, k: nat, after: Files)
  {
    && Needed(l, start, BatchSize(batch), k)
    && var rest := files - Names(start[..k]);
    || after == rest
    || (&& !NeedsReap(l, start[k..], BatchSize(batch)) && !l.TooLarge(BatchSize(batch))
        && Writing(l, rest, start[k..], batch, after))
  }

  ghost predicate AppendState(l: Limits, files: Files, start: seq<View>, batch: seq<Payload>, after: Files)
  {
    exists k: nat :: AppendStep(l, files, start, batch, k, after)
  }

  ghost predicate AllAppendSteps(l: Limits, files: Files, start: seq<View>, batch: seq<Payload>,
                                 past: seq<Files>, history: seq<Files>)
  {
    && |past| <= |history| && history[..|past|] == past
    && forall j | |past| <= j < |history| :: AppendState(l, files, start, batch, history[j])
  }

  lemma {:induction false} NoStepYet(l: Limits, files: Files, start: seq<View>, batch: seq<Payload>, history: seq<Files>)
    ensures AllAppendSteps(l, files, start, batch, history, history)
  {
  }

  lemma {:induction false} ReapingSteps(l: Limits, files: Files, start: seq<View>, batch: seq<Payload>,
                                        past: seq<Files>, history: seq<Files>)
    requires FilesVanish(files, start, past, history) && Needed(l, start, BatchSize(batch), |history| - |past|)
    ensures AllAppendSteps(l, files, start, batch, past, history)
  {
    hide Names, NeedsReap, Writing, BatchSize;
    forall j | |past| <= j < |history|
      ensures AppendState(l, files, start, batch, history[j])
    {
      assert AppendStep(l, files, start, batch, j - |past| + 1, history[j]);
    }
  }

  lemma {:induction false} WritingSteps(l: Limits, files: Files, start: seq<View>, batch: seq<Payload>, k: nat,
                                        past: seq<Files>, mid: seq<Files>, history: seq<Files>)
    requires Needed(l, start, BatchSize(batch), k)
    requires !NeedsReap(l, start[k..], BatchSize(batch)) && !l.TooLarge(BatchSize(batch))
    requires AllAppendSteps(l, files, start, batch, past, mid)
    requires AllWriting(l, files - Names(start[..k]), start[k..], batch, mid, history)
    ensures AllAppendSteps(l, files, start, batch, past, history)
  {
    hide Names, NeedsReap, Writing, BatchSize;
    forall j | |past| <= j < |history|
      ensures AppendState(l, files, start, batch, history[j])
    {
      if j < |mid| {
        assert history[j] == history[..|mid|][j];
      } else {
        assert AppendStep(l, files, start, batch, k, history[j]);
      }
    }
    assert history[..|past|] == history[..|mid|][..|past|];
  }

  /** First a new segment is begun, then the batch is written to it. */
  lemma {:induction false} RotatedWriting(l: Limits, files: Files, views: seq<View>, batch: seq<Payload>,
                                          past: seq<Files>, mid: seq<Files>, history: seq<Files>)
    requires views != [] && Rotates(l, views, BatchSize(batch)) && Last(views).Next() < U64
    requires var next := Last(views).Next();
             && AllGrow(files[next := []], next, 0, S.NewHeader(next), past, mid)
             && AllGrow(files[next := S.NewHeader(next)], next, S.SEGMENT_HEADER, EncodeAll(0, batch), mid, history)
    requires !Framable(batch) ==> history == mid
    ensures AllWriting(l, files, views, batch, past, history)
  {
    hide Grows, BatchSize, EncodeAll, S.NewHeader, Rotates, Framable;
    forall j | |past| <= j < |history|
      ensures Writing(l, files, views, batch, history[j])
    {
      if j < |mid| {
        assert history[j] == history[..|mid|][j];
      }
    }
    assert history[..|past|] == history[..|mid|][..|past|];
  }

  lemma {:induction false} RotatedBegun(l: Limits, files: Files, views: seq<View>, batch: seq<Payload>,
                                        past: seq<Files>, history: seq<Files>)
    requires views != [] && Rotates(l, views, BatchSize(batch)) && Last(views).Next() < U64
    requires var next := Last(views).Next(); AllGrow(files[next := []], next, 0, S.NewHeader(next), past, history)
    ensures AllWriting(l, files, views, batch, past, history)
  {
    hide Grows, BatchSize, EncodeAll, S.NewHeader, Rotates;
  }

  lemma {:induction false} TailWriting(l: Limits, files: Files, views: seq<View>, batch: seq<Payload>,
                                       past: seq<Files>, history: seq<Files>)
    requires views != [] && !Rotates(l, views, BatchSize(batch)) && Last(views).Next() < U64
    requires var v := Last(views); AllGrow(files, v.base, v.Size(), EncodeAll(|v.rows|, batch), past, history)
    requires !Framable(batch) ==> history == past
    ensures AllWriting(l, files, views, batch, past, history)
  {
    hide Grows, BatchSize, EncodeAll, Rotates, Framable;
  }

  // What such a directory can be loaded as

  /** The limits that loading enforces. */
  ghost predicate InLimits(l: Limits, views: seq<View>)
  {
    && (l.maxSegments > 0 ==> |views| <= l.maxSegments)
    && (l.maxDiskSize > 0 ==> Total(views) <= l.maxDiskSize)
  }

  /** Something smaller than a batch that fits, fits. */
  lemma {:induction false} SmallerFits(l: Limits, views: seq<View>, batch: seq<Payload>, part: seq<Payload>)
    requires views != [] && Contiguous(views) && Within(l, views) && Within(l, Grown(views, batch))
    requires BatchSize(part) <= BatchSize(batch)
    ensures Within(l, Grown(views, part))
  {
    hide Contiguous, Total, Flatten, BatchSize, Offset;
    AbsGrown(views, batch);
    OffsetAppend(Last(views).rows, batch);
    GrownLength(views, batch);
    assert Last(Grown(views, batch)).Size() == Last(views).Size() + BatchSize(batch);
    WithinGrown(l, views, part);
  }

  lemma {:induction false} BatchPart(batch: seq<Payload>, k: nat)
    requires k <= |batch|
    ensures BatchSize(batch[..k]) <= BatchSize(batch)
  {
    if k < |batch| {
      BatchPart(batch[..|batch| - 1], k);
      assert batch[..|batch| - 1][..k] == batch[..k];
    } else {
      assert batch[..k] == batch;
    }
  }

  /** The old records without those of the `k` oldest segments, and the first `n` records of the batch. */
  ghost predicate Keeps(start: seq<View>, k: nat, batch: seq<Payload>, n: nat, after: Log)
    requires start != [] && Contiguous(start) && k < |start|
  {
    && 0 <= Lost(start, k) <= |Abs(start).rows| && n <= |batch|
    && after == Abs(start).Drop(Lost(start, k)).Add(batch[..n])
  }

  /** Nothing is lost but segments that stood in the way of the batch, and the end of the batch. */
  ghost predicate Salvages(l: Limits, start: seq<View>, batch: seq<Payload>, after: Log)
    requires start != [] && Contiguous(start)
  {
    exists k: nat, n: nat | Needed(l, start, BatchSize(batch), k) :: Keeps(start, k, batch, n, after)
  }

  /** Wherever reaping stopped, the batch met a header left behind the last frame, and its mix with it is corrupt. */
  ghost predicate AppendSpoils(l: Limits, files: Files, start: seq<View>, batch: seq<Payload>, after: Files)
    requires start != []
  {
    exists k: nat | Needed(l, start, BatchSize(batch), k) :: Spoils(files - Names(start[..k]), Last(start), batch, after)
  }

  /** The mix passes for an empty record that nobody appended. */
  ghost predicate AppendHaunts(l: Limits, files: Files, start: seq<View>, batch: seq<Payload>, after: Files, log: Log)
    requires start != [] && Contiguous(start)
  {
    exists k: nat | Needed(l, start, BatchSize(batch), k) ::
      Haunts(files - Names(start[..k]), Last(start), batch, after) && Keeps(start, k, [[]], 1, log)
  }

  ghost predicate Salvaged(l: Limits, files: Files, start: seq<View>, batch: seq<Payload>, after: Files, w: seq<View>)
    requires start != [] && Contiguous(start)
  {
    && Loadable(after, w) && Within(l, w) && Modest(l, start, batch, w)
    && (Salvages(l, start, batch, Abs(w)) || AppendHaunts(l, files, start, batch, after, Abs(w)))
  }

  /** No segment of `w` takes more room than the batch behind one of `start`. */
  ghost predicate Modest(l: Limits, start: seq<View>, batch: seq<Payload>, w: seq<View>)
  {
    forall rows: nat, bytes: nat | Spacious(l, start, |batch| + rows, BatchSize(batch) + bytes) ::
      Spacious(l, w, rows, bytes)
  }

  lemma {:induction false} ModestDrop(l: Limits, start: seq<View>, k: nat, batch: seq<Payload>, w: seq<View>)
    requires k <= |start| && (w == start[k..] || Modest(l, start[k..], batch, w))
    ensures Modest(l, start, batch, w)
  {
    hide Spacious, BatchSize;
    forall rows: nat, bytes: nat | Spacious(l, start, |batch| + rows, BatchSize(batch) + bytes)
      ensures Spacious(l, w, rows, bytes)
    {
      SpaciousLess(l, start, k, rows, bytes, |batch|, BatchSize(batch));
      SpaciousLess(l, start, k, |batch| + rows, BatchSize(batch) + bytes, 0, 0);
    }
  }

  lemma {:induction false} ModestRotated(l: Limits, start: seq<View>, base: nat, batch: seq<Payload>, w: seq<View>)
    requires start != []
    requires var more := start + [View(base, [], 0)]; w == more || Modest(l, more, batch, w)
    ensures Modest(l, start, batch, w)
  {
    hide Spacious, BatchSize;
    var more := start + [View(base, [], 0)];
    forall rows: nat, bytes: nat | Spacious(l, start, |batch| + rows, BatchSize(batch) + bytes)
      ensures Spacious(l, w, rows, bytes)
    {
      var r, b := |batch| + rows, BatchSize(batch) + bytes;
      SpaciousEmpty(l, start, r, b, base);
      SpaciousAdd(l, start, View(base, [], 0), r, b);
      SpaciousLess(l, more, 0, rows, bytes, |batch|, BatchSize(batch));
    }
  }

  lemma {:induction false} ModestGrown(l: Limits, start: seq<View>, batch: seq<Payload>, part: seq<Payload>)
    requires start != [] && |part| <= |batch| && BatchSize(part) <= BatchSize(batch)
    ensures Modest(l, start, batch, Grown(start, part))
  {
    hide Spacious, BatchSize, Grown;
    forall rows: nat, bytes: nat | Spacious(l, start, |batch| + rows, BatchSize(batch) + bytes)
      ensures Spacious(l, Grown(start, part), rows, bytes)
    {
      var more, size := |batch| - |part|, BatchSize(batch) - BatchSize(part);
      SpaciousLess(l, start, 0, |part| + rows, BatchSize(part) + bytes, more, size);
      SpaciousGrown(l, start, part, rows, bytes);
    }
  }

  /** Some file is shorter than the header of a segment. */
  ghost predicate Short(files: Files)
  {
    exists n | n in files :: |files[n]| < S.SEGMENT_HEADER
  }

  lemma {:induction false} GrownFits(v: View, batch: seq<Payload>)
    requires v.Fits() && Takes(v, batch) && Framable(batch)
    ensures v.(rows := v.rows + batch).Fits()
  {
    hide Offset, BatchSize;
    OffsetAppend(v.rows, batch);
  }

  /** A write that reaches behind what was there, or a cut, leaves nothing of it. */
  lemma {:induction false} CutStates(file: seq<byte>, v: View, batch: seq<Payload>, m: nat)
    requires v.Size() <= |file| <= v.Size() + F.FRAME_HEADER && m <= |EncodeAll(|v.rows|, batch)|
    ensures m >= F.FRAME_HEADER || |file| == v.Size() ==>
              Overwrite(file, v.Size(), EncodeAll(|v.rows|, batch)[..m]) == CutAppend(file, v, batch, m)
    ensures file[..v.Size()] == CutAppend(file, v, batch, 0)
    ensures Overwrite(file, v.Size(), EncodeAll(|v.rows|, batch)[..0]) == file
  {
    hide EncodeAll, Offset;
  }

  /** A batch cut behind its first `m` bytes, with nothing of the old end left. */
  lemma {:induction false} CutLoads(l: Limits, files: Files, views: seq<View>, batch: seq<Payload>, m: nat)
      returns (n: nat)
    requires views != [] && Contiguous(views) && Within(l, views) && Within(l, Grown(views, batch))
    requires Takes(Last(views), batch) && Framable(batch)
    requires var v := Last(views);
             v.base in files && v.Size() <= |files[v.base]| && m <= |EncodeAll(|v.rows|, batch)|
    requires Tidy(files, views)
    ensures var v := Last(views);
            && n <= |batch| && Within(l, Grown(views, batch[..n])) && Modest(l, views, batch, Grown(views, batch[..n]))
            && Loadable(files[v.base := CutAppend(files[v.base], v, batch, m)], Grown(views, batch[..n]))
  {
    hide Contiguous, Total, Offset, BatchSize, EncodeAll, Within, View.Fits, Takes, Names, Ascending, WholeFrames, CutAppend;
    hide Modest;
    assert Last(views).Fits() by { LastFits(files, views); }
    GrownFits(Last(views), batch);
    CutAppendLoadable(files, views, batch, m);
    n := WholeFrames(batch, m);
    BatchPart(batch, n);
    SmallerFits(l, views, batch, batch[..n]);
    ModestGrown(l, views, batch, batch[..n]);
  }

  /** A batch on its way to the last file. */
  lemma {:induction false} TailLoads(l: Limits, files: Files, views: seq<View>, batch: seq<Payload>, after: Files)
      returns (w: seq<View>, n: nat)
    requires views != [] && Contiguous(views) && Within(l, views) && Within(l, Grown(views, batch))
    requires Takes(Last(views), batch) && Framable(batch)
    requires var v := Last(views); Grows(files, v.base, v.Size(), EncodeAll(|v.rows|, batch), after)
    requires Tidy(files, views)
    ensures n <= |batch|
    ensures || Spoils(files, Last(views), batch, after)
            || (&& Loadable(after, w) && Within(l, w) && Modest(l, views, batch, w) && w != [] && Contiguous(w)
                && (|| Abs(w) == Abs(views).Add(batch[..n])
                    || (Haunts(files, Last(views), batch, after) && Abs(w) == Abs(views).Add([[]]))))
  {
    hide Contiguous, Total, Offset, BatchSize, EncodeAll, Within, View.Fits, Names, Ascending, CutAppend, Loadable, Grown;
    hide Tidy, Flatten, Overwrite, Modest;
    assert Modest(l, views, batch, views) by { ModestDrop(l, views, 0, batch, views); }
    var v := Last(views);
    var file, data := files[v.base], EncodeAll(|v.rows|, batch);
    TailIsShort(files, views);
    EmptyEncoding(|v.rows|, batch);
    var m: nat := 0;
    if after != files[v.base := file[..v.Size()]] {
      m :| m <= |data| && after == files[v.base := Overwrite(file, v.Size(), data[..m])];
    }
    CutStates(file, v, batch, m);
    if after == files {
      w, n := views, 0;
      TidyIsLoadable(files, views);
      assert Abs(views).rows + batch[..0] == Abs(views).rows;
    } else if after == files[v.base := CutAppend(file, v, batch, m)] {
      n := CutLoads(l, files, views, batch, m);
      w := Grown(views, batch[..n]);
      AbsGrown(views, batch[..n]);
      GrownLength(views, batch[..n]);
    } else {
      w, n := MixLoads(l, files, views, batch, m, after);
    }
  }

  lemma {:induction false} TailIsShort(files: Files, views: seq<View>)
    requires views != [] && Tidy(files, views)
    ensures Last(views).base in files
    ensures |files[Last(views).base]| in {Last(views).Size(), Last(views).Size() + F.FRAME_HEADER}
  {
    hide FileOk, Offset, End, F.Index, F.PayloadLength;
    var v := Last(views);
    ShutAt(files, views, |views| - 1);
    SizeInFile(files[v.base], v);
    if v.Size() < |files[v.base]| { Dangling(files[v.base], v.rows); }
  }

  lemma {:induction false} EmptyEncoding(index: nat, batch: seq<Payload>)
    ensures EncodeAll(index, batch) != [] ==> batch != []
  {
  }

  /** A batch cut inside the header that was there before. */
  lemma {:induction false} MixLoads(l: Limits, files: Files, views: seq<View>, batch: seq<Payload>, m: nat, after: Files)
      returns (w: seq<View>, n: nat)
    requires views != [] && Contiguous(views) && Within(l, views) && Within(l, Grown(views, batch))
    requires Takes(Last(views), batch) && Framable(batch)
    requires Mixed(files, Last(views), batch, m, after) && Tidy(files, views)
    ensures n <= |batch|
    ensures || Spoils(files, Last(views), batch, after)
            || (&& Loadable(after, w) && Within(l, w) && Modest(l, views, batch, w) && w != [] && Contiguous(w)
                && (|| Abs(w) == Abs(views).Add(batch[..n])
                    || (Haunts(files, Last(views), batch, after) && Abs(w) == Abs(views).Add([[]]))))
  {
    hide Contiguous, Total, Offset, EncodeAll, Within, View.Fits, Names, Ascending, Loadable, Grown, Tidy, Flatten, Overwrite;
    hide F.PayloadLength, F.Validate, F.NewHeader, BatchSize, Modest;
    assert Modest(l, views, batch, views) by { ModestDrop(l, views, 0, batch, views); }
    var v, x := Last(views), MixedHeader(files, Last(views), batch, m);
    assert v.Fits() by { LastFits(files, views); }
    OneMoreFits(v, batch);
    MixedLoads(files, views, batch, m, after);
    if F.PayloadLength(x) > 0 {
      w, n := views, 0;
      TidyIsLoadable(after, views);
      assert Abs(views).rows + batch[..0] == Abs(views).rows;
    } else if F.Validate(x, []).None? {
      w := Grown(views, [[]]);
      TidyIsLoadable(after, w);
      AbsGrown(views, [[]]);
      GrownLength(views, [[]]);
      SmallestBatch(batch);
      SmallerFits(l, views, batch, [[]]);
      ModestGrown(l, views, batch, [[]]);
      n := 0;
      if x == F.NewHeader(|v.rows|, batch[0]) {
        EmptyFrame(|v.rows|, batch[0]);
        n := 1;
        assert batch[..1] == [[]];
      } else {
        assert HauntsAt(files, v, batch, m, after);
      }
    } else {
      w, n := [], 0;
      assert SpoilsAt(files, v, batch, m, after);
    }
  }

  lemma {:induction false} SmallestBatch(batch: seq<Payload>)
    requires batch != []
    ensures BatchSize([[]]) <= BatchSize(batch)
  {
    BatchTakesRoom(batch);
    var one: seq<Payload> := [[]];
    assert one[..0] == [];
  }

  lemma {:induction false} OneMoreFits(v: View, batch: seq<Payload>)
    requires v.Fits() && Takes(v, batch) && batch != []
    ensures v.(rows := v.rows + [[]]).Fits()
  {
    hide Offset, BatchSize;
    SmallestBatch(batch);
    OffsetAppend(v.rows, [[]]);
  }

  lemma {:induction false} LastFits(files: Files, views: seq<View>)
    requires Tidy(files, views)
    ensures Last(views).Fits()
  {
    hide HeaderOk, Holds, Quiet;
    ShutAt(files, views, |views| - 1);
  }

  /** A new segment on its way. */
  lemma {:induction false} BegunLoads(files: Files, views: seq<View>)
    requires Tidy(files, views) && Last(views).base < Last(views).Next() < U64
    ensures var next := Last(views).Next();
            && next !in files
            && Tidy(files[next := S.NewHeader(next)], views + [View(next, [], 0)])
  {
    hide FileOk, Quiet, S.NewHeader, Names;
    var v := View(Last(views).Next(), [], 0);
    NextIsNew(files, views);
    FreshFile(v.base);
    AbsRotated(views, v);
    TidyAdd(files, views, S.NewHeader(v.base), v);
  }

  /** A number behind the last record names no file of a tidy directory. */
  lemma {:induction false} NextIsNew(files: Files, views: seq<View>)
    requires Tidy(files, views) && Last(views).base < Last(views).Next()
    ensures Last(views).Next() !in files
  {
    hide Shut, Contiguous;
  }

  lemma {:induction false} HeaderLoads(files: Files, views: seq<View>, after: Files)
    requires views != [] && Tidy(files, views) && Last(views).base < Last(views).Next() < U64
    requires var next := Last(views).Next(); Grows(files[next := []], next, 0, S.NewHeader(next), after)
    ensures Short(after) || Tidy(after, views + [View(Last(views).Next(), [], 0)])
  {
    hide Tidy, S.NewHeader;
    var next := Last(views).Next();
    var header := S.NewHeader(next);
    BegunLoads(files, views);
    assert next in after && |after[next]| <= S.SEGMENT_HEADER;
    if |after[next]| == S.SEGMENT_HEADER {
      assert after[next] == header && after == files[next := header];
    }
  }

  /** A file that ends behind its last frame has no header to mix with. */
  lemma {:induction false} NothingToMix(files: Files, v: View, batch: seq<Payload>, after: Files)
    requires v.base in files && |files[v.base]| == v.Size()
    ensures !Spoils(files, v, batch, after) && !Haunts(files, v, batch, after)
  {
    hide Offset, EncodeAll, Overwrite;
  }

  /** Wherever the writing of an admitted batch stops. */
  lemma {:induction false} WritingLoads(l: Limits, files: Files, views: seq<View>, batch: seq<Payload>, after: Files)
      returns (w: seq<View>, n: nat)
    requires views != [] && Contiguous(views) && Within(l, views)
    requires RoomFor(l, views, batch)
    requires !NeedsReap(l, views, BatchSize(batch)) && !l.TooLarge(BatchSize(batch))
    requires Tidy(files, views) && Writing(l, files, views, batch, after)
    ensures n <= |batch|
    ensures || Short(after) || Spoils(files, Last(views), batch, after)
            || (&& Loadable(after, w) && Within(l, w) && Modest(l, views, batch, w) && w != [] && Contiguous(w)
                && (|| Abs(w) == Abs(views).Add(batch[..n])
                    || (Haunts(files, Last(views), batch, after) && Abs(w) == Abs(views).Add([[]]))))
  {
    hide Contiguous, Total, Offset, BatchSize, EncodeAll, Within, Takes, NeedsReap, Tidy, RoomFor, Short, Grows;
    hide Limits.TooLarge, Rotates, Grown, Loadable, S.NewHeader, Flatten, Spoils, Haunts, Modest;
    var next := Last(views).Next();
    var more, begun := views + [View(next, [], 0)], files[next := S.NewHeader(next)];
    TargetTakes(l, views, batch);
    WithinAdmitted(l, views, batch);
    if !Rotates(l, views, BatchSize(batch)) {
      w, n := TailLoads(l, files, views, batch, after);
      return;
    }
    RotatesNonempty(l, views, BatchSize(batch));
    WithinRotated(l, views, BatchSize(batch));
    AbsRotated(views, View(next, [], 0));
    BegunLoads(files, views);
    if Grows(files[next := []], next, 0, S.NewHeader(next), after) {
      HeaderLoads(files, views, after);
      w, n := more, 0;
      ModestRotated(l, views, next, batch, w);
      if Tidy(after, more) { TidyIsLoadable(after, more); }
      assert Abs(views).rows + batch[..0] == Abs(views).rows;
    } else {
      OffsetAtZero([]);
      NothingToMix(begun, Last(more), batch, after);
      w, n := TailLoads(l, begun, more, batch, after);
      ModestRotated(l, views, next, batch, w);
    }
  }

  lemma {:induction false} WithinIsInLimits(l: Limits, views: seq<View>)
    requires Within(l, views)
    ensures InLimits(l, views)
  {
    hide Total, Offset;
  }

  /**
    Wherever an append stops, the directory holds the old records without those of segments that stood in
    the way, and the first records of the batch. There are three exceptions: a file that is shorter than the
    header of a segment, and a frame header mixed from an old one and a new one, which is corrupt, or passes
    for an empty record.
  */
  lemma {:induction false} AppendStateLoads(l: Limits, files: Files, start: seq<View>, batch: seq<Payload>, after: Files)
      returns (w: seq<View>)
    requires start != [] && Contiguous(start) && Within(l, start)
    requires RoomFor(l, start, batch)
    requires Tidy(files, start) && AppendState(l, files, start, batch, after)
    ensures Short(after) || AppendSpoils(l, files, start, batch, after) || Salvaged(l, files, start, batch, after, w)
  {
    hide Contiguous, Total, Offset, BatchSize, Within, NeedsReap, Tidy, RoomFor, Short, Writing, Loadable, Flatten;
    hide Names, Limits.TooLarge, Needed, Spoils, Haunts, Modest;
    var k: nat :| AppendStep(l, files, start, batch, k, after);
    assert k < |start| by { NeededIndex(l, start, BatchSize(batch), k); }
    var rest, n := files - Names(start[..k]), 0;
    TidyDrop(files, start, k);
    AbsDrop(start, k);
    WithinDrop(l, start, k);
    if after == rest {
      w := start[k..];
      ModestDrop(l, start, k, batch, w);
      TidyIsLoadable(after, w);
      assert Abs(w).rows + batch[..0] == Abs(w).rows;
    } else {
      SameTail(l, start, k, batch);
      w, n := WritingLoads(l, rest, start[k..], batch, after);
      if Modest(l, start[k..], batch, w) { ModestDrop(l, start, k, batch, w); }
    }
    assert || Short(after) || Spoils(rest, Last(start), batch, after)
           || Keeps(start, k, batch, n, Abs(w)) || Keeps(start, k, [[]], 1, Abs(w)) by {
      var one: seq<Payload> := [[]];
      assert one[..1] == one;
    }
  }

  /** A corrupt mix is what loading stumbles over. */
  lemma {:induction false} AppendSpoiled(l: Limits, files: Files, start: seq<View>, batch: seq<Payload>, after: Files)
      returns (w: seq<View>)
    requires start != [] && Contiguous(start) && Tidy(files, start) && AppendSpoils(l, files, start, batch, after)
    requires Within(l, start) && RoomFor(l, start, batch)
    ensures Spoiled(after, w) && |w| <= |start|
  {
    hide Contiguous, Total, Offset, BatchSize, Tidy, Names, NeedsReap, Mixed, View.Fits, RoomFor, Within, MixedHeader;
    var k: nat :| Needed(l, start, BatchSize(batch), k) && Spoils(files - Names(start[..k]), Last(start), batch, after);
    var rest := files - Names(start[..k]);
    var n: nat :| SpoilsAt(rest, Last(start), batch, n, after);
    w := start[k..];
    TidyDrop(files, start, k);
    AbsDrop(start, k);
    assert Last(w) == Last(start);
    assert Last(start).Fits() by { LastFits(files, start); }
    MixedRoom(l, rest, start, batch, n, after);
    MixedLoads(rest, w, batch, n, after);
  }

  lemma {:induction false} MixedRoom(l: Limits, files: Files, start: seq<View>, batch: seq<Payload>, n: nat, after: Files)
    requires start != [] && Within(l, start) && RoomFor(l, start, batch) && Last(start).Fits()
    requires Mixed(files, Last(start), batch, n, after)
    ensures Last(start).(rows := Last(start).rows + [[]]).Fits()
  {
    hide Offset, BatchSize, EncodeAll, Overwrite, Total;
    SmallestBatch(batch);
    OffsetAppend(Last(start).rows, [[]]);
    OneByOne();
  }

  lemma {:induction false} OneByOne()
    ensures BatchSize([[]]) == F.FRAME_HEADER
  {
    var one: seq<Payload> := [[]];
    assert one[..0] == [];
  }

  /** Where a batch goes depends on the last segment only. */
  lemma {:induction false} SameTail(l: Limits, views: seq<View>, k: nat, batch: seq<Payload>)
    requires k < |views|
    ensures Last(views[k..]) == Last(views)
    ensures RoomFor(l, views, batch) ==> RoomFor(l, views[k..], batch)
  {
  }

  // What a crash leaves while a log starts over

  /** The `m` oldest segments are gone, or all are and the first new one is on its way. */
  ghost predicate RestartState(files: Files, start: seq<View>, first: nat, after: Files)
  {
    || (exists m: nat :: Behind(files, start, m, after))
    || (first < U64 && Grows(map[first := []], first, 0, S.NewHeader(first), after))
  }

  ghost predicate Behind(files: Files, start: seq<View>, m: nat, after: Files)
  {
    m <= |start| && after == files - Names(start[..m])
  }

  ghost predicate AllRestartStates(files: Files, start: seq<View>, first: nat, past: seq<Files>, history: seq<Files>)
  {
    && |past| <= |history| && history[..|past|] == past
    && forall j | |past| <= j < |history| :: RestartState(files, start, first, history[j])
  }

  lemma {:induction false} RemovingStates(files: Files, start: seq<View>, first: nat, past: seq<Files>, history: seq<Files>)
    requires FilesVanish(files, start, past, history)
    ensures AllRestartStates(files, start, first, past, history)
  {
    hide Names, Grows;
    forall j | |past| <= j < |history|
      ensures RestartState(files, start, first, history[j])
    {
      assert Behind(files, start, j - |past| + 1, history[j]);
    }
  }

  lemma {:induction false} StartingStates(files: Files, start: seq<View>, first: nat, past: seq<Files>, mid: seq<Files>,
                                          history: seq<Files>)
    requires first < U64 && AllRestartStates(files, start, first, past, mid)
    requires AllGrow(map[first := []], first, 0, S.NewHeader(first), mid, history)
    ensures AllRestartStates(files, start, first, past, history)
  {
    hide Grows, Behind, S.NewHeader;
    forall j | |past| <= j < |history|
      ensures RestartState(files, start, first, history[j])
    {
      if j < |mid| {
        assert history[j] == history[..|mid|][j];
      }
    }
    assert history[..|past|] == history[..|mid|][..|past|];
  }

  /** Wherever that stops: a suffix of the old chain, an empty directory, the new segment, or its header cut short. */
  lemma {:induction false} RestartLoads(l: Limits, files: Files, start: seq<View>, first: nat, after: Files)
      returns (w: seq<View>)
    requires start != [] && Contiguous(start) && Within(l, start) && Roomy(l)
    requires Tidy(files, start) && RestartState(files, start, first, after)
    ensures || Short(after) || after == map[]
            || (&& Tidy(after, w) && Within(l, w) && w != [] && Contiguous(w)
                && (|| w == [View(first, [], 0)]
                    || exists m: nat | m < |start| :: Behind(files, start, m, after) && w == start[m..]))
  {
    hide Contiguous, Tidy, Within, Roomy, Names, S.NewHeader, Short;
    w := [View(first, [], 0)];
    if m: nat :| Behind(files, start, m, after) {
      if m == |start| {
        assert after == map[] by { assert start[..m] == start; AllGone(files, start); }
      } else {
        w := start[m..];
        TidyDrop(files, start, m);
        WithinDrop(l, start, m);
        AbsDrop(start, m);
      }
    } else {
      WithinEmpty(l, first);
      FirstLoads(first, after);
    }
  }

  lemma {:induction false} AllGone(files: Files, views: seq<View>)
    requires Tidy(files, views)
    ensures files - Names(views) == map[]
  {
  }

  lemma {:induction false} FirstLoads(first: nat, after: Files)
    requires first < U64 && Grows(map[first := []], first, 0, S.NewHeader(first), after)
    ensures Contiguous([View(first, [], 0)])
    ensures Short(after) || Tidy(after, [View(first, [], 0)])
  {
    hide S.NewHeader, FileOk, Quiet, Tidy;
    var header := S.NewHeader(first);
    FreshFile(first);
    TidySingle(header, View(first, [], 0));
    assert first in after && |after[first]| <= S.SEGMENT_HEADER;
    if |after[first]| == S.SEGMENT_HEADER {
      assert after[first] == header && after == map[first := header];
    }
  }
}
