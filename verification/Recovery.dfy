/** What a crash leaves in the directory, and why it can be loaded again. */
module Recovery {
  import opened Bytes
  import opened Errors
  import opened Layout
  import opened Model
  import opened Disks
  import opened Directories
  import F = Frames
  import S = Slots

  /** In every new state of the directory one slot of one file is half written at most. */
  ghost predicate SlotChanges(files: Files, v: View, sequence: nat, before: seq<Files>, history: seq<Files>)
    requires v.base <= sequence <= v.Next()
  {
    var offset := Offset(v.rows, sequence - v.base);
    && v.base in files && |files[v.base]| >= S.SEGMENT_HEADER && offset < U64
    && |before| <= |history| && history[..|before|] == before
    && forall j | |before| <= j < |history| ::
         HalfWritten(files, v.base, S.NextSlot(MetaOf(files[v.base]), offset), history[j])
  }

  /** Every new state of the directory lacks the files of some first few of these segments, and no others. */
  ghost predicate FilesVanish(files: Files, gone: seq<View>, before: seq<Files>, history: seq<Files>)
  {
    && |before| <= |history| <= |before| + |gone|
    && history[..|before|] == before
    && forall j | |before| <= j < |history| :: history[j] == files - Names(gone[..j - |before| + 1])
  }

  lemma {:induction false} RemovedSoFar(files: Files, views: seq<View>, k: nat)
    requires k <= |views|
    ensures Names(views[..0]) == {} && Total(views[..0]) == 0
    ensures k < |views| ==>
              && files - Names(views[..k + 1]) == files - Names(views[..k]) - {views[k].base}
              && Total(views[..k + 1]) == Total(views[..k]) + views[k].Size()
  {
    hide Offset;
    if k < |views| {
      var more := views[..k + 1];
      assert more[..k] == views[..k] && more[k..] == [views[k]];
      TotalSplit(more, k);
      TotalOne(views[k]);
      NamesPush(views[..k], views[k]);
      assert more == views[..k] + [views[k]];
    }
  }

  lemma {:induction false} VanishNothing(files: Files, gone: seq<View>, history: seq<Files>)
    ensures FilesVanish(files, gone, history, history) && files - Names(gone[..0]) == files
  {
  }

  /** One more file of the range has vanished. */
  lemma {:induction false} VanishOneMore(files: Files, gone: seq<View>, k: nat, before: seq<Files>, history: seq<Files>)
    requires FilesVanish(files, gone, before, history) && |history| == |before| + k && k < |gone|
    ensures files - Names(gone[..k]) - {gone[k].base} == files - Names(gone[..k + 1])
    ensures FilesVanish(files, gone, before, history + [files - Names(gone[..k + 1])])
  {
    hide Names;
    RemovedSoFar(files, gone, k);
    assert (history + [files - Names(gone[..k + 1])])[..|before|] == history[..|before|];
  }

  lemma {:induction false} OffsetFits(v: View, i: nat)
    requires v.Fits() && i <= |v.rows|
    ensures Offset(v.rows, i) <= MAX_INT64 < U64
  {
    OffsetLowerBound(v.rows, i, |v.rows|);
  }

  /** `after` forgot nothing from `sequence` on. */
  ghost predicate KeepsFrom(before: Log, after: Log, sequence: nat)
  {
    var n := after.head - before.head;
    0 <= n <= |before.rows| && after == before.Drop(n) && (n == 0 || after.head <= sequence)
  }

  /** The directory holds `w`: the newest records of `start`, all from `sequence` on among them, in no more space. */
  ghost predicate Remains(files: Files, w: seq<View>, start: seq<View>, sequence: nat)
    requires start != [] && Contiguous(start)
  {
    && Tidy(files, w) && KeepsFrom(Abs(start), Abs(w), sequence)
    && |w| <= |start| && Total(w) <= Total(start)
    && forall i | 0 <= i < |w| :: w[i].rows == start[|start| - |w| + i].rows
  }

  /** The directory can be loaded, and holds the newest records of `start`, all from `sequence` on among them. */
  ghost predicate Survives(files: Files, start: seq<View>, sequence: nat)
    requires start != [] && Contiguous(start)
  {
    exists w: seq<View> :: Remains(files, w, start, sequence)
  }

  ghost predicate AllSurvive(start: seq<View>, sequence: nat, before: seq<Files>, history: seq<Files>)
    requires start != [] && Contiguous(start)
  {
    && |before| <= |history| && history[..|before|] == before
    && forall j | |before| <= j < |history| :: Survives(history[j], start, sequence)
  }

  lemma {:induction false} DropSurvives(files: Files, start: seq<View>, m: nat, sequence: nat)
    requires Tidy(files, start) && m < |start| && (m == 0 || start[m].First() <= sequence)
    ensures Survives(files - Names(start[..m]), start, sequence)
  {
    hide Names, Shut, Flatten, Ascending, Total;
    TidyDrop(files, start, m);
    AbsDrop(start, m);
    TotalSplit(start, m);
    assert Remains(files - Names(start[..m]), start[m..], start, sequence);
  }

  /** A half-written slot leaves the file standing for the old read start or for the new one. */
  lemma {:induction false} HalfWrittenFile(file: seq<byte>, v: View, start: nat, offset: uint64, torn: S.MetaSlot)
    requires FileOk(file, v) && |v.rows| < U32 && Quiet(file, v.rows) && start <= |v.rows|
    requires offset == Offset(v.rows, start)
    requires S.TornSlot(S.SlotAt(file[..S.SEGMENT_HEADER], S.WritePosition(MetaOf(file))),
                      S.NextSlot(MetaOf(file), offset), torn)
    ensures var g, w := WithSlot(file, torn), v.(start := start);
            Quiet(g, v.rows) && (FileOk(g, v) || FileOk(g, w))
  {
    hide HeaderOk, Holds, Offset, MetaOf, WithSlot, S.NextSlot;
    if torn == S.NextSlot(MetaOf(file), offset) {
      SlotWriteMovesStart(file, v, start, offset);
    } else {
      TornSlotKeepsStart(file, v, offset, torn);
    }
  }

  lemma {:induction false} HalfWrittenTidy(files: Files, views: seq<View>, sequence: nat, offset: uint64, after: Files)
    requires Tidy(files, views) && views[0].First() <= sequence <= views[0].Next()
    requires views[0].base in files && |files[views[0].base]| >= S.SEGMENT_HEADER
    requires offset == Offset(views[0].rows, sequence - views[0].base)
    requires HalfWritten(files, views[0].base, S.NextSlot(MetaOf(files[views[0].base]), offset), after)
    ensures Tidy(after, views) || Tidy(after, Headed(views, 0, sequence))
  {
    hide Offset, Quiet, FileOk, MetaOf, WithSlot, S.NextSlot, Contiguous;
    var v, file := views[0], files[views[0].base];
    assert Shut(files, v);
    var torn: S.MetaSlot :|
      && S.TornSlot(S.SlotAt(file[..S.SEGMENT_HEADER], S.WritePosition(MetaOf(file))), S.NextSlot(MetaOf(file), offset), torn)
      && after == files[v.base := WithSlot(file, torn)];
    HalfWrittenFile(file, v, sequence - v.base, offset, torn);
    AbsHeaded(views, 0, sequence);
    var w := v.(start := sequence - v.base);
    assert Headed(views, 0, sequence) == views[0 := w] && views[0 := v] == views;
    if FileOk(WithSlot(file, torn), v) {
      TidyReplace(files, views, 0, WithSlot(file, torn), v);
    } else {
      TidyReplace(files, views, 0, WithSlot(file, torn), w);
    }
  }

  lemma {:induction false} VanishSurvives(files: Files, start: seq<View>, k: nat, sequence: nat,
                                          before: seq<Files>, history: seq<Files>)
    requires Tidy(files, start) && k < |start| && (k == 0 || start[k].First() <= sequence)
    requires FilesVanish(files, start[..k], before, history)
    ensures AllSurvive(start, sequence, before, history)
  {
    hide Tidy, Survives, Contiguous, Names;
    assert start != [] && Contiguous(start) by { TidyParts(files, start); }
    forall j | |before| <= j < |history|
      ensures Survives(history[j], start, sequence)
    {
      var m := j - |before| + 1;
      assert start[..k][..m] == start[..m];
      FirstsOrdered(start, m, k);
      DropSurvives(files, start, m, sequence);
    }
  }

  lemma {:induction false} TidyParts(files: Files, views: seq<View>)
    requires Tidy(files, views)
    ensures views != [] && Contiguous(views) && Ascending(views)
    ensures views[0].base in files && |files[views[0].base]| >= S.SEGMENT_HEADER
  {
    hide HeaderOk, Holds, Quiet;
    assert Shut(files, views[0]);
  }

  lemma {:induction false} HeadedTotal(views: seq<View>, k: nat, x: nat)
    requires k < |views| && views[k].First() <= x
    ensures Total(Headed(views, k, x)) == Total(views[k..]) && |Headed(views, k, x)| == |views| - k
    ensures forall i | 0 <= i < |views| - k :: Headed(views, k, x)[i].rows == views[k + i].rows
  {
    assert Headed(views, k, x)[1..] == views[k..][1..];
  }

  /** A truncation that stops while the slot of segment `k` is written loses nothing from `sequence` on. */
  lemma {:induction false} SlotSurvives(files: Files, start: seq<View>, k: nat, x: nat, sequence: nat, after: Files)
    requires Tidy(files, start) && k < |start| && start[k].First() <= x <= start[k].Next() && x <= sequence
    requires var rest := files - Names(start[..k]); var offset := Offset(start[k].rows, x - start[k].base);
             && start[k].base in rest && |rest[start[k].base]| >= S.SEGMENT_HEADER && offset < U64
             && HalfWritten(rest, start[k].base, S.NextSlot(MetaOf(rest[start[k].base]), offset), after)
    ensures Survives(after, start, sequence)
  {
    hide Names, Flatten, Contiguous, Tidy, HalfWritten, S.NextSlot, MetaOf, Offset, Total, Headed, View.Fits, Remains;
    var rest, views := files - Names(start[..k]), start[k..];
    TidyParts(files, start);
    TidyDrop(files, start, k);
    HalfWrittenTidy(rest, views, x, Offset(start[k].rows, x - start[k].base), after);
    if Tidy(after, views) {
      DropRemains(after, start, k, sequence);
    } else {
      HeadedRemains(after, start, k, x, sequence);
    }
  }

  lemma {:induction false} DropRemains(after: Files, start: seq<View>, k: nat, sequence: nat)
    requires Contiguous(start) && k < |start| && Tidy(after, start[k..]) && start[k].First() <= sequence
    ensures Remains(after, start[k..], start, sequence)
  {
    hide Tidy, Flatten, Total;
    AbsDrop(start, k);
    TotalSplit(start, k);
  }

  lemma {:induction false} HeadedRemains(after: Files, start: seq<View>, k: nat, x: nat, sequence: nat)
    requires Contiguous(start) && k < |start| && start[k].First() <= x <= start[k].Next() && x <= sequence
    requires Tidy(after, Headed(start[k..], 0, x))
    ensures Remains(after, Headed(start, k, x), start, sequence)
  {
    hide Tidy, Flatten, Total, Contiguous, Headed, Log.Before;
    AbsHeaded(start, k, x);
    HeadedSuffix(start, k, x);
    HeadedTotal(start, k, x);
    TotalSplit(start, k);
    FlattenLength(start);
    FirstsOrdered(start, 0, k);
    FirstsOrdered(start, k, |start| - 1);
    BeforeIsDrop(Abs(start), x);
  }

  /** Whatever a truncation of the front has done to the directory when it stops, the rest survives. */
  lemma {:induction false} TruncationSurvives(files: Files, start: seq<View>, k: nat, x: nat, sequence: nat,
                                              before: seq<Files>, mid: seq<Files>, history: seq<Files>)
    requires Tidy(files, start) && k < |start| && start[k].First() <= x <= start[k].Next() && x <= sequence
    requires FilesVanish(files, start[..k], before, mid)
    requires SlotChanges(files - Names(start[..k]), start[k], x, mid, history)
    ensures AllSurvive(start, sequence, before, history)
  {
    hide Tidy, Survives, Contiguous, Names, HalfWritten, Offset, FilesVanish;
    TidyParts(files, start);
    VanishSurvives(files, start, k, sequence, before, mid);
    forall j | |before| <= j < |history|
      ensures Survives(history[j], start, sequence)
    {
      if j < |mid| {
        assert history[j] == history[..|mid|][j];
      } else {
        SlotSurvives(files, start, k, x, sequence, history[j]);
      }
    }
    assert history[..|before|] == history[..|mid|][..|before|];
  }

  lemma {:induction false} KeepsMore(files: Files, start: seq<View>, x: nat, sequence: nat)
    requires start != [] && Contiguous(start) && Survives(files, start, x) && x <= sequence
    ensures Survives(files, start, sequence)
  {
    hide Shut, Names, Flatten, Ascending, Contiguous, Total;
    var w: seq<View> :| Remains(files, w, start, x);
    assert Remains(files, w, start, sequence);
  }

  lemma {:induction false} SurviveMore(start: seq<View>, x: nat, sequence: nat, before: seq<Files>, history: seq<Files>)
    requires start != [] && Contiguous(start) && AllSurvive(start, x, before, history) && x <= sequence
    ensures AllSurvive(start, sequence, before, history)
  {
    hide Survives, Contiguous;
    forall j | |before| <= j < |history|
      ensures Survives(history[j], start, sequence)
    {
      KeepsMore(history[j], start, x, sequence);
    }
  }

  // A crash in the middle of a truncation of the end

  /** In every new state of the directory one file is cut behind record `sequence`. */
  ghost predicate TailCuts(files: Files, v: View, sequence: nat, before: seq<Files>, history: seq<Files>)
    requires v.base <= sequence < v.Next()
  {
    && v.base in files
    && |before| <= |history| && history[..|before|] == before
    && forall j | |before| <= j < |history| ::
         history[j] == files[v.base := Resize(files[v.base], Offset(v.rows, sequence + 1 - v.base))]
  }

  /** The segments behind `k` and before `m` are gone. */
  ghost predicate Without(files: Files, start: seq<View>, k: nat, m: nat, after: Files)
  {
    k < m <= |start| && after == files - Names(start[k + 1..m])
  }

  /** Either some segments right behind `k` are gone, or all of them are and segment `k` is cut. */
  ghost predicate CutState(files: Files, start: seq<View>, k: nat, sequence: nat, after: Files)
    requires k < |start| && start[k].base <= sequence < start[k].Next()
  {
    || (exists m :: Without(files, start, k, m, after))
    || Tidy(after, Tailed(start, k, sequence))
  }

  ghost predicate AllCutStates(files: Files, start: seq<View>, k: nat, sequence: nat, before: seq<Files>, history: seq<Files>)
    requires k < |start| && start[k].base <= sequence < start[k].Next()
  {
    && |before| <= |history| && history[..|before|] == before
    && forall j | |before| <= j < |history| :: CutState(files, start, k, sequence, history[j])
  }

  lemma {:induction false} RemovalStates(files: Files, start: seq<View>, k: nat, sequence: nat,
                                         before: seq<Files>, history: seq<Files>)
    requires k < |start| && start[k].base <= sequence < start[k].Next()
    requires FilesVanish(files, start[k + 1..], before, history)
    ensures AllCutStates(files, start, k, sequence, before, history)
  {
    hide Tidy, Names;
    forall j | |before| <= j < |history|
      ensures CutState(files, start, k, sequence, history[j])
    {
      var m := k + 1 + (j - |before| + 1);
      assert start[k + 1..][..j - |before| + 1] == start[k + 1..m];
      assert Without(files, start, k, m, history[j]);
    }
  }

  lemma {:induction false} ChoppedTidy(files: Files, views: seq<View>, v: View, n: nat)
    requires views != [] && v == views[|views| - 1] && v.start < n <= |v.rows| && v.base in files
    requires Tidy(files, views)
    ensures Tidy(files[v.base := Resize(files[v.base], Offset(v.rows, n))],
                 views[|views| - 1 := v.(rows := v.rows[..n])])
  {
    hide FileOk, Quiet, Offset, Contiguous, View.Fits, Names, Ascending;
    var k, w := |views| - 1, v.(rows := v.rows[..n]);
    assert FileOk(files[v.base], v) && |v.rows| < U32 by { ShutAt(files, views, k); }
    assert Contiguous(views) by { TidyParts(files, views); }
    hide Tidy;
    FileChop(files[v.base], v, n);
    TailedContiguous(views, k, v.base + n - 1);
    assert Tailed(views, k, v.base + n - 1) == views[k := w];
    TidyReplace(files, views, k, files[v.base][..Offset(v.rows, n)], w);
  }

  /** Whatever a truncation of the end has done to the directory when it stops. */
  lemma {:induction false} CutBackStates(files: Files, start: seq<View>, k: nat, sequence: nat,
                                         before: seq<Files>, mid: seq<Files>, history: seq<Files>)
    requires Tidy(files, start) && k < |start| && start[k].First() <= sequence < start[k].Next()
    requires FilesVanish(files, start[k + 1..], before, mid)
    requires TailCuts(files - Names(start[k + 1..]), start[k], sequence, mid, history)
    ensures AllCutStates(files, start, k, sequence, before, history)
  {
    hide Tidy, Names, Offset, FilesVanish, CutState, View.Fits, Resize, Tailed;
    RemovalStates(files, start, k, sequence, before, mid);
    TidyTake(files, start, k + 1);
    ChoppedTidy(files - Names(start[k + 1..]), start[..k + 1], start[k], sequence + 1 - start[k].base);
    TailedIsUpdate(start, k, sequence);
    forall j | |before| <= j < |history|
      ensures CutState(files, start, k, sequence, history[j])
    {
      if j < |mid| {
        assert history[j] == history[..|mid|][j];
      } else {
        CutIsState(files, start, k, sequence, history[j]);
      }
    }
    assert history[..|before|] == history[..|mid|][..|before|];
  }

  lemma {:induction false} TailedIsUpdate(views: seq<View>, k: nat, sequence: nat)
    requires k < |views| && views[k].base <= sequence < views[k].Next()
    ensures Tailed(views, k, sequence)
         == views[..k + 1][k := views[k].(rows := views[k].rows[..sequence + 1 - views[k].base])]
  {
  }

  lemma {:induction false} CutIsState(files: Files, start: seq<View>, k: nat, sequence: nat, after: Files)
    requires k < |start| && start[k].base <= sequence < start[k].Next() && Tidy(after, Tailed(start, k, sequence))
    ensures CutState(files, start, k, sequence, after)
  {
  }

  /** What is left when the segments behind `k` and before `m` are gone. */
  function Gapped(views: seq<View>, k: nat, m: nat): seq<View>
    requires k < m <= |views|
  {
    views[..k + 1] + views[m..]
  }

  lemma {:induction false} GapAt(views: seq<View>, k: nat, m: nat, i: nat)
    requires k < m <= |views| && i < |Gapped(views, k, m)|
    ensures Gapped(views, k, m)[i] == views[if i <= k then i else i - (k + 1) + m]
  {
  }

  lemma {:induction false} GapAscending(views: seq<View>, k: nat, m: nat)
    requires Ascending(views) && k < m <= |views|
    ensures Ascending(Gapped(views, k, m))
  {
    forall i, j | 0 <= i < j < |Gapped(views, k, m)|
      ensures Gapped(views, k, m)[i].base < Gapped(views, k, m)[j].base
    {
      GapAt(views, k, m, i);
      GapAt(views, k, m, j);
    }
  }

  lemma {:induction false} GapNames(views: seq<View>, k: nat, m: nat)
    requires Ascending(views) && k < m <= |views|
    ensures Names(views) - Names(views[k + 1..m]) == Names(Gapped(views, k, m))
  {
    hide Names;
    NamesSplit(views, k + 1);
    NamesSplit(views[k + 1..], m - k - 1);
    assert views[k + 1..][..m - k - 1] == views[k + 1..m] && views[k + 1..][m - k - 1..] == views[m..];
    NamesConcat(views[..k + 1], views[m..]);
  }

  lemma {:induction false} GapContiguous(views: seq<View>, k: nat, m: nat)
    requires Contiguous(views) && k < m <= |views|
    ensures Contiguous(Gapped(views, k, m)) <==> m == |views| || views[m].First() == views[k].Next()
  {
    var left := Gapped(views, k, m);
    if m == |views| || views[m].First() == views[k].Next() {
      forall i | 0 <= i < |left| - 1
        ensures left[i].Next() == left[i + 1].First()
      {
        GapAt(views, k, m, i);
        GapAt(views, k, m, i + 1);
      }
    } else {
      assert left[k].Next() != left[k + 1].First();
    }
  }

  /**
    Removing segments from right behind `k` on leaves well-formed segments in order. They are a chain
    again exactly when nothing is left behind the gap, or no record was in it.
  */
  lemma {:induction false} GapLeft(files: Files, views: seq<View>, k: nat, m: nat)
    requires Tidy(files, views) && k < m <= |views|
    ensures Held(files - Names(views[k + 1..m]), Gapped(views, k, m))
    ensures Contiguous(Gapped(views, k, m)) <==> m == |views| || views[m].First() == views[k].Next()
  {
    hide FileOk, Quiet, Torn, Names, Ascending, Contiguous, Gapped;
    var left, after := Gapped(views, k, m), files - Names(views[k + 1..m]);
    GapNames(views, k, m);
    GapAscending(views, k, m);
    GapContiguous(views, k, m);
    GapLength(views, k, m);
    forall i | 0 <= i < |left|
      ensures Shut(after, left[i])
    {
      GapAt(views, k, m, i);
      NameOf(left, i);
      ShutAt(files, views, if i <= k then i else i - (k + 1) + m);
    }
  }

  lemma {:induction false} GapLength(views: seq<View>, k: nat, m: nat)
    requires k < m <= |views|
    ensures |Gapped(views, k, m)| == k + 1 + |views| - m
  {
  }

  // A crash in the middle of an append

  /** The bytes of a file whose last append was cut after `n` bytes. */
  function CutAppend(file: seq<byte>, v: View, batch: seq<Payload>, n: nat): seq<byte>
    requires v.Size() <= |file| && n <= |EncodeAll(|v.rows|, batch)|
  {
    file[..v.Size()] + EncodeAll(|v.rows|, batch)[..n]
  }

  lemma {:induction false} CutAppendSlices(file: seq<byte>, v: View, batch: seq<Payload>, n: nat)
    requires v.Size() <= |file| && n <= |EncodeAll(|v.rows|, batch)|
    ensures var g := CutAppend(file, v, batch, n);
            && v.Size() <= |g| && g[..v.Size()] == file[..v.Size()]
            && g[v.Size()..] == EncodeAll(|v.rows|, batch)[..n]
  {
    hide EncodeAll, Offset;
    var front, back := file[..v.Size()], EncodeAll(|v.rows|, batch)[..n];
    assert (front + back)[..|front|] == front && (front + back)[|front|..] == back;
  }

  lemma {:induction false} FitsPart(v: View, batch: seq<Payload>, k: nat)
    requires v.(rows := v.rows + batch).Fits() && v.start <= |v.rows| && k <= |batch|
    ensures v.(rows := v.rows + batch[..k]).Fits()
  {
    hide Offset;
    var all, part := v.rows + batch, v.rows + batch[..k];
    var n := |v.rows| + k;
    assert part[..n] == all[..n];
    OffsetPrefix(part, all, n);
    OffsetLowerBound(all, n, |all|);
    forall i | 0 <= i < |part|
      ensures |part[i]| < U32
    {
      assert part[i] == all[i];
    }
  }

  /** A file cut in the middle of an append holds the old frames and the whole ones of the batch. */
  lemma {:induction false} CutAppendFile(file: seq<byte>, v: View, batch: seq<Payload>, n: nat)
    requires FileOk(file, v) && v.(rows := v.rows + batch).Fits()
    requires v.Size() <= |file| && n <= |EncodeAll(|v.rows|, batch)|
    ensures var g, done := CutAppend(file, v, batch, n), batch[..WholeFrames(batch, n)];
            && FileOk(g, v.(rows := v.rows + done))
            && End(g, v.rows + done) == Err(F.TornError(n - BatchSize(done)))
  {
    hide HeaderOk, Offset, EncodeAll, WholeFrames, CutAppend, End, F.FrameAt;
    var g, done := CutAppend(file, v, batch, n), batch[..WholeFrames(batch, n)];
    CutAppendSlices(file, v, batch, n);
    FileAgrees(file, g, v);
    FitsPart(v, batch, |done|);
    FitsPart(v, batch, 0);
    forall i | 0 <= i < |batch|
      ensures |batch[i]| < U32
    {
      assert batch[i] == (v.rows + batch)[|v.rows| + i];
    }
    TornTail(g, v.rows, batch, n);
    HeaderOfPrefix(g[..S.SEGMENT_HEADER], v, v.rows + done);
  }

  /**
    A directory whose last append was cut after any number of bytes can be loaded, with the whole frames
    of the batch. It needs trimming exactly when the cut is inside a frame, and not right behind a frame
    header.
  */
  lemma {:induction false} CutAppendLoadable(files: Files, views: seq<View>, batch: seq<Payload>, n: nat)
    requires Tidy(files, views)
    requires var v := views[|views| - 1]; v.(rows := v.rows + batch).Fits() && n <= |EncodeAll(|v.rows|, batch)|
    requires var v := views[|views| - 1]; v.base in files && v.Size() <= |files[v.base]|
    ensures var v, done := views[|views| - 1], batch[..WholeFrames(batch, n)];
            var after := files[v.base := CutAppend(files[v.base], v, batch, n)];
            && Loadable(after, Grown(views, done))
            && (Tidy(after, Grown(views, done)) <==> n - BatchSize(done) in {0, F.FRAME_HEADER})
  {
    hide FileOk, Offset, EncodeAll, WholeFrames, CutAppend, End, Contiguous, Names, BatchSize, View.Fits, F.TornError;
    var k := |views| - 1;
    var v, done := views[k], batch[..WholeFrames(batch, n)];
    var w, file := v.(rows := v.rows + done), CutAppend(files[v.base], v, batch, n);
    var after, grown := files[v.base := file], Grown(views, done);
    assert Shut(files, v);
    CutAppendFile(files[v.base], v, batch, n);
    assert |w.rows| < U32 by { FitsIndex(file, w); }
    AbsGrown(views, done);
    assert grown == views[k := w];
    NameOf(views, k);
    NamesReplace(views, k, w);
    forall i | 0 <= i < k
      ensures Shut(after, grown[i])
    {
      assert Shut(files, views[i]);
    }
    assert Shut(after, w) <==> n - BatchSize(done) in {0, F.FRAME_HEADER} by { TornErrors(n - BatchSize(done)); }
    assert Open(after, w) by { TornErrors(n - BatchSize(done)); }
    assert Tidy(after, grown) ==> Shut(after, grown[k]);
  }

  lemma {:induction false} TornErrors(n: nat)
    ensures F.TornError(n) == (if n in {0, F.FRAME_HEADER} then Eof else UnexpectedEof)
  {
  }
}
