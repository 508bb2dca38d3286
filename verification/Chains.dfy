/** The chain of segments: rotation, retention, truncation at both ends, and loading (internal/segment/chain.go). */
module Chains {
  import opened Bytes
  import opened Errors
  import opened Layout
  import opened Model
  import opened Disks
  import opened Directories
  import opened Retention
  import opened Recovery
  import opened Crashes
  import opened Segments
  import opened Scanners
  import opened Groups
  import opened Loading
  import opened Surveys
  import I = Index
  import S = Slots

  /** Finds record `sequence` and persists its offset as the read start of the segment. */
  method ReadFrom(segment: Segment, sequence: uint64) returns (ok: bool)
    requires segment.Valid() && segment.Covered() && segment.view.First() <= sequence <= segment.view.Next()
    modifies segment, segment.disk, segment.offsetIndex
    ensures segment.OnlyMyFile() && (segment.disk.reliable ==> ok)
    ensures !ok ==> unchanged(segment) && unchanged(segment.offsetIndex)
    ensures ok ==> segment.Valid() && segment.Covered()
    ensures ok ==> segment.view == old(segment.view).(start := sequence - segment.base)
    ensures ok && old(Shut(segment.disk.files, segment.view)) ==> Shut(segment.disk.files, segment.view)
    ensures SlotChanges(old(segment.disk.files), old(segment.view), sequence,
                        old(segment.disk.history), segment.disk.history)
  {
    hide HeaderOk, Holds, Offset, HalfWritten, End, I.Truthful, I.Marks, I.Covers, S.NextSlot;
    ghost var i := sequence - segment.base;
    ghost var before, history, v := segment.disk.files, segment.disk.history, segment.view;
    InFile(segment);
    OffsetFits(v, i);
    var scanner := new Scanner(segment, 0);
    var seekErr := scanner.Seek(sequence);
    if seekErr.Some? {
      return false;
    }
    var err := segment.SetReadOffset(scanner.offset, i);
    ok := err.None?;
  }

  /** Persists the end of the segment as its read start. */
  method HideAll(segment: Segment) returns (ok: bool)
    requires segment.Valid() && segment.Covered()
    modifies segment, segment.disk, segment.offsetIndex
    ensures segment.OnlyMyFile() && (segment.disk.reliable ==> ok)
    ensures !ok ==> unchanged(segment) && unchanged(segment.offsetIndex)
    ensures ok ==> segment.Valid() && segment.Covered()
    ensures ok ==> segment.view == old(segment.view).(start := |old(segment.view.rows)|)
    ensures ok && old(Shut(segment.disk.files, segment.view)) ==> Shut(segment.disk.files, segment.view)
    ensures SlotChanges(old(segment.disk.files), old(segment.view), old(segment.view).Next(),
                        old(segment.disk.history), segment.disk.history)
  {
    hide HeaderOk, Holds, Offset, HalfWritten, End, I.Truthful, I.Marks, I.Covers, S.NextSlot;
    InFile(segment);
    OffsetFits(segment.view, |segment.view.rows|);
    var err := segment.SetReadOffset(segment.writeOffset, |segment.view.rows|);
    ok := err.None?;
  }

  lemma ClosedFile(s: Segment)
    requires s.Valid() && |s.disk.files[s.name]| == s.writeOffset
    ensures Shut(s.disk.files, s.view) && s.writeOffset == s.view.Size()
  {
    hide Holds, HeaderOk, Offset;
    QuietAtEnd(s.disk.files[s.name], s.view.rows);
  }

  lemma StartBeforeEnd(s: Segment)
    requires s.Valid()
    ensures s.startOffset <= s.writeOffset
  {
    hide FileOk, MetaOf, I.Truthful, I.Marks, Offset;
    OffsetOrder(s.view.rows, s.view.start, |s.view.rows|);
  }

  lemma {:induction false} TrimmedFile(file: seq<byte>, v: View)
    requires FileOk(file, v)
    ensures var g := Resize(file, v.Size());
            FileOk(g, v) && MetaOf(g) == MetaOf(file) && Quiet(g, v.rows)
  {
    hide HeaderOk, Holds, Offset, MetaOf;
    SizeInFile(file, v);
    FrontAgrees(file, file[..v.Size()], v);
    QuietAtEnd(file[..v.Size()], v.rows);
  }

  /** A segment whose file was replaced by one that stands for the same is as valid as it was. */
  twostate lemma Refiled(s: Segment)
    requires old(s.Valid()) && unchanged(s) && unchanged(s.offsetIndex)
    requires s.name in s.disk.files && FileOk(s.disk.files[s.name], s.view) && s.meta == MetaOf(s.disk.files[s.name])
    ensures s.Valid() && s.Covered() == old(s.Covered())
  {
    hide FileOk, MetaOf, Offset, I.Truthful, I.Covers, I.Marks;
  }

  lemma WholeHeader(s: Segment)
    requires s.Valid()
    ensures s.name in s.disk.files && |s.disk.files[s.name]| >= S.SEGMENT_HEADER
  {
  }

  class Chain {
    const disk: Disk
    const startSequence: uint64
    const limits: Limits
    const syncOnAppend: bool
    var segments: seq<Segment>
    var diskSize: int
    /** What the segments stand for. */
    ghost var views: seq<View>

    constructor (disk: Disk, startSequence: uint64, limits: Limits, syncOnAppend: bool)
      ensures this.disk == disk && this.startSequence == startSequence && this.limits == limits
      ensures segments == [] && diskSize == 0 && views == []
    {
      this.disk, this.startSequence, this.limits, this.syncOnAppend := disk, startSequence, limits, syncOnAppend;
      segments, diskSize, views := [], 0, [];
    }

    ghost function Objects(): set<object>
      reads this
    {
      ObjectsOf(segments)
    }

    ghost function InMemory(): Memory
      reads this
    {
      Memory(segments, views, diskSize)
    }

    ghost predicate Sound()
      reads this, disk, Objects()
    {
      SoundSegments(disk, segments, views)
    }

    ghost predicate Valid()
      reads this, disk, Objects()
    {
      && Sound() && segments != []
      && Contiguous(views) && Ascending(views)
      && diskSize == Total(views)
    }

    /** The directory holds this chain and nothing else. */
    ghost predicate Clean()
      reads this, disk, Objects()
    {
      Valid() && Tidy(disk.files, views)
    }

    /** The directory holds this chain, and every file of it ends cleanly; there may be other files. */
    ghost predicate Readable()
      reads this, disk, Objects()
    {
      Valid() && Live(disk.files, views)
    }

    /** Removes the oldest segment; it is gone even when closing it fails. */
    method ReapOldest() returns (ok: bool, ghost removed: bool)
      requires Valid() && |segments| > 1
      modifies this, disk
      ensures Valid()
      ensures removed ==> views == old(views)[1..] && segments == old(segments)[1..]
      ensures !removed ==> views == old(views) && segments == old(segments) && disk.files == old(disk.files)
      ensures ok ==> removed
      ensures removed ==> disk.files == old(disk.files) - {old(views)[0].base}
      ensures disk.history == if removed then old(disk.history) + [disk.files] else old(disk.history)
      ensures disk.reliable ==> ok
      ensures old(Clean()) ==> Clean()
      ensures old(Readable()) ==> Readable()
    {
      hide Contiguous, Ascending, SoundSegments, Total, Tidy, Names, Segment.Valid, Segment.Covered, View.Fits, Offset, Live;
      SizesMatch();
      At(0);
      PrefixFacts(views, 1);
      if Tidy(disk.files, views) { TidyDrop(disk.files, views, 1); }
      if Live(disk.files, views) { LiveDrop(disk.files, views, 1); }
      OthersNamed(views, 0);
      var oldest := segments[0];
      var oldestSize := oldest.writeOffset;
      ok := disk.Remove(oldest.name);
      removed := ok;
      if ok {
        segments, views := segments[1..], views[1..];
        diskSize := diskSize - oldestSize;
        var closeFailed: bool := *;
        ok := !closeFailed || disk.reliable;
      }
      StillSound((if removed then 1 else 0, |old(segments)|));
      assert old(segments)[0..|old(segments)|] == old(segments) && old(views)[0..|old(views)|] == old(views);
    }

    /** Segments `range.0` up to `range.1`, whose fields and files nobody touched, are as sound as before. */
    twostate lemma StillSound(range: (nat, nat))
      requires old(Sound()) && range.0 <= range.1 <= |old(segments)|
      requires forall i | range.0 <= i < range.1 :: Kept(old(segments)[i])
      requires forall i | range.0 <= i < range.1 && i < |old(views)| && old(views)[i].base in old(disk.files) ::
                 && old(views)[i].base in disk.files
                 && disk.files[old(views)[i].base] == old(disk.files)[old(views)[i].base]
      ensures SoundSegments(disk, old(segments)[range.0..range.1], old(views)[range.0..range.1])
    {
      hide Segment.Covered, FileOk, I.Truthful, I.Marks, Offset;
      forall i | range.0 <= i < range.1
        ensures old(segments)[i].Valid() && old(segments)[i].Covered()
      {
        Undisturbed(old(segments)[i]);
      }
    }

    /** Gives up oldest segments until a batch of `size` bytes is admitted or only the last is left. */
    method MakeRoom(size: nat) returns (err: Option<Error>, rotate: bool, ghost k: nat)
      requires Valid()
      modifies this, disk
      ensures Valid() && k < |old(views)|
      ensures views == old(views)[k..] && segments == old(segments)[k..]
      ensures forall j | 0 <= j < k :: NeedsReap(limits, old(views)[j..], size)
      ensures old(Clean()) ==> Clean()
      ensures old(Readable()) ==> Readable()
      ensures disk.files == old(disk.files) - Names(old(views)[..k]) && |disk.history| == |old(disk.history)| + k
      ensures FilesVanish(old(disk.files), old(views), old(disk.history), disk.history)
      ensures err.None? ==> !NeedsReap(limits, views, size) && rotate == Rotates(limits, views, size)
      ensures err == Some(DiskFull) ==> |views| == 1 && OverBudget(limits, views, size)
      ensures err == Some(DiskFull) || err == Some(SegmentFull) ==> NeedsReap(limits, views, size)
      ensures err == Some(SegmentFull) ==>
                |views| == 1 && OverCount(limits, views, size) && !OverBudget(limits, views, size)
      ensures err.Some? ==> err.value in {DiskFull, SegmentFull} || (err.value == IoFailure && !disk.reliable)
    {
      hide *;
      ghost var start, segs := views, segments;
      ghost var clean, readable := Clean(), Readable();
      ghost var n, files, past := |start|, disk.files, disk.history;
      SizesMatch();
      VanishNothing(files, start, past);
      k := 0;
      assert views == start[0..] && segments == segs[0..];
      while true
        invariant Valid() && k < n && |segs| == n
        invariant views == start[k..] && segments == segs[k..]
        invariant (clean ==> Clean()) && (readable ==> Readable())
        invariant forall j | 0 <= j < k :: NeedsReap(limits, start[j..], size)
        invariant disk.files == files - Names(start[..k]) && |disk.history| == |past| + k
        invariant FilesVanish(files, start, past, disk.history)
        decreases |segments|
      {
        var needReap, overBudget;
        rotate, needReap, overBudget := Pressure(size);
        if !needReap {
          return None, rotate, k;
        }
        if |segments| <= 1 {
          return Some(if overBudget then DiskFull else SegmentFull), rotate, k;
        }
        ghost var history := disk.history;
        var ok, removed := ReapOldest();
        VanishOneMore(files, start, k, past, history);
        k := if removed then k + 1 else k;
        if !ok {
          return Some(IoFailure), rotate, k;
        }
      }
    }

    /** Whether a batch would start a new segment, and which limits stand against it. */
    method Pressure(size: nat) returns (rotate: bool, needReap: bool, overBudget: bool)
      requires Valid()
      ensures Valid() && (old(Clean()) ==> Clean()) && (old(Readable()) ==> Readable()) && |segments| == |views| > 0
      ensures rotate == Rotates(limits, views, size)
      ensures overBudget == OverBudget(limits, views, size)
      ensures needReap == NeedsReap(limits, views, size)
      ensures needReap && !overBudget ==> OverCount(limits, views, size)
      ensures forall batch | BatchSize(batch) == size :: Presses(limits, views, batch, rotate, needReap, overBudget)
    {
      hide Valid, Total, Offset, BatchSize, Presses;
      SizesMatch();
      forall batch | BatchSize(batch) == size
        ensures Presses(limits, views, batch, Rotates(limits, views, size), NeedsReap(limits, views, size),
                        OverBudget(limits, views, size))
      {
        PressesExactly(limits, views, batch);
      }
      var lastSize := segments[|segments| - 1].writeOffset;
      rotate := limits.maxSegmentSize > 0 && lastSize + size > limits.maxSegmentSize;
      var required := if rotate then size + S.SEGMENT_HEADER else size;
      overBudget := limits.maxDiskSize > 0 && diskSize + required > limits.maxDiskSize;
      needReap := overBudget || (rotate && limits.maxSegments > 0 && |segments| >= limits.maxSegments);
    }

    /** No segment came from elsewhere. */
    twostate predicate OldOrNew()
      reads this
    {
      forall i | 0 <= i < |segments| ::
        segments[i] in old(segments) || (fresh(segments[i]) && fresh(segments[i].offsetIndex))
    }

    /** What is known of segment `i`. */
    lemma At(i: nat)
      requires Valid() && i < |segments|
      ensures |segments| == |views|
      ensures segments[i].disk == disk && segments[i].view == views[i]
      ensures segments[i].Valid() && segments[i].Covered()
      ensures segments[i].name in disk.files && segments[i].name == views[i].base
      ensures segments[i].writeOffset == views[i].Size() && segments[i].writeIndex == |views[i].rows|
      ensures segments[i].NextSequence() == views[i].Next() && segments[i].StartSequence() == views[i].First()
      ensures views[i].Fits() && segments[i].startOffset == Offset(views[i].rows, views[i].start)
    {
      hide SoundSegments, Contiguous, Ascending, Total;
      SoundAt(i);
    }

    lemma SizesMatch()
      requires Valid()
      ensures |segments| == |views| > 0 && diskSize == Total(views) && Contiguous(views) && Ascending(views)
      ensures segments[|segments| - 1].writeOffset == Last(views).Size()
      ensures segments[|segments| - 1].NextSequence() == Last(views).Next()
      ensures segments[|segments| - 1].writeIndex == |Last(views).rows|
    {
      hide Contiguous, Ascending, Total, Offset, Segment.Valid, Segment.Covered, View.Fits;
      assert |segments| == |views|;
      At(|segments| - 1);
    }

    /** Starts a new segment behind the last one. */
    method Rotate() returns (ok: bool)
      requires Valid() && Last(views).base < Last(views).Next()
      modifies this, disk
      ensures Valid()
      ensures ok ==> views == old(views) + [View(Last(old(views)).Next(), [], 0)]
      ensures ok ==> |segments| == |old(segments)| + 1 && segments[..|old(segments)|] == old(segments)
      ensures ok ==> fresh(segments[|old(segments)|]) && fresh(segments[|old(segments)|].offsetIndex)
      ensures ok && old(Clean()) ==> Clean()
      ensures !ok ==> views == old(views) && segments == old(segments)
      ensures disk.reliable && old(Clean()) ==> ok
      ensures var next := Last(old(views)).Next();
              && next < U64 && disk.files - {next} == old(disk.files) - {next}
              && (ok ==> disk.files == old(disk.files)[next := S.NewHeader(next)])
              && (old(Clean()) ==>
                    AllGrow(old(disk.files)[next := []], next, 0, S.NewHeader(next), old(disk.history), disk.history))
    {
      hide AllGrow, S.NewHeader;
      hide Contiguous, Ascending, SoundSegments, Segment.Valid, Segment.Covered, Offset, Total, FileOk, Quiet, Tidy;
      SizesMatch();
      WidthsOfLast();
      ghost var before, n := disk.files, |segments|;
      var nextStartSeq := segments[|segments| - 1].NextSequence();
      ghost var v := View(nextStartSeq, [], 0);
      if Tidy(before, views) { NextIsNew(before, views); }
      var created := Create(disk, nextStartSeq, syncOnAppend);
      assert segments[0..n] == segments && views[0..n] == views;
      if created == null {
        StillSound((0, n));
        return false;
      }
      AbsRotated(views, v);
      AscendingRotated(views, v);
      FreshFile(nextStartSeq);
      if Tidy(before, views) {
        TidyAdd(before, views, S.NewHeader(nextStartSeq), v);
      }
      segments, views := segments + [created], views + [v];
      diskSize := diskSize + created.writeOffset;
      StillSound((0, n));
      SoundAdd(disk, old(segments), old(views), created);
      ok := true;
    }

    lemma WidthsOfLast()
      requires Valid()
      ensures Last(views).Next() < U64 && |Last(views).rows| < U32
    {
      hide Total, Holds, HeaderOk;
    }

    /** Appends to the last segment; a failure leaves the chain as it was. */
    method AppendTail(payloads: seq<Payload>) returns (err: Option<Error>)
      requires |segments| == |views| > 0 && Valid() && payloads != [] && segments[|segments| - 1].Room(payloads)
      modifies this, disk, segments[|segments| - 1], segments[|segments| - 1].offsetIndex
      ensures Valid() && segments == old(segments)
      ensures views == if err.None? then Grown(old(views), payloads) else old(views)
      ensures err.Some? ==> err.value in {PayloadTooLarge, IoFailure, TrimFailure}
      ensures err == Some(PayloadTooLarge) <==> !Framable(payloads)
      ensures !Framable(payloads) ==> disk.history == old(disk.history)
      ensures disk.reliable && err.Some? ==> err.value == PayloadTooLarge
      ensures SameButTail(old(disk.files), disk.files, views)
      ensures old(Shut(disk.files, Last(views))) && err != Some(TrimFailure) ==> Shut(disk.files, Last(views))
      ensures var v := Last(old(views));
              AllGrow(old(disk.files), v.base, v.Size(), EncodeAll(|v.rows|, payloads), old(disk.history), disk.history)
    {
      hide AllGrow, EncodeAll, Contiguous, Ascending, Segment.Valid, Segment.Covered, Offset, Total, FileOk, Quiet, BatchSize;
      hide Sound, Segment.Room;
      ghost var n, start := |segments| - 1, views;
      SizesMatch();
      At(n);
      Apart(n);
      var last := segments[|segments| - 1];
      AbsGrown(start, payloads);
      var size := AppendSize(payloads);
      err := last.Append(payloads);
      views := views[n := last.view];
      AscendingSame(start, n, last.view);
      assert views == if err.None? then Grown(start, payloads) else start;
      if err.None? {
        diskSize := diskSize + size;
      }
      OneChanged(n);
      InFile(last);
    }

    /** Writes a batch to the last segment and reports the number of its last record. */
    method WriteTail(payloads: seq<Payload>) returns (r: Result<uint64>)
      requires |segments| == |views| > 0 && Valid() && payloads != [] && Takes(Last(views), payloads)
      modifies this, disk, segments[|segments| - 1], segments[|segments| - 1].offsetIndex
      ensures Valid() && segments == old(segments)
      ensures views == if r.Ok? then Grown(old(views), payloads) else old(views)
      ensures r.Ok? ==> r.value == Last(old(views)).Next() + |payloads| - 1
      ensures r.Err? ==> r.error in {IoFailure, TrimFailure, PayloadTooLarge}
      ensures disk.reliable && r.Err? ==> r.error == PayloadTooLarge
      ensures r == Err(PayloadTooLarge) <==> !Framable(payloads)
      ensures !Framable(payloads) ==> disk.history == old(disk.history)
      ensures old(Clean()) && r != Err(TrimFailure) ==> Clean()
      ensures old(Readable()) && r != Err(TrimFailure) ==> Readable()
      ensures var v := Last(old(views));
              AllGrow(old(disk.files), v.base, v.Size(), EncodeAll(|v.rows|, payloads), old(disk.history), disk.history)
    {
      hide AllGrow, EncodeAll, Contiguous, Ascending, Offset, Total, BatchSize, Sound, Tidy, Shut, Live;
      SizesMatch();
      ghost var before, start := disk.files, views;
      var startSeq := segments[|segments| - 1].NextSequence();
      if Tidy(before, start) || Live(before, start) { ShutAt(before, start, |start| - 1); }
      var err := AppendTail(payloads);
      if (Tidy(before, start) || Live(before, start)) && err != Some(TrimFailure) {
        TailReplaced(before, start, disk.files, views);
      }
      r := match err case Some(e) => Err(e) case None => Ok(startSeq + |payloads| - 1);
    }

    /** Writes an admitted batch to the last segment, or to a new one. */
    method Place(payloads: seq<Payload>, rotate: bool) returns (r: Result<uint64>)
      requires Valid() && RoomFor(limits, views, payloads) && payloads != []
      requires !limits.TooLarge(BatchSize(payloads)) && rotate == Rotates(limits, views, BatchSize(payloads))
      modifies this, disk, Objects()
      ensures Valid() && OldOrNew()
      ensures r.Ok? ==> views == Admitted(limits, old(views), payloads)
      ensures r.Ok? ==> r.value == Last(old(views)).Next() + |payloads| - 1
      ensures r.Err? ==>
                || views == old(views)
                || (rotate && views == old(views) + [View(Last(old(views)).Next(), [], 0)])
      ensures r.Err? ==> r.error in {CreateFailure, IoFailure, TrimFailure, PayloadTooLarge}
      ensures disk.reliable && old(Clean()) && r.Err? ==> r.error == PayloadTooLarge
      ensures r.Ok? ==> Framable(payloads)
      ensures r == Err(PayloadTooLarge) ==>
                && !Framable(payloads)
                && views == if rotate then old(views) + [View(Last(old(views)).Next(), [], 0)] else old(views)
      ensures old(Clean()) && (r.Ok? || r.error !in {CreateFailure, TrimFailure}) ==> Clean()
      ensures old(Readable()) && r != Err(TrimFailure) ==> Readable()
      ensures old(Clean()) ==>
                AllWriting(limits, old(disk.files), old(views), payloads, old(disk.history), disk.history)
    {
      hide AllGrow, AllWriting, EncodeAll, S.NewHeader;
      hide Contiguous, Ascending, Offset, Total, BatchSize, Valid, Clean, Tidy, Grown, RoomFor, Rotates, Limits.TooLarge;
      hide Takes, Live;
      SizesMatch();
      TargetTakes(limits, views, payloads);
      ghost var known, start, files, past, clean := segments, views, disk.files, disk.history, Clean();
      if rotate {
        RotatesNonempty(limits, views, BatchSize(payloads));
        var ok := Rotate();
        if clean { RotatedBegun(limits, files, start, payloads, past, disk.history); }
        if Live(files, start) { NewestAdded(files, start, disk.files, ok); }
        if !ok {
          return Err(CreateFailure);
        }
        SizesMatch();
        OffsetAtZero([]);
      }
      WidthsOfLast();
      ghost var mid := disk.history;
      assert forall i | 0 <= i < |segments| ::
          segments[i] in known || (fresh(segments[i]) && fresh(segments[i].offsetIndex));
      assert segments[|segments| - 1] in segments;
      r := WriteTail(payloads);
      if clean {
        if rotate {
          RotatedWriting(limits, files, start, payloads, past, mid, disk.history);
        } else {
          TailWriting(limits, files, start, payloads, past, disk.history);
        }
      }
    }

    /** Admits and writes a batch of `size` bytes. */
    method Admit(payloads: seq<Payload>, size: nat) returns (r: Result<uint64>, ghost k: nat)
      requires Valid() && RoomFor(limits, views, payloads) && payloads != [] && size == BatchSize(payloads)
      modifies this, disk, Objects()
      ensures Valid() && OldOrNew() && Appends(limits, old(views), payloads, Reported(r), k, views)
      ensures r == Err(BatchTooLarge) <==> limits.TooLarge(BatchSize(payloads))
      ensures r == Err(BatchTooLarge) ==> disk.files == old(disk.files)
      ensures old(Clean()) && (r.Ok? || r.error !in {CreateFailure, TrimFailure}) ==> Clean()
      ensures old(Readable()) && r != Err(TrimFailure) ==> Readable()
      ensures disk.reliable && old(Clean()) ==> Deliberate(Reported(r))
      ensures old(Clean()) ==>
                AllAppendSteps(limits, old(disk.files), old(views), payloads, old(disk.history), disk.history)
    {
      hide AllAppendSteps, AllWriting, FilesVanish, Names;
      hide Valid, Clean, Admitted, NeedsReap, OverBudget, OverCount, Rotates, RoomFor, BatchSize, Limits.Narrow;
      hide ObjectsOf, Last, Readable;
      SizesMatch();
      NoStepYet(limits, disk.files, views, payloads, disk.history);
      if limits.maxSegmentSize > 0 && S.SEGMENT_HEADER + size > limits.maxSegmentSize {
        assert views[0..] == views;
        return Err(BatchTooLarge), 0;
      }
      ghost var start, files, past, clean := views, disk.files, disk.history, Clean();
      var err, rotate;
      err, rotate, k := MakeRoom(size);
      SameTail(limits, start, k, payloads);
      ReapingSteps(limits, files, start, payloads, past, disk.history);
      ObjectsOfPart(old(segments), k);
      if err.Some? {
        return Err(err.value), k;
      }
      ghost var mid := disk.history;
      r := Place(payloads, rotate);
      if clean {
        WritingSteps(limits, files, start, payloads, k, past, mid, disk.history);
      }
    }

    /**
      Appends a batch as a whole, giving up the oldest segments that stand in its way; `k` is how many.
      Also reports the number of the batch's last record.
    */
    method Append(payloads: seq<Payload>) returns (r: Result<uint64>, ghost k: nat)
      requires Valid() && RoomFor(limits, views, payloads)
      modifies this, disk, Objects()
      ensures Valid() && OldOrNew() && Appends(limits, old(views), payloads, Reported(r), k, views)
      ensures r == Err(BatchTooLarge) <==> payloads != [] && limits.TooLarge(BatchSize(payloads))
      ensures r == Err(BatchTooLarge) <==> payloads != [] && 0 < limits.maxSegmentSize < View(0, payloads, 0).Size()
      ensures r.Ok? && payloads != [] ==> k < |old(views)| && views == Placed(limits, old(views)[k..], payloads)
      ensures disk.reliable && old(Clean()) && old(Within(limits, views)) ==>
                (r.Ok? <==>
                   || payloads == []
                   || (Framable(payloads) && exists j: nat :: FitsWithout(limits, old(views), j, payloads)))
      ensures r == Err(BatchTooLarge) || payloads == [] ==> disk.files == old(disk.files)
      ensures disk.reliable && old(Clean()) ==> Deliberate(Reported(r))
      ensures old(Clean()) && (r.Ok? || r.error !in {CreateFailure, TrimFailure}) ==> Clean()
      ensures old(Readable()) && r != Err(TrimFailure) ==> Readable()
      ensures k < |old(views)| && 0 <= Lost(old(views), k) <= |Abs(old(views)).rows|
      ensures Abs(views) == Abs(old(views)).Drop(Lost(old(views), k)).Add(if r.Ok? then payloads else [])
      ensures old(Within(limits, views)) ==> Within(limits, views)
      ensures old(Clean()) ==>
                AllAppendSteps(limits, old(disk.files), old(views), payloads, old(disk.history), disk.history)
    {
      hide AllAppendSteps, Appends, Deliberate, Readable, Framable, FitsWithout, Placed, Admissible, Offset;
      hide Valid, Clean, LeastReap, NeedsReap, RoomFor, BatchSize, Limits.TooLarge, Within, Contiguous, Flatten, Total, Ascending;
      SizesMatch();
      ghost var start := views;
      if payloads == [] {
        AppendNothing(limits, start);
        NoStepYet(limits, disk.files, start, payloads, disk.history);
        return Ok(0), 0;
      }
      var size := AppendSize(payloads);
      r, k := Admit(payloads, size);
      AppendsAbs(limits, start, payloads, Reported(r), k, views);
      AppendsWithin(limits, start, payloads, Reported(r), k, views);
      TooLargeExactly(limits, payloads, 0);
      AppendPlaced(limits, start, payloads, Reported(r), k, views);
      if Deliberate(Reported(r)) { AppendDecided(limits, start, payloads, Reported(r), k, views); }
    }

    function Nexts(): seq<int>
      reads this, segments
    {
      seq(|segments|, i requires 0 <= i < |segments| reads this, segments => segments[i].NextSequence())
    }

    lemma NextsMatch()
      requires Valid()
      ensures |Nexts()| == |views| == |segments|
      ensures forall i | 0 <= i < |views| :: Nexts()[i] == views[i].Next()
      ensures forall i | 0 <= i < |segments| :: segments[i].base + segments[i].startIndex == views[i].First()
    {
      hide Contiguous, Ascending, Total, Offset, Segment.Valid, Segment.Covered, View.Fits;
      forall i | 0 <= i < |views|
        ensures Nexts()[i] == views[i].Next()
        ensures segments[i].base + segments[i].startIndex == views[i].First()
      {
        At(i);
      }
    }

    /** The segment that holds record `sequence`, or -1. */
    method KeepIndex(sequence: nat) returns (k: int)
      requires Valid()
      ensures Valid() && (old(Clean()) ==> Clean()) && (old(Readable()) ==> Readable())
      ensures -1 <= k < |segments| == |views|
      ensures k >= 0 ==> views[k].First() <= sequence < views[k].Next()
      ensures k == -1 ==> sequence < views[0].First() || sequence >= Last(views).Next()
    {
      hide Segment.Valid, Segment.Covered, Tidy, Total, Live;
      SizesMatch();
      NextsMatch();
      k := I.Search(Nexts(), sequence + 1);
      if k >= |segments| || segments[k].StartSequence() > sequence {
        k := -1;
      }
    }

    /** The files of these segments are there. */
    lemma StillThere(lo: nat, hi: nat)
      requires Valid() && lo <= hi <= |segments|
      ensures |segments| == |views| && Ascending(views[lo..hi])
      ensures forall i | lo <= i < hi :: views[i].base in disk.files
    {
      hide Contiguous, Total, Offset, Segment.Valid, Segment.Covered, View.Fits;
      forall i | lo <= i < hi
        ensures views[i].base in disk.files
      {
        At(i);
      }
    }

    lemma NamesAndSizes()
      requires Valid()
      ensures |segments| == |views|
      ensures forall i | 0 <= i < |segments| ::
                segments[i].name == views[i].base && segments[i].writeOffset == views[i].Size()
    {
      hide Contiguous, Ascending, Total, Offset, Segment.Valid, Segment.Covered, View.Fits;
      forall i | 0 <= i < |segments|
        ensures segments[i].name == views[i].base && segments[i].writeOffset == views[i].Size()
      {
        At(i);
      }
    }

    /** Closes and removes the files of segments `lo` up to `hi`, oldest first. */
    method RemoveFiles(lo: nat, hi: nat) returns (ok: bool, ghost gone: nat)
      requires Valid() && lo <= hi <= |segments|
      modifies this`diskSize, disk
      ensures ok ==> disk.files == old(disk.files) - Names(views[lo..hi])
      ensures gone <= hi - lo && (ok ==> gone == hi - lo)
      ensures diskSize == old(diskSize) - Total(views[lo..lo + gone])
      ensures FilesVanish(old(disk.files), views[lo..hi], old(disk.history), disk.history)
      ensures disk.reliable ==> ok
    {
      hide Valid, Names, Total, Offset;
      NamesAndSizes();
      StillThere(lo, hi);
      ghost var part, files, history := views[lo..hi], disk.files, disk.history;
      ghost var size := diskSize;
      RemovedSoFar(files, part, 0);
      for i := lo to hi
        invariant disk.files == files - Names(part[..i - lo])
        invariant diskSize == size - Total(part[..i - lo])
        invariant |disk.history| == |history| + (i - lo)
        invariant FilesVanish(files, part, history, disk.history)
      {
        assert part[..i - lo] == views[lo..i] && part[i - lo] == views[i];
        var closeFailed: bool := *;
        if closeFailed && !disk.reliable {
          return false, i - lo;
        }
        RemovedSoFar(files, part, i - lo);
        NamesApart(part, i - lo);
        var removed := disk.Remove(segments[i].name);
        if !removed {
          return false, i - lo;
        }
        diskSize := diskSize - segments[i].writeOffset;
      }
      assert part[..hi - lo] == part;
      ok, gone := true, hi - lo;
    }

    /** Moves the read start of the first segment to `sequence` and persists it. */
    method MoveHead(sequence: uint64) returns (ok: bool)
      requires |segments| == |views| > 0 && Valid() && views[0].First() <= sequence <= views[0].Next()
      modifies this, disk, segments[0], segments[0].offsetIndex
      ensures ok ==> Valid() && segments == old(segments) && views == Headed(old(views), 0, sequence)
      ensures ok && old(Clean()) ==> Clean()
      ensures ok && old(Readable()) ==> Readable()
      ensures disk.reliable ==> ok
      ensures !ok ==> unchanged(this) && unchanged(segments[0]) && unchanged(segments[0].offsetIndex)
      ensures SlotChanges(old(disk.files), old(views)[0], sequence, old(disk.history), disk.history)
    {
      hide Contiguous, Ascending, Segment.Valid, Segment.Covered, Offset, Total, SoundSegments, SlotChanges, Shut, View.Fits, Tidy;
      hide Live;
      SizesMatch();
      At(0);
      Apart(0);
      AbsHeaded(views, 0, sequence);
      HeadedIsUpdate(views, sequence);
      var segment := segments[0];
      ghost var before, start := disk.files, views;
      if Tidy(before, start) || Live(before, start) { ShutAt(before, start, 0); }
      ok := ReadFrom(segment, sequence);
      if ok {
        views := views[0 := segment.view];
        OneChanged(0);
        if Tidy(before, start) || Live(before, start) { HeadReplaced(before, start, disk.files, views); }
      }
    }

    /** Moves the read start of the first segment to `sequence` unless it is there. */
    method HeadAt(sequence: uint64) returns (ok: bool)
      requires |segments| == |views| > 0 && Valid() && views[0].First() <= sequence <= views[0].Next()
      modifies this, disk, segments[0], segments[0].offsetIndex
      ensures ok ==> Valid() && segments == old(segments) && views == Headed(old(views), 0, sequence)
      ensures ok && old(Clean()) ==> Clean()
      ensures ok && old(Readable()) ==> Readable()
      ensures disk.reliable ==> ok
      ensures !ok ==> unchanged(this) && unchanged(segments[0]) && unchanged(segments[0].offsetIndex)
      ensures SlotChanges(old(disk.files), old(views)[0], sequence, old(disk.history), disk.history)
    {
      hide Valid, Clean, Readable, Headed, View.Fits, Segment.Valid, Segment.Covered, Offset, FileOk, Total, Contiguous, Ascending;
      SizesMatch();
      At(0);
      assert |disk.files[segments[0].name]| >= S.SEGMENT_HEADER by { WholeHeader(segments[0]); }
      HeadedSuffix(views, 0, sequence);
      OffsetFits(views[0], sequence - views[0].base);
      assert views[0..] == views;
      if segments[0].StartSequence() < sequence {
        ok := MoveHead(sequence);
      } else {
        ok := true;
      }
    }

    /** Removes the segments before `k` and their files. */
    method CutBefore(k: nat) returns (ok: bool, ghost gone: nat)
      requires Valid() && k < |segments|
      modifies this, disk
      ensures ok ==> Valid() && segments == old(segments)[k..] && views == old(views)[k..]
      ensures !ok ==> segments == old(segments) && views == old(views)
      ensures gone <= k && (ok ==> gone == k) && diskSize == old(diskSize) - Total(old(views)[..gone])
      ensures ok ==> disk.files == old(disk.files) - Names(old(views)[..k])
      ensures ok && old(Clean()) ==> Clean()
      ensures ok && old(Readable()) ==> Readable()
      ensures FilesVanish(old(disk.files), old(views)[..k], old(disk.history), disk.history)
      ensures disk.reliable ==> ok
    {
      hide Contiguous, SoundSegments, Total, Names, Tidy, FilesVanish, Ascending, Live;
      SizesMatch();
      ghost var n := |segments|;
      PrefixFacts(views, k);
      NamesApart(views, k);
      if Tidy(disk.files, views) { TidyDrop(disk.files, views, k); }
      if Live(disk.files, views) { LiveDrop(disk.files, views, k); }
      assert views[0..k] == views[..k];
      ok, gone := RemoveFiles(0, k);
      assert views[0..gone] == views[..gone];
      if !ok {
        return;
      }
      segments, views := segments[k..], views[k..];
      StillSound((k, n));
      assert old(segments)[k..n] == segments && old(views)[k..n] == views;
    }

    /** Removes the segments before `k`, and the records of segment `k` before `sequence`. */
    method DropTo(k: nat, sequence: uint64) returns (ok: bool)
      requires Valid() && k < |segments| && views[k].First() <= sequence < views[k].Next()
      modifies this, disk, Objects()
      ensures ok ==> Valid() && segments == old(segments)[k..] && views == Headed(old(views), k, sequence)
      ensures ok && old(Clean()) ==> Clean()
      ensures ok && old(Readable()) ==> Readable()
      ensures old(Clean()) ==> AllSurvive(old(views), sequence, old(disk.history), disk.history)
      ensures disk.reliable ==> ok
      ensures !ok ==> HaltedBefore(old(InMemory()), InMemory())
      ensures !ok ==> forall s | s in old(segments) :: unchanged(s) && unchanged(s.offsetIndex)
    {
      hide Valid, Names, Tidy, FilesVanish, SlotChanges, Headed, Ascending, Flatten, AllSurvive, Total, Readable;
      SizesMatch();
      ghost var start, files, history := views, disk.files, disk.history;
      ghost var clean := Clean();
      assert clean ==> Tidy(files, start);
      hide Clean, View.Fits, Segment.Valid, Segment.Covered, Contiguous, Offset;
      ghost var gone, was := 0, InMemory();
      ok, gone := CutBefore(k);
      ghost var n := |start|;
      assert old(segments)[0..n] == old(segments) && start[0..n] == start && start[0..gone] == start[..gone];
      assert old(segments)[k..n] == old(segments)[k..] && start[k..n] == start[k..];
      assert if ok then Left(was, k, n, 0, k, InMemory()) else Left(was, 0, n, 0, gone, InMemory());
      if clean { VanishSurvives(files, start, k, sequence, history, disk.history); }
      if !ok {
        return;
      }
      ghost var mid := disk.history;
      HeadedSuffix(start, k, sequence);
      assert segments[0] == old(segments)[k] && old(segments)[k] in old(segments);
      ok := HeadAt(sequence);
      if clean { TruncationSurvives(files, start, k, sequence, sequence, history, mid, disk.history); }
    }

    /** Hides all records of the last segment and forgets the others, whose files are gone. */
    method KeepTail() returns (ok: bool)
      requires |segments| == |views| > 0 && Last(views).First() <= Last(views).Next()
      requires Contiguous(views) && diskSize == Total(views[|views| - 1..])
      requires SoundSegments(disk, segments[|views| - 1..|views|], views[|views| - 1..|views|])
      modifies this, disk, segments[|segments| - 1], segments[|segments| - 1].offsetIndex
      ensures disk.reliable ==> ok
      ensures !ok ==>
                && unchanged(this) && unchanged(segments[|segments| - 1])
                && unchanged(segments[|segments| - 1].offsetIndex)
      ensures SlotChanges(old(disk.files), Last(old(views)), Last(old(views)).Next(), old(disk.history), disk.history)
      ensures ok ==> views == Headed(old(views), |old(views)| - 1, Last(old(views)).Next())
      ensures ok ==> segments == old(segments)[|old(views)| - 1..] && Valid()
      ensures ok && old(Tidy(disk.files, views[|views| - 1..])) ==> Clean()
      ensures ok && old(Live(disk.files, views[|views| - 1..])) ==> Readable()
    {
      hide SoundSegments, Total, Tidy, SlotChanges, Shut, Headed, Segment.Valid, Segment.Covered, Offset;
      hide Contiguous, Flatten, View.Readable, Live;
      ghost var n, start, left := |segments| - 1, views, disk.files;
      LastSpan(start, 0);
      HeadedContiguous(start, n, Last(start).Next());
      var last := segments[|segments| - 1];
      OnlyOne(disk, segments, views, n);
      if Tidy(left, start[n..]) || Live(left, start[n..]) { ShutAt(left, start[n..], 0); }
      ok := HideAll(last);
      if ok {
        segments, views := segments[|segments| - 1..], [last.view];
        SoundSingle(last);
        assert segments == [last];
        LastHeaded(start, last.view);
        if Tidy(left, start[n..]) || Live(left, start[n..]) { HeadReplaced(left, start[n..], disk.files, views); }
      }
    }

    /** Removes the files of all segments but the last. */
    method RemoveOthers() returns (ok: bool, ghost gone: nat)
      requires |segments| == |views| > 0 && Valid()
      modifies this`diskSize, disk
      ensures gone < |views| && diskSize == old(diskSize) - Total(views[0..gone])
      ensures FilesVanish(old(disk.files), views[..|views| - 1], old(disk.history), disk.history)
      ensures ok ==> diskSize == Total(views[|views| - 1..])
      ensures ok ==> SoundSegments(disk, segments[|views| - 1..|views|], views[|views| - 1..|views|])
      ensures ok ==> disk.files == old(disk.files) - Names(views[..|views| - 1])
      ensures disk.reliable ==> ok
    {
      hide Contiguous, SoundSegments, Total, Names, FilesVanish, Ascending, Segment.Valid, Segment.Covered, Offset;
      SizesMatch();
      ghost var n := |views| - 1;
      PrefixFacts(views, n);
      NamesApart(views, n);
      assert views[0..n] == views[..n];
      ok, gone := RemoveFiles(0, |segments| - 1);
      if ok { StillSound((n, n + 1)); }
    }

    /** Removes all segments but the last, and hides all its records. */
    method DropAll() returns (ok: bool)
      requires Valid()
      modifies this, disk, Objects()
      ensures ok ==> Valid() && segments == old(segments)[|old(views)| - 1..]
      ensures ok ==> views == Headed(old(views), |old(views)| - 1, Last(old(views)).Next())
      ensures ok && old(Clean()) ==> Clean()
      ensures ok && old(Readable()) ==> Readable()
      ensures old(Clean()) ==> AllSurvive(old(views), Last(old(views)).Next(), old(disk.history), disk.history)
      ensures disk.reliable ==> ok
      ensures !ok ==> HaltedBefore(old(InMemory()), InMemory())
      ensures !ok ==> forall s | s in old(segments) :: unchanged(s) && unchanged(s.offsetIndex)
    {
      hide Valid, Contiguous, Total, Names, Tidy, FilesVanish, Ascending, SlotChanges, AllSurvive, Headed, Live;
      hide HaltedBefore, SoundSegments;
      SizesMatch();
      ghost var n, start, files, history := |segments| - 1, views, disk.files, disk.history;
      ghost var tidy, live, was := Tidy(files, start), Live(files, start), InMemory();
      if tidy { TidyDrop(files, start, n); }
      if live { LiveDrop(files, start, n); }
      LastSpan(start, 0);
      ghost var gone;
      ok, gone := RemoveOthers();
      StillListed(was, gone, InMemory());
      if tidy { VanishSurvives(files, start, n, Last(start).Next(), history, disk.history); }
      if !ok {
        return;
      }
      ghost var mid := disk.history;
      assert segments[n] in old(segments);
      ok := KeepTail();
      if tidy {
        TruncationSurvives(files, start, n, Last(start).Next(), Last(start).Next(), history, mid, disk.history);
      }
    }

    /**
      Removes all records below `sequence`. If it stops at any point, the directory still holds a chain
      that can be loaded, with the newest records and every record from `sequence` on.
    */
    method TruncateBefore(sequence: uint64) returns (ok: bool)
      requires Valid()
      modifies this, disk, Objects()
      ensures ok ==> Valid() && OldOrNew() && CutsFront(old(views), sequence, views)
      ensures ok ==> Abs(views) == Abs(old(views)).Before(sequence)
      ensures ok && old(Clean()) ==> Clean()
      ensures ok && old(Readable()) ==> Readable()
      ensures ok && old(Within(limits, views)) ==> Within(limits, views)
      ensures ok ==> Last(views).base == Last(old(views)).base && Last(views).rows == Last(old(views)).rows
      ensures old(Clean()) ==> AllSurvive(old(views), sequence, old(disk.history), disk.history)
      ensures disk.reliable ==> ok
      ensures !ok ==> HaltedBefore(old(InMemory()), InMemory())
      ensures !ok ==> forall s | s in old(segments) :: unchanged(s) && unchanged(s.offsetIndex)
    {
      hide HaltedBefore, CutsFront;
      hide Valid, Clean, Readable, Total, Headed, AllSurvive, Flatten, Within, Contiguous, Ascending, ObjectsOf;
      SizesMatch();
      ghost var start, known, clean, k := views, segments, Clean(), 0;
      NothingHappened(start, sequence, disk.history);
      LastSpan(start, sequence);
      OutsideCut(start, sequence);
      var keep := KeepIndex(sequence);
      if keep == -1 {
        if sequence < segments[|segments| - 1].NextSequence() {
          return true;
        }
        k := |start| - 1;
        WithinHeaded(limits, start, k, Last(start).Next());
        ok := DropAll();
        if clean { SurviveMore(start, Last(start).Next(), sequence, old(disk.history), disk.history); }
      } else {
        k := keep;
        WithinHeaded(limits, start, k, sequence);
        FrontCut(start, k, sequence);
        ok := DropTo(keep, sequence);
      }
      if ok {
        SuffixKnown(known, k, segments);
        CutsFrontAbs(limits, start, sequence, views);
      }
    }

    /** Removes the segments behind `k` and their files. */
    method CutAfter(k: nat) returns (ok: bool, ghost gone: nat)
      requires Valid() && k < |segments|
      modifies this, disk
      ensures ok ==> Valid() && segments == old(segments)[..k + 1] && views == old(views)[..k + 1]
      ensures !ok ==> segments == old(segments) && views == old(views)
      ensures gone <= |old(views)| - (k + 1) && (ok ==> gone == |old(views)| - (k + 1))
      ensures diskSize == old(diskSize) - Total(old(views)[k + 1..k + 1 + gone])
      ensures ok ==> disk.files == old(disk.files) - Names(old(views)[k + 1..])
      ensures ok && old(Clean()) ==> Clean()
      ensures FilesVanish(old(disk.files), old(views)[k + 1..], old(disk.history), disk.history)
      ensures disk.reliable ==> ok
    {
      hide Contiguous, SoundSegments, Total, Names, Tidy, FilesVanish, Ascending, Segment.Valid, Segment.Covered, Offset;
      SizesMatch();
      PrefixFacts(views, k + 1);
      NamesBehind(views, k + 1);
      if Tidy(disk.files, views) { TidyTake(disk.files, views, k + 1); }
      assert |segments| == |views| && views[k + 1..|segments|] == views[k + 1..];
      ok, gone := RemoveFiles(k + 1, |segments|);
      if !ok {
        return;
      }
      segments, views := segments[..k + 1], views[..k + 1];
      StillSound((0, k + 1));
      assert old(segments)[0..k + 1] == segments && old(views)[0..k + 1] == views;
    }

    /** Cuts the last segment behind `sequence`. */
    method ChopTail(sequence: uint64) returns (ok: bool)
      requires |segments| == |views| > 0
      requires views[|views| - 1].First() <= sequence < views[|views| - 1].Next()
      requires Valid()
      modifies this, disk, segments[|segments| - 1], segments[|segments| - 1].offsetIndex
      ensures ok ==> Valid() && segments == old(segments)
      ensures ok ==> views == Tailed(old(views), |old(views)| - 1, sequence)
      ensures ok && old(Clean()) ==> Clean()
      ensures TailCuts(old(disk.files), Last(old(views)), sequence, old(disk.history), disk.history)
      ensures disk.reliable ==> ok
      ensures !ok ==>
                && unchanged(this) && unchanged(segments[|segments| - 1])
                && unchanged(segments[|segments| - 1].offsetIndex)
    {
      hide Contiguous, Ascending, Segment.Valid, Segment.Covered, Offset, Total, SoundSegments, Shut, View.Fits, Tidy;
      SizesMatch();
      ghost var n, start, before := |segments| - 1, views, disk.files;
      At(n);
      Apart(n);
      WidthsOfLast();
      AbsTailed(start, n, sequence, startSequence);
      var keep := segments[|segments| - 1];
      var oldSize := keep.writeOffset;
      var err := keep.Truncate(sequence + 1);
      if err.Some? {
        return false;
      }
      ClosedFile(keep);
      assert keep.startOffset <= keep.writeOffset by { StartBeforeEnd(keep); }  // so the source's clamp is never taken
      views := views[n := keep.view];
      diskSize := diskSize - (oldSize - keep.writeOffset);
      assert views == Tailed(start, n, sequence);
      OneChanged(n);
      AscendingSame(start, n, keep.view);
      TotalReplace(start, n, keep.view);
      if Tidy(before, start) { TailReplaced(before, start, disk.files, views); }
      ok := true;
    }

    /** Removes every segment and starts over with an empty one at the start sequence. */
    method Restart() returns (ok: bool)
      requires Valid()
      modifies this, disk
      ensures ok ==> Valid() && views == [View(startSequence, [], 0)]
      ensures ok ==> |segments| == 1 && fresh(segments[0]) && fresh(segments[0].offsetIndex)
      ensures ok && old(Clean()) ==> Clean()
      ensures disk.reliable && old(Clean()) ==> ok
      ensures old(Clean()) ==>
                AllRestartStates(old(disk.files), old(views), startSequence, old(disk.history), disk.history)
      ensures !ok ==> HaltedAfter(old(InMemory()), InMemory())
      ensures !ok ==> forall s | s in old(segments) :: unchanged(s) && unchanged(s.offsetIndex)
    {
      hide Contiguous, SoundSegments, Total, Tidy, FilesVanish, Ascending, Segment.Valid, Segment.Covered, FileOk, Quiet;
      hide S.NewHeader, Names, AllGrow, AllRestartStates;
      SizesMatch();
      ghost var files, start, past, v := disk.files, views, disk.history, View(startSequence, [], 0);
      if Tidy(files, views) { AllGone(files, views); }
      assert views[0..|segments|] == views;
      ghost var gone, was := 0, InMemory();
      ok, gone := RemoveFiles(0, |segments|);
      assert segments[0..|segments|] == segments && start[0..|start|] == start;
      assert Left(was, 0, |start|, 0, gone, InMemory());
      RemovingStates(files, start, startSequence, past, disk.history);
      if !ok {
        return;
      }
      segments, views := [], [];
      assert Left(was, 0, 0, 0, |start|, InMemory());
      ghost var mid := disk.history;
      var created := Create(disk, startSequence, syncOnAppend);
      if Tidy(files, start) { StartingStates(files, start, startSequence, past, mid, disk.history); }
      if created == null {
        return false;
      }
      segments, views := [created], [v];
      diskSize := diskSize + created.writeOffset;
      SoundSingle(created);
      LonelyView(v);
      FreshFile(startSequence);
      TidySingle(S.NewHeader(startSequence), v);
      ok := true;
    }

    /**
      Removes all records above `sequence`; below the head it removes everything and starts over at the
      start sequence.
    */
    method TruncateAfter(sequence: uint64) returns (ok: bool)
      requires Valid()
      modifies this, disk, Objects()
      ensures ok ==> Valid() && OldOrNew() && CutsEnd(old(views), sequence, startSequence, views)
      ensures ok ==> Abs(views) == Abs(old(views)).After(sequence, startSequence)
      ensures ok && old(Clean()) ==> Clean()
      ensures ok && old(Within(limits, views)) && Roomy(limits) ==> Within(limits, views)
      ensures forall k | 0 <= k < |old(views)| && old(views)[k].First() <= sequence < old(views)[k].Next() ::
                old(Clean()) ==> AllCutStates(old(disk.files), old(views), k, sequence, old(disk.history), disk.history)
      ensures old(Clean()) && sequence < old(views)[0].First() ==>
                AllRestartStates(old(disk.files), old(views), startSequence, old(disk.history), disk.history)
      ensures sequence >= Last(old(views)).Next() ==> disk.files == old(disk.files) && disk.history == old(disk.history)
      ensures !ok ==> HaltedAfter(old(InMemory()), InMemory())
      ensures !ok ==> forall s | s in old(segments) :: unchanged(s) && unchanged(s.offsetIndex)
      ensures disk.reliable && old(Clean()) ==> ok
    {
      hide Valid, Clean, Total, Flatten, Within, Contiguous, Ascending, Tailed, ObjectsOf, Segment.Valid, Segment.Covered;
      hide View.Fits, AllCutStates, AllRestartStates;
      SizesMatch();
      ghost var start, known := views, segments;
      LogSpan(start);
      var keep := KeepIndex(sequence);
      if keep == -1 {
        NoHolder(start, sequence);
        At(0);
        if sequence < segments[0].StartSequence() {
          ok := Restart();
        } else {
          ok := true;
        }
        if ok { CutsEndAbs(limits, start, sequence, startSequence, views); }
        return;
      }
      EndCut(start, keep, sequence, startSequence);
      CutsEndAbs(limits, start, sequence, startSequence, Tailed(start, keep, sequence));
      OnlyHolder(start, keep, sequence);
      MemberObjects(known, keep);
      ok := ChopTo(keep, sequence);
      if ok { PrefixKnown(known, keep + 1, segments); }
    }

    /** Removes the segments behind `k`, and the records of segment `k` above `sequence`. */
    method ChopTo(k: nat, sequence: uint64) returns (ok: bool)
      requires |segments| == |views| && k < |segments| && Valid() && views[k].First() <= sequence < views[k].Next()
      modifies this, disk, segments[k], segments[k].offsetIndex
      ensures ok ==> Valid() && segments == old(segments)[..k + 1] && views == Tailed(old(views), k, sequence)
      ensures ok && old(Clean()) ==> Clean()
      ensures old(Clean()) ==>
                AllCutStates(old(disk.files), old(views), k, sequence, old(disk.history), disk.history)
      ensures disk.reliable ==> ok
      ensures !ok ==> HaltedAfter(old(InMemory()), InMemory())
      ensures !ok ==> forall s | s in old(segments) :: unchanged(s) && unchanged(s.offsetIndex)
    {
      hide Valid, Tidy, Tailed, FilesVanish, TailCuts, AllCutStates, Names;
      ghost var start, files, history := views, disk.files, disk.history;
      ghost var clean := Clean();
      assert clean ==> Tidy(files, start);
      hide Clean;
      TailedPrefix(start, k, sequence);
      ghost var gone, was, n := 0, InMemory(), |start|;
      ok, gone := CutAfter(k);
      assert old(segments)[0..n] == old(segments) && start[0..n] == start;
      assert old(segments)[0..k + 1] == old(segments)[..k + 1] && start[0..k + 1] == start[..k + 1];
      assert if ok then Left(was, 0, k + 1, k + 1, n, InMemory()) else Left(was, 0, n, k + 1, k + 1 + gone, InMemory());
      RemovalStates(files, start, k, sequence, history, disk.history);
      if ok {
        ghost var mid := disk.history;
        assert segments[|segments| - 1] == old(segments)[k];
        ok := ChopTail(sequence);
        if clean { CutBackStates(files, start, k, sequence, history, mid, disk.history); }
      }
    }

    /** What the chain accounts for is what its segments take. */
    ghost predicate Accounted()
      reads this, segments
    {
      diskSize == SumSizes(segments)
    }

    /** Trims the last segment: afterwards it ends behind its last frame. */
    method TrimLast() returns (ok: bool)
      requires segments != [] && segments[|segments| - 1].disk == disk && segments[|segments| - 1].name in disk.files
      modifies disk
      ensures ok && old(Sound() && Ascending(views)) ==>
                && Sound() && |segments| == |views|
                && SameButTail(old(disk.files), disk.files, views) && Shut(disk.files, Last(views))
      ensures old(Sound() && Ascending(views)) ==>
                && |segments| == |views|
                && (|| disk.history == old(disk.history)
                    || exists left :: && disk.history == old(disk.history) + [left]
                                      && SameButTail(old(disk.files), left, views) && Shut(left, Last(views)))
      ensures disk.reliable ==> ok
    {
      hide SoundSegments, Segment.Valid, Segment.Covered, Ascending, FileOk, Quiet, Offset, MetaOf, Resize;
      ghost var n, good := |segments| - 1, Sound() && Ascending(views);
      var last := segments[|segments| - 1];
      if good {
        SoundAt(n);
        SoundApart(n);
        InFile(last);
        TrimmedFile(disk.files[last.name], last.view);
      }
      ghost var left: Files := disk.files[last.name := Resize(disk.files[last.name], last.writeOffset)];
      assert good ==> SameButTail(disk.files, left, views) && Shut(left, Last(views));
      ok := last.Trim();
      if ok && good {
        Refiled(last);
        assert views == old(views)[n := last.view];
        OneChanged(n);
      }
    }

    /** Adds up the sizes of all segments. */
    method AddSizes()
      modifies this`diskSize
      ensures diskSize == old(diskSize) + SumSizes(segments)
      ensures old(Sound()) ==> Sound()
    {
      hide Segment.Valid, Segment.Covered;
      for i := 0 to |segments|
        invariant diskSize == old(diskSize) + SumSizes(segments[..i])
      {
        assert segments[..i + 1][..i] == segments[..i];
        diskSize := diskSize + segments[i].writeOffset;
      }
      assert segments[..|segments|] == segments;
    }

    /** `trim` is the segment that loading this chain from `files` singles out for trimming. */
    ghost predicate TrimChosen(files: Files, trim: Segment?)
      reads this
    {
      && segments != []
      && (trim == null ==> ShutLast(files, views))
      && (trim != null ==> trim == segments[|segments| - 1])
    }

    /** Trims the last segment where that is called for, and takes stock. */
    method Settle(trim: Segment?) returns (err: Option<Error>)
      requires segments != [] && diskSize == 0
      requires forall i | 0 <= i < |segments| :: segments[i].disk == disk && segments[i].name in disk.files
      modifies this`diskSize, disk
      ensures err.None? ==> Accounted() && (limits.maxDiskSize > 0 ==> diskSize <= limits.maxDiskSize)
      ensures old(InARow(segments)) ==> InARow(segments)
      ensures old(Sound() && TrimChosen(disk.files, trim)) && Loadable(old(disk.files), views)
              && (limits.maxDiskSize > 0 ==> Total(views) <= limits.maxDiskSize) ==>
                (err.None? && Clean()) || (err == Some(IoFailure) && !disk.reliable)
      ensures old(Sound() && TrimChosen(disk.files, trim)) && Loadable(old(disk.files), views)
              && 0 < limits.maxDiskSize < Total(views) ==>
                err == Some(DiskFull) || (err == Some(IoFailure) && !disk.reliable)
      ensures trim != null && trim != segments[|segments| - 1] ==> err == Some(UnexpectedEof)
      ensures old(Sound() && TrimChosen(disk.files, trim)) && Loadable(old(disk.files), views) ==>
                AllTidy(views, old(disk.history), disk.history)
      ensures err == Some(UnexpectedEof) ==> disk.files == old(disk.files) && disk.history == old(disk.history)
      ensures err.Some? ==> err.value in {UnexpectedEof, IoFailure, DiskFull}
    {
      hide SoundSegments, Loadable, ShutLast, Total, Tidy, Shut, Contiguous, Ascending, SumSizes, ObjectsOf, SameButTail;
      ghost var files, past := disk.files, disk.history;
      ghost var chosen := Sound() && TrimChosen(disk.files, trim) && Loadable(disk.files, views);
      ghost var good := Sound() && TrimChosen(disk.files, trim) && Loadable(disk.files, views)
                        && (limits.maxDiskSize > 0 ==> Total(views) <= limits.maxDiskSize);
      if chosen { LoadableParts(files, views); }
      if trim != null {
        if trim != segments[|segments| - 1] {
          return Some(UnexpectedEof);
        }
        var ok := TrimLast();
        if chosen { TidyAfterTrim(files, views, past, disk.history); }
        if !ok {
          return Some(IoFailure);
        }
        if chosen { LoadableTrimmed(files, disk.files, views); }
      }
      AddSizes();
      if chosen { SumIsTotal(disk, segments, views); }
      err := if limits.maxDiskSize > 0 && diskSize > limits.maxDiskSize then Some(DiskFull) else None;
    }

    /**
      Finds the chain in its directory, or starts one. `target` is what the directory holds, where it
      holds a chain at all. A directory that is refused stays as it is; any other one holds the same chain
      throughout, or gets the header of its first segment.
    */
    method Load(ghost target: seq<View>) returns (err: Option<Error>)
      modifies this, disk
      ensures err.None? ==> segments != [] && Accounted()
      ensures err.None? ==> forall i | 0 <= i < |segments| :: fresh(segments[i]) && fresh(segments[i].offsetIndex)
      ensures err.None? && limits.maxSegments > 0 ==> |segments| <= limits.maxSegments
      ensures err.None? ==> InARow(segments)
      ensures err.None? ==> forall n | n in old(disk.files) :: |old(disk.files)[n]| >= S.SEGMENT_HEADER
      ensures old(disk.files) == map[] ==>
                || (err.None? && Clean() && views == [View(startSequence, [], 0)])
                || (err == Some(CreateFailure) && !disk.reliable)
      ensures && Loadable(old(disk.files), target)
              && (limits.maxSegments > 0 ==> |target| <= limits.maxSegments)
              && (limits.maxDiskSize > 0 ==> Total(target) <= limits.maxDiskSize)
              && (limits.maxSegments == 1 ==> ShutLast(old(disk.files), target)) ==>
                (err.None? && Clean() && views == target) || (err == Some(IoFailure) && !disk.reliable)
      ensures limits.maxSegments == 1 && Loadable(old(disk.files), target) && |target| == 1 ==>
                ShutLast(old(disk.files), target) || err == Some(UnexpectedEof)
      ensures && limits.maxSegments != 1 && Held(old(disk.files), target) && Ordered(target)
              && (limits.maxSegments > 0 ==> |target| <= limits.maxSegments) ==>
                Contiguous(target) || err == Some(NotContiguous)
      ensures Spoiled(old(disk.files), target) && (limits.maxSegments == 1 ==> |target| == 1) ==>
                err == Some(InvalidChecksum)
      ensures && Stumbles(old(disk.files), target, limits.maxSegments != 1)
              && (limits.maxSegments == 1 && 0 in old(disk.files) ==> |target| == 1) ==>
                err == FirstFault(old(disk.files), target, limits.maxSegments != 1)
      ensures && Held(old(disk.files), target) && 0 < limits.maxSegments < |target|
              && (limits.maxSegments == 1 ==> ShutLast(old(disk.files), target)) ==>
                err == Some(TooManySegments)
      ensures && limits.maxSegments != 1 && TornInside(old(disk.files), target) && Contiguous(target)
              && (limits.maxSegments > 0 ==> |target| <= limits.maxSegments) ==>
                err == Some(UnexpectedEof)
      ensures && Loadable(old(disk.files), target)
              && (limits.maxSegments > 0 ==> |target| <= limits.maxSegments)
              && (limits.maxSegments == 1 ==> ShutLast(old(disk.files), target)) && 0 < limits.maxDiskSize < Total(target) ==>
                err == Some(DiskFull) || (err == Some(IoFailure) && !disk.reliable)
      ensures old(disk.files) == map[] ==>
                AllGrow(map[startSequence := []], startSequence, 0, S.NewHeader(startSequence),
                        old(disk.history), disk.history)
      ensures && Loadable(old(disk.files), target)
              && (limits.maxSegments > 0 ==> |target| <= limits.maxSegments)
              && (limits.maxSegments == 1 ==> ShutLast(old(disk.files), target)) ==>
                AllTidy(target, old(disk.history), disk.history)
      ensures (exists n | n in old(disk.files) :: |old(disk.files)[n]| < S.SEGMENT_HEADER)
              || (err.Some? && err.value !in {IoFailure, DiskFull, CreateFailure}) ==>
                disk.files == old(disk.files) && disk.history == old(disk.history)
    {
      hide Spoiled, Sound, Loadable, Held, Ordered, ShutLast, Total, Tidy, Contiguous, Ascending, SumSizes, ObjectsOf;
      hide AllGrow, S.NewHeader, Stumbles, TornInside, FirstFault, InARow;
      segments, diskSize, views := [], 0, target;
      var trim;
      var found;
      err, found, trim := Gather();
      Adopt(found);
      if err.Some? {
        return;
      }
      if segments == [] {
        err := StartFirst();
      } else {
        err := Settle(trim);
      }
    }

    /** Loads the segments that the directory holds; also the one to trim. */
    method Gather() returns (err: Option<Error>, found: seq<Segment>, trim: Segment?)
      ensures forall i | 0 <= i < |found| :: fresh(found[i]) && fresh(found[i].offsetIndex)
      ensures forall i | 0 <= i < |found| :: found[i].disk == disk && found[i].name in disk.files
      ensures err.None? && limits.maxSegments > 0 ==> |found| <= limits.maxSegments
      ensures err.None? ==> InARow(found)
      ensures err.None? ==> forall n | n in disk.files :: |disk.files[n]| >= S.SEGMENT_HEADER
      ensures disk.files == map[] ==> err.None? && found == []
      ensures && Loadable(disk.files, views)
              && (limits.maxSegments > 0 ==> |views| <= limits.maxSegments)
              && (limits.maxSegments == 1 ==> ShutLast(disk.files, views)) ==>
                && err.None? && SoundSegments(disk, found, views) && found != []
                && (trim == null ==> ShutLast(disk.files, views))
                && (trim != null ==> trim == found[|found| - 1])
      ensures limits.maxSegments == 1 && Loadable(disk.files, views) && |views| == 1 ==>
                ShutLast(disk.files, views) || err == Some(UnexpectedEof)
      ensures && limits.maxSegments != 1 && Held(disk.files, views) && Ordered(views)
              && (limits.maxSegments > 0 ==> |views| <= limits.maxSegments) ==>
                Contiguous(views) || err == Some(NotContiguous)
      ensures Spoiled(disk.files, views) && (limits.maxSegments == 1 ==> |views| == 1) ==> err == Some(InvalidChecksum)
      ensures && Stumbles(disk.files, views, limits.maxSegments != 1)
              && (limits.maxSegments == 1 && 0 in disk.files ==> |views| == 1) ==>
                err.Some? && err == FirstFault(disk.files, views, limits.maxSegments != 1)
      ensures && Held(disk.files, views) && 0 < limits.maxSegments < |views|
              && (limits.maxSegments == 1 ==> ShutLast(disk.files, views)) ==>
                err == Some(TooManySegments)
      ensures && limits.maxSegments != 1 && TornInside(disk.files, views) && Contiguous(views)
              && (limits.maxSegments > 0 ==> |views| <= limits.maxSegments) ==>
                || err == Some(UnexpectedEof)
                || (err.None? && found != [] && trim != null && trim != found[|found| - 1])
    {
      hide *;
      FaultKnown(disk.files, views, limits.maxSegments != 1);
      if Spoiled(disk.files, views) { SpoiledFault(disk.files, views, limits.maxSegments != 1); }
      if Loadable(disk.files, views) { LoadableParts(disk.files, views); }
      if limits.maxSegments == 1 {
        err, found, trim := LoadSingle(disk, syncOnAppend, views);
        if SoundSegments(disk, found, views) { SoundLength(disk, found, views); }
        if |found| <= 1 { AloneInARow(found); }
        return;
      }
      err, found, trim := LoadMany(disk, limits, syncOnAppend, views);
      if SoundSegments(disk, found, views) { SoundLength(disk, found, views); }
    }

    /** Makes these segments the segments of the chain. */
    method Adopt(found: seq<Segment>)
      modifies this`segments
      ensures segments == found
      ensures old(SoundSegments(disk, found, views)) ==> Sound()
      ensures old(InARow(found)) ==> InARow(segments)
    {
      hide Segment.Valid, Segment.Covered;
      segments := found;
    }

    /** Creates the first segment of an empty directory. */
    method StartFirst() returns (err: Option<Error>)
      requires segments == [] && diskSize == 0
      modifies this, disk
      ensures err.None? ==> |segments| == 1 && fresh(segments[0]) && fresh(segments[0].offsetIndex) && Accounted()
      ensures err.None? ==> InARow(segments)
      ensures err.Some? ==> err.value == CreateFailure
      ensures old(disk.files) == map[] ==>
                AllGrow(map[startSequence := []], startSequence, 0, S.NewHeader(startSequence),
                        old(disk.history), disk.history)
      ensures disk.reliable && old(disk.files) == map[] ==> err.None?
      ensures old(disk.files) == map[] && err.None? ==> Clean() && views == [View(startSequence, [], 0)]
    {
      hide Contiguous, SoundSegments, Total, Tidy, Ascending, Segment.Valid, Segment.Covered, FileOk, Quiet, S.NewHeader;
      hide AllGrow;
      ghost var v := View(startSequence, [], 0);
      var created := Create(disk, startSequence, syncOnAppend);
      if created == null {
        return Some(CreateFailure);
      }
      segments, diskSize, views := [created], created.writeOffset, [v];
      SoundSingle(created);
      LonelyView(v);
      FreshFile(startSequence);
      TidySingle(S.NewHeader(startSequence), v);
      SumOfOne(created);
      err := None;
    }

    /** What is known of segment `i`. */
    lemma SoundAt(i: nat)
      requires Sound() && i < |segments|
      ensures |segments| == |views|
      ensures segments[i].disk == disk && segments[i].view == views[i]
      ensures segments[i].Valid() && segments[i].Covered()
      ensures segments[i].name in disk.files && segments[i].name == views[i].base
      ensures segments[i].writeOffset == views[i].Size() && segments[i].writeIndex == |views[i].rows|
      ensures segments[i].NextSequence() == views[i].Next() && segments[i].StartSequence() == views[i].First()
      ensures views[i].Fits() && segments[i].startOffset == Offset(views[i].rows, views[i].start)
    {
      hide Holds, HeaderOk, Offset, I.Truthful, I.Covers, I.Marks;
    }

    /** No other segment shares anything with segment `k`. */
    lemma SoundApart(k: nat)
      requires Sound() && k < |segments| && Ascending(views)
      ensures forall i | 0 <= i < |segments| && i != k ::
                && segments[i] != segments[k] && segments[i].offsetIndex != segments[k].offsetIndex
                && segments[i].name != segments[k].name
    {
      hide Segment.Valid, Segment.Covered, View.Fits, Offset;
      SoundAt(k);
      forall i | 0 <= i < |segments| && i != k
        ensures segments[i].name != segments[k].name
      {
        SoundAt(i);
      }
    }

    lemma Apart(k: nat)
      requires Valid() && k < |segments|
      ensures forall i | 0 <= i < |segments| && i != k ::
                && segments[i] != segments[k] && segments[i].offsetIndex != segments[k].offsetIndex
                && segments[i].name != segments[k].name
    {
      hide Contiguous, Ascending, Total, SoundSegments;
      SoundApart(k);
    }

    /** Only segment `k` and its file changed, and it is valid again. */
    twostate lemma OneChanged(k: nat)
      requires old(Sound()) && k < |segments| && segments == old(segments)
      requires forall i | 0 <= i < |segments| && i != k ::
                 Kept(old(segments)[i]) && segments[i].name != segments[k].name
      requires segments[k].Valid() && segments[k].Covered() && segments[k].OnlyMyFile()
      requires views == old(views)[k := segments[k].view]
      ensures Sound()
    {
      hide FileOk, MetaOf, Offset, I.Truthful, I.Covers, I.Marks;
      forall i | 0 <= i < |segments|
        ensures segments[i].Valid() && segments[i].Covered()
      {
        if i != k {
          Undisturbed(segments[i]);
        }
      }
    }
  }

  ghost predicate SameButTail(before: Files, after: Files, views: seq<View>)
    requires views != []
  {
    var name := Last(views).base;
    name in after && after == before[name := after[name]]
  }

  // What a failed truncation leaves in memory

  /** Segments, their views, and the disk counter. */
  datatype Memory = Memory(segments: seq<Segment>, views: seq<View>, diskSize: int)

  /** Segments `a` up to `b` are left, and the disk counter has given up those from `lo` up to `hi`. */
  ghost predicate Left(before: Memory, a: nat, b: nat, lo: nat, hi: nat, after: Memory)
  {
    && a <= b <= |before.segments| == |before.views| && lo <= hi <= |before.views|
    && after.segments == before.segments[a..b] && after.views == before.views[a..b]
    && after.diskSize == before.diskSize - Total(before.views[lo..hi])
  }

  /** A truncation of the front stopped: all segments are still listed, or the first ones, which are gone, are not. */
  ghost predicate HaltedBefore(before: Memory, after: Memory)
  {
    var n := |before.views|;
    (exists gone: nat :: Left(before, 0, n, 0, gone, after)) || exists k: nat :: Left(before, k, n, 0, k, after)
  }

  /** A truncation of the end stopped: all segments are still listed, or the last ones, which are gone, are not. */
  ghost predicate HaltedAfter(before: Memory, after: Memory)
  {
    var n := |before.views|;
    || (exists k: nat, gone: nat :: Left(before, 0, n, k, gone, after))
    || (exists k: nat :: Left(before, 0, k, k, n, after))
  }

  lemma {:induction false} StillListed(before: Memory, gone: nat, after: Memory)
    requires |before.segments| == |before.views| && gone <= |before.views|
    requires after.segments == before.segments && after.views == before.views
    requires after.diskSize == before.diskSize - Total(before.views[0..gone])
    ensures HaltedBefore(before, after)
  {
    hide Total;
    var n := |before.views|;
    assert before.segments[0..n] == before.segments && before.views[0..n] == before.views;
    assert Left(before, 0, n, 0, gone, after);
  }

  lemma {:induction false} LoadableParts(files: Files, views: seq<View>)
    requires Loadable(files, views)
    ensures views != [] && Contiguous(views) && Ascending(views)
    ensures ShutLast(files, views) ==> Tidy(files, views)
  {
    hide Shut, Contiguous, Ascending;
  }

  /** Trimming the last file of a loadable directory makes it tidy. */
  lemma {:induction false} LoadableTrimmed(before: Files, after: Files, views: seq<View>)
    requires Loadable(before, views) && SameButTail(before, after, views) && Shut(after, Last(views))
    ensures Tidy(after, views)
  {
    hide FileOk, Quiet, Torn, Contiguous;
    NameOf(views, |views| - 1);
    forall i | 0 <= i < |views|
      ensures Shut(after, views[i])
    {
      assert i < |views| - 1 ==> Shut(before, views[i]) && views[i].base != Last(views).base;
    }
  }

  /** Every new state of the directory holds this chain, with files that end cleanly. */
  ghost predicate AllTidy(views: seq<View>, past: seq<Files>, history: seq<Files>)
  {
    && |past| <= |history| && history[..|past|] == past
    && forall j | |past| <= j < |history| :: Tidy(history[j], views)
  }

  lemma {:induction false} TidyAfterTrim(files: Files, views: seq<View>, past: seq<Files>, history: seq<Files>)
    requires Loadable(files, views) && views != []
    requires || history == past
             || exists left :: history == past + [left] && SameButTail(files, left, views) && Shut(left, Last(views))
    ensures AllTidy(views, past, history)
  {
    hide Loadable, Tidy, Shut, SameButTail;
    if history != past {
      var left :| history == past + [left] && SameButTail(files, left, views) && Shut(left, Last(views));
      LoadableTrimmed(files, left, views);
    }
  }

  /** Appending to the last file keeps a directory tidy. */
  lemma {:induction false} TailReplaced(before: Files, start: seq<View>, after: Files, views: seq<View>)
    requires Ascending(start) && start != [] && views != [] && Contiguous(views)
    requires views == start[|start| - 1 := Last(views)] && Last(views).base == Last(start).base
    requires SameButTail(before, after, views) && Shut(after, Last(views))
    ensures Tidy(before, start) ==> Tidy(after, views)
    ensures Live(before, start) ==> Live(after, views)
  {
    hide FileOk, Quiet, Contiguous, Tidy, Live, Ascending;
    if Tidy(before, start) { TidyReplace(before, start, |start| - 1, after[Last(views).base], Last(views)); }
    if Live(before, start) { LiveReplace(before, start, |start| - 1, after[Last(views).base], Last(views)); }
  }

  /** Starting a new segment behind the last one leaves the others readable, whether it succeeds or not. */
  lemma {:induction false} NewestAdded(before: Files, views: seq<View>, after: Files, ok: bool)
    requires views != [] && Ascending(views) && Live(before, views) && Last(views).base < Last(views).Next() < U64
    requires var next := Last(views).Next();
             after - {next} == before - {next} && (ok ==> after == before[next := S.NewHeader(next)])
    ensures Live(after, if ok then views + [View(Last(views).Next(), [], 0)] else views)
  {
    hide FileOk, Quiet, S.NewHeader;
    assert forall i | 0 <= i < |views| - 1 :: views[i].base < Last(views).base;
    LiveElsewhere(before, views, Last(views).Next(), after);
    FreshFile(Last(views).Next());
  }

  lemma {:induction false} AscendingSame(views: seq<View>, k: nat, v: View)
    requires Ascending(views) && k < |views| && v.base == views[k].base
    ensures Ascending(views[k := v])
  {
  }

  lemma {:induction false} AscendingRotated(views: seq<View>, v: View)
    requires views != [] && Ascending(views) && Last(views).base < v.base
    ensures Ascending(views + [v])
  {
  }

  lemma {:induction false} LastHeaded(views: seq<View>, v: View)
    requires views != [] && Contiguous(views) && v == Last(views).(start := |Last(views).rows|)
    ensures [v] == Headed(views, |views| - 1, Last(views).Next())
    ensures Ascending([v]) && Total([v]) == Total(views[|views| - 1..])
    ensures [v] == views[|views| - 1..][0 := v]
  {
    assert views[|views| - 1..] == [Last(views)];
    TotalOne(v);
    TotalOne(Last(views));
  }

  lemma SuffixKnown(known: seq<Segment>, k: nat, segments: seq<Segment>)
    requires k <= |known| && segments == known[k..]
    ensures forall i | 0 <= i < |segments| :: segments[i] in known
  {
  }

  lemma PrefixKnown(known: seq<Segment>, k: nat, segments: seq<Segment>)
    requires k <= |known| && segments == known[..k]
    ensures forall i | 0 <= i < |segments| :: segments[i] in known
  {
  }

  lemma {:induction false} StartedOver(start: nat)
    ensures Contiguous([View(start, [], 0)]) && Abs([View(start, [], 0)]) == Log(start, [])
  {
    FlattenOne(View(start, [], 0));
  }

  /** The last record bounds what a truncation of the front can remove. */
  lemma {:induction false} LastSpan(views: seq<View>, sequence: nat)
    requires views != [] && Contiguous(views)
    ensures views[0].First() <= Last(views).Next() && Last(views).First() <= Last(views).Next()
    ensures sequence >= Last(views).Next() ==> Abs(views).Before(sequence) == Abs(views).Before(Last(views).Next())
  {
    hide Flatten;
    FlattenLength(views);
    FirstsOrdered(views, 0, |views| - 1);
  }

  lemma {:induction false} NothingHappened(views: seq<View>, sequence: nat, history: seq<Files>)
    requires views != [] && Contiguous(views)
    ensures AllSurvive(views, sequence, history, history)
  {
  }

  lemma {:induction false} HeadReplaced(before: Files, start: seq<View>, after: Files, views: seq<View>)
    requires Ascending(start) && start != [] && views != [] && Contiguous(views)
    requires views == start[0 := views[0]] && views[0].base == start[0].base
    requires Shut(after, views[0]) && after == before[views[0].base := after[views[0].base]]
    ensures Tidy(before, start) ==> Tidy(after, views)
    ensures Live(before, start) ==> Live(after, views)
  {
    hide FileOk, Quiet, Contiguous, Tidy, Live, Ascending;
    if Tidy(before, start) { TidyReplace(before, start, 0, after[views[0].base], views[0]); }
    if Live(before, start) { LiveReplace(before, start, 0, after[views[0].base], views[0]); }
  }

  lemma {:induction false} TotalReplace(views: seq<View>, k: nat, v: View)
    requires k < |views|
    ensures Total(views[k := v]) == Total(views) - views[k].Size() + v.Size()
  {
    hide Offset;
    var w := views[k := v];
    TotalSplit(views, k);
    TotalSplit(w, k);
    assert w[..k] == views[..k] && w[k..][1..] == views[k..][1..];
  }

  lemma {:induction false} LonelyView(v: View)
    requires v.start <= |v.rows|
    ensures Contiguous([v]) && Ascending([v]) && Total([v]) == v.Size()
  {
    TotalOne(v);
  }

  /** A log of one segment per view ends where its last segment ends. */
  lemma {:induction false} LogSpan(views: seq<View>)
    requires views != [] && Contiguous(views)
    ensures Abs(views).Next() == Last(views).Next() && Abs(views).head == views[0].First()
  {
    FlattenLength(views);
  }

  lemma {:induction false} FrontCut(views: seq<View>, k: nat, sequence: nat)
    requires Contiguous(views) && HasRecord(views, k, sequence)
    ensures CutsFront(views, sequence, Headed(views, k, sequence))
  {
    hide Headed;
    FirstsOrdered(views, 0, k);
    FirstsOrdered(views, k, |views| - 1);
  }

  /** Below the head there is nothing to cut, and behind the last record everything goes. */
  lemma {:induction false} OutsideCut(views: seq<View>, sequence: nat)
    requires views != [] && Contiguous(views)
    ensures sequence < views[0].First() ==> CutsFront(views, sequence, views)
    ensures Last(views).First() <= Last(views).Next() <= sequence ==>
              CutsFront(views, sequence, Headed(views, |views| - 1, Last(views).Next()))
  {
    hide Headed;
    FirstsOrdered(views, 0, |views| - 1);
  }

  lemma {:induction false} EndCut(views: seq<View>, k: nat, sequence: nat, first: nat)
    requires Contiguous(views) && HasRecord(views, k, sequence)
    ensures CutsEnd(views, sequence, first, Tailed(views, k, sequence))
  {
    hide Tailed;
    FirstsOrdered(views, 0, k);
    FirstsOrdered(views, k, |views| - 1);
  }

  /** A record is in one segment only. */
  lemma {:induction false} OnlyHolder(views: seq<View>, k: nat, sequence: nat)
    requires Contiguous(views) && k < |views| && views[k].First() <= sequence < views[k].Next()
    ensures forall i | 0 <= i < |views| && views[i].First() <= sequence < views[i].Next() :: i == k
    ensures views[0].First() <= sequence < Last(views).Next()
  {
    FirstsOrdered(views, 0, k);
    FirstsOrdered(views, k, |views| - 1);
    forall i | 0 <= i < |views| && views[i].First() <= sequence < views[i].Next()
      ensures i == k
    {
      if i < k {
        FirstsOrdered(views, i, k);
      } else {
        FirstsOrdered(views, k, i);
      }
    }
  }

  lemma {:induction false} NoHolder(views: seq<View>, sequence: nat)
    requires views != [] && Contiguous(views)
    requires sequence < views[0].First() || sequence >= Last(views).Next()
    ensures forall i | 0 <= i < |views| :: !(views[i].First() <= sequence < views[i].Next())
  {
    forall i | 0 <= i < |views|
      ensures !(views[i].First() <= sequence < views[i].Next())
    {
      FirstsOrdered(views, 0, i);
      FirstsOrdered(views, i, |views| - 1);
    }
  }

  lemma {:induction false} AppendNothing(l: Limits, views: seq<View>)
    requires views != [] && Contiguous(views)
    ensures Appends(l, views, [], Ok(0), 0, views) && Deliberate(Ok(0))
    ensures Abs(views) == Abs(views).Drop(0).Add([])
  {
  }

  lemma {:induction false} NamesBehind(views: seq<View>, k: nat)
    requires Ascending(views) && k <= |views|
    ensures forall i | 0 <= i < k :: views[i].base !in Names(views[k..])
  {
  }

  lemma {:induction false} NamesApart(views: seq<View>, k: nat)
    requires Ascending(views) && k <= |views|
    ensures forall i | k <= i < |views| :: views[i].base !in Names(views[..k])
  {
  }

  lemma {:induction false} HeadedIsUpdate(views: seq<View>, sequence: nat)
    requires views != [] && Ascending(views) && views[0].First() <= sequence <= views[0].Next()
    ensures var w := views[0].(start := sequence - views[0].base);
            && Headed(views, 0, sequence) == views[0 := w]
            && Ascending(views[0 := w]) && Total(views[0 := w]) == Total(views)
  {
    var w := views[0].(start := sequence - views[0].base);
    assert views[0 := w][1..] == views[1..];
  }

  lemma {:induction false} OthersNamed(views: seq<View>, k: nat)
    requires Ascending(views) && k < |views|
    ensures forall i | 0 <= i < |views| && i != k :: views[i].base != views[k].base
  {
  }

  lemma {:induction false} PrefixFacts(views: seq<View>, k: nat)
    requires Contiguous(views) && Ascending(views) && k <= |views|
    ensures Contiguous(views[k..]) && Ascending(views[k..]) && Contiguous(views[..k]) && Ascending(views[..k])
    ensures Total(views) == Total(views[..k]) + Total(views[k..])
    ensures k == 1 ==> Total(views[..k]) == views[0].Size() && Names(views[..k]) == {views[0].base}
  {
    TotalSplit(views, k);
    if k == 1 {
      assert views[..k] == [views[0]];
      TotalOne(views[0]);
      NamesOne(views[0]);
    }
  }
}
