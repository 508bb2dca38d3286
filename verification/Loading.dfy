/** Finding the segments of a chain in its directory (the reading half of `Chain.Load`). */
module Loading {
  import opened Errors
  import opened Layout
  import opened Model
  import opened Disks
  import opened Directories
  import opened Segments
  import opened Surveys
  import opened Retention
  import opened Groups
  import S = Slots

  /** The largest name belongs to the last segment. */
  lemma {:induction false} LastName(names: seq<nat>, views: seq<View>)
    requires forall i, j | 0 <= i < j < |names| :: names[i] < names[j]
    requires views != [] && Ascending(views) && forall n :: n in names <==> n in Names(views)
    ensures names != [] && names[|names| - 1] == views[|views| - 1].base
  {
    NameOf(views, |views| - 1);
    var j :| 0 <= j < |names| && names[j] == views[|views| - 1].base;
    assert names[|names| - 1] in names;
    var i :| 0 <= i < |views| && views[i].base == names[|names| - 1];
  }

  /** Without the largest name, the other segments are left. */
  lemma {:induction false} OtherNames(names: seq<nat>, views: seq<View>, m: nat)
    requires forall i, j | 0 <= i < j < |names| :: names[i] < names[j]
    requires names != [] && views != [] && Ascending(views) && names[|names| - 1] == views[|views| - 1].base
    requires m in names <==> m in Names(views)
    ensures m in names[..|names| - 1] <==> m in Names(views[..|views| - 1])
  {
    var rest, v := views[..|views| - 1], views[|views| - 1];
    NamesPush(rest, v);
    assert rest + [v] == views && names == names[..|names| - 1] + [v.base];
    if m in Names(rest) {
      var k :| 0 <= k < |rest| && rest[k].base == m;
    }
  }

  /** Directory order is segment order. */
  lemma {:induction false} NamesInOrder(names: seq<nat>, views: seq<View>)
    requires forall i, j | 0 <= i < j < |names| :: names[i] < names[j]
    requires Ascending(views) && forall n :: n in names <==> n in Names(views)
    ensures |names| == |views| && forall i | 0 <= i < |names| :: names[i] == views[i].base
  {
    if views != [] {
      hide Names;
      LastName(names, views);
      var others, rest := names[..|names| - 1], views[..|views| - 1];
      forall m
        ensures m in others <==> m in Names(rest)
      {
        OtherNames(names, views, m);
      }
      NamesInOrder(others, rest);
      assert forall k | 0 <= k < |others| :: others[k] == names[k];
    } else if names != [] {
      FirstIsIn(names);
    }
  }

  lemma {:induction false} FirstIsIn(names: seq<nat>)
    requires names != []
    ensures names[0] in names
  {
  }

  /** The first of these names are those of the segments, in this order. */
  ghost predicate Named(names: seq<nat>, views: seq<View>)
  {
    |views| <= |names| && forall i | 0 <= i < |views| :: names[i] == views[i].base
  }

  ghost predicate ShutLast(files: Files, views: seq<View>)
  {
    views != [] && Shut(files, views[|views| - 1])
  }

  /** The loaded segments, and the one with a torn frame, are what a run over their files tells. */
  ghost predicate LoadedSo(disk: Disk, segments: seq<Segment>, torn: Segment?, views: seq<View>, progress: Progress)
    reads disk, ObjectsOf(segments)
  {
    && SoundSegments(disk, segments, views) && progress.Through?
    && match progress.torn
       case None => torn == null
       case Some(m) => m < |segments| && torn == segments[m]
  }

  /** Loads one file of a run. */
  method LoadNext(disk: Disk, name: nat, syncOnAppend: bool, tolerant: bool, hasTorn: bool, ghost v: View, ghost i: nat,
                  ghost torn: Option<nat>)
    returns (s: Segment?, err: Option<Error>, stop: Option<Error>)
    requires name in disk.files && (hasTorn <==> torn.Some?)
    ensures s != null ==> fresh(s) && fresh(s.offsetIndex) && s.disk == disk && s.name == name
    ensures stop.None? ==> s != null && |disk.files[name]| >= S.SEGMENT_HEADER && (err.Some? ==> tolerant && !hasTorn)
    ensures Understood(disk.files, v) && name == v.base ==>
              match OneMore(disk.files, v, i, torn, tolerant)
              case Stopped(e) => stop == Some(e)
              case Through(t) =>
                stop.None? && s.Valid() && s.Covered() && s.view == v && t == if err.None? then torn else Some(i)
  {
    hide Segment.Valid, Segment.Covered, FileOk, Verdict, Continues, HeaderFault, StartFault, TailOf;
    s, err := Load(disk, name, syncOnAppend, v);
    stop := None;
    if err.Some? && (!tolerant || hasTorn || err.value != UnexpectedEof) {
      stop := err;
    } else if s == null {
      stop := Some(NilSegment);
    }
  }

  /**
    Loads every file in order. One segment may end in a torn frame, if that is tolerated; it is returned
    as well.
  */
  method LoadFiles(disk: Disk, names: seq<nat>, syncOnAppend: bool, tolerant: bool, ghost views: seq<View>)
    returns (err: Option<Error>, segments: seq<Segment>, torn: Segment?)
    requires forall i | 0 <= i < |names| :: names[i] in disk.files
    ensures forall i | 0 <= i < |segments| :: fresh(segments[i]) && fresh(segments[i].offsetIndex)
    ensures err.None? ==> |segments| == |names|
    ensures names == [] ==> err.None?
    ensures err.None? ==> forall i | 0 <= i < |names| :: |disk.files[names[i]]| >= S.SEGMENT_HEADER
    ensures forall i | 0 <= i < |segments| :: segments[i].disk == disk && segments[i].name in disk.files
    ensures torn != null ==> torn in segments
    ensures Named(names, views) && AllUnderstood(disk.files, views) ==>
              match RunOver(disk.files, views, tolerant)
              case Stopped(e) => err == Some(e)
              case Through(_) =>
                |views| == |names| ==> err.None? && LoadedSo(disk, segments, torn, views, RunOver(disk.files, views, tolerant))
  {
    hide Segment.Valid, Segment.Covered, Understood, OneMore, RunOver, AllUnderstood, Named;
    err, segments, torn := None, [], null;
    ghost var good := Named(names, views) && AllUnderstood(disk.files, views);
    if good {
      RunNone(disk.files, views, tolerant);
      NamesReach(names, views);
    }
    for i := 0 to |names|
      invariant |segments| == i
      invariant forall j | 0 <= j < i :: |disk.files[names[j]]| >= S.SEGMENT_HEADER
      invariant forall j | 0 <= j < i ::
                  && fresh(segments[j]) && fresh(segments[j].offsetIndex)
                  && segments[j].disk == disk && segments[j].name in disk.files
      invariant torn != null ==> torn in segments
      invariant good && i <= |views| ==>
                  && AllUnderstood(disk.files, views[..i])
                  && LoadedSo(disk, segments, torn, views[..i], RunOver(disk.files, views[..i], tolerant))
      invariant good && i >= |views| ==> RunOver(disk.files, views, tolerant).Through?
    {
      ghost var known := good && i < |views|;
      ghost var seen: Option<nat> := if torn == null then None else Some(i);
      if known {
        NameAt(names, views, i);
        RunStep(disk.files, views, i, tolerant);
        RunStopped(disk.files, views, i + 1, tolerant);
        seen := RunOver(disk.files, views[..i], tolerant).torn;
      }
      var s, e, stop := LoadNext(disk, names[i], syncOnAppend, tolerant, torn != null,
                                 if known then views[i] else View(0, [], 0), i, seen);
      if stop.Some? {
        return stop, [], null;
      }
      if known {
        LoadedMore(disk, segments, torn, views, i, tolerant, s, e);
      }
      if e.Some? {
        torn := s;
      }
      segments := segments + [s];
    }
    assert good && |views| == |names| ==> views[..|names|] == views;
  }

  lemma LoadedMore(disk: Disk, segments: seq<Segment>, torn: Segment?, views: seq<View>, i: nat, tolerant: bool, s: Segment,
                   e: Option<Error>)
    requires AllUnderstood(disk.files, views) && i < |views|
    requires AllUnderstood(disk.files, views[..i]) && AllUnderstood(disk.files, views[..i + 1])
    requires LoadedSo(disk, segments, torn, views[..i], RunOver(disk.files, views[..i], tolerant))
    requires s.disk == disk && s.Valid() && s.Covered() && s.view == views[i]
    requires forall j | 0 <= j < |segments| :: segments[j] != s && segments[j].offsetIndex != s.offsetIndex
    requires RunOver(disk.files, views[..i + 1], tolerant) ==
               Through(if e.None? then RunOver(disk.files, views[..i], tolerant).torn else Some(i))
    ensures LoadedSo(disk, segments + [s], if e.Some? then s else torn, views[..i + 1],
                     RunOver(disk.files, views[..i + 1], tolerant))
    ensures i + 1 == |views| ==> views[..i + 1] == views
  {
    hide Segment.Valid, Segment.Covered, RunOver, AllUnderstood;
    SoundAdd(disk, segments, views[..i], s);
    assert views[..i + 1] == views[..i] + [views[i]];
  }

  lemma {:induction false} NamesReach(names: seq<nat>, views: seq<View>)
    requires Named(names, views)
    ensures |views| <= |names|
  {
  }

  lemma {:induction false} NameAt(names: seq<nat>, views: seq<View>, i: nat)
    requires Named(names, views) && i < |views|
    ensures i < |names| && names[i] == views[i].base
  {
  }

  lemma {:induction false} RunNone(files: Files, views: seq<View>, tolerant: bool)
    ensures AllUnderstood(files, views[..0]) && RunOver(files, views[..0], tolerant) == Through(None)
    ensures views == [] ==> RunOver(files, views, tolerant) == Through(None)
  {
    assert views[..0] == [];
  }

  ghost predicate InStartOrder(segments: seq<Segment>)
    reads segments
  {
    forall i, j | 0 <= i < j < |segments| :: segments[i].StartSequence() <= segments[j].StartSequence()
  }

  ghost predicate Gapless(segments: seq<Segment>)
    reads segments
  {
    forall i | 0 <= i < |segments| - 1 :: segments[i].NextSequence() == segments[i + 1].StartSequence()
  }

  /** Start order is the order of the numbers of the first readable records. */
  lemma StartOrderMeans(segments: seq<Segment>)
    ensures InStartOrder(segments) <==>
              forall i | 0 < i < |segments| ::
                segments[i - 1].base + segments[i - 1].startIndex <= segments[i].base + segments[i].startIndex
  {
    if forall i | 0 < i < |segments| :: segments[i - 1].StartSequence() <= segments[i].StartSequence() {
      forall i, j | 0 <= i < j < |segments|
        ensures segments[i].StartSequence() <= segments[j].StartSequence()
      {
        StepsAdd(segments, i, j);
      }
    }
  }

  lemma {:induction false} StepsAdd(segments: seq<Segment>, i: nat, j: nat)
    requires forall k | 0 < k < |segments| :: segments[k - 1].StartSequence() <= segments[k].StartSequence()
    requires i <= j < |segments|
    ensures segments[i].StartSequence() <= segments[j].StartSequence()
    decreases j
  {
    if i < j { StepsAdd(segments, i, j - 1); }
  }

  method InsertByStart(sorted: seq<Segment>, s: Segment) returns (out: seq<Segment>)
    requires InStartOrder(sorted)
    ensures InStartOrder(out) && multiset(out) == multiset(sorted) + multiset{s}
    ensures (sorted == [] || sorted[|sorted| - 1].StartSequence() <= s.StartSequence()) ==> out == sorted + [s]
  {
    hide InStartOrder;
    var j := |sorted|;
    while j > 0 && sorted[j - 1].StartSequence() > s.StartSequence()
      invariant 0 <= j <= |sorted|
      invariant forall k | j <= k < |sorted| :: sorted[k].StartSequence() > s.StartSequence()
    {
      j := j - 1;
    }
    out := sorted[..j] + [s] + sorted[j..];
    InsertedOrder(sorted, s, j);
    InsertedElements(sorted, s, j);
    assert j == |sorted| ==> out == sorted + [s];
  }

  lemma InsertedOrder(sorted: seq<Segment>, s: Segment, j: nat)
    requires InStartOrder(sorted) && j <= |sorted|
    requires j > 0 ==> sorted[j - 1].StartSequence() <= s.StartSequence()
    requires forall k | j <= k < |sorted| :: sorted[k].StartSequence() > s.StartSequence()
    ensures InStartOrder(sorted[..j] + [s] + sorted[j..])
  {
    var out := sorted[..j] + [s] + sorted[j..];
    forall k | 0 <= k < |out|
      ensures k < j ==> out[k] == sorted[k]
      ensures k == j ==> out[k] == s
      ensures k > j ==> out[k] == sorted[k - 1]
    {
    }
  }

  lemma InsertedElements<T>(a: seq<T>, x: T, j: nat)
    requires j <= |a|
    ensures multiset(a[..j] + [x] + a[j..]) == multiset(a) + multiset{x}
  {
    assert a == a[..j] + a[j..];
  }

  /** Sorts by the first readable sequence; segments that agree on it stay in directory order. */
  method SortByStart(segments: seq<Segment>) returns (sorted: seq<Segment>)
    ensures InStartOrder(sorted) && multiset(sorted) == multiset(segments)
    ensures InStartOrder(segments) ==> sorted == segments
  {
    sorted := [];
    for i := 0 to |segments|
      invariant InStartOrder(sorted) && multiset(sorted) == multiset(segments[..i])
      invariant InStartOrder(segments) ==> sorted == segments[..i]
    {
      assert segments[..i + 1] == segments[..i] + [segments[i]];
      sorted := InsertByStart(sorted, segments[i]);
    }
    assert segments[..|segments|] == segments;
  }

  /** Each segment begins with the number behind the last one of the segment before it. */
  ghost predicate InARow(segments: seq<Segment>)
    reads segments
  {
    forall i | 0 < i < |segments| ::
      segments[i - 1].base + segments[i - 1].writeIndex == segments[i].base + segments[i].startIndex
  }

  lemma AloneInARow(segments: seq<Segment>)
    requires |segments| <= 1
    ensures InARow(segments)
  {
  }

  method CheckGapless(segments: seq<Segment>) returns (ok: bool)
    ensures ok <==> Gapless(segments)
    ensures ok <==> InARow(segments)
  {
    var i := 1;
    while i < |segments|
      invariant i >= 1
      invariant forall k | 0 <= k < |segments| - 1 && k < i - 1 ::
                  segments[k].NextSequence() == segments[k + 1].StartSequence()
    {
      if segments[i - 1].NextSequence() != segments[i].StartSequence() {
        return false;
      }
      i := i + 1;
    }
    ok := true;
  }

  /** Directory order is the order of the first readable records. */
  ghost predicate Ordered(views: seq<View>)
  {
    forall i, j | 0 <= i < j < |views| :: views[i].First() <= views[j].First()
  }

  lemma {:induction false} ContiguousOrdered(views: seq<View>)
    requires Contiguous(views)
    ensures Ordered(views)
  {
    forall i, j | 0 <= i < j < |views|
      ensures views[i].First() <= views[j].First()
    {
      FirstsOrdered(views, i, j);
    }
  }

  /** Segments in order leave no gaps exactly when their views leave none. */
  lemma SoundOrder(disk: Disk, segments: seq<Segment>, views: seq<View>)
    requires SoundSegments(disk, segments, views) && Ordered(views)
    ensures InStartOrder(segments) && (Gapless(segments) <==> Contiguous(views))
  {
    hide FileOk, Offset, Segment.Indexed, Segment.Covered;
    if Gapless(segments) {
      forall i | 0 <= i < |views| - 1
        ensures views[i].Next() == views[i + 1].First()
      {
        assert segments[i].NextSequence() == segments[i + 1].StartSequence();
      }
    }
  }

  lemma SameElements<T>(a: seq<T>, b: seq<T>)
    requires multiset(a) == multiset(b)
    ensures |a| == |b| && forall x :: x in a <==> x in b
  {
    assert |multiset(a)| == |a| && |multiset(b)| == |b|;
    forall x
      ensures x in a <==> x in b
    {
      assert x in a <==> x in multiset(a);
      assert x in b <==> x in multiset(b);
    }
  }

  lemma {:induction false} Listing(files: Files, names: seq<nat>, views: seq<View>)
    requires forall i, j | 0 <= i < j < |names| :: names[i] < names[j]
    requires forall n :: n in names <==> n in files
    ensures forall i | 0 <= i < |names| :: names[i] in files
    ensures forall n | n in files :: exists i :: 0 <= i < |names| && names[i] == n
    ensures files == map[] ==> names == []
    ensures Ascending(views) && files.Keys == Names(views) ==> Named(names, views) && |names| == |views|
    ensures Leads(files, views) ==> Named(names, views)
  {
    hide Ascending, Names, Leads;
    assert forall i | 0 <= i < |names| :: names[i] in names;
    if names != [] { FirstIsIn(names); }
    if Ascending(views) && files.Keys == Names(views) {
      assert forall n :: n in names <==> n in Names(views);
      NamesInOrder(names, views);
    }
    if Leads(files, views) { LeadingNames(files, names, views); }
  }

  /** The names up to the last of these segments are theirs. */
  lemma {:induction false} LeadingName(files: Files, names: seq<nat>, views: seq<View>, k: nat, n: nat)
    requires forall i, j | 0 <= i < j < |names| :: names[i] < names[j]
    requires (forall n :: n in names <==> n in files) && Leads(files, views)
    requires k < |names| && names[k] == views[|views| - 1].base
    ensures n in names[..k + 1] <==> n in Names(views)
  {
    if n in names[..k + 1] {
      var i :| 0 <= i <= k && names[i] == n;
      if i == k { NameOf(views, |views| - 1); }
    } else if n in Names(views) {
      var m :| 0 <= m < |views| && views[m].base == n;
    }
  }

  lemma {:induction false} LeadingNames(files: Files, names: seq<nat>, views: seq<View>)
    requires forall i, j | 0 <= i < j < |names| :: names[i] < names[j]
    requires (forall n :: n in names <==> n in files) && Leads(files, views)
    ensures Named(names, views)
  {
    hide Names;
    assert views[|views| - 1].base in names;
    var k :| 0 <= k < |names| && names[k] == views[|views| - 1].base;
    forall n
      ensures n in names[..k + 1] <==> n in Names(views)
    {
      LeadingName(files, names, views, k, n);
    }
    NamesInOrder(names[..k + 1], views);
    assert forall i | 0 <= i <= k :: names[..k + 1][i] == names[i];
  }

  lemma {:induction false} KeysOf(files: Files, views: seq<View>)
    ensures Held(files, views) || Spoiled(files, views) || Frail(files, views) ==>
              Ascending(views) && files.Keys == Names(views)
    ensures forall tolerant :: Stumbles(files, views, tolerant) ==> Leads(files, views)
  {
    hide Shut, Open, Broken;
  }

  /** Puts segments in start order and checks that they leave no gaps. */
  method Arrange(disk: Disk, loaded: seq<Segment>, ghost views: seq<View>)
    returns (err: Option<Error>, segments: seq<Segment>)
    ensures |segments| == |loaded| && forall s :: s in segments <==> s in loaded
    ensures err.None? ==> Gapless(segments) && InARow(segments)
    ensures loaded == [] ==> err.None?
    ensures old(SoundSegments(disk, loaded, views)) && Ordered(views) ==>
              && segments == loaded && SoundSegments(disk, segments, views)
              && err == (if Contiguous(views) then None else Some(NotContiguous))
  {
    hide Segment.Valid, Segment.Covered, Contiguous, Ordered, InARow;
    if SoundSegments(disk, loaded, views) && Ordered(views) { SoundOrder(disk, loaded, views); }
    segments := SortByStart(loaded);
    SameElements(segments, loaded);
    var ok := CheckGapless(segments);
    err := if ok then None else Some(NotContiguous);
  }

  /** The first fault in a directory, whose file is the last of these. */
  ghost function FirstFault(files: Files, views: seq<View>, tolerant: bool): Option<Error>
    requires Stumbles(files, views, tolerant)
  {
    Fault(files[views[|views| - 1].base], views[|views| - 1], tolerant)
  }

  lemma {:induction false} FaultKnown(files: Files, views: seq<View>, tolerant: bool)
    ensures Stumbles(files, views, tolerant) ==> FirstFault(files, views, tolerant).Some?
  {
    hide Shut, Fault;
  }

  lemma {:induction false} SpoiledFault(files: Files, views: seq<View>, tolerant: bool)
    requires Spoiled(files, views)
    ensures Stumbles(files, views, tolerant) && FirstFault(files, views, tolerant) == Some(InvalidChecksum)
  {
    hide Stumbles, Spoiled, Fault;
    SpoiledStumbles(files, views, tolerant);
  }

  /** What a tolerant run over a directory tells, whatever is wrong with it. */
  lemma {:induction false} Foretold(files: Files, views: seq<View>)
    ensures Held(files, views) ==>
              && AllUnderstood(files, views) && views != []
              && RunOver(files, views, true) == Through(if ShutLast(files, views) then None else Some(|views| - 1))
    ensures Stumbles(files, views, true) ==>
              && AllUnderstood(files, views) && FirstFault(files, views, true).Some?
              && RunOver(files, views, true) == Stopped(FirstFault(files, views, true).value)
    ensures TornInside(files, views) ==>
              && AllUnderstood(files, views)
              && match RunOver(files, views, true)
                 case Stopped(e) => e == UnexpectedEof
                 case Through(torn) => torn.Some? && torn.value < |views| - 1
  {
    hide RunOver, AllUnderstood, Fault, Leads, FileOk, Names, Ascending, Quiet, Torn, Understood, OneMore, HeaderFault, StartFault;
    if Held(files, views) { HeldRuns(files, views, true); }
    if Stumbles(files, views, true) { StumblesRuns(files, views, true); }
    if TornInside(files, views) {
      FrailRuns(files, views);
      var i :| 0 <= i < |views| - 1 && Torn(files[views[i].base], views[i].rows);
      OpenFile(files, views[i], i, None, true);
    }
  }

  lemma SoundDistinct(disk: Disk, segments: seq<Segment>, views: seq<View>, m: nat)
    requires SoundSegments(disk, segments, views) && m < |segments| - 1
    ensures segments[m] != segments[|segments| - 1]
  {
    hide Segment.Valid, Segment.Covered;
  }

  /** Any number of segments: in start order, without gaps, no more than allowed. */
  method LoadMany(disk: Disk, limits: Limits, syncOnAppend: bool, ghost views: seq<View>)
    returns (err: Option<Error>, segments: seq<Segment>, trim: Segment?)
    ensures forall i | 0 <= i < |segments| :: fresh(segments[i]) && fresh(segments[i].offsetIndex)
    ensures forall i | 0 <= i < |segments| :: segments[i].disk == disk && segments[i].name in disk.files
    ensures trim != null ==> trim in segments
    ensures err.None? ==>
              Gapless(segments) && InARow(segments) && (limits.maxSegments > 0 ==> |segments| <= limits.maxSegments)
    ensures disk.files == map[] ==> err.None? && segments == []
    ensures err.None? ==> forall n | n in disk.files :: |disk.files[n]| >= S.SEGMENT_HEADER
    ensures Loadable(disk.files, views) && (limits.maxSegments > 0 ==> |views| <= limits.maxSegments) ==>
              && err.None? && SoundSegments(disk, segments, views)
              && trim == (if ShutLast(disk.files, views) then null else segments[|segments| - 1])
    ensures Held(disk.files, views) && Ordered(views) && (limits.maxSegments > 0 ==> |views| <= limits.maxSegments) ==>
              Contiguous(views) || err == Some(NotContiguous)
    ensures Held(disk.files, views) && 0 < limits.maxSegments < |views| ==> err == Some(TooManySegments)
    ensures Stumbles(disk.files, views, true) ==> err == FirstFault(disk.files, views, true)
    ensures && TornInside(disk.files, views) && Contiguous(views)
            && (limits.maxSegments > 0 ==> |views| <= limits.maxSegments) ==>
              || err == Some(UnexpectedEof)
              || (err.None? && segments != [] && trim != null && trim != segments[|segments| - 1])
  {
    hide ShutLast, SoundSegments, Held, Gapless, InARow, Contiguous, Ordered, Stumbles, Frail, TornInside, RunOver, AllUnderstood;
    hide Names, Ascending, Leads, FirstFault, LoadedSo, Understood, OneMore, HeaderFault, StartFault;
    if Contiguous(views) { ContiguousOrdered(views); }
    var names := disk.ReadDir();
    Listing(disk.files, names, views);
    KeysOf(disk.files, views);
    assert TornInside(disk.files, views) ==> Frail(disk.files, views) by { TornIsFrail(disk.files, views); }
    Foretold(disk.files, views);
    var loaded;
    err, loaded, trim := LoadFiles(disk, names, syncOnAppend, true, views);
    segments := loaded;
    if err.Some? {
      return;
    }
    if Held(disk.files, views) || TornInside(disk.files, views) { LoadedParts(disk, loaded, trim, views); }
    err, segments := Assemble(disk, limits, loaded, views);
  }

  /** What was loaded from a directory whose files end cleanly or in a torn frame. */
  lemma LoadedParts(disk: Disk, segments: seq<Segment>, trim: Segment?, views: seq<View>)
    requires AllUnderstood(disk.files, views) && LoadedSo(disk, segments, trim, views, RunOver(disk.files, views, true))
    ensures SoundSegments(disk, segments, views) && |segments| == |views|
    ensures Held(disk.files, views) ==>
              segments != [] && trim == if ShutLast(disk.files, views) then null else segments[|segments| - 1]
    ensures TornInside(disk.files, views) ==> segments != [] && trim != null && trim != segments[|segments| - 1]
  {
    hide RunOver, AllUnderstood, SoundSegments, Held, TornInside, ShutLast;
    Foretold(disk.files, views);
    SoundLength(disk, segments, views);
    if TornInside(disk.files, views) { SoundDistinct(disk, segments, views, RunOver(disk.files, views, true).torn.value); }
  }

  /** No more segments than allowed, in start order, without gaps. */
  method Assemble(disk: Disk, limits: Limits, loaded: seq<Segment>, ghost views: seq<View>)
    returns (err: Option<Error>, segments: seq<Segment>)
    ensures |segments| == |loaded| && (forall s :: s in segments <==> s in loaded)
    ensures forall i | 0 <= i < |segments| :: segments[i] in loaded
    ensures err.None? ==>
              Gapless(segments) && InARow(segments) && (limits.maxSegments > 0 ==> |segments| <= limits.maxSegments)
    ensures loaded == [] ==> err.None?
    ensures 0 < limits.maxSegments < |loaded| ==> err == Some(TooManySegments)
    ensures old(SoundSegments(disk, loaded, views)) && Ordered(views)
            && (limits.maxSegments > 0 ==> |loaded| <= limits.maxSegments) ==>
              && segments == loaded && SoundSegments(disk, segments, views)
              && err == (if Contiguous(views) then None else Some(NotContiguous))
  {
    hide SoundSegments, Contiguous, Ordered;
    if limits.maxSegments > 0 && |loaded| > limits.maxSegments {
      return Some(TooManySegments), loaded;
    }
    err, segments := Arrange(disk, loaded, views);
    assert forall i | 0 <= i < |segments| :: segments[i] in segments;
  }

  lemma {:induction false} TornIsFrail(files: Files, views: seq<View>)
    ensures TornInside(files, views) ==> Frail(files, views)
  {
    hide Frail, Torn;
  }

  lemma {:induction false} ZeroLeads(files: Files, views: seq<View>)
    requires 0 in files && views != [] && Ascending(views) && (files.Keys == Names(views) || Leads(files, views))
    ensures views[0].base == 0
  {
    if files.Keys == Names(views) { assert 0 in files.Keys; }
    if views[|views| - 1].base > 0 { assert 0 in Names(views); }
  }

  /** What a run that tolerates no torn frame tells. */
  lemma {:induction false} ForetoldStrict(files: Files, views: seq<View>)
    ensures Held(files, views) ==>
              && AllUnderstood(files, views) && views != []
              && RunOver(files, views, false) == if ShutLast(files, views) then Through(None) else Stopped(UnexpectedEof)
    ensures Stumbles(files, views, false) ==>
              && AllUnderstood(files, views) && FirstFault(files, views, false).Some?
              && RunOver(files, views, false) == Stopped(FirstFault(files, views, false).value)
    ensures 0 in files && views != [] && AllUnderstood(files, views) && Ascending(views)
            && (files.Keys == Names(views) || Leads(files, views)) ==>
              && views[0].base == 0 && Understood(files, views[0])
              && (|views| == 1 ==> RunOver(files, views, false) == OneMore(files, views[0], 0, None, false))
    ensures 0 in files && Held(files, views) && |views| > 1 ==> OneMore(files, views[0], 0, None, false) == Through(None)
  {
    hide RunOver, OneMore, Fault, Understood, FileOk, Quiet, Torn;
    if Held(files, views) {
      HeldRuns(files, views, false);
      if |views| > 1 {
        ShutIsOpen(files, views[0]);
        OpenFile(files, views[0], 0, None, false);
      }
    }
    if Stumbles(files, views, false) { StumblesRuns(files, views, false); }
    if && 0 in files && views != [] && AllUnderstood(files, views) && Ascending(views)
       && (files.Keys == Names(views) || Leads(files, views))
    {
      ZeroLeads(files, views);
      if |views| == 1 {
        RunStep(files, views, 0, false);
        RunNone(files, views, false);
        assert views[..1] == views;
      }
    }
  }

  /** A single segment, named by sequence 0 or the only one there is. It is always trimmed. */
  method LoadSingle(disk: Disk, syncOnAppend: bool, ghost views: seq<View>)
    returns (err: Option<Error>, segments: seq<Segment>, trim: Segment?)
    ensures forall i | 0 <= i < |segments| :: fresh(segments[i]) && fresh(segments[i].offsetIndex)
    ensures forall i | 0 <= i < |segments| :: segments[i].disk == disk && segments[i].name in disk.files
    ensures trim != null ==> trim in segments
    ensures err.None? ==> |segments| <= 1
    ensures disk.files == map[] ==> err.None? && segments == []
    ensures err.None? ==> forall n | n in disk.files :: |disk.files[n]| >= S.SEGMENT_HEADER
    ensures Loadable(disk.files, views) && ShutLast(disk.files, views) && |views| == 1 ==>
              err.None? && SoundSegments(disk, segments, views) && trim == segments[0]
    ensures Loadable(disk.files, views) && !ShutLast(disk.files, views) && |views| == 1 ==> err == Some(UnexpectedEof)
    ensures Held(disk.files, views) && ShutLast(disk.files, views) && |views| > 1 ==> err == Some(TooManySegments)
    ensures Stumbles(disk.files, views, false) && (0 in disk.files ==> |views| == 1) ==>
              err == FirstFault(disk.files, views, false)
  {
    hide ShutLast, SoundSegments, Held, Contiguous, Segment.Valid, Segment.Covered, Stumbles, Understood;
    hide OneMore, RunOver, AllUnderstood, Names, Ascending, Leads, FirstFault, HeaderFault, StartFault;
    err, segments, trim := None, [], null;
    var names := disk.ReadDir();
    Listing(disk.files, names, views);
    KeysOf(disk.files, views);
    ForetoldStrict(disk.files, views);
    ghost var known := Held(disk.files, views) || (Stumbles(disk.files, views, false) && (0 in disk.files ==> |views| == 1));
    if 0 in disk.files {
      if known { LeadsAscending(disk.files, views); }
      var s, _, stop := LoadNext(disk, 0, syncOnAppend, false, false, if known then views[0] else View(0, [], 0), 0, None);
      if stop.Some? {
        return stop, [], null;
      }
      segments, trim := [s], s;
      if |names| > 1 {
        return Some(TooManySegments), segments, trim;
      }
      SoleName(disk.files, names);
      if known && |views| == 1 && s.Valid() && s.Covered() && s.view == views[0] {
        SoundSingle(s);
        assert [s.view] == views;
      }
    } else {
      err, segments, trim := LoadFiles(disk, names, syncOnAppend, false, views);
      if err.Some? {
        return;
      }
      if |segments| > 1 {
        return Some(TooManySegments), segments, trim;
      }
      if |segments| == 1 {
        trim := segments[0];
      }
    }
  }

  lemma {:induction false} LeadsAscending(files: Files, views: seq<View>)
    ensures Leads(files, views) ==> Ascending(views) && views != []
  {
  }

  lemma {:induction false} SoleName(files: Files, names: seq<nat>)
    requires 0 in files && |names| <= 1 && forall n :: n in names <==> n in files
    ensures forall n | n in files :: n == 0
  {
    assert 0 in names;
  }

  /** The bytes that these segments account for. */
  function SumSizes(segments: seq<Segment>): nat
    reads segments
  {
    if segments == [] then 0
    else SumSizes(segments[..|segments| - 1]) + segments[|segments| - 1].writeOffset
  }

  lemma {:induction false} SumOfOne(s: Segment)
    ensures SumSizes([s]) == s.writeOffset
  {
  }

  lemma {:induction false} SumIsTotal(disk: Disk, segments: seq<Segment>, views: seq<View>)
    requires SoundSegments(disk, segments, views)
    ensures SumSizes(segments) == Total(views)
  {
    hide FileOk, Offset, Segment.Indexed, Segment.Covered;
    if segments != [] {
      var n := |segments| - 1;
      assert segments[n].writeOffset == views[n].Size();
      SumIsTotal(disk, segments[..n], views[..n]);
      TotalSplit(views, n);
      assert views[n..] == [views[n]];
      TotalOne(views[n]);
    }
  }
}
