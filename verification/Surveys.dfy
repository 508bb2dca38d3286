/** What a run over the files of a directory comes to, file by file, and what that means for whole directories. */
module Surveys {
  import opened Bytes
  import opened Errors
  import opened Layout
  import opened Disks
  import opened Directories
  import opened Segments

  // Directories that cannot be loaded

  /**
    What is wrong with a file that holds `v`: it is shorter than a segment header, or has a bad one, or one with a bad
    read start, or goes on behind its frames with a wrong frame. A torn frame is wrong only if it is not tolerated.
  */
  ghost function Fault(file: seq<byte>, v: View, tolerant: bool): Option<Error>
  {
    if file == [] then Some(Eof)
    else if |file| < 64 then Some(if tolerant then NilSegment else UnexpectedEof)
    else if HeaderFault(file) || StartFault(file, v) then Some(InvalidSegmentHeader)
    else if FileOk(file, v) && |v.rows| < U32 then
      match TailOf(file, v.Size(), |v.rows|)
      case Misnumbered => Some(InvalidFrameIndex)
      case BadChecksum => Some(InvalidChecksum)
      case TornFrame => if tolerant then None else Some(UnexpectedEof)
      case _ => None
    else None
  }

  /** These are the segments with the smallest names in the directory. */
  ghost predicate Leads(files: Files, views: seq<View>)
  {
    && views != [] && Ascending(views)
    && (forall i | 0 <= i < |views| :: views[i].base in files)
    && forall n | n in files && n < views[|views| - 1].base :: n in Names(views)
  }

  /** The last of these files is the first one with a fault. */
  ghost predicate Stumbles(files: Files, views: seq<View>, tolerant: bool)
  {
    && Leads(files, views)
    && (forall i | 0 <= i < |views| - 1 :: Shut(files, views[i]))
    && Fault(files[views[|views| - 1].base], views[|views| - 1], tolerant).Some?
  }

  /** The directory holds exactly these segments, and any of its files may end in a torn frame. */
  ghost predicate Frail(files: Files, views: seq<View>)
  {
    && views != [] && Ascending(views)
    && files.Keys == Names(views)
    && forall i | 0 <= i < |views| :: Open(files, views[i])
  }

  /** A file other than the last one ends in a torn frame. */
  ghost predicate TornInside(files: Files, views: seq<View>)
  {
    Frail(files, views) && exists i | 0 <= i < |views| - 1 :: Torn(files[views[i].base], views[i].rows)
  }

  // A run over files

  /** How far a run got: an error stopped it, or it got through, past at most one file that ends in a torn frame. */
  datatype Progress = Stopped(error: Error) | Through(torn: Option<nat>)

  /** The file is too short, or has a bad header or read start, or holds this segment and no further frame. */
  ghost predicate Understood(files: Files, v: View)
  {
    && v.base in files
    && (|| |files[v.base]| < 64 || HeaderFault(files[v.base]) || StartFault(files[v.base], v)
        || (FileOk(files[v.base], v) && Ends(files[v.base], v)))
  }

  ghost predicate AllUnderstood(files: Files, views: seq<View>)
  {
    forall i | 0 <= i < |views| :: Understood(files, views[i])
  }

  /** What one more file comes to, number `i`, when `torn` was seen before. */
  ghost function OneMore(files: Files, v: View, i: nat, torn: Option<nat>, tolerant: bool): Progress
    requires Understood(files, v)
  {
    var file := files[v.base];
    if file == [] then Stopped(Eof)
    else if |file| < 64 then Stopped(if tolerant && torn.None? then NilSegment else UnexpectedEof)
    else if HeaderFault(file) || StartFault(file, v) then Stopped(InvalidSegmentHeader)
    else
      match Verdict(file, v.rows)
      case None => Through(torn)
      case Some(e) => if e == UnexpectedEof && tolerant && torn.None? then Through(Some(i)) else Stopped(e)
  }

  ghost function RunOver(files: Files, views: seq<View>, tolerant: bool): Progress
    requires AllUnderstood(files, views)
  {
    if views == [] then Through(None)
    else
      var n := |views| - 1;
      match RunOver(files, views[..n], tolerant)
      case Stopped(e) => Stopped(e)
      case Through(torn) => OneMore(files, views[n], n, torn, tolerant)
  }

  lemma {:induction false} RunStep(files: Files, views: seq<View>, i: nat, tolerant: bool)
    requires AllUnderstood(files, views) && i < |views|
    ensures AllUnderstood(files, views[..i]) && AllUnderstood(files, views[..i + 1]) && Understood(files, views[i])
    ensures RunOver(files, views[..i + 1], tolerant) ==
              match RunOver(files, views[..i], tolerant)
              case Stopped(e) => Stopped(e)
              case Through(torn) => OneMore(files, views[i], i, torn, tolerant)
  {
    hide Understood;
    assert views[..i + 1][..i] == views[..i];
  }

  /** A run that was stopped does not go on. */
  lemma {:induction false} RunStopped(files: Files, views: seq<View>, i: nat, tolerant: bool)
    requires AllUnderstood(files, views) && i <= |views|
    ensures AllUnderstood(files, views[..i])
    ensures RunOver(files, views[..i], tolerant).Stopped? ==>
              RunOver(files, views, tolerant) == RunOver(files, views[..i], tolerant)
    decreases |views| - i
  {
    hide Understood, OneMore;
    if i < |views| {
      RunStep(files, views, i, tolerant);
      RunStopped(files, views, i + 1, tolerant);
    } else {
      assert views[..i] == views;
    }
  }

  /** What a file that ends cleanly or in a torn frame comes to. */
  lemma {:induction false} OpenFile(files: Files, v: View, i: nat, torn: Option<nat>, tolerant: bool)
    requires Open(files, v)
    ensures Understood(files, v)
    ensures OneMore(files, v, i, torn, tolerant) ==
              if Shut(files, v) then Through(torn)
              else if tolerant && torn.None? then Through(Some(i))
              else Stopped(UnexpectedEof)
    ensures Shut(files, v) <==> !Torn(files[v.base], v.rows)
  {
    hide Quiet, Torn, Verdict, Continues, HeaderFault, StartFault, FileOk;
    var file := files[v.base];
    EndsOneWay(file, v.rows);
    NoFault(file, v);
  }

  lemma {:induction false} NoFault(file: seq<byte>, v: View)
    requires FileOk(file, v)
    ensures |file| >= 64 && !HeaderFault(file) && !StartFault(file, v)
  {
    hide HeaderFault, Holds, S.Fresh, S.Settled, Offset;
    FaultIsReported(file);
    OffsetLowerBound(v.rows, v.start, |v.rows|);
  }

  /** A run over files that end cleanly gets through. */
  lemma {:induction false} ShutRuns(files: Files, views: seq<View>, tolerant: bool)
    requires forall i | 0 <= i < |views| :: Shut(files, views[i])
    ensures AllUnderstood(files, views) && RunOver(files, views, tolerant) == Through(None)
  {
    hide Understood, OneMore, Stored, Quiet;
    if views != [] {
      var n := |views| - 1;
      ShutRuns(files, views[..n], tolerant);
      ShutIsOpen(files, views[n]);
      OpenFile(files, views[n], n, None, tolerant);
    }
  }

  lemma {:induction false} ShutIsOpen(files: Files, v: View)
    ensures Shut(files, v) ==> Open(files, v)
  {
    hide Stored, Quiet, Torn;
  }

  /** A file with a fault stops a run, with what is wrong with it. */
  lemma {:induction false} FaultStops(files: Files, v: View, i: nat, tolerant: bool)
    requires v.base in files && Fault(files[v.base], v, tolerant).Some?
    ensures Understood(files, v) && OneMore(files, v, i, None, tolerant) == Stopped(Fault(files[v.base], v, tolerant).value)
  {
    hide Verdict, Continues, HeaderFault, StartFault, FileOk, TailOf;
    var file := files[v.base];
    if |file| >= 64 && !HeaderFault(file) && !StartFault(file, v) {
      TailVerdict(file, v);
    }
  }

  lemma {:induction false} StumblesRuns(files: Files, views: seq<View>, tolerant: bool)
    requires Stumbles(files, views, tolerant)
    ensures AllUnderstood(files, views)
    ensures var v := views[|views| - 1];
            RunOver(files, views, tolerant) == Stopped(Fault(files[v.base], v, tolerant).value)
  {
    hide Understood, OneMore, Shut, Fault, Names, Ascending;
    var n := |views| - 1;
    ShutRuns(files, views[..n], tolerant);
    FaultStops(files, views[n], n, tolerant);
    forall i | 0 <= i < |views|
      ensures Understood(files, views[i])
    {
      if i < n { assert Understood(files, views[..n][i]); }
    }
  }

  /** A directory that goes on with a corrupt frame stumbles over it. */
  lemma {:induction false} SpoiledStumbles(files: Files, views: seq<View>, tolerant: bool)
    requires Spoiled(files, views)
    ensures Stumbles(files, views, tolerant)
    ensures Fault(files[views[|views| - 1].base], views[|views| - 1], tolerant) == Some(InvalidChecksum)
  {
    hide Verdict, Continues, HeaderFault, StartFault, TailOf, FileOk, Quiet, Corrupt;
    var v := views[|views| - 1];
    forall i | 0 <= i < |views|
      ensures views[i].base in files
    {
      NameOf(views, i);
    }
    NoFault(files[v.base], v);
    TailVerdict(files[v.base], v);
    EndsOneWay(files[v.base], v.rows);
  }

  /** A tolerant run gets past one torn frame, wherever it is, but not past a second one. */
  lemma {:induction false} FrailRuns(files: Files, views: seq<View>)
    requires forall i | 0 <= i < |views| :: Open(files, views[i])
    ensures AllUnderstood(files, views)
    ensures match RunOver(files, views, true)
            case Stopped(e) => e == UnexpectedEof && |views| > 0 && !(forall i | 0 <= i < |views| - 1 :: Shut(files, views[i]))
            case Through(None) => forall i | 0 <= i < |views| :: Shut(files, views[i])
            case Through(Some(m)) =>
              && m < |views| && !Shut(files, views[m])
              && forall i | 0 <= i < |views| && i != m :: Shut(files, views[i])
  {
    hide Understood, OneMore, Shut, Open;
    if views != [] {
      var n := |views| - 1;
      FrailRuns(files, views[..n]);
      match RunOver(files, views[..n], true) {
        case Stopped(_) => OpenFile(files, views[n], n, None, true);
        case Through(torn) =>
          OpenFile(files, views[n], n, torn, true);
      }
    }
  }

  /** What a run over such a directory comes to, if only the last file may end in a torn frame. */
  lemma {:induction false} HeldRuns(files: Files, views: seq<View>, tolerant: bool)
    requires Held(files, views)
    ensures AllUnderstood(files, views)
    ensures RunOver(files, views, tolerant) ==
              if Shut(files, views[|views| - 1]) then Through(None)
              else if tolerant then Through(Some(|views| - 1))
              else Stopped(UnexpectedEof)
  {
    hide Understood, OneMore, Shut, Open;
    var n := |views| - 1;
    ShutRuns(files, views[..n], tolerant);
    OpenFile(files, views[n], n, None, tolerant);
    forall i | 0 <= i < |views|
      ensures Understood(files, views[i])
    {
      if i < n { assert Understood(files, views[..n][i]); }
    }
  }
}
