/** A log whose process may die at any point of any operation, and is started again on what it left. */
module Reboots {
  import opened Bytes
  import opened Errors
  import opened Layout
  import opened Disks
  import opened Directories
  import opened Retention
  import opened Recovery
  import opened Crashes
  import opened Mixes
  import opened Contents
  import opened Surveys
  import opened Loading
  import opened Segments
  import opened Groups
  import opened Chains
  import opened Reading
  import opened Logs
  import opened Traces
  import opened Runs
  import M = Model
  import S = Slots

  /**
    An operation, and where the process dies, if it does: each number counts the changes of the directory that
    are survived, first in the operation and then in the loads that follow, one after the other.
  */
  datatype Act = Act(op: Op, dies: seq<nat>)

  function Ops(acts: seq<Act>): seq<Op>
  {
    seq(|acts|, i requires 0 <= i < |acts| => acts[i].op)
  }

  /** The event is what becomes of the act. */
  ghost predicate Follows(act: Act, e: Event)
  {
    if act.dies == [] then Answers(act.op, e)
    else
      match act.op
      case Append(batch) => e.CrashedAppending? && e.batch == batch
      case TruncateBefore(sequence) => e == CrashedBefore(sequence)
      case TruncateAfter(sequence) => e == CrashedAfter(sequence)
      case Consume(fromSeq, fn) => e.CrashedConsuming? && e.fromSeq == fromSeq && e.fn == fn
      case Reload => e == Reloaded
  }

  /** The directory after so many of the changes that an operation made; all are there if there are not as many. */
  function Found(before: Files, mark: nat, history: seq<Files>, at: nat): Files
    requires mark <= |history|
  {
    if at == 0 || mark == |history| then before
    else if mark + at <= |history| then history[mark + at - 1]
    else history[|history| - 1]
  }

  /** The directory before an act, the one that its crash left, and the one that the last load found. */
  datatype Trail = Trail(before: Files, found: Files, left: Files)

  /** A process that dies before it changes anything leaves everything as it is. */
  ghost predicate TrailOf(trail: Trail, before: Files, at: nat, deaths: seq<nat>)
  {
    && trail.before == before && (at == 0 ==> trail.found == before)
    && (AllZero(deaths) ==> trail.left == trail.found)
  }

  ghost predicate AllZero(deaths: seq<nat>)
  {
    forall i | 0 <= i < |deaths| :: deaths[i] == 0
  }

  /** The first segment is on its way to an empty directory. */
  ghost predicate Begun(env: Setting, files: Files)
  {
    env.first < U64 && Grows(map[env.first := []], env.first, 0, S.NewHeader(env.first), files)
  }

  /** Loads that die leave a short file only where there was one, or where they start the first segment. */
  ghost predicate Followed(env: Setting, trail: Trail)
  {
    Short(trail.left) ==> Short(trail.found) || (trail.found == map[] && Begun(env, trail.left))
  }

  /** All that a log consists of was there before, or is new. */
  twostate predicate Succeeds(log: Log, new next: Log)
    reads next, next.chain, log, log.chain
  {
    && SettingOf(next) == SettingOf(log)
    && (next == log || (fresh(next) && fresh(next.chain) && fresh(next.chain.disk)))
    && forall o | o in next.chain.Objects() :: o in old(log.chain.Objects()) || fresh(o)
  }

  // Loads that are interrupted

  /** A directory that is refused, with what it holds instead of a chain. */
  ghost predicate Refused(l: Limits, target: seq<View>, files: Files)
  {
    || Short(files)
    || (Spoiled(files, target) && (l.maxSegments == 1 ==> |target| == 1))
    || (l.maxSegments == 1 && Frayed(files, target))
    || Gappy(l, target, files)
  }

  ghost predicate Gappy(l: Limits, target: seq<View>, files: Files)
  {
    && l.maxSegments != 1 && Held(files, target) && Ordered(target) && !M.Contiguous(target)
    && (l.maxSegments > 0 ==> |target| <= l.maxSegments)
  }

  ghost predicate IsFirst(env: Setting, target: seq<View>)
  {
    target == [View(env.first, [], 0)] && Within(env.limits, target)
  }

  /** What interrupted loads make of a directory: it is still as good, or as bad, as it was. */
  ghost predicate Endures(env: Setting, target: seq<View>, found: Files, left: Files)
  {
    && (Fitting(found, env.limits, target) ==> Fitting(left, env.limits, target))
    && (Refused(env.limits, target, found) ==> left == found)
    && (found == map[] && IsFirst(env, target) ==>
          left == map[] || (Short(left) && Begun(env, left)) || Fitting(left, env.limits, target))
  }

  lemma {:induction false} HeldIsLong(files: Files, target: seq<View>)
    requires Held(files, target)
    ensures !Short(files)
  {
    hide Quiet, Torn, HeaderOk, Holds;
    forall n | n in files
      ensures |files[n]| >= S.SEGMENT_HEADER
    {
      var i :| 0 <= i < |target| && target[i].base == n;
      assert Stored(files, target[i]);
    }
  }

  lemma {:induction false} LeftShort(env: Setting, target: seq<View>, trail: Trail)
    requires Endures(env, target, trail.found, trail.left)
    requires || Fitting(trail.found, env.limits, target) || Refused(env.limits, target, trail.found)
             || (trail.found == map[] && IsFirst(env, target))
    ensures Followed(env, trail)
  {
    hide Refused, IsFirst, Short, Begun, Held, ShutLast, InLimits;
    if Fitting(trail.left, env.limits, target) { HeldIsLong(trail.left, target); }
    if trail.left == map[] { assert !Short(trail.left) by { NothingIsLong(); } }
  }

  lemma {:induction false} NothingIsLong()
    ensures !Short(map[])
  {
  }

  lemma {:induction false} EnduresAgain(env: Setting, target: seq<View>, found: Files, mid: Files, left: Files)
    requires Endures(env, target, found, mid) && Endures(env, target, mid, left)
    ensures Endures(env, target, found, left)
  {
    hide Fitting, Spoiled, Frayed, Gappy, IsFirst, Short, Begun;
  }

  lemma {:induction false} AnyTidy(l: Limits, files: Files, target: seq<View>, history: seq<Files>, at: nat)
    requires Fitting(files, l, target) && AllTidy(target, [], history)
    ensures Fitting(Found(files, 0, history, at), l, target)
  {
    hide Loadable, ShutLast, Tidy, M.Total;
    var found := Found(files, 0, history, at);
    if found != files {
      assert Tidy(found, target);
      TidyIsLoadable(found, target);
      TidyLast(found, target);
    }
  }

  lemma {:induction false} AnyFirst(env: Setting, target: seq<View>, history: seq<Files>, at: nat)
    requires IsFirst(env, target) && env.first < U64
    requires AllGrow(map[env.first := []], env.first, 0, S.NewHeader(env.first), [], history)
    ensures var left := Found(map[], 0, history, at);
            left == map[] || (Short(left) && Begun(env, left)) || Fitting(left, env.limits, target)
  {
    hide Fitting, Short, Grows, S.NewHeader, Within;
    var left: Files := Found(map[], 0, history, at);
    if left != map[] {
      FirstLoads(env.first, left);
      if !Short(left) { TidyFits(left, target, env.limits); }
    }
  }

  /** A process that dies in a load, after so many changes of the directory. */
  method Interrupt(files: Files, log: Log, at: nat, ghost target: seq<View>) returns (left: Files)
    ensures Endures(SettingOf(log), target, files, left) && (at == 0 ==> left == files)
  {
    hide Begun, Spoiled, Chain.Clean, Chain.Valid, Loadable, ShutLast, Held, Ordered, M.Contiguous, M.Total, Within, AllGrow, AllTidy;
    hide S.NewHeader;
    var disk := new Disk(files, log.chain.disk.reliable);
    var chain := new Chain(disk, log.chain.startSequence, log.chain.limits, log.chain.syncOnAppend);
    var err := chain.Load(target);
    left := Found(files, 0, disk.history, at);
    if Fitting(files, log.chain.limits, target) { AnyTidy(log.chain.limits, files, target, disk.history, at); }
    if files == map[] && IsFirst(SettingOf(log), target) { AnyFirst(SettingOf(log), target, disk.history, at); }
  }

  /** The next processes load what the last one left, until one does not die in it. */
  method Reboot(found: Files, log: Log, deaths: seq<nat>, ghost target: seq<View>)
    returns (err: Option<Error>, next: Log, ghost left: Files)
    ensures fresh(next) && fresh(next.chain) && fresh(next.chain.disk) && SettingOf(next) == SettingOf(log)
    ensures err.None? ==> fresh(next.chain.Objects())
    ensures Endures(SettingOf(log), target, found, left) && (AllZero(deaths) ==> left == found)
    ensures Fitting(found, log.chain.limits, target)
            || (found == map[] && IsFirst(SettingOf(log), target) && !Short(left)) ==>
              || (&& err.None? && next.chain.Clean() && next.chain.views == target
                  && next.nextConsumeSeq == next.Records().head)
              || (err.Some? && !log.chain.disk.reliable)
    ensures Refused(log.chain.limits, target, found) || Short(left) ==> err.Some?
  {
    hide Chain.Clean, Chain.Valid, M.Flatten, M.Contiguous, Endures, Fitting, Refused, IsFirst, Short;
    var rest := found;
    NothingInterrupted(SettingOf(log), target, found);
    for i := 0 to |deaths|
      invariant Endures(SettingOf(log), target, found, rest) && (AllZero(deaths) ==> rest == found)
    {
      var after := Interrupt(rest, log, deaths[i], target);
      EnduresAgain(SettingOf(log), target, found, rest, after);
      rest := after;
    }
    left := rest;
    EndureParts(SettingOf(log), target, found, left);
    err, next := Relaunch(rest, log, target);
  }

  /** A new process opens what it finds. */
  method Relaunch(files: Files, log: Log, ghost target: seq<View>) returns (err: Option<Error>, next: Log)
    ensures fresh(next) && fresh(next.chain) && fresh(next.chain.disk) && SettingOf(next) == SettingOf(log)
    ensures err.None? ==> fresh(next.chain.Objects())
    ensures Fitting(files, log.chain.limits, target) || (files == map[] && IsFirst(SettingOf(log), target)) ==>
              || (&& err.None? && next.chain.Clean() && next.chain.views == target
                  && next.nextConsumeSeq == next.Records().head)
              || (err.Some? && !log.chain.disk.reliable)
    ensures Refused(log.chain.limits, target, files) || Short(files) ==> err.Some?
  {
    hide Spoiled, Chain.Clean, Chain.Valid, Loadable, ShutLast, M.Total, Held, Ordered, M.Contiguous, M.Flatten, Within;
    hide Stumbles, TornInside, FirstFault;
    var disk := new Disk(files, log.chain.disk.reliable);
    var chain := new Chain(disk, log.chain.startSequence, log.chain.limits, log.chain.syncOnAppend);
    next := new Log(chain);
    err := next.Load(target);
  }

  lemma {:induction false} NothingInterrupted(env: Setting, target: seq<View>, found: Files)
    ensures Endures(env, target, found, found)
  {
    hide Fitting, Refused, IsFirst, Short, Begun;
  }

  lemma {:induction false} EndureParts(env: Setting, target: seq<View>, found: Files, left: Files)
    requires Endures(env, target, found, left)
    ensures Fitting(found, env.limits, target) ==> Fitting(left, env.limits, target)
    ensures Refused(env.limits, target, found) ==> left == found
    ensures found == map[] && IsFirst(env, target) ==> left == map[] || Short(left) || Fitting(left, env.limits, target)
  {
    hide Fitting, Refused, IsFirst, Short, Begun;
  }

  /** Segments that the log may go on with. */
  ghost predicate Sustains(env: Setting, w: seq<View>, rows: nat, bytes: nat)
  {
    && w != [] && M.Contiguous(w) && Within(env.limits, w) && Spacious(env.limits, w, rows, bytes)
    && Max(M.Abs(w).Next(), env.first) + rows < U64
  }

  lemma Revived(next: Log, env: Setting, rows: nat, bytes: nat)
    requires next.chain.Clean() && env == SettingOf(next) && Sustains(env, next.chain.views, rows, bytes)
    ensures Ready(next, rows, bytes)
  {
    hide Within, Spacious, Tidy, SoundSegments;
  }

  lemma ReadySustains(log: Log, rows: nat, bytes: nat)
    requires Ready(log, rows, bytes)
    ensures Sustains(SettingOf(log), log.chain.views, rows, bytes) && Tidy(log.chain.disk.files, log.chain.views)
    ensures log.chain.Clean() && log.chain.Readable() && log.chain.Valid()
  {
    hide Within, Spacious, Tidy, Chain.Valid, M.Contiguous, M.Flatten, Live;
    ReadyParts(log, rows, bytes);
    CleanIsTidy(log.chain);
  }

  // Truncating the front

  lemma {:induction false} NothingRemoved(files: Files, start: seq<View>, sequence: nat)
    requires Tidy(files, start)
    ensures Survives(files, start, sequence)
  {
    hide Tidy, M.Flatten, M.Total;
    TidyParts(files, start);
    assert M.Abs(start).Drop(0) == M.Abs(start);
    assert Remains(files, start, start, sequence);
  }

  lemma {:induction false} RemainsSpacious(l: Limits, files: Files, w: seq<View>, start: seq<View>, sequence: nat,
                                           rows: nat, bytes: nat)
    requires start != [] && M.Contiguous(start) && Remains(files, w, start, sequence) && Spacious(l, start, rows, bytes)
    ensures Spacious(l, w, rows, bytes)
  {
    hide M.Total, Tidy, KeepsFrom, Offset, M.Contiguous;
  }

  /** Wherever a truncation of the front stops, the log goes on. */
  lemma {:induction false} FrontLanding(env: Setting, files: Files, start: seq<View>, sequence: nat, past: seq<Files>,
                                        history: seq<Files>, at: nat, rows: nat, bytes: nat)
      returns (w: seq<View>)
    requires Sustains(env, start, rows, bytes) && Tidy(files, start) && AllSurvive(start, sequence, past, history)
    ensures Fitting(Found(files, |past|, history, at), env.limits, w) && Sustains(env, w, rows, bytes)
    ensures KeepsFrom(M.Abs(start), M.Abs(w), sequence) && Survives(Found(files, |past|, history, at), start, sequence)
  {
    hide M.Contiguous, M.Flatten, M.Total, Within, Spacious, Tidy, Fitting, KeepsFrom, Remains;
    var found := Found(files, |past|, history, at);
    NothingRemoved(files, start, sequence);
    assert Survives(found, start, sequence);
    w :| Remains(found, w, start, sequence);
    RemainsFitting(found, w, start, sequence, env.limits);
    RemainsSpacious(env.limits, found, w, start, sequence, rows, bytes);
    RemainsEnd(found, w, start, sequence);
  }

  lemma {:induction false} RemainsEnd(files: Files, w: seq<View>, start: seq<View>, sequence: nat)
    requires start != [] && M.Contiguous(start) && Remains(files, w, start, sequence)
    ensures w != [] && M.Contiguous(w) && KeepsFrom(M.Abs(start), M.Abs(w), sequence)
    ensures M.Abs(w).Next() == M.Abs(start).Next()
  {
    hide M.Contiguous, M.Flatten, M.Total, Shut;
  }

  method DieBefore(log: Log, sequence: uint64, at: nat, deaths: seq<nat>, ghost rows: nat, ghost bytes: nat)
    returns (err: Option<Error>, next: Log, ghost trail: Trail)
    requires Ready(log, rows, bytes)
    modifies log.chain, log.chain.disk, log.chain.Objects()
    ensures err.None? ==> Succeeds(log, next) && Ready(next, rows, bytes)
    ensures err.None? ==> Step(SettingOf(log), old(StateOf(log)), CrashedBefore(sequence), StateOf(next))
    ensures err.Some? ==> !log.chain.disk.reliable
    ensures |old(log.chain.disk.history)| <= |log.chain.disk.history|
    ensures trail.found ==
              Found(old(log.chain.disk.files), |old(log.chain.disk.history)|, log.chain.disk.history, at)
    ensures TrailOf(trail, old(log.chain.disk.files), at, deaths) && Followed(SettingOf(log), trail)
    ensures old(StateOf(log)).Sound() && Survives(trail.found, old(log.chain.views), sequence)
  {
    hide Chain.Valid, Chain.Clean, Chain.Readable, Within, M.Contiguous, M.Flatten, AllSurvive, Tidy, KeepsFrom, CutsFront;
    hide Spacious, Ready, Fitting, Refused, Endures, IsFirst, HaltedBefore, Followed, Survives;
    ReadySustains(log, rows, bytes);
    ghost var env, start, past := SettingOf(log), log.chain.views, log.chain.disk.history;
    var files, mark := log.chain.disk.files, |log.chain.disk.history|;
    var ok := log.chain.TruncateBefore(sequence);
    assert mark <= |log.chain.disk.history| by { NoFewer(start, sequence, past, log.chain.disk.history); }
    ghost var w := FrontLanding(env, files, start, sequence, past, log.chain.disk.history, at, rows, bytes);
    var crashed := Found(files, mark, log.chain.disk.history, at);
    ghost var left;
    err, next, left := Reboot(crashed, log, deaths, w);
    trail := Trail(files, crashed, left);
    LeftShort(env, w, trail);
    if err.None? { Revived(next, env, rows, bytes); }
  }

  lemma {:induction false} NoFewer(start: seq<View>, sequence: nat, past: seq<Files>, history: seq<Files>)
    requires start != [] && M.Contiguous(start) && AllSurvive(start, sequence, past, history)
    ensures |past| <= |history|
  {
  }

  /** The records were delivered, but perhaps not forgotten. */
  method DieConsuming(log: Log, fromSeq: uint64, fn: Record -> bool, at: nat, deaths: seq<nat>,
                      ghost rows: nat, ghost bytes: nat)
    returns (err: Option<Error>, next: Log, ghost e: Event, ghost trail: Trail)
    requires Ready(log, rows, bytes)
    modifies log, log.chain, log.chain.disk, log.chain.Objects()
    ensures e.CrashedConsuming? && e.fromSeq == fromSeq && e.fn == fn
    ensures err.None? ==> Succeeds(log, next) && Ready(next, rows, bytes)
    ensures err.None? ==> Step(SettingOf(log), old(StateOf(log)), e, StateOf(next))
    ensures err.Some? ==> !log.chain.disk.reliable
    ensures |old(log.chain.disk.history)| <= |log.chain.disk.history|
    ensures trail.found ==
              Found(old(log.chain.disk.files), |old(log.chain.disk.history)|, log.chain.disk.history, at)
    ensures TrailOf(trail, old(log.chain.disk.files), at, deaths) && Followed(SettingOf(log), trail)
    ensures old(StateOf(log)).Sound() && Survives(trail.found, old(log.chain.views), Forgets(old(StateOf(log)), e))
  {
    hide Chain.Valid, Chain.Clean, Chain.Readable, Within, M.Contiguous, M.Flatten, AllSurvive, Tidy, KeepsFrom, CutsFront;
    hide Followed, Survives, Spacious, Ready, Fitting, Refused, Endures, IsFirst, Deliver, Window, AllAccepted, Accepted;
    hide Shows, Onward, KeptFrom;
    ReadySustains(log, rows, bytes);
    ghost var env, s, past := SettingOf(log), StateOf(log), log.chain.disk.history;
    var files, mark := log.chain.disk.files, |log.chain.disk.history|;
    var failed, delivered := log.Consume(fromSeq, fn);
    e := CrashedConsuming(fromSeq, fn, delivered);
    ConsumedExactly(s.Records(), fromSeq, s.cursor, fn, delivered);
    assert mark <= |log.chain.disk.history| by { NoFewer(s.views, Forgets(s, e), past, log.chain.disk.history); }
    ghost var w := FrontLanding(env, files, s.views, Forgets(s, e), past, log.chain.disk.history, at, rows, bytes);
    var crashed := Found(files, mark, log.chain.disk.history, at);
    ghost var left;
    err, next, left := Reboot(crashed, log, deaths, w);
    trail := Trail(files, crashed, left);
    LeftShort(env, w, trail);
    if err.None? { Revived(next, env, rows, bytes); }
  }

  // Appending

  lemma {:induction false} NothingAppended(l: Limits, files: Files, start: seq<View>, batch: seq<Payload>)
    requires start != []
    ensures AppendState(l, files, start, batch, files)
  {
    hide BatchSize, NeedsReap, Writing;
    assert start[..0] == [];
    assert files - Names([]) == files;
    assert AppendStep(l, files, start, batch, 0, files);
  }

  lemma {:induction false} FoundAppending(l: Limits, files: Files, start: seq<View>, batch: seq<Payload>,
                                          past: seq<Files>, history: seq<Files>, at: nat)
    requires start != [] && AllAppendSteps(l, files, start, batch, past, history)
    ensures |past| <= |history| && AppendState(l, files, start, batch, Found(files, |past|, history, at))
  {
    hide AppendState;
    NothingAppended(l, files, start, batch);
  }

  lemma {:induction false} SalvagedStep(env: Setting, files: Files, s: State, batch: seq<Payload>, found: Files, t: State,
                                        rows: nat, bytes: nat)
      returns (haunted: bool)
    requires Sustains(env, s.views, |batch| + rows, BatchSize(batch) + bytes)
    requires Within(env.limits, t.views) && Modest(env.limits, s.views, batch, t.views) && t.Sound()
    requires t.cursor == t.Records().head
    requires || Salvages(env.limits, s.views, batch, t.Records())
             || AppendHaunts(env.limits, files, s.views, batch, found, t.Records())
    ensures Step(env, s, CrashedAppending(batch, haunted), t) && Sustains(env, t.views, rows, bytes)
    ensures haunted ==> AppendHaunts(env.limits, files, s.views, batch, found, t.Records())
  {
    hide Within, M.Contiguous, M.Flatten, Spacious, BatchSize, Needed, Salvages, AppendHaunts, Haunted;
    haunted := !Salvages(env.limits, s.views, batch, t.Records());
    if haunted { HauntedBatch(env.limits, files, s.views, batch, found, t.Records()); }
    var k, added := CrashedRecords(env, s, CrashedAppending(batch, haunted), t);
  }

  lemma {:induction false} HauntedBatch(l: Limits, files: Files, start: seq<View>, batch: seq<Payload>, found: Files, log: M.Log)
    requires start != [] && M.Contiguous(start) && AppendHaunts(l, files, start, batch, found, log)
    ensures Haunted(l, start, batch, log)
  {
    hide M.Contiguous, M.Flatten, BatchSize, NeedsReap, Overwrite, EncodeAll, MixedHeader, Keeps;
    var k: nat :| && Needed(l, start, BatchSize(batch), k)
                  && Haunts(files - Names(start[..k]), Last(start), batch, found) && Keeps(start, k, [[]], 1, log);
  }

  /** A crash in an append of `batch` to `start` left a directory that cannot be loaded. */
  ghost predicate StuckAppending(l: Limits, files: Files, start: seq<View>, batch: seq<Payload>, found: Files)
    requires start != []
  {
    || Short(found) || AppendSpoils(l, files, start, batch, found)
    || (l.maxSegments == 1 && exists w :: Frayed(found, w))
  }

  lemma {:induction false} GrownIsLong(files: Files, name: nat, at: nat, data: seq<byte>, after: Files)
    requires !Short(files) && at >= S.SEGMENT_HEADER && Grows(files, name, at, data, after)
    ensures !Short(after)
  {
  }

  lemma {:induction false} NothingSpoils(l: Limits, files: Files, start: seq<View>, batch: seq<Payload>, found: Files)
    requires start != [] && Last(start).base in files && |files[Last(start).base]| == Last(start).Size()
    ensures !AppendSpoils(l, files, start, batch, found)
  {
    hide Offset, EncodeAll, Overwrite, NeedsReap, BatchSize, MixedHeader;
    forall k: nat | Needed(l, start, BatchSize(batch), k)
      ensures !Spoils(files - Names(start[..k]), Last(start), batch, found)
    {
    }
  }

  /**
    A crash in an append is always survived if the batch starts no new segment, the last file ends with its
    last frame, and more than one segment is allowed.
  */
  lemma {:induction false} NeverStuckInPlace(l: Limits, files: Files, start: seq<View>, batch: seq<Payload>, found: Files)
    requires start != [] && M.Contiguous(start) && Tidy(files, start) && AppendState(l, files, start, batch, found)
    requires l.maxSegments != 1 && !Rotates(l, start, BatchSize(batch))
    requires Last(start).base in files && |files[Last(start).base]| == Last(start).Size()
    ensures !StuckAppending(l, files, start, batch, found)
  {
    hide Tidy, M.Contiguous, Short, AppendSpoils, Grows, EncodeAll, NeedsReap, BatchSize, Offset, Names, Frayed;
    NothingSpoils(l, files, start, batch, found);
    var k: nat :| AppendStep(l, files, start, batch, k, found);
    var rest := files - Names(start[..k]);
    TidyDrop(files, start, k);
    TidyIsLong(rest, start[k..]);
    assert Last(start[k..]) == Last(start);
    if found != rest {
      OffsetLowerBound(Last(start).rows, 0, |Last(start).rows|);
      OffsetAtZero(Last(start).rows);
      GrownIsLong(rest, Last(start).base, Last(start).Size(), EncodeAll(|Last(start).rows|, batch), found);
    }
  }

  /** What becomes of a directory in which an append stopped: it is refused, or the log goes on with `w`. */
  lemma {:induction false} AppendLanding(env: Setting, files: Files, start: seq<View>, batch: seq<Payload>, found: Files)
      returns (w: seq<View>)
    requires start != [] && M.Contiguous(start) && Within(env.limits, start) && RoomFor(env.limits, start, batch)
    requires Tidy(files, start) && AppendState(env.limits, files, start, batch, found)
    ensures if StuckAppending(env.limits, files, start, batch, found) then Refused(env.limits, w, found)
            else
              && Fitting(found, env.limits, w) && Within(env.limits, w) && Modest(env.limits, start, batch, w)
              && w != [] && M.Contiguous(w)
              && (|| Salvages(env.limits, start, batch, M.Abs(w))
                  || AppendHaunts(env.limits, files, start, batch, found, M.Abs(w)))
  {
    hide M.Contiguous, M.Flatten, Within, Tidy, RoomFor, Short, AppendState, Salvages, AppendSpoils, AppendHaunts, Modest;
    hide M.Total, Spoiled, Frayed, Fitting, Gappy;
    w := Outcome(env.limits, files, start, batch, found);
  }

  method DieAppending(log: Log, batch: seq<Payload>, at: nat, deaths: seq<nat>, ghost rows: nat, ghost bytes: nat)
    returns (err: Option<Error>, next: Log, ghost haunted: bool, ghost trail: Trail)
    requires Ready(log, |batch| + rows, BatchSize(batch) + bytes)
    modifies log.chain, log.chain.disk, log.chain.Objects()
    ensures err.None? ==> Succeeds(log, next) && Ready(next, rows, bytes)
    ensures err.None? ==> Step(SettingOf(log), old(StateOf(log)), CrashedAppending(batch, haunted), StateOf(next))
    ensures old(log.chain.views) != [] && old(StateOf(log)).Sound()
    ensures err.None? && haunted ==>
              && StateOf(next).Sound()
              && AppendHaunts(log.chain.limits, old(log.chain.disk.files), old(log.chain.views), batch, trail.found,
                              StateOf(next).Records())
    ensures StuckAppending(log.chain.limits, old(log.chain.disk.files), old(log.chain.views), batch, trail.found) ==> err.Some?
    ensures err.Some? && log.chain.disk.reliable ==>
              StuckAppending(log.chain.limits, old(log.chain.disk.files), old(log.chain.views), batch, trail.found)
    ensures |old(log.chain.disk.history)| <= |log.chain.disk.history|
    ensures trail.found ==
              Found(old(log.chain.disk.files), |old(log.chain.disk.history)|, log.chain.disk.history, at)
    ensures TrailOf(trail, old(log.chain.disk.files), at, deaths) && Followed(SettingOf(log), trail)
    ensures AppendState(log.chain.limits, old(log.chain.disk.files), old(log.chain.views), batch, trail.found)
  {
    hide Chain.Valid, Chain.Clean, Chain.Readable, Within, M.Contiguous, M.Flatten, Tidy, RoomFor, Appends, Deliberate;
    hide Spacious, Ready, Fitting, BatchSize, AllAppendSteps, AppendState, StuckAppending, AppendHaunts, Framable;
    hide Modest, Salvages, Step, Refused, Endures, IsFirst, Followed;
    ReadySustains(log, |batch| + rows, BatchSize(batch) + bytes);
    ghost var env, s, past := SettingOf(log), StateOf(log), log.chain.disk.history;
    var files, mark := log.chain.disk.files, |log.chain.disk.history|;
    LogSpan(s.views);
    SpaciousRoom(env.limits, s.views, batch, rows, bytes);
    var r, k := log.chain.Append(batch);
    FoundAppending(env.limits, files, s.views, batch, past, log.chain.disk.history, at);
    var crashed := Found(files, mark, log.chain.disk.history, at);
    ghost var w := AppendLanding(env, files, s.views, batch, crashed);
    ghost var left;
    err, next, left := Reboot(crashed, log, deaths, w);
    haunted, trail := false, Trail(files, crashed, left);
    LeftShort(env, w, trail);
    if err.None? {
      haunted := SalvagedStep(env, files, s, batch, crashed, StateOf(next), rows, bytes);
      Revived(next, env, rows, bytes);
    }
  }

  // Truncating the end

  /** What is left behind a gap that no record was in, or up to a gap at the end. */
  lemma {:induction false} GapRecords(views: seq<View>, k: nat, m: nat, sequence: nat, first: nat)
    requires M.Contiguous(views) && k < m <= |views| && views[k].First() <= sequence < views[k].Next()
    requires M.Contiguous(Gapped(views, k, m))
    ensures Gapped(views, k, m) != [] && CutShort(M.Abs(views), sequence, first, M.Abs(Gapped(views, k, m)))
  {
    hide M.Contiguous, M.Flatten;
    M.FirstsOrdered(views, 0, k);
    if m == |views| {
      var x := views[k].Next() - 1;
      M.AbsTailed(views, k, x, first);
      WholeTail(views, k);
    } else {
      EmptyGap(views, k, m);
      LogSpan(views);
      assert M.Abs(views) == M.Abs(views).After(Max(M.Abs(views).Next(), sequence), first);
    }
  }

  lemma {:induction false} WholeTail(views: seq<View>, k: nat)
    requires k < |views| && views[k].First() < views[k].Next()
    ensures M.Tailed(views, k, views[k].Next() - 1) == Gapped(views, k, |views|)
  {
    assert views[k].rows[..|views[k].rows|] == views[k].rows;
  }

  lemma {:induction false} EmptyGap(views: seq<View>, k: nat, m: nat)
    requires M.Contiguous(views) && k < m < |views| && M.Contiguous(Gapped(views, k, m))
    ensures M.Abs(Gapped(views, k, m)) == M.Abs(views)
  {
    hide M.Flatten;
    GapContiguous(views, k, m);
    var left := Gapped(views, k, m);
    M.FlattenSplit(views, m);
    M.FlattenSplit(views[..m], k + 1);
    M.FlattenSplit(left, k + 1);
    assert views[..m][..k + 1] == views[..k + 1] == left[..k + 1] && left[k + 1..] == views[m..];
    var gap := views[k + 1..m];
    assert views[..m][k + 1..] == gap;
    if k + 1 < m {
      M.ContiguousParts(views, k + 1, m);
      M.FlattenLength(gap);
    }
    assert M.Flatten(gap) == [];
  }

  lemma {:induction false} GapSpacious(l: Limits, views: seq<View>, k: nat, m: nat, rows: nat, bytes: nat)
    requires k < m <= |views| && Spacious(l, views, rows, bytes)
    ensures Spacious(l, Gapped(views, k, m), rows, bytes)
  {
    hide Offset;
  }

  lemma {:induction false} GapWithin(l: Limits, views: seq<View>, k: nat, m: nat)
    requires M.Contiguous(views) && k < m <= |views| && Within(l, views)
    ensures Within(l, Gapped(views, k, m)) && Ordered(Gapped(views, k, m))
    ensures l.maxSegments == 1 ==> m == |views| == 1
  {
    hide M.Total, Offset, M.Contiguous, Ordered;
    GapFits(l, views, k, m);
  }

  /** Records were between the kept segment and what is left behind it. */
  ghost predicate Gap(files: Files, start: seq<View>, sequence: nat, found: Files)
  {
    exists k: nat, m: nat :: GapAfter(files, start, sequence, k, m, found)
  }

  ghost predicate GapAfter(files: Files, start: seq<View>, sequence: nat, k: nat, m: nat, found: Files)
  {
    && HasRecord(start, k, sequence) && Without(files, start, k, m, found)
    && m < |start| && start[m].First() != start[k].Next()
  }

  lemma {:induction false} GapRefused(env: Setting, files: Files, start: seq<View>, sequence: nat, found: Files,
                                      rows: nat, bytes: nat)
      returns (w: seq<View>)
    requires Sustains(env, start, rows, bytes) && Tidy(files, start) && Gap(files, start, sequence, found)
    ensures Gappy(env.limits, w, found)
  {
    hide M.Contiguous, M.Flatten, M.Total, Within, Spacious, Tidy, Held, Ordered, Gapped, Names;
    var k: nat, m: nat :| GapAfter(files, start, sequence, k, m, found);
    w := Gapped(start, k, m);
    GapLeft(files, start, k, m);
    GapWithin(env.limits, start, k, m);
    WithinIsInLimits(env.limits, w);
  }

  /** Where a truncation of the end may stop, unless it leaves a gap: the log goes on. */
  lemma {:induction false} EndLanding(env: Setting, files: Files, start: seq<View>, k: nat, sequence: nat, found: Files,
                                      rows: nat, bytes: nat)
      returns (w: seq<View>)
    requires Sustains(env, start, rows, bytes) && Tidy(files, start) && !Gap(files, start, sequence, found)
    requires k < |start| && start[k].First() <= sequence < start[k].Next() && CutState(files, start, k, sequence, found)
    ensures Fitting(found, env.limits, w) && Sustains(env, w, rows, bytes)
    ensures CutShort(M.Abs(start), sequence, env.first, M.Abs(w))
  {
    hide M.Contiguous, M.Flatten, M.Total, Within, Spacious, Tidy, Fitting, Held, Ordered, Gapped, M.Tailed, Names, CutShort;
    if m :| Without(files, start, k, m, found) {
      w := Gapped(start, k, m);
      assert !GapAfter(files, start, sequence, k, m, found);
      GapLeft(files, start, k, m);
      GapWithin(env.limits, start, k, m);
      GapSpacious(env.limits, start, k, m, rows, bytes);
      WithinIsInLimits(env.limits, w);
      GapRecords(start, k, m, sequence, env.first);
      CutShortEnd(M.Abs(start), sequence, env.first, M.Abs(w));
      GapFitting(env.limits, files, start, k, m, found);
    } else {
      w := M.Tailed(start, k, sequence);
      M.AbsTailed(start, k, sequence, env.first);
      M.FirstsOrdered(start, 0, k);
      TailedLength(start, k, sequence);
      WithinTailed(env.limits, start, k, sequence);
      SpaciousTailed(env.limits, start, k, sequence, rows, bytes);
      TidyFits(found, w, env.limits);
      assert CutShort(M.Abs(start), sequence, env.first, M.Abs(w)) by { CutOnce(M.Abs(start), sequence, env.first); }
      CutShortEnd(M.Abs(start), sequence, env.first, M.Abs(w));
    }
  }

  lemma {:induction false} CutOnce(log: M.Log, sequence: nat, first: nat)
    requires log.head <= sequence
    ensures CutShort(log, sequence, first, log.After(sequence, first))
  {
  }

  lemma {:induction false} CutShortEnd(before: M.Log, sequence: nat, first: nat, after: M.Log)
    requires CutShort(before, sequence, first, after)
    ensures after.Next() <= Max(before.Next(), first)
  {
  }

  /** Where starting over below the head may stop: the log goes on, or a header was cut short. */
  lemma {:induction false} RestartLanding(env: Setting, files: Files, start: seq<View>, sequence: nat, found: Files,
                                          rows: nat, bytes: nat)
      returns (w: seq<View>)
    requires Sustains(env, start, rows, bytes) && Roomy(env.limits) && Tidy(files, start)
    requires sequence < start[0].First() && RestartState(files, start, env.first, found)
    ensures || Short(found)
            || (&& (found == map[] ==> IsFirst(env, w))
                && (found != map[] ==> Fitting(found, env.limits, w))
                && Sustains(env, w, rows, bytes) && CutShort(M.Abs(start), sequence, env.first, M.Abs(w)))
  {
    hide M.Contiguous, M.Flatten, M.Total, Within, Spacious, Tidy, Fitting, Behind, Roomy, Short, RestartState;
    WithinEmpty(env.limits, env.first);
    SpaciousEmpty(env.limits, start, rows, bytes, env.first);
    assert M.Contiguous([View(env.first, [], 0)]) && M.Abs([View(env.first, [], 0)]) == M.Log(env.first, []) by {
      StartedOver(env.first);
    }
    w := RestartLoads(env.limits, files, start, env.first, found);
    if found == map[] {
      w := [View(env.first, [], 0)];
    } else if !Short(found) {
      TidyFits(found, w, env.limits);
      if w != [View(env.first, [], 0)] {
        var m: nat :| m < |start| && w == start[m..];
        M.AbsDrop(start, m);
        SpaciousLess(env.limits, start, m, rows, bytes, 0, 0);
      }
    }
  }

  lemma {:induction false} NothingCut(files: Files, start: seq<View>, k: nat, sequence: nat)
    requires k < |start| && start[k].First() <= sequence < start[k].Next()
    ensures CutState(files, start, k, sequence, files)
  {
    hide Tidy;
    assert start[k + 1..k + 1] == [] && files - Names([]) == files;
    assert Without(files, start, k, k + 1, files);
  }

  lemma {:induction false} NothingRestarted(files: Files, start: seq<View>, first: nat)
    ensures RestartState(files, start, first, files)
  {
    assert start[..0] == [] && files - Names([]) == files;
    assert Behind(files, start, 0, files);
  }

  lemma {:induction false} HolderOf(views: seq<View>, sequence: nat) returns (k: nat)
    requires views != [] && M.Contiguous(views) && views[0].First() <= sequence < Last(views).Next()
    ensures k < |views| && views[k].First() <= sequence < views[k].Next()
  {
    k := 0;
    while sequence >= views[k].Next()
      invariant k < |views| && views[k].First() <= sequence
      decreases |views| - k
    {
      k := k + 1;
    }
  }

  /** What is found after a crash in a truncation of the end, wherever the process died. */
  ghost predicate EndStates(env: Setting, files: Files, start: seq<View>, sequence: nat, past: seq<Files>, history: seq<Files>)
    requires start != []
  {
    && (sequence < start[0].First() ==> AllRestartStates(files, start, env.first, past, history))
    && (sequence >= Last(start).Next() ==> history == past)
    && (forall k | 0 <= k < |start| && start[k].First() <= sequence < start[k].Next() ::
          AllCutStates(files, start, k, sequence, past, history))
  }

  /** The log goes on with `w`, or a header was cut short, or there is a gap. */
  ghost predicate EndOutcome(env: Setting, files: Files, start: seq<View>, sequence: nat, found: Files, w: seq<View>,
                             rows: nat, bytes: nat)
    requires start != [] && M.Contiguous(start)
  {
    if Gap(files, start, sequence, found) then Gappy(env.limits, w, found)
    else if sequence < start[0].First() && Short(found) then true
    else
      && (if found == map[] then sequence < start[0].First() && IsFirst(env, w) else Fitting(found, env.limits, w))
      && Sustains(env, w, rows, bytes) && CutShort(M.Abs(start), sequence, env.first, M.Abs(w))
  }

  lemma {:induction false} NoneUndone(env: Setting, files: Files, start: seq<View>, sequence: nat, past: seq<Files>,
                                      history: seq<Files>)
    requires start != [] && M.Contiguous(start) && EndStates(env, files, start, sequence, past, history)
    ensures |past| <= |history|
  {
    hide CutState, RestartState, M.Contiguous;
    if start[0].First() <= sequence < Last(start).Next() {
      var k := HolderOf(start, sequence);
    }
  }

  /** A directory that a crash in a truncation of the end may leave. */
  ghost predicate EndState(env: Setting, files: Files, start: seq<View>, sequence: nat, found: Files)
    requires start != []
  {
    if sequence < start[0].First() then RestartState(files, start, env.first, found)
    else if sequence >= Last(start).Next() then found == files
    else exists k: nat :: CutAt(files, start, k, sequence, found)
  }

  ghost predicate CutAt(files: Files, start: seq<View>, k: nat, sequence: nat, found: Files)
  {
    HasRecord(start, k, sequence) && CutState(files, start, k, sequence, found)
  }

  lemma {:induction false} FoundAfter(env: Setting, files: Files, start: seq<View>, sequence: nat, past: seq<Files>,
                                      history: seq<Files>, at: nat)
    requires start != [] && M.Contiguous(start)
    requires EndStates(env, files, start, sequence, past, history) && |past| <= |history|
    ensures EndState(env, files, start, sequence, Found(files, |past|, history, at))
  {
    hide M.Contiguous, RestartState, CutState;
    NothingRestarted(files, start, env.first);
    if start[0].First() <= sequence < Last(start).Next() {
      var k := HolderOf(start, sequence);
      NothingCut(files, start, k, sequence);
      assert CutAt(files, start, k, sequence, Found(files, |past|, history, at));
    }
  }

  lemma {:induction false} AfterLanding(env: Setting, files: Files, start: seq<View>, sequence: nat, found: Files,
                                        rows: nat, bytes: nat)
      returns (w: seq<View>)
    requires Sustains(env, start, rows, bytes) && Roomy(env.limits) && Tidy(files, start)
    requires EndState(env, files, start, sequence, found)
    ensures EndOutcome(env, files, start, sequence, found, w, rows, bytes)
  {
    hide M.Contiguous, M.Flatten, M.Total, Sustains, Tidy, Fitting, Roomy, Short, RestartState, CutState, CutShort, Gappy;
    hide Gap, IsFirst;
    assert start != [] && M.Contiguous(start) by { TidyParts(files, start); }
    LogSpan(start);
    if Gap(files, start, sequence, found) {
      w := GapRefused(env, files, start, sequence, found, rows, bytes);
    } else if sequence < start[0].First() {
      w := RestartLanding(env, files, start, sequence, found, rows, bytes);
    } else if sequence >= Last(start).Next() {
      w := start;
      assert Fitting(files, env.limits, start) by { SustainedFits(env, files, start, rows, bytes); }
      assert files != map[] by { TidyNamed(files, start); }
      CutOnce(M.Abs(start), sequence, env.first);
    } else {
      var k: nat :| CutAt(files, start, k, sequence, found);
      w := EndLanding(env, files, start, k, sequence, found, rows, bytes);
      assert found != map[] by { NoneFits(found, env.limits, w); }
    }
  }

  lemma {:induction false} SustainedFits(env: Setting, files: Files, start: seq<View>, rows: nat, bytes: nat)
    requires Sustains(env, start, rows, bytes) && Tidy(files, start)
    ensures Fitting(files, env.limits, start)
  {
    hide Tidy, Fitting, Within;
    TidyFits(files, start, env.limits);
  }

  lemma {:induction false} TidyNamed(files: Files, views: seq<View>)
    requires Tidy(files, views)
    ensures files != map[]
  {
    hide M.Contiguous, Ascending;
    assert Shut(files, views[0]);
  }

  lemma {:induction false} NoneFits(files: Files, l: Limits, views: seq<View>)
    ensures files == map[] ==> !Fitting(files, l, views)
  {
    hide M.Contiguous, Ascending, M.Total;
    if views != [] { NameOf(views, 0); }
  }

  /** A crash in a truncation of the end, and the loads after it, left a directory that cannot be loaded. */
  ghost predicate StuckAfter(files: Files, start: seq<View>, sequence: nat, found: Files, left: Files)
    requires start != []
  {
    Gap(files, start, sequence, found) || (sequence < start[0].First() && Short(left))
  }

  method DieAfter(log: Log, sequence: uint64, at: nat, deaths: seq<nat>, ghost rows: nat, ghost bytes: nat)
    returns (err: Option<Error>, next: Log, ghost trail: Trail)
    requires Ready(log, rows, bytes) && Roomy(log.chain.limits)
    modifies log.chain, log.chain.disk, log.chain.Objects()
    ensures err.None? ==> Succeeds(log, next) && Ready(next, rows, bytes)
    ensures err.None? ==> Step(SettingOf(log), old(StateOf(log)), CrashedAfter(sequence), StateOf(next))
    ensures old(log.chain.views) != []
    ensures StuckAfter(old(log.chain.disk.files), old(log.chain.views), sequence, trail.found, trail.left) ==> err.Some?
    ensures err.Some? && log.chain.disk.reliable ==>
              StuckAfter(old(log.chain.disk.files), old(log.chain.views), sequence, trail.found, trail.left)
    ensures |old(log.chain.disk.history)| <= |log.chain.disk.history|
    ensures trail.found ==
              Found(old(log.chain.disk.files), |old(log.chain.disk.history)|, log.chain.disk.history, at)
    ensures TrailOf(trail, old(log.chain.disk.files), at, deaths) && Followed(SettingOf(log), trail)
    ensures EndState(SettingOf(log), old(log.chain.disk.files), old(log.chain.views), sequence, trail.found)
  {
    hide Chain.Valid, Chain.Clean, Chain.Readable, Within, M.Contiguous, M.Flatten, Tidy, CutsEnd, Roomy, Spacious, Ready;
    hide Fitting, Gappy, Short, AllCutStates, AllRestartStates, CutShort, HaltedAfter, Gap, IsFirst, Spoiled, Frayed;
    hide EndState, Followed, Endures;
    ReadySustains(log, rows, bytes);
    ghost var env, start, past := SettingOf(log), log.chain.views, log.chain.disk.history;
    var files, mark := log.chain.disk.files, |log.chain.disk.history|;
    var ok := log.chain.TruncateAfter(sequence);
    assert EndStates(env, files, start, sequence, past, log.chain.disk.history);
    NoneUndone(env, files, start, sequence, past, log.chain.disk.history);
    FoundAfter(env, files, start, sequence, past, log.chain.disk.history, at);
    var crashed := Found(files, mark, log.chain.disk.history, at);
    ghost var w := AfterLanding(env, files, start, sequence, crashed, rows, bytes);
    ghost var left;
    err, next, left := Reboot(crashed, log, deaths, w);
    trail := Trail(files, crashed, left);
    EndureParts(env, w, crashed, left);
    LeftShort(env, w, trail);
    if err.None? { Revived(next, env, rows, bytes); }
  }

  // Between operations

  method DieIdle(log: Log, deaths: seq<nat>, ghost rows: nat, ghost bytes: nat)
    returns (err: Option<Error>, next: Log, ghost trail: Trail)
    requires Ready(log, rows, bytes)
    ensures err.None? ==> Succeeds(log, next) && Ready(next, rows, bytes)
    ensures err.None? ==> Step(SettingOf(log), StateOf(log), Reloaded, StateOf(next))
    ensures err.Some? ==> !log.chain.disk.reliable
    ensures TrailOf(trail, log.chain.disk.files, 0, deaths) && trail.found == trail.before
    ensures Followed(SettingOf(log), trail)
  {
    hide Chain.Valid, Chain.Clean, Chain.Readable, Within, M.Contiguous, M.Flatten, Tidy, Spacious, Ready, Fitting;
    hide Refused, Endures, IsFirst, Followed;
    ReadySustains(log, rows, bytes);
    ghost var env, start := SettingOf(log), log.chain.views;
    SustainedFits(env, log.chain.disk.files, start, rows, bytes);
    ghost var left;
    err, next, left := Reboot(log.chain.disk.files, log, deaths, start);
    trail := Trail(log.chain.disk.files, log.chain.disk.files, left);
    LeftShort(env, start, trail);
    if err.None? { Revived(next, env, rows, bytes); }
  }

  // Whole runs

  /** The process died in the act, and what it left cannot be loaded. */
  ghost predicate Stuck(l: Limits, start: seq<View>, act: Act, trail: Trail)
    requires start != []
  {
    && act.dies != []
    && match act.op
       case Append(batch) => StuckAppending(l, trail.before, start, batch, trail.found)
       case TruncateAfter(sequence) => StuckAfter(trail.before, start, sequence, trail.found, trail.left)
       case _ => false
  }

  /** A directory that a crash in this operation may leave. */
  ghost predicate Possible(env: Setting, start: seq<View>, op: Op, trail: Trail)
    requires start != [] && M.Contiguous(start)
  {
    match op
    case Append(batch) => AppendState(env.limits, trail.before, start, batch, trail.found)
    case TruncateBefore(sequence) => Survives(trail.found, start, sequence)
    case TruncateAfter(sequence) => EndState(env, trail.before, start, sequence, trail.found)
    case Consume(_, _) => exists sequence: nat :: Survives(trail.found, start, sequence)
    case Reload => trail.found == trail.before
  }

  /** The directories of an act on a log with these segments. */
  ghost predicate Leads(env: Setting, start: seq<View>, act: Act, trail: Trail)
  {
    && start != [] && M.Contiguous(start) && Tidy(trail.before, start)
    && (act.dies != [] ==>
          && Possible(env, start, act.op, trail) && Followed(env, trail)
          && if act.op.Reload? then TrailOf(trail, trail.before, 0, act.dies)
             else TrailOf(trail, trail.before, act.dies[0], act.dies[1..]))
  }

  /** What the act and its event say of the directories. */
  ghost predicate Explains(env: Setting, s: State, act: Act, trail: Trail, e: Event, t: State)
  {
    && s.Sound() && t.Sound() && Leads(env, s.views, act, trail) && !Stuck(env.limits, s.views, act, trail)
    && (e.CrashedAppending? && e.haunted ==>
          AppendHaunts(env.limits, trail.before, s.views, e.batch, trail.found, t.Records()))
  }

  lemma {:induction false} TidyIsLong(files: Files, views: seq<View>)
    requires Tidy(files, views)
    ensures !Short(files)
  {
    hide Tidy, Held;
    TidyIsLoadable(files, views);
    HeldIsLong(files, views);
  }

  lemma {:induction false} TidyHasNoGap(files: Files, start: seq<View>, sequence: nat)
    requires Tidy(files, start)
    ensures !Gap(files, start, sequence, files)
  {
    hide Shut, Ascending;
    forall k: nat, m: nat
      ensures !GapAfter(files, start, sequence, k, m, files)
    {
      if k + 1 < m <= |start| {
        assert start[k + 1..m][0].base in Names(start[k + 1..m]) && start[k + 1].base in files by {
          NameOf(start[k + 1..m], 0);
          NameOf(start, k + 1);
        }
      }
    }
  }

  lemma {:induction false} TidyIsNotFrayed(files: Files, start: seq<View>, w: seq<View>)
    requires Tidy(files, start)
    ensures !Frayed(files, w)
  {
    hide Held, ShutLast, Tidy, M.Contiguous;
    if Loadable(files, w) {
      TidyIsLoadable(files, start);
      TidyLast(files, start);
      OneContent(files, start, w);
    }
  }

  lemma {:induction false} TidyIsNotSpoiled(files: Files, start: seq<View>, w: seq<View>)
    requires Tidy(files, start)
    ensures !Spoiled(files, w)
  {
    hide Stored, Quiet, Torn, Corrupt, Ascending, M.Contiguous;
    if Spoiled(files, w) {
      TidyIsLoadable(files, start);
      OneContent(files, start, w);
      EndsOneWay(files[Last(start).base], Last(start).rows);
    }
  }

  /** A process that dies before it changes anything is never stuck. */
  lemma {:induction false} NeverStuckAtOnce(l: Limits, files: Files, start: seq<View>, act: Act)
    requires start != [] && M.Contiguous(start) && Tidy(files, start) && Within(l, start)
    requires act.op.Append? ==> RoomFor(l, start, act.op.batch)
    ensures !Stuck(l, start, act, Trail(files, files, files))
  {
    hide Tidy, M.Contiguous, Within, RoomFor, Short, Gap, Frayed, Spoiled, AppendSpoils;
    TidyIsLong(files, start);
    match act.op {
      case Append(batch) =>
        if AppendSpoils(l, files, start, batch, files) {
          var w := AppendSpoiled(l, files, start, batch, files);
          TidyIsNotSpoiled(files, start, w);
        }
        forall w ensures !Frayed(files, w) { TidyIsNotFrayed(files, start, w); }
      case TruncateAfter(sequence) =>
        TidyHasNoGap(files, start, sequence);
      case _ =>
    }
  }

  /** Carries out an operation, or dies in it and starts again. */
  method Suffer(log: Log, act: Act, ghost rows: nat, ghost bytes: nat)
    returns (err: Option<Error>, next: Log, ghost e: Event, ghost trail: Trail)
    requires Roomy(log.chain.limits) && Ready(log, Rows([act.op]) + rows, Volume([act.op]) + bytes)
    modifies log, log.chain, log.chain.disk, log.chain.Objects()
    ensures old(StateOf(log)).Sound() && Leads(SettingOf(log), old(log.chain.views), act, trail)
    ensures err.None? ==> Succeeds(log, next) && Ready(next, rows, bytes) && Follows(act, e)
    ensures err.None? ==> Step(SettingOf(log), old(StateOf(log)), e, StateOf(next))
    ensures err.None? ==> Explains(SettingOf(log), old(StateOf(log)), act, trail, e, StateOf(next))
    ensures err.Some? && log.chain.disk.reliable ==> Stuck(log.chain.limits, old(log.chain.views), act, trail)
    ensures trail.before == old(log.chain.disk.files)
    ensures act.dies != [] && !act.op.Reload? ==>
              && |old(log.chain.disk.history)| <= |log.chain.disk.history|
              && trail.found ==
                   Found(old(log.chain.disk.files), |old(log.chain.disk.history)|, log.chain.disk.history, act.dies[0])
  {
    hide Ready, Step, Roomy, BatchSize, Chain.Valid, Tidy, M.Contiguous, StuckAppending, StuckAfter, AppendHaunts;
    hide Followed, AppendState, EndState, Survives, Found;
    hide Chain.Clean, Chain.Readable, Sustains;
    ReadySustains(log, Rows([act.op]) + rows, Volume([act.op]) + bytes);
    SustainsSound(SettingOf(log), log.chain.views, Rows([act.op]) + rows, Volume([act.op]) + bytes);
    ghost var files := log.chain.disk.files;
    trail := Trail(files, files, files);
    if act.dies == [] {
      next := log;
      err, e := Perform(log, act.op, rows, bytes);
      if err.None? { StepSound(SettingOf(log), old(StateOf(log)), e, StateOf(next)); }
      return;
    }
    var at, deaths := act.dies[0], act.dies[1..];
    match act.op {
      case Append(batch) =>
        ghost var haunted;
        err, next, haunted, trail := DieAppending(log, batch, at, deaths, rows, bytes);
        e := CrashedAppending(batch, haunted);
      case TruncateBefore(sequence) =>
        e := CrashedBefore(sequence);
        err, next, trail := DieBefore(log, sequence, at, deaths, rows, bytes);
      case TruncateAfter(sequence) =>
        e := CrashedAfter(sequence);
        err, next, trail := DieAfter(log, sequence, at, deaths, rows, bytes);
      case Consume(fromSeq, fn) =>
        err, next, e, trail := DieConsuming(log, fromSeq, fn, at, deaths, rows, bytes);
      case Reload =>
        e := Reloaded;
        err, next, trail := DieIdle(log, act.dies, rows, bytes);
    }
    if err.None? { StepSound(SettingOf(log), old(StateOf(log)), e, StateOf(next)); }
  }

  lemma {:induction false} SustainsSound(env: Setting, w: seq<View>, rows: nat, bytes: nat)
    requires Sustains(env, w, rows, bytes)
    ensures w != [] && M.Contiguous(w)
  {
  }

  lemma {:induction false} StepSound(env: Setting, s: State, e: Event, t: State)
    requires Step(env, s, e, t)
    ensures s.Sound() && t.Sound()
  {
    hide M.Contiguous;
  }

  lemma {:induction false} OpsStep(acts: seq<Act>, i: nat)
    requires i < |acts|
    ensures Rows(Ops(acts[i..])) == Rows([acts[i].op]) + Rows(Ops(acts[i + 1..]))
    ensures Volume(Ops(acts[i..])) == Volume([acts[i].op]) + Volume(Ops(acts[i + 1..]))
  {
    hide Rows, Volume;
    BudgetStep(Ops(acts), i);
    assert Ops(acts)[i..] == Ops(acts[i..]) && Ops(acts)[i + 1..] == Ops(acts[i + 1..]);
  }

  /**
    A new log goes through any sequence of operations and crashes. Over the whole run it keeps its limits, and
    every step is one of the operation or of its crash. On a disk that does not fail, the run stops at an act
    exactly when a crash in it leaves a directory that cannot be loaded.
  */
  method Endure(startSequence: uint64, limits: Limits, syncOnAppend: bool, reliable: bool, acts: seq<Act>)
    returns (err: Option<Error>, log: Log, ghost events: seq<Event>, ghost states: seq<State>, ghost trails: seq<Trail>)
    requires Roomy(limits) && startSequence + Rows(Ops(acts)) < U64
    requires Affordable(limits, Rows(Ops(acts)), Volume(Ops(acts)))
    ensures |events| <= |acts| && forall i | 0 <= i < |events| :: Follows(acts[i], events[i])
    ensures Trace(Setting(limits, startSequence, reliable), states, events)
    ensures states[0] == State([View(startSequence, [], 0)], startSequence)
    ensures err.None? ==> |events| == |acts| && Ready(log, 0, 0) && StateOf(log) == states[|events|]
    ensures |events| <= |trails|
            && forall i | 0 <= i < |events| ::
                 Explains(Setting(limits, startSequence, reliable), states[i], acts[i], trails[i], events[i], states[i + 1])
    ensures err.Some? && reliable ==>
              && |events| < |acts| && |events| < |trails| && states[|events|].Sound()
              && Leads(Setting(limits, startSequence, reliable), states[|events|].views, acts[|events|], trails[|events|])
              && Stuck(limits, states[|events|].views, acts[|events|], trails[|events|])
  {
    hide Ready, Step, Roomy, Affordable, Follows, Rows, Volume, Ops, Chain.Valid, Explains, Stuck, Leads, State.Sound;
    ghost var env := Setting(limits, startSequence, reliable);
    assert acts[0..] == acts;
    events, states, trails := [], [State([View(startSequence, [], 0)], startSequence)], [];
    err, log := Begin(startSequence, limits, syncOnAppend, reliable, Rows(Ops(acts)), Volume(Ops(acts)));
    if err.Some? {
      return;
    }
    for i := 0 to |acts|
      invariant |events| == |trails| == i && forall m | 0 <= m < i :: Follows(acts[m], events[m])
      invariant Trace(env, states, events) && states[0] == State([View(startSequence, [], 0)], startSequence)
      invariant forall m | 0 <= m < i :: Explains(env, states[m], acts[m], trails[m], events[m], states[m + 1])
      invariant fresh(log) && fresh(log.chain) && fresh(log.chain.disk) && fresh(log.chain.Objects())
      invariant SettingOf(log) == env && StateOf(log) == states[i]
      invariant Ready(log, Rows(Ops(acts[i..])), Volume(Ops(acts[i..])))
    {
      ghost var e, trail;
      var next;
      OpsStep(acts, i);
      err, next, e, trail := Suffer(log, acts[i], Rows(Ops(acts[i + 1..])), Volume(Ops(acts[i + 1..])));
      trails := trails + [trail];
      if err.Some? {
        return;
      }
      log := next;
      events, states := events + [e], states + [StateOf(log)];
    }
    assert acts[|acts|..] == [];
    NoOps();
    err := None;
  }

  lemma {:induction false} NoOps()
    ensures Rows(Ops([])) == 0 && Volume(Ops([])) == 0
  {
  }
}
