/** Driving a log through any sequence of operations, and through crashes. */
module Runs {
  import opened Bytes
  import opened Errors
  import opened Layout
  import opened Disks
  import opened Directories
  import opened Retention
  import opened Recovery
  import opened Crashes
  import opened Surveys
  import opened Loading
  import opened Segments
  import opened Chains
  import opened Reading
  import opened Logs
  import opened Traces
  import M = Model
  import F = Frames
  import S = Slots

  datatype Op =
    | Append(batch: seq<Payload>)
    | TruncateBefore(sequence: uint64)
    | TruncateAfter(sequence: uint64)
    | Consume(fromSeq: uint64, fn: Record -> bool)
    | Reload

  /** The number of records that a list of operations may add. */
  function Rows(ops: seq<Op>): nat
  {
    if ops == [] then 0 else (if ops[0].Append? then |ops[0].batch| else 0) + Rows(ops[1..])
  }

  /** The bytes that they take. */
  function Volume(ops: seq<Op>): nat
  {
    if ops == [] then 0 else (if ops[0].Append? then BatchSize(ops[0].batch) else 0) + Volume(ops[1..])
  }

  lemma {:induction false} TidyLast(files: Files, views: seq<View>)
    requires Tidy(files, views)
    ensures ShutLast(files, views)
  {
    hide Shut, M.Contiguous, Ascending;
  }

  /** The event is an answer to the operation. */
  ghost predicate Answers(op: Op, e: Event)
  {
    match op
    case Append(batch) => e.Appended? && e.batch == batch
    case TruncateBefore(sequence) => e == TruncatedBefore(sequence)
    case TruncateAfter(sequence) => e == TruncatedAfter(sequence)
    case Consume(fromSeq, fn) => e.Consumed? && e.fromSeq == fromSeq && e.fn == fn
    case Reload => e == Reloaded
  }

  ghost function StateOf(log: Log): State
    reads log, log.chain
  {
    State(log.chain.views, log.nextConsumeSeq)
  }

  function SettingOf(log: Log): Setting
  {
    Setting(log.chain.limits, log.chain.startSequence, log.chain.disk.reliable)
  }

  /** The machine widths leave room for that many more records, of that many bytes in all. */
  ghost predicate Spare(log: Log, rows: nat, bytes: nat)
    requires log.chain.Valid()
    reads log, log.chain, log.chain.disk, log.chain.Objects()
  {
    && Max(log.Records().Next(), log.chain.startSequence) + rows < U64
    && Spacious(log.chain.limits, log.chain.views, rows, bytes)
  }

  /** Between two operations. */
  ghost predicate Ready(log: Log, rows: nat, bytes: nat)
    reads log, log.chain, log.chain.disk, log.chain.Objects()
  {
    log.chain.Clean() && Within(log.chain.limits, log.chain.views) && Spare(log, rows, bytes)
  }

  lemma ReadyParts(log: Log, rows: nat, bytes: nat)
    requires Ready(log, rows, bytes)
    ensures log.chain.Clean() && log.chain.Readable() && log.chain.Valid() && Within(log.chain.limits, log.chain.views)
    ensures log.chain.views != [] && M.Contiguous(log.chain.views) && Spare(log, rows, bytes)
    ensures log.Records().Next() == Last(log.chain.views).Next()
  {
    hide Within, Spare;
    CleanIsReadable(log.chain);
    ValidParts(log.chain);
  }

  /** The log took the step, and is ready for more. */
  twostate predicate Took(log: Log, e: Event, rows: nat, bytes: nat)
    reads log, log.chain, log.chain.disk, log.chain.Objects()
  {
    Ready(log, rows, bytes) && log.chain.OldOrNew() && Step(SettingOf(log), old(StateOf(log)), e, StateOf(log))
  }

  method StepAppend(log: Log, batch: seq<Payload>, ghost rows: nat, ghost bytes: nat)
    returns (err: Option<Error>, ghost e: Event)
    requires Ready(log, |batch| + rows, BatchSize(batch) + bytes)
    modifies log, log.chain, log.chain.disk, log.chain.Objects()
    ensures err.None? ==> Took(log, e, rows, bytes) && e.Appended? && e.batch == batch
    ensures err.Some? ==> err.value in {CreateFailure, TrimFailure} && !log.chain.disk.reliable
  {
    hide Chain.Valid, Chain.Clean, Chain.Readable, Within, M.Contiguous, M.Flatten, BatchSize, Appends, Deliberate, RoomFor;
    hide Spacious, Admissible;
    ReadyParts(log, |batch| + rows, BatchSize(batch) + bytes);
    ghost var l, start := log.chain.limits, log.chain.views;
    SpaciousRoom(l, start, batch, rows, bytes);
    var r, k := log.Append(batch);
    e := Appended(batch, r, k);
    err := if r.Err? && r.error in {CreateFailure, TrimFailure} then Some(r.error) else None;
    SpaciousAppends(l, start, batch, r, k, log.chain.views, rows, bytes);
    if log.chain.disk.reliable { DeliberateError(r); }
    ValidParts(log.chain);
  }

  lemma {:induction false} DeliberateError(r: Result<uint64>)
    requires Deliberate(r)
    ensures r.Err? ==> r.error in {DiskFull, SegmentFull, PayloadTooLarge}
  {
  }

  /** Closing a clean log and loading its directory again changes nothing but the cursor, which goes to the head. */
  method Reopen(log: Log, ghost rows: nat, ghost bytes: nat) returns (err: Option<Error>)
    requires Ready(log, rows, bytes)
    modifies log, log.chain, log.chain.disk
    ensures err.None? ==> Took(log, Reloaded, rows, bytes)
    ensures err.Some? ==> err.value == IoFailure && !log.chain.disk.reliable
  {
    hide Segment.Valid, Segment.Covered, M.Contiguous, Ascending, M.Total, M.Flatten, Tidy, Loadable, ShutLast, Spacious;
    ghost var views, files := log.chain.views, log.chain.disk.files;
    TidyIsLoadable(files, views);
    TidyLast(files, views);
    err := log.Load(views);
  }

  method StepTruncateBefore(log: Log, sequence: uint64, ghost rows: nat, ghost bytes: nat) returns (ok: bool)
    requires Ready(log, rows, bytes)
    modifies log, log.chain, log.chain.disk, log.chain.Objects()
    ensures ok ==> Took(log, TruncatedBefore(sequence), rows, bytes)
    ensures log.chain.disk.reliable ==> ok
  {
    hide Chain.Valid, Chain.Clean, Chain.Readable, Within, M.Contiguous, M.Flatten, AllSurvive, Spacious, CutsFront;
    ReadyParts(log, rows, bytes);
    ghost var start := log.chain.views;
    ok := log.TruncateBefore(sequence);
    if ok {
      ValidParts(log.chain);
      SpaciousFront(log.chain.limits, start, sequence, log.chain.views, rows, bytes);
    }
  }

  method StepTruncateAfter(log: Log, sequence: uint64, ghost rows: nat, ghost bytes: nat) returns (ok: bool)
    requires Ready(log, rows, bytes) && Roomy(log.chain.limits)
    modifies log, log.chain, log.chain.disk, log.chain.Objects()
    ensures ok ==> Took(log, TruncatedAfter(sequence), rows, bytes)
    ensures log.chain.disk.reliable ==> ok
  {
    hide Chain.Valid, Chain.Clean, Chain.Readable, Within, M.Contiguous, M.Flatten, Roomy, Spacious, CutsEnd;
    ReadyParts(log, rows, bytes);
    ghost var start := log.chain.views;
    ok := log.TruncateAfter(sequence);
    if ok {
      ValidParts(log.chain);
      SpaciousEnd(log.chain.limits, start, sequence, log.chain.startSequence, log.chain.views, rows, bytes);
    }
  }

  method StepConsume(log: Log, fromSeq: uint64, fn: Record -> bool, ghost rows: nat, ghost bytes: nat)
    returns (ok: bool, ghost e: Event)
    requires Ready(log, rows, bytes)
    modifies log, log.chain, log.chain.disk, log.chain.Objects()
    ensures ok ==> Took(log, e, rows, bytes) && e.Consumed? && e.fromSeq == fromSeq && e.fn == fn
    ensures log.chain.disk.reliable ==> ok
  {
    hide Chain.Valid, Chain.Clean, Chain.Readable, Within, M.Contiguous, M.Flatten, Deliver, Window, AllAccepted, Accepted;
    hide Spacious, CutsFront, Shows, Onward, KeptFrom;
    ReadyParts(log, rows, bytes);
    ghost var s := StateOf(log);
    var err, delivered := log.Consume(fromSeq, fn);
    e := Consumed(fromSeq, fn, delivered);
    ok := err != Some(IoFailure);
    if ok {
      ReadableParts(log.chain);
      if Moves(s, e) { SpaciousFront(log.chain.limits, s.views, Unread(s, e), log.chain.views, rows, bytes); }
    }
  }

  /** Carries out one operation, unless storage fails. */
  method Perform(log: Log, op: Op, ghost rows: nat, ghost bytes: nat) returns (err: Option<Error>, ghost e: Event)
    requires Roomy(log.chain.limits) && Ready(log, Rows([op]) + rows, Volume([op]) + bytes)
    modifies log, log.chain, log.chain.disk, log.chain.Objects()
    ensures err.None? ==> Took(log, e, rows, bytes) && Answers(op, e)
    ensures err.Some? ==> err.value in {IoFailure, CreateFailure, TrimFailure} && !log.chain.disk.reliable
  {
    hide Ready, Took, Roomy, BatchSize;
    match op
    case Append(batch) =>
      err, e := StepAppend(log, batch, rows, bytes);
    case TruncateBefore(sequence) =>
      var ok := StepTruncateBefore(log, sequence, rows, bytes);
      err, e := if ok then None else Some(IoFailure), TruncatedBefore(sequence);
    case TruncateAfter(sequence) =>
      var ok := StepTruncateAfter(log, sequence, rows, bytes);
      err, e := if ok then None else Some(IoFailure), TruncatedAfter(sequence);
    case Consume(fromSeq, fn) =>
      var ok;
      ok, e := StepConsume(log, fromSeq, fn, rows, bytes);
      err := if ok then None else Some(IoFailure);
    case Reload =>
      err := Reopen(log, rows, bytes);
      e := Reloaded;
  }

  /**
    Carries out operations one after the other, until storage fails. Over the whole run the log keeps its
    limits, and every operation takes the step that its arguments and the limits prescribe.
  */
  method Run(log: Log, ops: seq<Op>) returns (err: Option<Error>, ghost events: seq<Event>, ghost states: seq<State>)
    requires Roomy(log.chain.limits) && Ready(log, Rows(ops), Volume(ops))
    modifies log, log.chain, log.chain.disk, log.chain.Objects()
    ensures |events| <= |ops| && forall i | 0 <= i < |events| :: Answers(ops[i], events[i])
    ensures Trace(SettingOf(log), states, events) && states[0] == old(StateOf(log))
    ensures err.None? ==> |events| == |ops| && Ready(log, 0, 0) && StateOf(log) == states[|events|]
    ensures err.Some? ==> err.value in {IoFailure, CreateFailure, TrimFailure} && !log.chain.disk.reliable
  {
    hide Chain.Valid, Chain.Clean, Within, Spare, Roomy, Answers, Step, Rows, Volume;
    events, states := [], [StateOf(log)];
    assert ops[0..] == ops;
    for i := 0 to |ops|
      invariant |events| == i && forall m | 0 <= m < i :: Answers(ops[m], events[m])
      invariant Trace(SettingOf(log), states, events) && states[0] == old(StateOf(log))
      invariant Ready(log, Rows(ops[i..]), Volume(ops[i..])) && log.chain.OldOrNew() && StateOf(log) == states[i]
    {
      ghost var e;
      BudgetStep(ops, i);
      err, e := Perform(log, ops[i], Rows(ops[i + 1..]), Volume(ops[i + 1..]));
      if err.Some? {
        return;
      }
      events, states := events + [e], states + [StateOf(log)];
    }
    assert ops[|ops|..] == [];
    NoBudget();
    err := None;
  }

  lemma {:induction false} BudgetStep(ops: seq<Op>, i: nat)
    requires i < |ops|
    ensures Rows(ops[i..]) == Rows([ops[i]]) + Rows(ops[i + 1..])
    ensures Volume(ops[i..]) == Volume([ops[i]]) + Volume(ops[i + 1..])
  {
    hide BatchSize;
    assert ops[i..][1..] == ops[i + 1..];
  }

  lemma {:induction false} NoBudget()
    ensures Rows([]) == 0 && Volume([]) == 0
  {
  }

  /** Segments cannot outgrow the machine widths, or what is to be written fits into one. */
  predicate Affordable(limits: Limits, rows: nat, bytes: nat)
  {
    limits.Narrow() || (rows < U32 && S.SEGMENT_HEADER + bytes <= MAX_INT64)
  }

  lemma {:induction false} EmptyIsSpacious(limits: Limits, base: nat, rows: nat, bytes: nat)
    requires Affordable(limits, rows, bytes)
    ensures Spacious(limits, [View(base, [], 0)], rows, bytes)
  {
    hide Offset;
    OffsetAtZero([]);
  }

  /** A new log. */
  method Begin(startSequence: uint64, limits: Limits, syncOnAppend: bool, reliable: bool, ghost rows: nat, ghost bytes: nat)
    returns (err: Option<Error>, log: Log)
    requires Roomy(limits) && startSequence + rows < U64 && Affordable(limits, rows, bytes)
    ensures fresh(log) && fresh(log.chain) && fresh(log.chain.disk)
    ensures SettingOf(log) == Setting(limits, startSequence, reliable) && (err.Some? ==> !reliable)
    ensures err.None? ==> Ready(log, rows, bytes) && fresh(log.chain.Objects())
    ensures err.None? ==> StateOf(log) == State([View(startSequence, [], 0)], startSequence)
  {
    hide Segment.Valid, Segment.Covered, Within, M.Contiguous, M.Flatten, Roomy, Loadable, ShutLast, Tidy, Spacious, Affordable;
    var disk := new Disk(map[], reliable);
    var chain := new Chain(disk, startSequence, limits, syncOnAppend);
    log := new Log(chain);
    err := log.Load([]);
    WithinEmpty(limits, startSequence);
    EmptyIsSpacious(limits, startSequence, rows, bytes);
  }

  /** A new log on a disk that does not fail goes through any sequence of operations. */
  method FromScratch(startSequence: uint64, limits: Limits, syncOnAppend: bool, ops: seq<Op>)
    returns (log: Log, ghost events: seq<Event>, ghost states: seq<State>)
    requires Roomy(limits) && startSequence + Rows(ops) < U64 && Affordable(limits, Rows(ops), Volume(ops))
    ensures log.chain.Clean() && log.chain.limits == limits && Within(limits, log.chain.views)
    ensures |events| == |ops| && forall i | 0 <= i < |events| :: Answers(ops[i], events[i])
    ensures Trace(Setting(limits, startSequence, true), states, events)
    ensures states[0] == State([View(startSequence, [], 0)], startSequence) && StateOf(log) == states[|events|]
  {
    hide Chain.Valid, Chain.Clean, Within, M.Contiguous, M.Flatten, Roomy, Affordable, Answers, Step, Rows, Volume, Spare;
    var err;
    err, log := Begin(startSequence, limits, syncOnAppend, true, Rows(ops), Volume(ops));
    err, events, states := Run(log, ops);
  }

  /** With archive sizing, a batch that fits an empty segment is always written, at the cost of one segment at most. */
  method ArchiveAppend(chain: Chain, payloads: seq<Payload>, ghost immutableSegments: nat)
    returns (r: Result<uint64>, ghost k: nat)
    requires chain.Clean() && chain.views != [] && Within(chain.limits, chain.views) && chain.disk.reliable
    requires immutableSegments >= 1 && chain.limits.maxSegmentSize > 0
    requires chain.limits == ArchiveLimits(immutableSegments, chain.limits.maxSegmentSize)
    requires payloads != []
    requires !chain.limits.TooLarge(BatchSize(payloads)) && RoomFor(chain.limits, chain.views, payloads)
    modifies chain, chain.disk, chain.Objects()
    ensures chain.Clean() && Within(chain.limits, chain.views) && k <= 1
    ensures k < |old(chain.views)| <= immutableSegments + 1 && (k == 1 ==> |old(chain.views)| == immutableSegments + 1)
    ensures r == if Framable(payloads) then Ok(Last(old(chain.views)).Next() + |payloads| - 1) else Err(PayloadTooLarge)
    ensures r.Ok? ==> chain.views == Admitted(chain.limits, old(chain.views)[k..], payloads)
  {
    hide Chain.Clean, Chain.Valid, Chain.Readable, Within, RoomFor, BatchSize, Limits.TooLarge, M.Contiguous, M.Flatten;
    hide Appends, Deliberate, Admitted, AllAppendSteps;
    CleanIsReadable(chain);
    ValidParts(chain);
    ghost var start := chain.views;
    r, k := chain.Append(payloads);
    ArchiveAnswer(immutableSegments, chain.limits, start, payloads, Reported(r), k, chain.views);
  }

  lemma {:induction false} ArchiveAnswer(immutableSegments: nat, l: Limits, start: seq<View>, batch: seq<Payload>,
                                         r: Result<uint64>, k: nat, w: seq<View>)
    requires immutableSegments >= 1 && l.maxSegmentSize > 0 && l == ArchiveLimits(immutableSegments, l.maxSegmentSize)
    requires start != [] && Within(l, start) && !l.TooLarge(BatchSize(batch))
    requires batch != []
    requires Appends(l, start, batch, r, k, w) && Deliberate(r)
    ensures k <= 1 && k < |start| <= immutableSegments + 1 && (k == 1 ==> |start| == immutableSegments + 1)
    ensures r == if Framable(batch) then Ok(Last(start).Next() + |batch| - 1) else Err(PayloadTooLarge)
    ensures r.Ok? ==> w == Admitted(l, start[k..], batch)
  {
    hide NeedsReap, BatchSize, Limits.TooLarge, Within, Admitted, OverBudget, Rotates;
    ArchiveNeeds(immutableSegments, l.maxSegmentSize, start, BatchSize(batch));
    AppendDecided(l, start, batch, r, k, w);
    assert LeastReap(l, start, BatchSize(batch), k);
  }

  lemma {:induction false} ArchiveNeeds(immutableSegments: nat, maxSegmentSize: int, views: seq<View>, size: nat)
    requires immutableSegments >= 1 && maxSegmentSize > 0 && views != []
    requires var l := ArchiveLimits(immutableSegments, maxSegmentSize); Within(l, views) && !l.TooLarge(size)
    ensures var l := ArchiveLimits(immutableSegments, maxSegmentSize);
            && Admissible(l, views, size)
            && |views| <= immutableSegments + 1
            && forall k | LeastReap(l, views, size, k) :: k <= 1 && (k == 1 ==> |views| == immutableSegments + 1)
  {
    hide NeedsReap, Within, Limits.TooLarge;
    var l := ArchiveLimits(immutableSegments, maxSegmentSize);
    ArchiveAdmits(immutableSegments, maxSegmentSize, views, size);
    assert views[0..] == views;
    var k := if NeedsReap(l, views, size) then 1 else 0;
    assert LeastReap(l, views, size, k);
    LeastReapAdmits(l, views, size, k);
  }

  // Crashes

  /** The directory holds a chain that loading accepts under these limits. */
  ghost predicate Fitting(files: Files, limits: Limits, target: seq<View>)
  {
    && Loadable(files, target) && InLimits(limits, target)
    && (limits.maxSegments == 1 ==> ShutLast(files, target))
  }

  /** The directory holds a single segment that ends in a torn frame. */
  ghost predicate Frayed(files: Files, target: seq<View>)
  {
    |target| == 1 && Loadable(files, target) && !ShutLast(files, target)
  }

  /** What a new process makes of a directory. */
  method Recover(disk: Disk, startSequence: uint64, limits: Limits, syncOnAppend: bool, ghost target: seq<View>)
    returns (err: Option<Error>, chain: Chain)
    modifies disk
    ensures fresh(chain) && chain.disk == disk && chain.limits == limits
    ensures Fitting(old(disk.files), limits, target) ==>
              || (err.None? && chain.Clean() && chain.views == target)
              || (err == Some(IoFailure) && !disk.reliable)
    ensures && limits.maxSegments != 1 && Held(old(disk.files), target) && Ordered(target)
            && (limits.maxSegments > 0 ==> |target| <= limits.maxSegments) ==>
              M.Contiguous(target) || err == Some(NotContiguous)
    ensures Short(old(disk.files)) ==> err.Some?
    ensures Spoiled(old(disk.files), target) && (limits.maxSegments == 1 ==> |target| == 1) ==>
              err == Some(InvalidChecksum)
    ensures limits.maxSegments == 1 && Frayed(old(disk.files), target) ==> err == Some(UnexpectedEof)
    ensures && Stumbles(old(disk.files), target, limits.maxSegments != 1)
            && (limits.maxSegments == 1 && 0 in old(disk.files) ==> |target| == 1) ==>
              err == FirstFault(old(disk.files), target, limits.maxSegments != 1)
    ensures && limits.maxSegments != 1 && TornInside(old(disk.files), target) && M.Contiguous(target)
            && (limits.maxSegments > 0 ==> |target| <= limits.maxSegments) ==>
              err == Some(UnexpectedEof)
    ensures err.Some? && err.value !in {IoFailure, DiskFull, CreateFailure} ==>
              disk.files == old(disk.files) && disk.history == old(disk.history)
    ensures old(disk.files) == map[] ==>
              || (err.None? && chain.Clean() && chain.views == [View(startSequence, [], 0)])
              || (err == Some(CreateFailure) && !disk.reliable)
  {
    hide Spoiled, Chain.Clean, Loadable, ShutLast, M.Total, Held, Ordered, M.Contiguous, Stumbles, TornInside, FirstFault;
    chain := new Chain(disk, startSequence, limits, syncOnAppend);
    err := chain.Load(target);
  }

  /** What survived a truncation fits the limits that the whole chain kept. */
  lemma {:induction false} RemainsFitting(files: Files, w: seq<View>, start: seq<View>, sequence: nat, limits: Limits)
    requires start != [] && M.Contiguous(start) && Remains(files, w, start, sequence) && Within(limits, start)
    ensures w != [] && M.Contiguous(w) && Fitting(files, limits, w) && Within(limits, w)
    ensures KeepsFrom(M.Abs(start), M.Abs(w), sequence)
  {
    hide M.Total, Shut, KeepsFrom, Fitting, Offset;
    TidyFits(files, w, limits);
  }

  /**
    Truncates the front of a chain and crashes: from any state the directory went through meanwhile, a new
    process recovers the newest records, all from `sequence` on among them.
  */
  method TruncateAndCrash(chain: Chain, sequence: uint64, crashed: Disk) returns (err: Option<Error>, recovered: Chain)
    requires chain.Clean() && Within(chain.limits, chain.views) && crashed != chain.disk
    modifies chain, chain.disk, chain.Objects(), crashed
    ensures (exists j | |old(chain.disk.history)| <= j < |chain.disk.history| ::
               chain.disk.history[j] == old(crashed.files)) ==>
              || (&& err.None? && recovered.Clean() && Within(chain.limits, recovered.views)
                  && KeepsFrom(M.Abs(old(chain.views)), M.Abs(recovered.views), sequence))
              || (err == Some(IoFailure) && !crashed.reliable)
  {
    hide Chain.Clean, Chain.Valid, M.Contiguous, M.Flatten, Within, Fitting, KeepsFrom, Tidy, HaltedBefore;
    hide Chain.Readable, CutsFront, Remains;
    CleanIsReadable(chain);
    ValidParts(chain);
    ghost var start, target := chain.views, chain.views;
    var ok := chain.TruncateBefore(sequence);
    assert crashed.files == old(crashed.files);
    if Survives(crashed.files, start, sequence) {
      target :| Remains(crashed.files, target, start, sequence);
      RemainsFitting(crashed.files, target, start, sequence, chain.limits);
    }
    err, recovered := Recover(crashed, chain.startSequence, chain.limits, chain.syncOnAppend, target);
  }

  /**
    Appends a batch and crashes: from any state the directory went through meanwhile, a new process recovers
    the old records without those of segments that stood in the way, and the first records of the batch. It
    fails exactly when the header of a new segment was cut short, when the mix with a frame header left
    behind the last frame is corrupt, and, with a single segment, when the last frame is torn. A mix that
    passes its checksum by accident adds an empty record.
  */
  method AppendAndCrash(chain: Chain, payloads: seq<Payload>, crashed: Disk)
    returns (err: Option<Error>, recovered: Chain)
    requires chain.Clean() && chain.views != [] && Within(chain.limits, chain.views) && crashed != chain.disk
    requires RoomFor(chain.limits, chain.views, payloads)
    modifies chain, chain.disk, chain.Objects(), crashed
    ensures (exists j | |old(chain.disk.history)| <= j < |chain.disk.history| ::
               chain.disk.history[j] == old(crashed.files)) ==>
              var l, start, files, found := chain.limits, old(chain.views), old(chain.disk.files), old(crashed.files);
              if Short(found) then err.Some?
              else if AppendSpoils(l, files, start, payloads, found) then err == Some(InvalidChecksum)
              else if l.maxSegments == 1 && exists w :: Frayed(found, w) then err == Some(UnexpectedEof)
              else
                || (&& err.None? && recovered.Clean() && Within(l, recovered.views)
                    && (|| Salvages(l, start, payloads, M.Abs(recovered.views))
                        || AppendHaunts(l, files, start, payloads, found, M.Abs(recovered.views))))
                || (err == Some(IoFailure) && !crashed.reliable)
  {
    hide Chain.Clean, Chain.Valid, M.Contiguous, M.Flatten, Within, Tidy, RoomFor, Short, AppendState, Salvages;
    hide BatchSize, M.Total, Frayed, Fitting, AppendSpoils, AppendHaunts, Spoiled, Modest, Appends, Deliberate, Framable;
    hide Chain.Readable, AllAppendSteps, Held, Ordered;
    CleanIsReadable(chain);
    ValidParts(chain);
    ghost var l, start, files, found := chain.limits, chain.views, chain.disk.files, crashed.files;
    ghost var past := chain.disk.history;
    assert Tidy(files, start) by { CleanIsTidy(chain); }
    var r, k := chain.Append(payloads);
    assert crashed.files == found;
    AmongSteps(l, files, start, payloads, past, chain.disk.history, found);
    ghost var target := Outcome(l, files, start, payloads, found);
    err, recovered := Recover(crashed, chain.startSequence, chain.limits, chain.syncOnAppend, target);
  }

  lemma {:induction false} AmongSteps(l: Limits, files: Files, start: seq<View>, batch: seq<Payload>, past: seq<Files>,
                                      history: seq<Files>, found: Files)
    requires AllAppendSteps(l, files, start, batch, past, history)
    ensures (exists j | |past| <= j < |history| :: history[j] == found) ==> AppendState(l, files, start, batch, found)
  {
    hide AppendState;
  }

  /** The segments that tell what becomes of a directory in which an append stopped. */
  lemma {:induction false} Outcome(l: Limits, files: Files, start: seq<View>, batch: seq<Payload>, found: Files)
      returns (w: seq<View>)
    requires start != [] && M.Contiguous(start) && Within(l, start) && RoomFor(l, start, batch)
    requires Tidy(files, start)
    ensures AppendState(l, files, start, batch, found) && !Short(found) ==>
              if AppendSpoils(l, files, start, batch, found) then
                Spoiled(found, w) && (l.maxSegments == 1 ==> |w| == 1)
              else if l.maxSegments == 1 && exists w :: Frayed(found, w) then Frayed(found, w)
              else Fitting(found, l, w) && Within(l, w) && Modest(l, start, batch, w) && w != [] && M.Contiguous(w)
                   && (Salvages(l, start, batch, M.Abs(w)) || AppendHaunts(l, files, start, batch, found, M.Abs(w)))
  {
    hide M.Contiguous, M.Flatten, Within, Tidy, RoomFor, Short, AppendState, Salvages, AppendSpoils, AppendHaunts, Modest;
    hide M.Total, Spoiled, Loadable, ShutLast;
    w := start;
    if AppendSpoils(l, files, start, batch, found) {
      w := AppendSpoiled(l, files, start, batch, found);
      SingleCount(l, start);
      assert w != [] by { SpoiledSome(found, w); }
    } else if l.maxSegments == 1 && exists w :: Frayed(found, w) {
      w :| Frayed(found, w);
    } else if AppendState(l, files, start, batch, found) && !Short(found) {
      w := AppendStateLoads(l, files, start, batch, found);
      WithinIsInLimits(l, w);
      SingleCount(l, w);
      LoadableParts(found, w);
      assert l.maxSegments == 1 && !ShutLast(found, w) ==> Frayed(found, w);
    }
  }

  lemma {:induction false} SingleCount(l: Limits, views: seq<View>)
    requires Within(l, views)
    ensures l.maxSegments == 1 ==> |views| <= 1
  {
    hide M.Total;
  }

  lemma {:induction false} SpoiledSome(files: Files, views: seq<View>)
    requires Spoiled(files, views)
    ensures views != []
  {
  }

  lemma CleanIsTidy(chain: Chain)
    requires chain.Clean()
    ensures Tidy(chain.disk.files, chain.views)
  {
    hide Chain.Valid, Tidy;
  }

  /**
    Truncates below the head, so that the log starts over, and crashes: a new process recovers the newest
    segments as they were, or an empty log at the start sequence. It fails exactly when the header of the new
    segment was cut short.
  */
  method RestartAndCrash(chain: Chain, sequence: uint64, crashed: Disk) returns (err: Option<Error>, recovered: Chain)
    requires chain.Clean() && chain.views != [] && sequence < chain.views[0].First() && crashed != chain.disk
    requires Within(chain.limits, chain.views) && Roomy(chain.limits)
    modifies chain, chain.disk, chain.Objects(), crashed
    ensures (exists j | |old(chain.disk.history)| <= j < |chain.disk.history| ::
               chain.disk.history[j] == old(crashed.files)) ==>
              var start, files, found := old(chain.views), old(chain.disk.files), old(crashed.files);
              if Short(found) then err.Some?
              else
                || (&& err.None? && recovered.Clean() && Within(chain.limits, recovered.views)
                    && (|| recovered.views == [View(chain.startSequence, [], 0)]
                        || exists m: nat | m < |start| :: Behind(files, start, m, found) && recovered.views == start[m..]))
                || (err.Some? && err.value in {IoFailure, CreateFailure} && !crashed.reliable)
  {
    hide Chain.Clean, Chain.Valid, M.Contiguous, M.Flatten, Within, Tidy, Short, RestartState, Roomy, Fitting, Behind;
    hide HaltedAfter;
    CleanIsReadable(chain);
    ValidParts(chain);
    ghost var l, start, files, found := chain.limits, chain.views, chain.disk.files, crashed.files;
    assert Tidy(files, start) by { CleanIsTidy(chain); }
    var ok := chain.TruncateAfter(sequence);
    assert crashed.files == found;
    ghost var target := start;
    WithinEmpty(l, chain.startSequence);
    if RestartState(files, start, chain.startSequence, found) {
      target := RestartLoads(l, files, start, chain.startSequence, found);
      if Tidy(found, target) && Within(l, target) { TidyFits(found, target, l); }
    }
    err, recovered := Recover(crashed, chain.startSequence, chain.limits, chain.syncOnAppend, target);
  }

  lemma {:induction false} TidyFits(files: Files, views: seq<View>, limits: Limits)
    requires Tidy(files, views) && Within(limits, views)
    ensures Fitting(files, limits, views)
  {
    hide M.Total, Shut, Loadable, ShutLast, Tidy;
    TidyIsLoadable(files, views);
    TidyLast(files, views);
  }

  /** Loads a directory in one process, and what that leaves of it in the next one. */
  method RecoverTwice(disk: Disk, startSequence: uint64, limits: Limits, syncOnAppend: bool, ghost target: seq<View>)
    returns (err: Option<Error>, once: Chain, twice: Chain)
    modifies disk
    ensures Fitting(old(disk.files), limits, target) ==>
              || (err.None? && once.views == target && twice.Clean() && twice.views == target)
              || (err == Some(IoFailure) && !disk.reliable)
    ensures limits.maxSegments == 1 && Frayed(old(disk.files), target) ==> err == Some(UnexpectedEof)
  {
    hide Chain.Clean, Fitting, Frayed, Loadable, ShutLast;
    err, once := Recover(disk, startSequence, limits, syncOnAppend, target);
    twice := once;
    if err.None? {
      if Fitting(old(disk.files), limits, target) { CleanFitting(once, old(disk.files), limits); }
      err, twice := Recover(disk, startSequence, limits, syncOnAppend, target);
    }
  }

  lemma CleanFitting(chain: Chain, files: Files, limits: Limits)
    requires chain.Clean() && Fitting(files, limits, chain.views)
    ensures Fitting(chain.disk.files, limits, chain.views)
  {
    hide Chain.Valid, M.Total, Tidy, Loadable, ShutLast;
    TidyIsLoadable(chain.disk.files, chain.views);
    TidyLast(chain.disk.files, chain.views);
  }

  /**
    A process that dies after `n` bytes of an append leaves the committed records and the whole ones of
    the batch. The next process recovers exactly these, and so does the one after it; but with a single
    segment it does so exactly when the cut is between frames or right behind a frame header.
  */
  method TornAppend(disk: Disk, startSequence: uint64, limits: Limits, syncOnAppend: bool,
                    ghost files: Files, ghost views: seq<View>, ghost batch: seq<Payload>, ghost n: nat)
    returns (err: Option<Error>, once: Chain, twice: Chain)
    requires Tidy(files, views) && views != [] && M.Contiguous(views)
    requires Within(limits, views) && Within(limits, M.Grown(views, batch))
    requires var v := views[|views| - 1]; v.(rows := v.rows + batch).Fits() && n <= |EncodeAll(|v.rows|, batch)|
    requires var v := views[|views| - 1];
             v.base in files && v.Size() <= |files[v.base]|
             && disk.files == files[v.base := CutAppend(files[v.base], v, batch, n)]
    modifies disk
    ensures var done := batch[..WholeFrames(batch, n)];
            if limits.maxSegments == 1 && n - BatchSize(done) !in {0, F.FRAME_HEADER} then err == Some(UnexpectedEof)
            else
              || (&& err.None? && once.views == M.Grown(views, done)
                  && twice.Clean() && twice.views == M.Grown(views, done) && Within(limits, twice.views))
              || (err == Some(IoFailure) && !disk.reliable)
    ensures var target := M.Grown(views, batch[..WholeFrames(batch, n)]);
            M.Contiguous(target) && M.Abs(target) == M.Abs(views).Add(batch[..WholeFrames(batch, n)])
  {
    hide Tidy, Within, CutAppend, EncodeAll, WholeFrames, View.Fits, Loadable, M.Contiguous, M.Total, M.Flatten;
    hide Chain.Clean, BatchSize, ShutLast;
    ghost var done := batch[..WholeFrames(batch, n)];
    ghost var target := M.Grown(views, done);
    M.AbsGrown(views, done);
    CutAppendLoadable(files, views, batch, n);
    BatchPart(batch, |done|);
    SmallerFits(limits, views, batch, done);
    WithinIsInLimits(limits, target);
    SingleCount(limits, target);
    LoadableParts(disk.files, target);
    if Tidy(disk.files, target) { TidyLast(disk.files, target); }
    err, once, twice := RecoverTwice(disk, startSequence, limits, syncOnAppend, target);
  }

  lemma {:induction false} GapFits(limits: Limits, views: seq<View>, k: nat, m: nat)
    requires M.Contiguous(views) && Within(limits, views) && k < m <= |views|
    ensures var left := Gapped(views, k, m);
            Ordered(left) && InLimits(limits, left)
  {
    hide M.Contiguous, M.Total, Gapped;
    var left := Gapped(views, k, m);
    ContiguousOrdered(views);
    GapLength(views, k, m);
    GapTotal(views, k, m);
    forall i, j | 0 <= i < j < |left|
      ensures left[i].First() <= left[j].First()
    {
      GapAt(views, k, m, i);
      GapAt(views, k, m, j);
    }
  }

  lemma {:induction false} GapTotal(views: seq<View>, k: nat, m: nat)
    requires k < m <= |views|
    ensures M.Total(Gapped(views, k, m)) <= M.Total(views)
  {
    hide M.Total;
    M.TotalSplit(views, m);
    M.TotalSplit(views[..m], k + 1);
    assert views[..m][..k + 1] == views[..k + 1];
    M.TotalSplit(Gapped(views, k, m), k + 1);
    assert Gapped(views, k, m)[..k + 1] == views[..k + 1] && Gapped(views, k, m)[k + 1..] == views[m..];
  }

  lemma {:induction false} GapFitting(l: Limits, files: Files, views: seq<View>, k: nat, m: nat, found: Files)
    requires Tidy(files, views) && Without(files, views, k, m, found) && M.Contiguous(Gapped(views, k, m))
    requires InLimits(l, Gapped(views, k, m)) && (l.maxSegments == 1 ==> |views| == 1)
    ensures Fitting(found, l, Gapped(views, k, m))
  {
    hide Tidy, Held, Gapped, M.Contiguous, InLimits, ShutLast, Names;
    GapLeft(files, views, k, m);
    if l.maxSegments == 1 {
      assert found == files && Gapped(views, k, m) == views by { OnlySegment(files, views, k, m, found); }
      TidyLast(files, views);
    }
  }

  lemma {:induction false} OnlySegment(files: Files, views: seq<View>, k: nat, m: nat, found: Files)
    requires |views| == 1 && Without(files, views, k, m, found)
    ensures found == files && Gapped(views, k, m) == views
  {
  }

  /**
    Truncating the end removes segments oldest first, so a process that dies meanwhile may leave a gap.
    The next one recovers exactly when no segment is left behind the gap, or no record was in it.
  */
  method CutAndCrash(disk: Disk, startSequence: uint64, limits: Limits, syncOnAppend: bool,
                     ghost files: Files, ghost views: seq<View>, ghost k: nat, ghost m: nat)
    returns (err: Option<Error>, recovered: Chain)
    requires views != [] && M.Contiguous(views) && Within(limits, views)
    requires Tidy(files, views) && Without(files, views, k, m, disk.files)
    modifies disk
    ensures if m == |views| || views[m].First() == views[k].Next()
            then || (err.None? && recovered.Clean() && recovered.views == Gapped(views, k, m))
                 || (err == Some(IoFailure) && !disk.reliable)
            else err == Some(NotContiguous)
  {
    hide Tidy, Within, Gapped, Held, Ordered, M.Contiguous, M.Total, Chain.Clean;
    GapLeft(files, views, k, m);
    GapFits(limits, views, k, m);
    SingleCount(limits, views);
    if M.Contiguous(Gapped(views, k, m)) { GapFitting(limits, files, views, k, m, disk.files); }
    err, recovered := Recover(disk, startSequence, limits, syncOnAppend, Gapped(views, k, m));
  }
}
