/** The log: appending, ranging over records, and consuming them (pkg/log/log.go). */
module Logs {
  import opened Bytes
  import opened Errors
  import opened Layout
  import opened Directories
  import opened Retention
  import opened Recovery
  import opened Segments
  import opened Groups
  import opened Surveys
  import opened Loading
  import opened Chains
  import opened Reading
  import M = Model
  import F = Frames
  import S = Slots

  /** The records that a callback sees: up to and including the first one it refuses. */
  function Deliver(fn: Record -> bool, records: seq<Record>): seq<Record>
  {
    if records == [] then []
    else if fn(records[0]) then [records[0]] + Deliver(fn, records[1..])
    else [records[0]]
  }

  predicate AllAccepted(fn: Record -> bool, records: seq<Record>)
  {
    forall r | r in records :: fn(r)
  }

  /** What was delivered is a prefix that the callback accepted, all but possibly the last. */
  lemma {:induction false} DeliverExact(fn: Record -> bool, records: seq<Record>)
    ensures var d := Deliver(fn, records);
            && d <= records
            && (AllAccepted(fn, records) <==> AllAccepted(fn, d))
            && (AllAccepted(fn, records) ==> d == records)
            && (!AllAccepted(fn, records) ==>
                  d != [] && !fn(d[|d| - 1]) && AllAccepted(fn, d[..|d| - 1]))
  {
    if records != [] && fn(records[0]) {
      DeliverExact(fn, records[1..]);
    }
  }

  lemma {:induction false} WindowStep(log: M.Log, from: nat, end: nat)
    requires log.head <= from < log.Next() && (end == 0 || from < end)
    ensures var w := Window(log, from, end);
            w != [] && w[0] == Record(from, log.rows[from - log.head]) && w[1..] == Window(log, from + 1, end)
  {
  }

  lemma {:induction false} WindowEnd(log: M.Log, from: nat, end: nat)
    requires log.head <= from && (from >= log.Next() || (end > 0 && from >= end))
    ensures Window(log, from, end) == []
  {
  }

  function Max(a: nat, b: nat): nat { if a < b then b else a }

  /** How many of the delivered records were accepted. */
  function Accepted(fn: Record -> bool, delivered: seq<Record>): nat
  {
    if delivered == [] || fn(delivered[|delivered| - 1]) then |delivered| else |delivered| - 1
  }

  /** Among the delivered records is one with this number. */
  ghost predicate Sees(delivered: seq<Record>, sequence: nat)
  {
    exists i | 0 <= i < |delivered| :: delivered[i].sequence == sequence
  }

  /** A delivered record with a lower number was refused. */
  ghost predicate RefusedBelow(fn: Record -> bool, delivered: seq<Record>, sequence: nat)
  {
    exists i | 0 <= i < |delivered| :: delivered[i].sequence < sequence && !fn(delivered[i])
  }

  /** A retained record with a number at or above both, and below `end` unless that is 0. */
  predicate InRange(log: M.Log, from: nat, cursor: nat, end: nat, sequence: nat)
  {
    log.head <= sequence < log.head + |log.rows| && from <= sequence && cursor <= sequence && (end == 0 || sequence < end)
  }

  /**
    The delivered records are those in range, each once, in order and with its payload, up to the first one that was
    refused.
  */
  ghost predicate Shows(log: M.Log, from: nat, cursor: nat, end: nat, fn: Record -> bool, delivered: seq<Record>)
  {
    && (forall i | 0 <= i < |delivered| ::
          InRange(log, from, cursor, end, delivered[i].sequence)
          && delivered[i].payload == log.rows[delivered[i].sequence - log.head])
    && (forall i, j | 0 <= i < j < |delivered| :: delivered[i].sequence < delivered[j].sequence && fn(delivered[i]))
    && (forall n: nat | InRange(log, from, cursor, end, n) :: Sees(delivered, n) || RefusedBelow(fn, delivered, n))
  }

  /** Where a consumer goes on that was shown these records: behind the last one, or at it if that was refused. */
  function Onward(fn: Record -> bool, delivered: seq<Record>, cursor: nat): nat
  {
    if delivered == [] then cursor
    else var last := delivered[|delivered| - 1]; if fn(last) then last.sequence + 1 else last.sequence
  }

  /** What is left are the records from this number on, which is the new head. */
  ghost predicate KeptFrom(before: M.Log, sequence: nat, after: M.Log)
  {
    before.head <= sequence <= before.head + |before.rows| && after == M.Log(sequence, before.rows[sequence - before.head..])
  }

  lemma {:induction false} AllButLast(fn: Record -> bool, records: seq<Record>, i: nat)
    requires AllAccepted(fn, records) || (records != [] && AllAccepted(fn, records[..|records| - 1]))
    requires i < |records| - 1
    ensures fn(records[i])
  {
    assert records[..|records| - 1][i] == records[i];
  }

  /** The delivered records are consecutive from `start` on; if there are fewer than in range, the last was refused. */
  lemma {:induction false} DeliveredRun(fn: Record -> bool, log: M.Log, start: nat, end: nat)
    requires log.head <= start
    ensures var d := Deliver(fn, Window(log, start, end));
            var last := if end == 0 || end >= log.Next() then log.Next() else end;
            && (forall i | 0 <= i < |d| :: start + i < last && d[i] == Record(start + i, log.rows[start + i - log.head]))
            && (forall i | 0 <= i < |d| - 1 :: fn(d[i]))
            && (start + |d| < last ==> d != [] && !fn(d[|d| - 1]))
  {
    hide Window, Deliver, AllAccepted;
    var w := Window(log, start, end);
    var d := Deliver(fn, w);
    WindowExact(log, start, end);
    DeliverExact(fn, w);
    forall i | 0 <= i < |d| - 1
      ensures fn(d[i])
    {
      AllButLast(fn, d, i);
    }
  }

  lemma {:induction false} ShownExactly(log: M.Log, from: nat, cursor: nat, end: nat, fn: Record -> bool)
    ensures Shows(log, from, cursor, end, fn, Deliver(fn, Window(log, Max(Max(from, cursor), log.head), end)))
  {
    hide Window, Deliver;
    var start := Max(Max(from, cursor), log.head);
    var d := Deliver(fn, Window(log, start, end));
    DeliveredRun(fn, log, start, end);
    forall n: nat | InRange(log, from, cursor, end, n)
      ensures Sees(d, n) || RefusedBelow(fn, d, n)
    {
      if n - start < |d| {
        assert d[n - start].sequence == n;
      } else {
        assert d[|d| - 1].sequence < n;
      }
    }
  }

  /** What a call of `Consume` shows, where it goes on, and what it forgets. */
  lemma {:induction false} ConsumedExactly(log: M.Log, from: nat, cursor: nat, fn: Record -> bool, delivered: seq<Record>)
    requires delivered == Deliver(fn, Window(log, Max(Max(from, cursor), log.head), 0))
    ensures Shows(log, from, cursor, 0, fn, delivered)
    ensures var unread := Max(Max(from, cursor), log.head) + Accepted(fn, delivered);
            var moves := if AllAccepted(fn, delivered) then delivered != [] else unread > cursor;
            && (moves ==> Onward(fn, delivered, cursor) == unread > cursor && KeptFrom(log, unread, log.Before(unread)))
            && (!moves ==> Onward(fn, delivered, cursor) == cursor)
  {
    hide Window, Deliver, Shows;
    var start := Max(Max(from, cursor), log.head);
    ShownExactly(log, from, cursor, 0, fn);
    DeliveredSpan(fn, log, start, delivered);
    if delivered != [] {
      assert delivered[|delivered| - 1].sequence == start + |delivered| - 1;
    }
  }

  class Log {
    const chain: Chain
    var nextConsumeSeq: uint64

    constructor (chain: Chain)
      ensures this.chain == chain && nextConsumeSeq == 0
    {
      this.chain, nextConsumeSeq := chain, 0;
    }

    /** The records of the log and their numbers. */
    ghost function Records(): M.Log
      requires chain.Valid()
      reads chain, chain.disk, chain.Objects()
    {
      M.Abs(chain.views)
    }

    /** Passes the retained records from `startSeq` on, and below `endSeq` unless that is 0, to `fn`, until it refuses one. */
    method Range(startSeq: uint64, endSeq: uint64, fn: Record -> bool)
      returns (err: Option<Error>, delivered: seq<Record>)
      requires chain.Readable()
      ensures chain.Readable()
      ensures delivered == Deliver(fn, Window(Records(), Max(startSeq, Records().head), endSeq))
      ensures err == if AllAccepted(fn, delivered) then None else Some(CallbackFailed)
      ensures Shows(Records(), startSeq, 0, endSeq, fn, delivered)
    {
      hide Chain.Readable, Chain.Valid, M.Flatten, Deliver, M.Contiguous, Window, Shows;
      ReadableParts(chain);
      ShownExactly(Records(), startSeq, 0, endSeq, fn);
      WindowClamped(M.Abs(chain.views), startSeq, endSeq);
      var scanner := new LogScanner(chain, F.NO_LIMIT);
      scanner.Seek(startSeq);
      scanner.StopAt(endSeq);
      err, delivered := PassAll(scanner, fn);
    }

    /** Where the next call of `Consume` starts. */
    ghost function ConsumeStart(fromSeq: nat): nat
      requires chain.Valid()
      reads this, chain, chain.disk, chain.Objects()
    {
      Max(Max(fromSeq, nextConsumeSeq), Records().head)
    }

    /** Delivers records from the cursor on, and forgets the accepted ones. */
    method Consume(fromSeq: uint64, fn: Record -> bool) returns (err: Option<Error>, delivered: seq<Record>)
      requires chain.Readable()
      modifies this, chain, chain.disk, chain.Objects()
      ensures delivered == Deliver(fn, Window(old(Records()), old(ConsumeStart(fromSeq)), 0))
      ensures var unread := old(ConsumeStart(fromSeq)) + Accepted(fn, delivered);
              var moves := if AllAccepted(fn, delivered) then delivered != [] else unread > old(nextConsumeSeq);
              && nextConsumeSeq == (if moves then unread else old(nextConsumeSeq))
              && (err != Some(IoFailure) ==>
                    && chain.Readable() && (old(chain.Clean()) ==> chain.Clean()) && chain.OldOrNew()
                    && Records() == (if moves then old(Records()).Before(unread) else old(Records()))
                    && (if moves then CutsFront(old(chain.views), unread, chain.views) else chain.views == old(chain.views)))
              && (err == Some(IoFailure) ==> moves && !chain.disk.reliable)
      ensures err != Some(IoFailure) ==> err == if AllAccepted(fn, delivered) then None else Some(CallbackFailed)
      ensures err != Some(IoFailure) && old(Within(chain.limits, chain.views)) ==> Within(chain.limits, chain.views)
      ensures Shows(old(Records()), fromSeq, old(nextConsumeSeq), 0, fn, delivered)
      ensures nextConsumeSeq == Onward(fn, delivered, old(nextConsumeSeq))
      ensures err != Some(IoFailure) ==>
                if nextConsumeSeq == old(nextConsumeSeq) then Records() == old(Records())
                else KeptFrom(old(Records()), nextConsumeSeq, Records())
      ensures old(chain.Clean()) ==>
                AllSurvive(old(chain.views), if nextConsumeSeq == old(nextConsumeSeq) then 0 else nextConsumeSeq,
                           old(chain.disk.history), chain.disk.history)
    {
      hide Chain.Valid, Chain.Readable, Chain.Clean, M.Flatten, Deliver, M.Contiguous, Window, Within, AllAccepted, Accepted;
      hide CutsFront, AllSurvive, Shows, Onward, KeptFrom;
      ReadableParts(chain);
      HeadKnown();
      var head := Head();
      var start := if fromSeq < nextConsumeSeq then nextConsumeSeq else fromSeq;
      if start < head {
        start := head;
      }
      ghost var log := Records();
      err, delivered := Range(start, 0, fn);
      DeliveredSpan(fn, log, start, delivered);
      var accepted := Accepted(fn, delivered);
      var nextUnread := if accepted == 0 then start else delivered[accepted - 1].sequence + 1;
      ConsumedExactly(log, fromSeq, nextConsumeSeq, fn, delivered);
      NothingHappened(chain.views, 0, chain.disk.history);
      if err.Some? {
        if nextUnread > nextConsumeSeq {
          var ok := Forget(nextUnread);
          if !ok {
            err := Some(IoFailure);
          }
        }
        return;
      }
      if nextUnread == start {
        return;
      }
      var ok := Forget(nextUnread);
      if !ok {
        err := Some(IoFailure);
      }
    }

    /** Moves the cursor to `sequence` and removes all records below it. */
    method Forget(sequence: nat) returns (ok: bool)
      requires chain.Readable() && sequence <= Records().Next()
      modifies this, chain, chain.disk, chain.Objects()
      ensures nextConsumeSeq == sequence && (chain.disk.reliable ==> ok)
      ensures ok ==> chain.Readable() && (old(chain.Clean()) ==> chain.Clean()) && chain.OldOrNew()
      ensures ok ==> Records() == old(Records()).Before(sequence) && CutsFront(old(chain.views), sequence, chain.views)
      ensures ok && old(Within(chain.limits, chain.views)) ==> Within(chain.limits, chain.views)
      ensures old(chain.Clean()) ==> AllSurvive(old(chain.views), sequence, old(chain.disk.history), chain.disk.history)
    {
      hide Segment.Valid, Segment.Covered, M.Contiguous, Ascending, M.Total, Tidy, M.Flatten, Live, CutsFront, AllSurvive;
      ReadableParts(chain);
      chain.WidthsOfLast();
      nextConsumeSeq := sequence;
      ok := chain.TruncateBefore(sequence);
    }

    /** Appends a batch as a whole, giving up the `k` oldest segments. */
    method Append(payloads: seq<Payload>) returns (r: Result<uint64>, ghost k: nat)
      requires chain.Valid() && RoomFor(chain.limits, chain.views, payloads)
      modifies chain, chain.disk, chain.Objects()
      ensures chain.Valid() && chain.OldOrNew() && Appends(chain.limits, old(chain.views), payloads, r, k, chain.views)
      ensures k < |old(chain.views)| && 0 <= Lost(old(chain.views), k) <= |old(Records()).rows|
      ensures Records() == old(Records()).Drop(Lost(old(chain.views), k)).Add(if r.Ok? then payloads else [])
      ensures M.Extended(old(Records()), if r.Ok? then payloads else [], Records())
      ensures r.Ok? ==> r.value == if payloads == [] then 0 else old(Records()).Next() + |payloads| - 1
      ensures chain.disk.reliable && old(chain.Clean()) ==> Deliberate(r)
      ensures chain.disk.reliable && old(chain.Clean()) ==>
                (r.Ok? <==>
                   || payloads == []
                   || (Admissible(chain.limits, old(chain.views), BatchSize(payloads)) && Framable(payloads)))
      ensures chain.disk.reliable && old(chain.Clean()) && old(Within(chain.limits, chain.views)) ==>
                (r.Ok? <==>
                   || payloads == []
                   || (Framable(payloads) && exists j: nat :: FitsWithout(chain.limits, old(chain.views), j, payloads)))
      ensures r.Ok? && payloads != [] ==> chain.views == Placed(chain.limits, old(chain.views)[k..], payloads)
      ensures old(chain.Clean()) && (r.Ok? || r.error !in {CreateFailure, TrimFailure}) ==> chain.Clean()
      ensures old(chain.Readable()) && r != Err(TrimFailure) ==> chain.Readable()
      ensures old(Within(chain.limits, chain.views)) ==> Within(chain.limits, chain.views)
    {
      hide Chain.Valid, Chain.Clean, Chain.Readable, M.Flatten, M.Contiguous, Within, RoomFor, Appends, Deliberate;
      hide BatchSize, Limits.TooLarge, Admissible, Framable, FitsWithout, Placed, M.Extended;
      ValidParts(chain);
      AppendNothing(chain.limits, chain.views);
      if payloads == [] {
        M.ExtendedExactly(Records(), 0, payloads);
        assert Records().Drop(0).Add(payloads) == Records();
        return Ok(0), 0;
      }
      ghost var start := chain.views;
      var s;
      s, k := chain.Append(payloads);
      r := match s
        case Err(SegmentFull) => Err(SegmentFull)
        case Err(BatchTooLarge) => Err(SegmentFull)
        case other => other;
      AppendAnswer(chain.limits, start, payloads, r, k, chain.views);
      AppendPlaced(chain.limits, start, payloads, r, k, chain.views);
    }

    method TruncateBefore(sequence: uint64) returns (ok: bool)
      requires chain.Valid()
      modifies chain, chain.disk, chain.Objects()
      ensures ok ==> chain.Valid() && chain.OldOrNew() && Records() == old(Records()).Before(sequence)
      ensures ok ==> M.OnlyFrom(old(Records()), sequence, Records())
      ensures ok ==> CutsFront(old(chain.views), sequence, chain.views)
      ensures ok && old(chain.Clean()) ==> chain.Clean()
      ensures ok && old(chain.Readable()) ==> chain.Readable()
      ensures ok && old(Within(chain.limits, chain.views)) ==> Within(chain.limits, chain.views)
      ensures chain.disk.reliable ==> ok
      ensures old(chain.Clean()) ==>
                AllSurvive(old(chain.views), sequence, old(chain.disk.history), chain.disk.history)
    {
      hide Chain.Valid, Chain.Clean, Chain.Readable, M.Flatten, M.Contiguous, Within, AllSurvive, CutsFront, M.OnlyFrom;
      ValidParts(chain);
      M.TruncatedExactly(Records(), sequence, 0);
      ok := chain.TruncateBefore(sequence);
    }

    /** Leaves the cursor of `Consume` where it is. */
    method TruncateAfter(sequence: uint64) returns (ok: bool)
      requires chain.Valid()
      modifies chain, chain.disk, chain.Objects()
      ensures ok ==> chain.Valid() && chain.OldOrNew()
      ensures ok ==> Records() == old(Records()).After(sequence, chain.startSequence)
      ensures ok ==> if sequence < old(Records()).head then Records() == M.Log(chain.startSequence, [])
                     else M.OnlyThrough(old(Records()), sequence, Records())
      ensures ok ==> CutsEnd(old(chain.views), sequence, chain.startSequence, chain.views)
      ensures ok && old(chain.Clean()) ==> chain.Clean()
      ensures ok && old(Within(chain.limits, chain.views)) && Roomy(chain.limits) ==> Within(chain.limits, chain.views)
      ensures chain.disk.reliable && old(chain.Clean()) ==> ok
    {
      hide Chain.Valid, Chain.Clean, M.Flatten, M.Contiguous, Within, CutsEnd, M.OnlyThrough;
      ValidParts(chain);
      M.TruncatedExactly(Records(), sequence, chain.startSequence);
      ok := chain.TruncateAfter(sequence);
    }

    /** The number of the first record. */
    function Head(): uint64
      reads chain, chain.segments
    {
      if chain.segments == [] then 0 else chain.segments[0].StartSequence() % U64
    }

    lemma HeadKnown()
      requires chain.Valid()
      ensures Head() == Records().head
    {
      hide Segment.Valid, Segment.Covered, M.Contiguous, Ascending, M.Total, M.Flatten, SoundSegments;
      chain.SizesMatch();
      chain.At(0);
      chain.WidthsOfLast();
      LogSpan(chain.views);
    }

    /** The cursor starts at the first record. */
    method Load(ghost target: seq<View>) returns (err: Option<Error>)
      modifies this, chain, chain.disk
      ensures err.None? ==> nextConsumeSeq == Head()
      ensures err.None? ==>
                forall i | 0 <= i < |chain.segments| :: fresh(chain.segments[i]) && fresh(chain.segments[i].offsetIndex)
      ensures old(chain.disk.files) == map[] ==>
                || (err == Some(CreateFailure) && !chain.disk.reliable)
                || (&& err.None? && chain.Clean() && chain.views == [View(chain.startSequence, [], 0)]
                    && Records() == M.Log(chain.startSequence, []) && nextConsumeSeq == chain.startSequence)
      ensures && Loadable(old(chain.disk.files), target)
              && (chain.limits.maxSegments > 0 ==> |target| <= chain.limits.maxSegments)
              && (chain.limits.maxDiskSize > 0 ==> M.Total(target) <= chain.limits.maxDiskSize)
              && (chain.limits.maxSegments == 1 ==> ShutLast(old(chain.disk.files), target)) ==>
                || (err == Some(IoFailure) && !chain.disk.reliable)
                || (err.None? && chain.Clean() && chain.views == target && nextConsumeSeq == Records().head)
      ensures err.None? ==> forall n | n in old(chain.disk.files) :: |old(chain.disk.files)[n]| >= S.SEGMENT_HEADER
      ensures chain.limits.maxSegments == 1 && Loadable(old(chain.disk.files), target) && |target| == 1 ==>
                ShutLast(old(chain.disk.files), target) || err == Some(UnexpectedEof)
      ensures && chain.limits.maxSegments != 1 && Held(old(chain.disk.files), target) && Ordered(target)
              && (chain.limits.maxSegments > 0 ==> |target| <= chain.limits.maxSegments) ==>
                M.Contiguous(target) || err == Some(NotContiguous)
      ensures Spoiled(old(chain.disk.files), target) && (chain.limits.maxSegments == 1 ==> |target| == 1) ==>
                err == Some(InvalidChecksum)
      ensures && Stumbles(old(chain.disk.files), target, chain.limits.maxSegments != 1)
              && (chain.limits.maxSegments == 1 && 0 in old(chain.disk.files) ==> |target| == 1) ==>
                err == FirstFault(old(chain.disk.files), target, chain.limits.maxSegments != 1)
      ensures && Held(old(chain.disk.files), target) && 0 < chain.limits.maxSegments < |target|
              && (chain.limits.maxSegments == 1 ==> ShutLast(old(chain.disk.files), target)) ==>
                err == Some(TooManySegments)
      ensures && chain.limits.maxSegments != 1 && TornInside(old(chain.disk.files), target) && M.Contiguous(target)
              && (chain.limits.maxSegments > 0 ==> |target| <= chain.limits.maxSegments) ==>
                err == Some(UnexpectedEof)
      ensures && Loadable(old(chain.disk.files), target)
              && (chain.limits.maxSegments > 0 ==> |target| <= chain.limits.maxSegments)
              && (chain.limits.maxSegments == 1 ==> ShutLast(old(chain.disk.files), target))
              && 0 < chain.limits.maxDiskSize < M.Total(target) ==>
                err == Some(DiskFull) || (err == Some(IoFailure) && !chain.disk.reliable)
      ensures err.Some? && err.value !in {IoFailure, DiskFull, CreateFailure} ==>
                chain.disk.files == old(chain.disk.files) && chain.disk.history == old(chain.disk.history)
    {
      hide Segment.Valid, Segment.Covered, M.Contiguous, Ascending, M.Total, M.Flatten, Loadable, ShutLast, Tidy;
      hide Spoiled, Held, Ordered, Stumbles, TornInside, FirstFault, InARow;
      err := chain.Load(target);
      if err.None? {
        nextConsumeSeq := Head();
        if chain.Valid() { HeadKnown(); }
        StartedOver(chain.startSequence);
      }
    }

    /** The number of the first record, and whether there is any record. */
    function FirstSequence(): (nat, bool)
      reads chain, chain.segments
    {
      if chain.segments == [] || chain.segments[0].StartSequence() >= chain.segments[|chain.segments| - 1].NextSequence()
      then (0, false)
      else (chain.segments[0].StartSequence(), true)
    }

    /** The number of the last record, and whether there is any record. */
    function LastSequence(): (int, bool)
      reads chain, chain.segments
    {
      if chain.segments == [] || chain.segments[0].StartSequence() >= chain.segments[|chain.segments| - 1].NextSequence()
      then (0, false)
      else (chain.segments[|chain.segments| - 1].NextSequence() - 1, true)
    }

    /** Both tell where the records are, and whether there are any. */
    lemma SequencesKnown()
      requires chain.Valid()
      ensures var log := Records();
              && FirstSequence() == (if log.rows != [] then (log.head, true) else (0, false))
              && LastSequence() == (if log.rows != [] then (log.Next() - 1, true) else (0, false))
    {
      hide Segment.Valid, Segment.Covered, M.Contiguous, Ascending, M.Total, M.Flatten, SoundSegments;
      chain.SizesMatch();
      chain.At(0);
      LogSpan(chain.views);
    }
  }

  /** What the answer of an append says about the records and about the batch. */
  lemma {:induction false} AppendAnswer(l: Limits, v: seq<View>, batch: seq<Payload>, r: Result<uint64>, k: nat, w: seq<View>)
    requires v != [] && M.Contiguous(v) && Appends(l, v, batch, r, k, w)
    ensures k < |v| && 0 <= Lost(v, k) <= |M.Abs(v).rows|
    ensures M.Extended(M.Abs(v), if r.Ok? then batch else [], M.Abs(v).Drop(Lost(v, k)).Add(if r.Ok? then batch else []))
    ensures r.Ok? ==> r.value == if batch == [] then 0 else M.Abs(v).Next() + |batch| - 1
    ensures Deliberate(r) ==> (r.Ok? <==> batch == [] || (Admissible(l, v, BatchSize(batch)) && Framable(batch)))
  {
    hide M.Flatten, BatchSize, Limits.TooLarge, Admissible, NeedsReap, Rotates, OverBudget, Admitted, Needed;
    hide Framable, M.Extended;
    LogSpan(v);
    AppendsAbs(l, v, batch, r, k, w);
    M.ExtendedExactly(M.Abs(v), Lost(v, k), if r.Ok? then batch else []);
    if Deliberate(r) {
      AppendDecided(l, v, batch, r, k, w);
    }
  }

  /** Passes what a scanner has left to `fn`, until it refuses one. */
  method PassAll(scanner: LogScanner, fn: Record -> bool) returns (err: Option<Error>, delivered: seq<Record>)
    requires scanner.payLimit == F.NO_LIMIT && scanner.chain.views != [] && M.Contiguous(scanner.chain.views)
    requires scanner.chain.Readable() && scanner.Standing() && scanner.err.None?
    requires M.Abs(scanner.chain.views).head <= scanner.position <= M.Abs(scanner.chain.views).Next()
    modifies scanner, scanner.segScanner
    ensures scanner.chain.Readable() && scanner.chain.views == old(scanner.chain.views)
    ensures delivered == Deliver(fn, Window(M.Abs(scanner.chain.views), old(scanner.position), old(scanner.endSeq)))
    ensures err == if AllAccepted(fn, delivered) then None else Some(CallbackFailed)
  {
    hide Chain.Readable, Chain.Valid, M.Flatten, Deliver, M.Contiguous, Window, LogScanner.Standing, AllAccepted;
    hide Chain.Objects, ObjectsOf;
    ReadableParts(scanner.chain);
    ghost var log, end := M.Abs(scanner.chain.views), scanner.endSeq;
    ghost var all := Deliver(fn, Window(log, scanner.position, end));
    delivered := [];
    NoneRefused(fn);
    while true
      invariant scanner.chain.Readable() && scanner.Standing() && scanner.err.None? && scanner.endSeq == end
      invariant scanner.segScanner == null || scanner.segScanner == old(scanner.segScanner) || fresh(scanner.segScanner)
      invariant log.head <= scanner.position <= log.Next() && AllAccepted(fn, delivered)
      invariant all == delivered + Deliver(fn, Window(log, scanner.position, end))
      decreases log.Next() - scanner.position
    {
      ghost var at := scanner.position;
      DeliverStep(fn, log, at, end);
      var more := scanner.Next();
      if !more {
        return scanner.err, delivered;
      }
      var record := scanner.borrowed.value;
      OneMoreAccepted(fn, delivered, record, Deliver(fn, Window(log, at + 1, end)));
      delivered := delivered + [record];
      if !fn(record) {
        return Some(CallbackFailed), delivered;
      }
    }
  }

  lemma {:induction false} NoneRefused(fn: Record -> bool)
    ensures AllAccepted(fn, [])
  {
  }

  lemma {:induction false} OneMoreAccepted(fn: Record -> bool, records: seq<Record>, r: Record, rest: seq<Record>)
    requires AllAccepted(fn, records)
    ensures AllAccepted(fn, records + [r]) <==> fn(r)
    ensures records + [r] + rest == records + ([r] + rest)
  {
    assert r in records + [r];
  }

  /** What is delivered from here on, when there is one more record in range and when there is none. */
  lemma {:induction false} DeliverStep(fn: Record -> bool, log: M.Log, from: nat, end: nat)
    requires log.head <= from
    ensures from < log.Next() && (end == 0 || from < end) ==>
              var r := Record(from, log.rows[from - log.head]);
              Deliver(fn, Window(log, from, end)) == if fn(r) then [r] + Deliver(fn, Window(log, from + 1, end)) else [r]
    ensures from >= log.Next() || (end > 0 && from >= end) ==> Deliver(fn, Window(log, from, end)) == []
  {
    if from < log.Next() && (end == 0 || from < end) {
      WindowStep(log, from, end);
    }
  }

  /** The accepted records are consecutive from `start` on. */
  lemma {:induction false} DeliveredSpan(fn: Record -> bool, log: M.Log, start: nat, delivered: seq<Record>)
    requires log.head <= start && delivered == Deliver(fn, Window(log, start, 0))
    ensures Accepted(fn, delivered) <= |delivered|
    ensures AllAccepted(fn, delivered) <==> Accepted(fn, delivered) == |delivered|
    ensures delivered != [] ==> start + |delivered| <= log.Next()
    ensures forall i | 0 <= i < |delivered| :: delivered[i].sequence == start + i
  {
    WindowExact(log, start, 0);
    DeliverExact(fn, Window(log, start, 0));
  }

  lemma {:induction false} WindowClamped(log: M.Log, start: nat, end: nat)
    ensures log.head <= log.Clamp(start) <= log.Next()
    ensures Window(log, log.Clamp(start), end) == Window(log, Max(start, log.head), end)
  {
    if start >= log.Next() {
      WindowEnd(log, log.Clamp(start), end);
      WindowEnd(log, Max(start, log.head), end);
    }
  }
}
