/**
  Whole histories of a log: what was asked of it, what it answered, where it crashed, and the segments it kept.
  What a step does to the segments is exact; the properties of histories are about records and answers.
*/
module Traces {
  import opened Bytes
  import opened Errors
  import opened Layout
  import opened Retention
  import opened Recovery
  import opened Crashes
  import opened Reading
  import opened Logs
  import M = Model

  /** What stays the same during a history: the limits, the number a log starts over at, and whether the disk may fail. */
  datatype Setting = Setting(limits: Limits, first: nat, reliable: bool)

  /** The segments and the cursor of `Consume`. */
  datatype State = State(views: seq<View>, cursor: nat) {
    ghost predicate Sound() { views != [] && M.Contiguous(views) }

    function Records(): M.Log
      requires Sound()
    {
      M.Abs(views)
    }

    /** Where a call of `Consume` starts. */
    function Start(fromSeq: nat): nat
      requires Sound()
    {
      Max(Max(fromSeq, cursor), Records().head)
    }
  }

  /** What happened; a crash is followed by the load of what it left. */
  datatype Event =
    | Appended(batch: seq<Payload>, result: Result<uint64>, reaped: nat)
    | TruncatedBefore(sequence: nat)
    | TruncatedAfter(sequence: nat)
    | Consumed(fromSeq: nat, fn: Record -> bool, delivered: seq<Record>)
    | Reloaded
    | CrashedConsuming(fromSeq: nat, fn: Record -> bool, delivered: seq<Record>)
    | CrashedAppending(batch: seq<Payload>, haunted: bool)
    | CrashedBefore(sequence: nat)
    | CrashedAfter(sequence: nat)

  predicate Reads(e: Event) { e.Consumed? || e.CrashedConsuming? }

  /** The number behind the last accepted record. */
  function Unread(s: State, e: Event): nat
    requires s.Sound() && Reads(e)
  {
    s.Start(e.fromSeq) + Accepted(e.fn, e.delivered)
  }

  predicate Moves(s: State, e: Event)
    requires s.Sound() && Reads(e)
  {
    if AllAccepted(e.fn, e.delivered) then e.delivered != [] else Unread(s, e) > s.cursor
  }

  /** All records below this number are forgotten. */
  function Forgets(s: State, e: Event): nat
    requires s.Sound() && Reads(e)
  {
    if Moves(s, e) then Unread(s, e) else 0
  }

  /** A record that passes for one of the batch by accident. */
  ghost predicate Haunted(l: Limits, start: seq<View>, batch: seq<Payload>, log: M.Log)
    requires start != [] && M.Contiguous(start)
  {
    batch != [] && exists k: nat | Needed(l, start, BatchSize(batch), k) :: Keeps(start, k, [[]], 1, log)
  }

  /** What a crash leaves of a truncation at the end: more than was asked for, or the log started over. */
  ghost predicate CutShort(s: M.Log, sequence: nat, first: nat, t: M.Log)
  {
    || (sequence >= s.head && exists x: nat | x >= sequence :: t == s.After(x, first))
    || (sequence < s.head && (t == M.Log(first, []) || exists n: nat | n <= |s.rows| :: t == s.Drop(n)))
  }

  /** A log that was just loaded: within the limits, with the cursor at the head. */
  ghost predicate Recovered(env: Setting, t: State)
    requires t.Sound()
  {
    Within(env.limits, t.views) && t.cursor == t.Records().head
  }

  /** The event takes a log from state `s` to state `t`. */
  ghost predicate Step(env: Setting, s: State, e: Event, t: State)
  {
    && s.Sound() && t.Sound()
    && match e
       case Appended(batch, result, reaped) =>
         && Appends(env.limits, s.views, batch, result, reaped, t.views) && t.cursor == s.cursor
         && (env.reliable ==> Deliberate(result))
       case TruncatedBefore(sequence) => CutsFront(s.views, sequence, t.views) && t.cursor == s.cursor
       case TruncatedAfter(sequence) => CutsEnd(s.views, sequence, env.first, t.views) && t.cursor == s.cursor
       case Consumed(fromSeq, fn, delivered) =>
         && delivered == Deliver(fn, Window(s.Records(), s.Start(fromSeq), 0))
         && if Moves(s, e) then CutsFront(s.views, Unread(s, e), t.views) && t.cursor == Unread(s, e) else t == s
       case Reloaded => t == State(s.views, s.Records().head)
       case CrashedConsuming(fromSeq, fn, delivered) =>
         && delivered == Deliver(fn, Window(s.Records(), s.Start(fromSeq), 0))
         && KeepsFrom(s.Records(), t.Records(), Forgets(s, e)) && Recovered(env, t)
       case CrashedAppending(batch, haunted) =>
         && (if haunted then Haunted(env.limits, s.views, batch, t.Records())
             else Salvages(env.limits, s.views, batch, t.Records()))
         && Recovered(env, t)
       case CrashedBefore(sequence) => KeepsFrom(s.Records(), t.Records(), sequence) && Recovered(env, t)
       case CrashedAfter(sequence) => CutShort(s.Records(), sequence, env.first, t.Records()) && Recovered(env, t)
  }

  ghost predicate Trace(env: Setting, states: seq<State>, events: seq<Event>)
  {
    && |states| == |events| + 1
    && forall i | 0 <= i < |events| :: Step(env, states[i], events[i], states[i + 1])
  }

  lemma {:induction false} TraceAt(env: Setting, states: seq<State>, events: seq<Event>, i: nat)
    requires Trace(env, states, events) && i < |events|
    ensures Step(env, states[i], events[i], states[i + 1]) && states[i].Sound() && states[i + 1].Sound()
  {
    hide M.Contiguous;
  }

  // What an event does to the records

  /** An append forgets the records of the segments it gave up, and adds the whole batch or nothing. */
  lemma {:induction false} AppendedRecords(env: Setting, s: State, e: Event, t: State)
    requires Step(env, s, e, t) && e.Appended?
    ensures e.reaped < |s.views| && 0 <= Lost(s.views, e.reaped) <= |s.Records().rows|
    ensures t.Records() == s.Records().Drop(Lost(s.views, e.reaped)).Add(if e.result.Ok? then e.batch else [])
    ensures e.result.Ok? && e.batch != [] ==> e.result.value == s.Records().Next() + |e.batch| - 1
  {
    hide Appends, M.Contiguous, M.Flatten, Deliberate;
    AppendsAbs(env.limits, s.views, e.batch, e.result, e.reaped, t.views);
    AppendAnswer(env.limits, s.views, e.batch, e.result, e.reaped, t.views);
  }

  lemma {:induction false} TruncatedRecords(env: Setting, s: State, e: Event, t: State)
    requires Step(env, s, e, t)
    ensures e.TruncatedBefore? ==> t.Records() == s.Records().Before(e.sequence)
    ensures e.TruncatedAfter? ==> t.Records() == s.Records().After(e.sequence, env.first)
    ensures e.TruncatedBefore? ==> M.OnlyFrom(s.Records(), e.sequence, t.Records())
    ensures e.TruncatedAfter? ==>
              if e.sequence < s.Records().head then t.Records() == M.Log(env.first, [])
              else M.OnlyThrough(s.Records(), e.sequence, t.Records())
  {
    hide M.OnlyFrom, M.OnlyThrough;
    if e.TruncatedBefore? || e.TruncatedAfter? { M.TruncatedExactly(s.Records(), e.sequence, env.first); }
    hide M.Contiguous, M.Flatten, CutsFront, CutsEnd, Window, Deliver, AllAccepted, Accepted, Appends, Salvages, KeepsFrom;
    if e.TruncatedBefore? { CutsFrontAbs(env.limits, s.views, e.sequence, t.views); }
    if e.TruncatedAfter? { CutsEndAbs(env.limits, s.views, e.sequence, env.first, t.views); }
  }

  /**
    A crash in a truncation at the front keeps the newest records, all from the asked number on among them. One at the
    end keeps the oldest, all up to the asked number among them; if all were to go, some of the oldest may be left out,
    or the log has started over.
  */
  lemma {:induction false} CrashedTruncation(env: Setting, s: State, e: Event, t: State)
    requires Step(env, s, e, t) && (e.CrashedBefore? || e.CrashedAfter?)
    ensures e.CrashedBefore? ==>
              KeptFrom(s.Records(), t.cursor, t.Records()) && (t.cursor == s.Records().head || t.cursor <= e.sequence)
    ensures e.CrashedAfter? && e.sequence >= s.Records().head ==>
              exists x: nat | x >= e.sequence :: M.OnlyThrough(s.Records(), x, t.Records())
    ensures e.CrashedAfter? && e.sequence < s.Records().head ==>
              t.Records() == M.Log(env.first, []) || KeptFrom(s.Records(), t.cursor, t.Records())
  {
    hide M.Contiguous, M.Flatten, M.OnlyFrom, M.OnlyThrough, Within;
    if e.CrashedAfter? && e.sequence >= s.Records().head {
      var x: nat :| x >= e.sequence && t.Records() == s.Records().After(x, env.first);
      M.TruncatedExactly(s.Records(), x, env.first);
    }
  }

  lemma {:induction false} ConsumedRecords(env: Setting, s: State, e: Event, t: State)
    requires Step(env, s, e, t) && e.Consumed?
    ensures t.Records() == if Moves(s, e) then s.Records().Before(Unread(s, e)) else s.Records()
  {
    hide M.Contiguous, M.Flatten, CutsFront, Window, Deliver, AllAccepted, Accepted;
    if Moves(s, e) { CutsFrontAbs(env.limits, s.views, Unread(s, e), t.views); }
  }

  /** A crash in an append keeps every record but those of segments that stood in the way. */
  lemma {:induction false} CrashedRecords(env: Setting, s: State, e: Event, t: State)
      returns (k: nat, added: seq<Payload>)
    requires Step(env, s, e, t) && e.CrashedAppending?
    ensures Needed(env.limits, s.views, BatchSize(e.batch), k) && k < |s.views|
    ensures 0 <= Lost(s.views, k) <= |s.Records().rows| && t.Records() == s.Records().Drop(Lost(s.views, k)).Add(added)
    ensures if e.haunted then added == [[]] && e.batch != [] else exists n: nat | n <= |e.batch| :: added == e.batch[..n]
  {
    hide M.Contiguous, M.Flatten, NeedsReap, BatchSize;
    var one: seq<Payload> := [[]];
    if !e.haunted {
      var n: nat;
      k, n :| Needed(env.limits, s.views, BatchSize(e.batch), k) && Keeps(s.views, k, e.batch, n, t.Records());
      added := e.batch[..n];
    } else {
      k :| Needed(env.limits, s.views, BatchSize(e.batch), k) && Keeps(s.views, k, one, 1, t.Records());
      added := one;
      assert one[..1] == one;
    }
  }

  /** Over a whole history the limits are kept. */
  lemma {:induction false} AlwaysWithin(env: Setting, states: seq<State>, events: seq<Event>, j: nat)
    requires Trace(env, states, events) && j <= |events| && Within(env.limits, states[0].views) && Roomy(env.limits)
    ensures Within(env.limits, states[j].views)
    decreases j
  {
    hide Step, Within, Roomy, State.Sound;
    if j > 0 {
      AlwaysWithin(env, states, events, j - 1);
      StepWithin(env, states[j - 1], events[j - 1], states[j]);
    }
  }

  lemma {:induction false} StepWithin(env: Setting, s: State, e: Event, t: State)
    requires Step(env, s, e, t) && Within(env.limits, s.views) && Roomy(env.limits)
    ensures Within(env.limits, t.views)
  {
    hide Within, Roomy, M.Contiguous, M.Flatten, Window, Deliver, AllAccepted, Accepted, CutsFront, CutsEnd, Appends;
    hide Salvages, Haunted, KeepsFrom, CutShort;
    match e
    case Appended(batch, result, k) => AppendsWithin(env.limits, s.views, batch, result, k, t.views);
    case TruncatedBefore(sequence) => CutsFrontAbs(env.limits, s.views, sequence, t.views);
    case TruncatedAfter(sequence) => CutsEndAbs(env.limits, s.views, sequence, env.first, t.views);
    case Consumed(_, _, _) => if Moves(s, e) { CutsFrontAbs(env.limits, s.views, Unread(s, e), t.views); }
    case _ =>
  }

  /**
    On a disk that does not fail an append is decided in advance: it succeeds exactly when its batch is admissible
    and every payload fits a frame. An admissible batch costs the fewest segments possible, one too large for any
    segment costs nothing, and any other one leaves the last segment only. A chain within its limits can admit a batch
    exactly when, without some of its oldest segments, it can take it in its last or in a new segment within the limits.
  */
  lemma {:induction false} AnswerDecided(env: Setting, states: seq<State>, events: seq<Event>, i: nat)
    requires Trace(env, states, events) && i < |events| && events[i].Appended? && env.reliable
    ensures states[i].views != []
    ensures var l, views, size := env.limits, states[i].views, BatchSize(events[i].batch);
            var ok, reaped := events[i].result.Ok?, events[i].reaped;
            && (ok <==> events[i].batch == [] || (Admissible(l, views, size) && Framable(events[i].batch)))
            && (events[i].batch != [] ==>
                  if Admissible(l, views, size) then LeastReap(l, views, size, reaped)
                  else if l.TooLarge(size) then reaped == 0
                  else reaped == |views| - 1)
    ensures var l, views, batch := env.limits, states[i].views, events[i].batch;
            var ok, k := events[i].result.Ok?, events[i].reaped;
            Within(l, views) ==>
              && (ok <==> batch == [] || (Framable(batch) && exists j: nat :: FitsWithout(l, views, j, batch)))
              && (batch != [] && ok ==> k < |views| && states[i + 1].views == Placed(l, views[k..], batch))
              && (batch != [] && (exists j: nat :: FitsWithout(l, views, j, batch)) ==>
                    FitsWithout(l, views, k, batch) && forall j: nat | j < k :: !FitsWithout(l, views, j, batch))
  {
    hide M.Contiguous, NeedsReap, BatchSize, OverBudget, Admitted, Limits.TooLarge, Rotates, Framable, FitsWithout, Within;
    hide Placed, M.Flatten;
    var s, e, t := states[i], events[i], states[i + 1];
    assert Step(env, s, e, t);
    AppendDecided(env.limits, s.views, e.batch, e.result, e.reaped, t.views);
    if Within(env.limits, s.views) {
      AdmissibleExactly(env.limits, s.views, e.batch);
      if e.batch != [] && Admissible(env.limits, s.views, BatchSize(e.batch)) {
        LeastExactly(env.limits, s.views, e.batch, e.reaped);
        M.AbsDrop(s.views, e.reaped);
        PlacedExactly(env.limits, s.views[e.reaped..], e.batch);
      }
    }
  }

  /**
    The reason of a refusal, and its cost: a batch larger than any segment may be is refused at no cost; one that
    fits none the less is refused for a payload; any other one has cost all segments but the last, and is refused
    for the disk limit exactly when that segment and the batch would break it.
  */
  lemma {:induction false} RefusalDecided(env: Setting, states: seq<State>, events: seq<Event>, i: nat)
    requires Trace(env, states, events) && i < |events| && events[i].Appended? && env.reliable
    requires Within(env.limits, states[i].views) && events[i].result.Err?
    ensures var l, views, batch := env.limits, states[i].views, events[i].batch;
            var error, k, t := events[i].result.error, events[i].reaped, states[i + 1].views;
            && views != []
            && if l.maxSegmentSize > 0 && View(0, batch, 0).Size() > l.maxSegmentSize then
                 error == SegmentFull && k == 0 && t == views
               else if exists j: nat :: FitsWithout(l, views, j, batch) then error == PayloadTooLarge && !Framable(batch)
               else
                 && k == |views| - 1 && t == [Last(views)]
                 && error == if l.maxDiskSize > 0 && M.Total(Placed(l, t, batch)) > l.maxDiskSize then DiskFull else SegmentFull
  {
    hide M.Contiguous, NeedsReap, BatchSize, OverBudget, Admitted, Limits.TooLarge, Rotates, Framable, FitsWithout, Within;
    hide Placed, M.Flatten, M.Total, Offset;
    var s, e, t := states[i], events[i], states[i + 1];
    assert Step(env, s, e, t);
    AppendDecided(env.limits, s.views, e.batch, e.result, e.reaped, t.views);
    AdmissibleExactly(env.limits, s.views, e.batch);
    TooLargeExactly(env.limits, e.batch, 0);
    if !env.limits.TooLarge(BatchSize(e.batch)) && !Admissible(env.limits, s.views, BatchSize(e.batch)) {
      var n := |s.views| - 1;
      assert s.views[n..] == [Last(s.views)];
      M.AbsDrop(s.views, n);
      WithinDrop(env.limits, s.views, n);
      BrokenLimit(env.limits, s.views[n..]);
      PressureExactly(env.limits, s.views[n..], e.batch);
    }
  }

  // Order

  /** The end of the log was cut. */
  predicate Cuts(e: Event) { e.TruncatedAfter? || e.CrashedAfter? }

  /** Nothing in this stretch of a history cuts the end off. */
  ghost predicate GrowsOnly(events: seq<Event>, i: nat, j: nat)
    requires i <= j <= |events|
  {
    forall m | i <= m < j :: !Cuts(events[m])
  }

  /** One step that does not cut the end off moves both ends of the log forward, and keeps the cursor behind the head. */
  lemma {:induction false} StepForward(env: Setting, s: State, e: Event, t: State)
    requires Step(env, s, e, t) && !Cuts(e)
    ensures s.Records().head <= t.Records().head && s.Records().Next() <= t.Records().Next()
    ensures s.cursor <= s.Records().head ==> t.cursor <= t.Records().head
  {
    hide M.Contiguous, M.Flatten, Window, Deliver, AllAccepted, Accepted, CutsFront, CutsEnd, Appends, Salvages, Haunted;
    hide BatchSize, Needed;
    match e
    case Appended(_, _, _) => AppendedRecords(env, s, e, t);
    case TruncatedBefore(_) => TruncatedRecords(env, s, e, t);
    case Consumed(fromSeq, fn, delivered) =>
      ConsumedRecords(env, s, e, t);
      DeliveredSpan(fn, s.Records(), s.Start(fromSeq), delivered);
    case CrashedAppending(_, _) => var k, added := CrashedRecords(env, s, e, t);
    case _ =>
  }

  lemma {:induction false} Forward(env: Setting, states: seq<State>, events: seq<Event>, i: nat, j: nat)
    requires Trace(env, states, events) && i <= j <= |events| && GrowsOnly(events, i, j)
    requires states[i].Sound() && states[j].Sound()
    ensures states[i].Records().head <= states[j].Records().head
    ensures states[i].Records().Next() <= states[j].Records().Next()
    ensures states[i].cursor <= states[i].Records().head ==> states[j].cursor <= states[j].Records().head
    decreases j
  {
    hide Step, State.Records, State.Sound, Cuts;
    if i < j {
      TraceAt(env, states, events, j - 1);
      Forward(env, states, events, i, j - 1);
      StepForward(env, states[j - 1], events[j - 1], states[j]);
    }
  }

  /** Without a cut at the end, every number handed out is above all numbers handed out before. */
  lemma {:induction false} NumbersIncrease(env: Setting, states: seq<State>, events: seq<Event>, i: nat, j: nat)
    requires Trace(env, states, events) && i < j < |events| && GrowsOnly(events, i, j)
    requires events[i].Appended? && events[i].result.Ok? && events[i].batch != []
    requires events[j].Appended? && events[j].result.Ok? && events[j].batch != []
    ensures events[i].result.value < events[j].result.value - (|events[j].batch| - 1)
  {
    hide Step, M.Flatten, State.Sound;
    TraceAt(env, states, events, i);
    TraceAt(env, states, events, j);
    AppendedRecords(env, states[i], events[i], states[i + 1]);
    AppendedRecords(env, states[j], events[j], states[j + 1]);
    Forward(env, states, events, i + 1, j);
  }

  // Consumption

  /**
    A consumer is shown the retained records at or above the number it asked for and the cursor, up to the first one it
    refuses, and goes on behind the last one it accepted. What it was not shown, or refused, is kept, through a crash
    as well, but for what it skipped.
  */
  lemma {:induction false} ShownToConsumer(env: Setting, s: State, e: Event, t: State)
    requires Step(env, s, e, t) && Reads(e)
    ensures Shows(s.Records(), e.fromSeq, s.cursor, 0, e.fn, e.delivered)
    ensures var next := Onward(e.fn, e.delivered, s.cursor);
            && (e.Consumed? ==> t.cursor == next)
            && (e.Consumed? && next == s.cursor ==> t.Records() == s.Records())
            && (e.Consumed? && next != s.cursor ==> KeptFrom(s.Records(), next, t.Records()))
            && (e.CrashedConsuming? && next == s.cursor ==> t.Records() == s.Records())
            && (e.CrashedConsuming? && next != s.cursor ==>
                  var n := t.cursor;
                  KeptFrom(s.Records(), n, t.Records()) && (n == s.Records().head || n <= next))
  {
    hide M.Contiguous, M.Flatten, CutsFront, Window, Deliver, AllAccepted, Accepted, Shows, Onward;
    ConsumedExactly(s.Records(), e.fromSeq, s.cursor, e.fn, e.delivered);
    if e.Consumed? { ConsumedRecords(env, s, e, t); }
  }

  /**
    The accepted records are true records, in order from the start on, and forgotten at once, unless a crash
    interferes.
  */
  lemma {:induction false} AcceptedForgotten(env: Setting, s: State, e: Event, t: State, x: nat)
    requires Step(env, s, e, t) && Reads(e) && x < Accepted(e.fn, e.delivered)
    ensures x < |e.delivered| && s.Start(e.fromSeq) + x < s.Records().Next()
    ensures var n := s.Start(e.fromSeq) + x; e.delivered[x] == Record(n, s.Records().rows[n - s.Records().head])
    ensures Unread(s, e) > e.delivered[x].sequence && (e.Consumed? ==> t.Records().head == Unread(s, e))
  {
    hide M.Contiguous, M.Flatten, CutsFront, Window, Deliver, AllAccepted, Accepted, KeepsFrom;
    if e.Consumed? { ConsumedRecords(env, s, e, t); }
    DeliveredSpan(e.fn, s.Records(), s.Start(e.fromSeq), e.delivered);
    WindowExact(s.Records(), s.Start(e.fromSeq), 0);
    DeliverExact(e.fn, Window(s.Records(), s.Start(e.fromSeq), 0));
  }

  /** A record that the consumer accepted is never delivered again. */
  lemma {:induction false} NeverAgain(env: Setting, states: seq<State>, events: seq<Event>, i: nat, j: nat, x: nat, y: nat)
    requires Trace(env, states, events) && i < j < |events| && GrowsOnly(events, i, j)
    requires events[i].Consumed? && x < Accepted(events[i].fn, events[i].delivered)
    requires Reads(events[j]) && y < |events[j].delivered|
    ensures x < |events[i].delivered| && events[i].delivered[x].sequence < events[j].delivered[y].sequence
  {
    hide M.Contiguous, M.Flatten, CutsFront, Window, Deliver, AllAccepted, Accepted;
    TraceAt(env, states, events, j);
    AcceptedForgotten(env, states[i], events[i], states[i + 1], x);
    Forward(env, states, events, i + 1, j);
    DeliveredSpan(events[j].fn, states[j].Records(), states[j].Start(events[j].fromSeq), events[j].delivered);
  }

  ghost predicate Retained(log: M.Log, r: Record)
  {
    log.head <= r.sequence < log.Next() && log.rows[r.sequence - log.head] == r.payload
  }

  /**
    The event accounts for the loss of a record: the segment it was in stood in the way of a batch, or it was
    truncated on request, or accepted by the consumer.
  */
  ghost predicate Accounts(env: Setting, s: State, e: Event, r: Record)
  {
    match e
    case Appended(batch, _, k) => Needed(env.limits, s.views, BatchSize(batch), k) && r.sequence < s.views[k].First()
    case CrashedAppending(batch, _) =>
      exists k: nat | Needed(env.limits, s.views, BatchSize(batch), k) :: r.sequence < s.views[k].First()
    case TruncatedBefore(sequence) => r.sequence < sequence
    case CrashedBefore(sequence) => r.sequence < sequence
    case Consumed(_, fn, delivered) => exists x | 0 <= x < Accepted(fn, delivered) && x < |delivered| :: delivered[x] == r
    case CrashedConsuming(_, fn, delivered) => exists x | 0 <= x < Accepted(fn, delivered) && x < |delivered| :: delivered[x] == r
    case _ => false
  }

  /** Consumption that starts at the head loses only what the consumer accepted. */
  lemma {:induction false} ConsumedKeeps(env: Setting, s: State, e: Event, t: State, r: Record)
    requires Step(env, s, e, t) && Reads(e) && s.Start(e.fromSeq) == s.Records().head && Retained(s.Records(), r)
    ensures Retained(t.Records(), r) || Accounts(env, s, e, r)
  {
    hide M.Contiguous, M.Flatten, CutsFront, Window, Deliver, AllAccepted, Accepted;
    var x := r.sequence - s.Records().head;
    if e.Consumed? { ConsumedRecords(env, s, e, t); }
    DeliveredSpan(e.fn, s.Records(), s.Records().head, e.delivered);
    if x < Accepted(e.fn, e.delivered) {
      AcceptedForgotten(env, s, e, t, x);
      assert e.delivered[x] == r;
    }
  }

  lemma {:induction false} AppendedKeeps(env: Setting, s: State, e: Event, t: State, r: Record)
    requires Step(env, s, e, t) && (e.Appended? || e.CrashedAppending?) && Retained(s.Records(), r)
    ensures Retained(t.Records(), r) || Accounts(env, s, e, r)
  {
    hide M.Contiguous, M.Flatten, BatchSize, NeedsReap, Salvages, Haunted, Deliberate;
    if e.Appended? {
      AppendedRecords(env, s, e, t);
    } else {
      var k, added := CrashedRecords(env, s, e, t);
    }
  }

  lemma {:induction false} StepKeeps(env: Setting, s: State, e: Event, t: State, r: Record)
    requires Step(env, s, e, t) && !Cuts(e) && Retained(s.Records(), r)
    requires Reads(e) ==> s.Start(e.fromSeq) == s.Records().head
    ensures Retained(t.Records(), r) || Accounts(env, s, e, r)
  {
    hide M.Contiguous, M.Flatten, Window, Deliver, AllAccepted, Accepted, CutsFront, CutsEnd, Appends, Salvages, Haunted;
    hide BatchSize, Needed;
    match e
    case Appended(_, _, _) => AppendedKeeps(env, s, e, t, r);
    case CrashedAppending(_, _) => AppendedKeeps(env, s, e, t, r);
    case Consumed(_, _, _) => ConsumedKeeps(env, s, e, t, r);
    case CrashedConsuming(_, _, _) => ConsumedKeeps(env, s, e, t, r);
    case TruncatedBefore(_) => TruncatedRecords(env, s, e, t);
    case _ =>
  }

  /** In this stretch of a history the consumer never asks to start beyond the cursor. */
  ghost predicate Patient(states: seq<State>, events: seq<Event>, i: nat, j: nat)
    requires |states| == |events| + 1 && i <= j <= |events|
  {
    forall m | i <= m < j && Reads(events[m]) :: events[m].fromSeq <= states[m].cursor
  }

  /**
    A record stays as it is, through crashes as well, until its segment stands in the way of a batch, or it is
    truncated on request, or accepted by the consumer, so long as consumption never skips ahead.
  */
  lemma {:induction false} NothingSilentlyLost(env: Setting, states: seq<State>, events: seq<Event>, i: nat, j: nat, r: Record)
    requires Trace(env, states, events) && i <= j <= |events| && GrowsOnly(events, i, j) && Patient(states, events, i, j)
    requires states[i].Sound() && states[i].cursor <= states[i].Records().head && Retained(states[i].Records(), r)
    ensures states[j].Sound()
    ensures Retained(states[j].Records(), r) || exists m | i <= m < j :: Accounts(env, states[m], events[m], r)
    decreases j
  {
    hide Step, Retained, Accounts, State.Records, State.Sound, Cuts;
    if i < j {
      TraceAt(env, states, events, j - 1);
      NothingSilentlyLost(env, states, events, i, j - 1, r);
      if Retained(states[j - 1].Records(), r) {
        Forward(env, states, events, i, j - 1);
        StepKeeps(env, states[j - 1], events[j - 1], states[j], r);
      }
    }
  }

  /** Every record that `Consume` forgets was accepted. */
  ghost predicate LosesNothing(env: Setting, s: State, e: Event, t: State)
    requires s.Sound() && t.Sound()
  {
    forall r | Retained(s.Records(), r) :: Retained(t.Records(), r) || Accounts(env, s, e, r)
  }

  /**
    `Consume` forgets only accepted records exactly when it starts at the head, or has nothing to read,
    or is refused the very record the cursor stands at.
  */
  lemma {:induction false} ConsumeLosesNothing(env: Setting, s: State, e: Event, t: State)
    requires Step(env, s, e, t) && e.Consumed?
    ensures var start, log := s.Start(e.fromSeq), s.Records();
            LosesNothing(env, s, e, t) <==>
              || start == log.head
              || start >= log.Next()
              || (start == s.cursor && !e.fn(Record(start, log.rows[start - log.head])))
  {
    hide M.Contiguous, M.Flatten, CutsFront, Window, Deliver, AllAccepted;
    var start, log := s.Start(e.fromSeq), s.Records();
    ConsumedRecords(env, s, e, t);
    DeliveredSpan(e.fn, log, start, e.delivered);
    DeliverStep(e.fn, log, start, 0);
    if start == log.head {
      forall r | Retained(log, r)
        ensures Retained(t.Records(), r) || Accounts(env, s, e, r)
      {
        ConsumedKeeps(env, s, e, t, r);
      }
    } else if start < log.Next() {
      var r := Record(log.head, log.rows[0]);
      assert Retained(log, r) && !Accounts(env, s, e, r);
      if e.fn(Record(start, log.rows[start - log.head])) {
        assert Accepted(e.fn, e.delivered) > 0;
      }
    }
  }

  /** Cutting the end off leaves the cursor ahead of the head exactly when it starts over at a number below the cursor. */
  lemma {:induction false} CursorAfterCut(env: Setting, s: State, sequence: nat, t: State)
    requires Step(env, s, TruncatedAfter(sequence), t) && s.cursor <= s.Records().head
    ensures t.cursor <= t.Records().head <==> sequence >= s.Records().head || s.cursor <= env.first
  {
    hide M.Contiguous, M.Flatten, CutsEnd;
    TruncatedRecords(env, s, TruncatedAfter(sequence), t);
  }

  lemma {:induction false} LoneSegment(base: nat, rows: seq<Payload>, start: nat)
    requires start <= |rows|
    ensures var s := State([View(base, rows, start)], base + start);
            s.Sound() && s.Records() == M.Log(base + start, rows[start..])
  {
    M.FlattenOne(View(base, rows, start));
  }

  // Without a disk limit and a segment limit

  /** A plain list of records and a cursor. */
  datatype Plain = Plain(log: M.Log, cursor: nat)

  ghost function PlainOf(s: State): Plain
    requires s.Sound()
  {
    Plain(s.Records(), s.cursor)
  }

  /** A batch is refused only if no segment could take it, or no frame one of its payloads. */
  predicate Fits(l: Limits, batch: seq<Payload>)
  {
    batch == [] || (!l.TooLarge(BatchSize(batch)) && Framable(batch))
  }

  /** What the operation behind an event does to a list that never loses a record by itself. */
  function Ideal(env: Setting, p: Plain, e: Event): Plain
  {
    match e
    case Appended(batch, _, _) => if Fits(env.limits, batch) then p.(log := p.log.Add(batch)) else p
    case TruncatedBefore(sequence) => p.(log := p.log.Before(sequence))
    case TruncatedAfter(sequence) => p.(log := p.log.After(sequence, env.first))
    case Consumed(fromSeq, fn, _) =>
      var start := Max(Max(fromSeq, p.cursor), p.log.head);
      var delivered := Deliver(fn, Window(p.log, start, 0));
      var unread := start + Accepted(fn, delivered);
      if (if AllAccepted(fn, delivered) then delivered != [] else unread > p.cursor)
      then Plain(p.log.Before(unread), unread) else p
    case _ => p.(cursor := p.log.head)
  }

  function IdealRun(env: Setting, p: Plain, events: seq<Event>): Plain
  {
    if events == [] then p else Ideal(env, IdealRun(env, p, events[..|events| - 1]), events[|events| - 1])
  }

  ghost predicate Unlimited(l: Limits) { l.maxDiskSize <= 0 && l.maxSegments <= 0 }

  /** An operation that did not crash. */
  predicate Regular(e: Event)
  {
    !e.CrashedAppending? && !e.CrashedBefore? && !e.CrashedAfter? && !e.CrashedConsuming?
  }

  lemma {:induction false} UnlimitedAppend(env: Setting, s: State, e: Event, t: State)
    requires Step(env, s, e, t) && e.Appended? && Unlimited(env.limits)
    ensures e.reaped == 0 && Lost(s.views, 0) == 0
    ensures env.reliable ==> (e.result.Ok? <==> Fits(env.limits, e.batch))
  {
    hide M.Contiguous, M.Flatten, M.Total, BatchSize, Admitted, Limits.TooLarge, Rotates, Deliberate;
    assert !NeedsReap(env.limits, s.views[0..], BatchSize(e.batch));
    if env.reliable {
      AppendDecided(env.limits, s.views, e.batch, e.result, e.reaped, t.views);
    }
  }

  lemma {:induction false} IdealStep(env: Setting, s: State, e: Event, t: State)
    requires Step(env, s, e, t) && Unlimited(env.limits) && env.reliable && Regular(e)
    ensures PlainOf(t) == Ideal(env, PlainOf(s), e)
  {
    hide M.Contiguous, M.Flatten, Window, Deliver, AllAccepted, Accepted, CutsFront, CutsEnd, Appends, Deliberate, Fits;
    match e
    case Appended(batch, _, _) =>
      AppendedRecords(env, s, e, t);
      UnlimitedAppend(env, s, e, t);
      assert s.Records().Drop(0) == s.Records() && s.Records().Add([]) == s.Records();
    case Consumed(_, _, _) => ConsumedRecords(env, s, e, t);
    case TruncatedBefore(_) => TruncatedRecords(env, s, e, t);
    case TruncatedAfter(_) => TruncatedRecords(env, s, e, t);
    case Reloaded =>
  }

  /**
    Without a disk limit and a segment limit, every batch that fits an empty segment and its frames is appended and nothing
    is ever lost: over a whole run the log is the list that the operations alone determine.
  */
  lemma {:induction false} RunIsIdeal(env: Setting, states: seq<State>, events: seq<Event>, j: nat)
    requires Trace(env, states, events) && j <= |events| && states[0].Sound()
    requires Unlimited(env.limits) && env.reliable && forall i | 0 <= i < |events| :: Regular(events[i])
    ensures states[j].Sound() && PlainOf(states[j]) == IdealRun(env, PlainOf(states[0]), events[..j])
    decreases j
  {
    hide Step, State.Sound, PlainOf, Ideal, Regular;
    if j > 0 {
      TraceAt(env, states, events, j - 1);
      RunIsIdeal(env, states, events, j - 1);
      IdealStep(env, states[j - 1], events[j - 1], states[j]);
      assert events[..j][..j - 1] == events[..j - 1];
    }
  }

  // A counterexample

  const UNBOUNDED := Setting(Limits(0, 0, 0), 0, true)

  lemma {:induction false} AppendedToEmpty(batch: seq<Payload>, cursor: nat)
    requires batch != [] && Framable(batch) && |batch| < U64
    ensures Step(UNBOUNDED, State([View(0, [], 0)], cursor), Appended(batch, Ok(|batch| - 1), 0),
                 State([View(0, batch, 0)], cursor))
  {
    hide BatchSize, Framable;
    LoneSegment(0, [], 0);
    LoneSegment(0, batch, 0);
    assert [] + batch == batch;
    assert M.Grown([View(0, [], 0)], batch) == [View(0, batch, 0)];
    assert [View(0, [], 0)][0..] == [View(0, [], 0)];
  }

  lemma {:induction false} LastDelivered(rows: seq<Payload>, fn: Record -> bool)
    requires rows != [] && fn(Record(|rows| - 1, rows[|rows| - 1]))
    ensures var r := Record(|rows| - 1, rows[|rows| - 1]); Deliver(fn, Window(M.Log(0, rows), |rows| - 1, 0)) == [r]
  {
    var log, r := M.Log(0, rows), Record(|rows| - 1, rows[|rows| - 1]);
    WindowStep(log, |rows| - 1, 0);
    WindowEnd(log, |rows|, 0);
    assert Window(log, |rows| - 1, 0) == [r];
    assert Deliver(fn, [r]) == [r] + Deliver(fn, []);
  }

  /** The cursor stands at the last record, which is accepted: all records are forgotten. */
  lemma {:induction false} LastAccepted(rows: seq<Payload>, fn: Record -> bool)
    requires rows != [] && fn(Record(|rows| - 1, rows[|rows| - 1]))
    ensures var n := |rows|;
            Step(UNBOUNDED, State([View(0, rows, 0)], n - 1), Consumed(0, fn, [Record(n - 1, rows[n - 1])]),
                 State([View(0, rows, n)], n))
  {
    hide Window, Deliver;
    LoneSegment(0, rows, 0);
    LoneSegment(0, rows, |rows|);
    assert rows[0..] == rows;
    LastDelivered(rows, fn);
    assert M.Headed([View(0, rows, 0)], 0, |rows|) == [View(0, rows, |rows|)];
  }

  lemma {:induction false} BegunAgain(p: Payload)
    ensures Step(UNBOUNDED, State([View(0, [p], 1)], 1), TruncatedAfter(0), State([View(0, [], 0)], 1))
  {
    LoneSegment(0, [p], 1);
    LoneSegment(0, [], 0);
  }

  /**
    A history of a new log in which a record is forgotten without having been delivered: one record is appended
    and consumed, the end is cut below the cursor, two records are appended, and the next call delivers only
    the second.
  */
  lemma {:induction false} RestartHidesRecords(p: Payload, fn: Record -> bool)
      returns (states: seq<State>, events: seq<Event>)
    requires |p| < U32 && fn(Record(0, p)) && fn(Record(1, p))
    ensures Trace(UNBOUNDED, states, events) && |events| == 5 && states[0] == State([View(0, [], 0)], 0)
    ensures events[4] == Consumed(0, fn, [Record(1, p)]) && states[4].Sound() && states[5].Sound()
    ensures Retained(states[4].Records(), Record(0, p)) && !LosesNothing(UNBOUNDED, states[4], events[4], states[5])
  {
    hide Step, M.Flatten, M.Contiguous, LosesNothing;
    var empty, one, two := View(0, [], 0), [p], [p, p];
    states := [State([empty], 0), State([View(0, one, 0)], 0), State([View(0, one, 1)], 1), State([empty], 1),
               State([View(0, two, 0)], 1), State([View(0, two, 2)], 2)];
    events := [Appended(one, Ok(0), 0), Consumed(0, fn, [Record(0, p)]), TruncatedAfter(0), Appended(two, Ok(1), 0),
               Consumed(0, fn, [Record(1, p)])];
    AppendedToEmpty(one, 0);
    LastAccepted(one, fn);
    BegunAgain(p);
    AppendedToEmpty(two, 1);
    LastAccepted(two, fn);
    assert Trace(UNBOUNDED, states, events);
    LoneSegment(0, two, 0);
    LoneSegment(0, two, 2);
    assert two[0..] == two;
    ConsumeLosesNothing(UNBOUNDED, states[4], events[4], states[5]);
  }
}
