/** Group commit: a writer that gathers requests and appends them in batches (pkg/log/write). */
module Writers {
  import opened Bytes
  import opened Errors
  import opened Layout
  import opened Directories
  import opened Retention
  import opened Segments
  import opened Chains
  import opened Reading
  import opened Logs
  import M = Model

  /** A payload to append, and the channel its response goes to. */
  datatype Request = Request(channel: nat, data: Payload)

  datatype Response = Response(channel: nat, result: Result<uint64>)

  /** The payloads of the requests that were answered with success. */
  function Written(requests: seq<Request>, responses: seq<Response>): seq<Payload>
    requires |responses| <= |requests|
  {
    if responses == [] then []
    else
      var n := |responses| - 1;
      Written(requests, responses[..n]) + if responses[n].result.Ok? then [requests[n].data] else []
  }

  ghost predicate SameChannels(requests: seq<Request>, responses: seq<Response>)
  {
    |responses| <= |requests| && forall i | 0 <= i < |responses| :: responses[i].channel == requests[i].channel
  }

  /** Successes carry consecutive numbers from `next` on, in the order of the requests. */
  ghost predicate Numbered(requests: seq<Request>, responses: seq<Response>, next: nat)
    requires |responses| <= |requests|
  {
    forall i | 0 <= i < |responses| && responses[i].result.Ok? ::
      responses[i].result.value == next + |Written(requests, responses[..i])|
  }

  function DataSize(requests: seq<Request>): nat
  {
    if requests == [] then 0 else DataSize(requests[..|requests| - 1]) + |requests[|requests| - 1].data|
  }

  lemma {:induction false} DataSizePush(requests: seq<Request>, request: Request)
    ensures DataSize([]) == 0 && DataSize(requests + [request]) == DataSize(requests) + |request.data|
  {
    assert (requests + [request])[..|requests|] == requests;
  }

  function Data(requests: seq<Request>): seq<Payload>
  {
    seq(|requests|, i requires 0 <= i < |requests| => requests[i].data)
  }

  lemma {:induction false} BatchPush(requests: seq<Request>, request: Request)
    ensures BatchSize(Data(requests + [request])) == BatchSize(Data(requests)) + BatchSize([request.data])
  {
    assert Data(requests + [request])[..|requests|] == Data(requests);
    assert BatchSize([request.data][..0]) == 0;
  }

  lemma {:induction false} DataLength(requests: seq<Request>)
    ensures |Data(requests)| == |requests|
  {
  }

  lemma {:induction false} NoData()
    ensures BatchSize(Data([])) == 0
  {
  }

  lemma {:induction false} WrittenPrefix(requests: seq<Request>, more: seq<Request>, responses: seq<Response>)
    requires |responses| <= |requests|
    ensures Written(requests + more, responses) == Written(requests, responses)
  {
    if responses != [] {
      WrittenPrefix(requests, more, responses[..|responses| - 1]);
    }
  }

  lemma {:induction false} WrittenSplit(requests: seq<Request>, done: seq<Response>, answers: seq<Response>)
    requires |done| + |answers| <= |requests|
    ensures Written(requests, done + answers) == Written(requests, done) + Written(requests[|done|..], answers)
  {
    if answers == [] {
      assert done + answers == done;
    } else {
      var n := |answers| - 1;
      WrittenSplit(requests, done, answers[..n]);
      assert (done + answers)[..|done| + n] == done + answers[..n];
    }
  }

  lemma {:induction false} NumberedSplit(requests: seq<Request>, done: seq<Response>, answers: seq<Response>, next: nat)
    requires |done| + |answers| <= |requests| && Numbered(requests, done, next)
    requires Numbered(requests[|done|..], answers, next + |Written(requests, done)|)
    ensures Numbered(requests, done + answers, next)
  {
    hide Written;
    var all := done + answers;
    forall i | 0 <= i < |all| && all[i].result.Ok?
      ensures all[i].result.value == next + |Written(requests, all[..i])|
    {
      if i < |done| {
        assert all[..i] == done[..i];
      } else {
        assert all[..i] == done + answers[..i - |done|];
        WrittenSplit(requests, done, answers[..i - |done|]);
      }
    }
  }

  lemma {:induction false} WrittenLength(requests: seq<Request>, responses: seq<Response>)
    requires |responses| <= |requests|
    ensures |Written(requests, responses)| <= |responses|
  {
    if responses != [] {
      WrittenLength(requests, responses[..|responses| - 1]);
    }
  }

  /**
    The first requests were answered, each on its channel, and `log` is `base` with the written payloads
    behind it, less the `lost` oldest records; successes carry the numbers their payloads got.
  */
  ghost predicate Served(base: M.Log, requests: seq<Request>, responses: seq<Response>, lost: nat, log: M.Log)
  {
    && SameChannels(requests, responses) && Numbered(requests, responses, base.Next())
    && var all := base.Add(Written(requests, responses));
       lost <= |all.rows| && log == all.Drop(lost)
  }

  lemma {:induction false} ServedNext(base: M.Log, requests: seq<Request>, responses: seq<Response>, lost: nat, log: M.Log)
    requires Served(base, requests, responses, lost, log)
    ensures log.Next() == base.Next() + |Written(requests, responses)|
  {
    hide Written, Numbered;
  }

  lemma {:induction false} WrittenAt(requests: seq<Request>, responses: seq<Response>, i: nat)
    requires i < |responses| <= |requests| && responses[i].result.Ok?
    ensures |Written(requests, responses[..i])| < |Written(requests, responses)|
    ensures Written(requests, responses)[|Written(requests, responses[..i])|] == requests[i].data
  {
    var n := |responses| - 1;
    if i < n {
      WrittenAt(requests, responses[..n], i);
      assert responses[..n][..i] == responses[..i];
    }
  }

  /** A success tells where the payload is: it has this number in the log, unless it was reaped since. */
  lemma {:induction false} SuccessTells(base: M.Log, requests: seq<Request>, responses: seq<Response>, lost: nat, log: M.Log,
                                        i: nat)
    requires Served(base, requests, responses, lost, log) && i < |responses| && responses[i].result.Ok?
    ensures responses[i].channel == requests[i].channel
    ensures var n := responses[i].result.value;
            base.Next() <= n < log.Next() && (log.head <= n ==> log.rows[n - log.head] == requests[i].data)
  {
    hide Written;
    WrittenAt(requests, responses, i);
    ServedNext(base, requests, responses, lost, log);
  }

  lemma {:induction false} WrittenNone(requests: seq<Request>, responses: seq<Response>, i: nat)
    requires i <= |responses| <= |requests| && forall k | i <= k < |responses| :: responses[k].result.Err?
    ensures Written(requests, responses) == Written(requests, responses[..i])
  {
    var n := |responses| - 1;
    if i <= n {
      WrittenNone(requests, responses[..n], i);
      assert responses[..n][..i] == responses[..i];
    } else {
      assert responses[..i] == responses;
    }
  }

  /** Successive successes have successive numbers. */
  lemma {:induction false} SuccessesConsecutive(base: M.Log, requests: seq<Request>, responses: seq<Response>, lost: nat,
                                                log: M.Log, i: nat, j: nat)
    requires Served(base, requests, responses, lost, log) && i < j < |responses|
    requires responses[i].result.Ok? && responses[j].result.Ok?
    requires forall k | i < k < j :: responses[k].result.Err?
    ensures responses[j].result.value == responses[i].result.value + 1
  {
    WrittenNone(requests, responses[..j], i + 1);
    assert responses[..j][..i + 1] == responses[..i + 1] && responses[..i + 1][..i] == responses[..i];
  }

  /** Answering the rest of the requests in one batch. */
  lemma {:induction false} ServedBatch(base: M.Log, requests: seq<Request>, responses: seq<Response>, lost: nat, log: M.Log,
                                       answers: seq<Response>, reaped: nat)
    requires Served(base, requests, responses, lost, log) && reaped <= |log.rows|
    requires |responses| + |answers| == |requests| && SameChannels(requests[|responses|..], answers)
    requires Numbered(requests[|responses|..], answers, log.Next())
    ensures var after := log.Drop(reaped).Add(Written(requests[|responses|..], answers));
            && Served(base, requests, responses + answers, lost + reaped, after)
            && after.Next() <= log.Next() + |answers|
  {
    hide Written, Numbered;
    ServedNext(base, requests, responses, lost, log);
    WrittenSplit(requests, responses, answers);
    NumberedSplit(requests, responses, answers, base.Next());
    WrittenLength(requests[|responses|..], answers);
    var all, more := base.Add(Written(requests, responses)), Written(requests[|responses|..], answers);
    assert base.Add(Written(requests, responses + answers)) == all.Add(more);
    assert log.Drop(reaped).Add(more) == all.Add(more).Drop(lost + reaped);
  }

  /** Taking one more request. */
  lemma {:induction false} ServedMore(base: M.Log, requests: seq<Request>, responses: seq<Response>, lost: nat, log: M.Log,
                                      request: Request)
    requires Served(base, requests, responses, lost, log)
    ensures Served(base, requests + [request], responses, lost, log)
  {
    hide Written;
    WrittenPrefix(requests, [request], responses);
    forall i | 0 <= i < |responses|
      ensures Written(requests + [request], responses[..i]) == Written(requests, responses[..i])
    {
      WrittenPrefix(requests, [request], responses[..i]);
    }
  }

  // The batches that a writer appended

  /** The requests of one batch, the answer of the append, and the segments before and after it. */
  datatype Group = Group(requests: seq<Request>, before: seq<View>, result: Result<uint64>, reaped: nat, after: seq<View>)

  /** Every request of a batch got the error of its append, or the number its payload got. */
  ghost predicate Answered(requests: seq<Request>, result: Result<uint64>, answers: seq<Response>)
  {
    && |answers| == |requests|
    && forall i | 0 <= i < |requests| ::
         && answers[i].channel == requests[i].channel
         && (result.Err? ==> answers[i].result == Err(result.error))
         && (result.Ok? ==> answers[i].result.Ok? && answers[i].result.value == result.value - |requests| + 1 + i)
  }

  /** Each batch was appended to what the one before it left. */
  ghost predicate Linked(l: Limits, origin: seq<View>, groups: seq<Group>, now: seq<View>)
  {
    if groups == [] then now == origin
    else
      var g := groups[|groups| - 1];
      && g.after == now && g.requests != []
      && Appends(l, g.before, Data(g.requests), g.result, g.reaped, g.after)
      && Linked(l, origin, groups[..|groups| - 1], g.before)
  }

  /** The batches are the answered requests in order, and the responses are the answers to each of them in turn. */
  ghost predicate Responded(groups: seq<Group>, requests: seq<Request>, responses: seq<Response>)
  {
    if groups == [] then requests == [] && responses == []
    else
      var g := groups[|groups| - 1];
      var n := |requests| - |g.requests|;
      && 0 <= n == |responses| - |g.requests| && requests[n..] == g.requests
      && Answered(g.requests, g.result, responses[n..])
      && Responded(groups[..|groups| - 1], requests[..n], responses[..n])
  }

  /** A batch that was not held back: without its last request it was below both thresholds. */
  predicate Timely(maxLength: int, maxSize: int, batch: seq<Request>)
  {
    var n := |batch| - 1;
    n > 0 ==> n < maxLength && DataSize(batch[..n]) < maxSize
  }

  ghost predicate Prompt(maxLength: int, maxSize: int, groups: seq<Group>)
  {
    forall i | 0 <= i < |groups| :: Timely(maxLength, maxSize, groups[i].requests)
  }

  ghost predicate AllDeliberate(groups: seq<Group>)
  {
    forall i | 0 <= i < |groups| :: Deliberate(groups[i].result)
  }

  /** The batches account for the segments, and for the responses to all requests but those that still wait. */
  ghost predicate Accounted(l: Limits, origin: seq<View>, groups: seq<Group>, now: seq<View>,
                            requests: seq<Request>, responses: seq<Response>)
  {
    && |responses| <= |requests|
    && Linked(l, origin, groups, now) && Responded(groups, requests[..|responses|], responses)
  }

  function Batches(groups: seq<Group>): seq<seq<Request>>
  {
    seq(|groups|, i requires 0 <= i < |groups| => groups[i].requests)
  }

  lemma {:induction false} NothingYet(l: Limits, origin: seq<View>)
    ensures Accounted(l, origin, [], origin, [], [])
  {
  }

  lemma {:induction false} OneMoreWaits(l: Limits, origin: seq<View>, groups: seq<Group>, now: seq<View>,
                                        requests: seq<Request>, responses: seq<Response>, request: Request)
    requires Accounted(l, origin, groups, now, requests, responses)
    ensures Accounted(l, origin, groups, now, requests + [request], responses)
  {
    assert (requests + [request])[..|responses|] == requests[..|responses|];
  }

  lemma {:induction false} RespondedMore(groups: seq<Group>, g: Group, requests: seq<Request>, responses: seq<Response>,
                                         answers: seq<Response>)
    requires Responded(groups, requests, responses) && Answered(g.requests, g.result, answers)
    ensures Responded(groups + [g], requests + g.requests, responses + answers)
  {
    hide Answered;
    AsManyResponses(groups, requests, responses);
    SameLength(g.requests, g.result, answers);
    assert (groups + [g])[..|groups|] == groups;
    assert (requests + g.requests)[|requests|..] == g.requests && (requests + g.requests)[..|requests|] == requests;
    assert (responses + answers)[|responses|..] == answers && (responses + answers)[..|responses|] == responses;
    var n := |requests|;
    assert Responded((groups + [g])[..|groups|], (requests + g.requests)[..n], (responses + answers)[..n]);
  }

  /** All waiting requests were appended as one batch. */
  lemma {:induction false} GroupAppended(l: Limits, origin: seq<View>, groups: seq<Group>, now: seq<View>,
                                         requests: seq<Request>, responses: seq<Response>, g: Group, answers: seq<Response>)
    requires Accounted(l, origin, groups, now, requests, responses) && g.requests == requests[|responses|..] != []
    requires g.before == now && Appends(l, now, Data(g.requests), g.result, g.reaped, g.after)
    requires Answered(g.requests, g.result, answers)
    ensures |responses + answers| == |requests| && Accounted(l, origin, groups + [g], g.after, requests, responses + answers)
    ensures Batches(groups + [g]) == Batches(groups) + [g.requests]
  {
    hide Appends, Answered, Responded;
    var done := requests[..|responses|];
    SameLength(g.requests, g.result, answers);
    RespondedMore(groups, g, done, responses, answers);
    assert (groups + [g])[..|groups|] == groups && done + g.requests == requests;
    assert requests[..|requests|] == requests;
  }

  lemma {:induction false} AnsweredMeans(requests: seq<Request>, result: Result<uint64>, answers: seq<Response>)
    requires Answered(requests, result, answers) && requests != []
    ensures result.Err? ==> forall i | 0 <= i < |answers| :: answers[i].result == Err(result.error)
    ensures result.Ok? <==> forall i | 0 <= i < |answers| :: answers[i].result.Ok?
    ensures result.Ok? <==> answers[0].result.Ok?
  {
    assert answers[0].result.Ok? <==> result.Ok?;
  }

  lemma {:induction false} DeliberateError(r: Result<uint64>)
    ensures Deliberate(r) && r.Err? ==> r.error !in {CreateFailure, TrimFailure}
  {
  }

  lemma {:induction false} SameLength(requests: seq<Request>, result: Result<uint64>, answers: seq<Response>)
    requires Answered(requests, result, answers)
    ensures |requests| == |answers|
  {
  }

  lemma {:induction false} AsManyResponses(groups: seq<Group>, requests: seq<Request>, responses: seq<Response>)
    requires Responded(groups, requests, responses)
    ensures |requests| == |responses|
  {
  }

  /** Every answered request was part of a batch, and got the answer of its append. */
  lemma {:induction false} AnswerOfBatch(groups: seq<Group>, requests: seq<Request>, responses: seq<Response>, i: nat)
      returns (m: nat, k: nat)
    requires Responded(groups, requests, responses) && i < |requests|
    ensures |requests| == |responses| && m < |groups| && k < |groups[m].requests| && groups[m].requests[k] == requests[i]
    ensures responses[i].channel == requests[i].channel
    ensures groups[m].result.Err? ==> responses[i].result == Err(groups[m].result.error)
    ensures groups[m].result.Ok? ==>
              && responses[i].result.Ok?
              && responses[i].result.value == groups[m].result.value - |groups[m].requests| + 1 + k
  {
    AsManyResponses(groups, requests, responses);
    var g := groups[|groups| - 1];
    var n := |requests| - |g.requests|;
    if i < n {
      m, k := AnswerOfBatch(groups[..|groups| - 1], requests[..n], responses[..n], i);
    } else {
      m, k := |groups| - 1, i - n;
      assert requests[n..][k] == requests[i] && responses[n..][k] == responses[i];
    }
  }

  lemma {:induction false} LinkedAt(l: Limits, origin: seq<View>, groups: seq<Group>, now: seq<View>, i: nat)
    requires Linked(l, origin, groups, now) && origin != [] && M.Contiguous(origin) && Within(l, origin) && i <= |groups|
    ensures var v := if i == |groups| then now else groups[i].before; v != [] && M.Contiguous(v) && Within(l, v)
    ensures i < |groups| ==>
              var g := groups[i];
              g.requests != [] && Appends(l, g.before, Data(g.requests), g.result, g.reaped, g.after)
    decreases |groups|
  {
    hide Appends, Within, M.Contiguous, M.Flatten;
    if groups != [] {
      var n := |groups| - 1;
      var g := groups[n];
      LinkedAt(l, origin, groups[..n], g.before, if i < n then i else n);
      if i == n + 1 {
        AppendsAbs(l, g.before, Data(g.requests), g.result, g.reaped, now);
        AppendsWithin(l, g.before, Data(g.requests), g.result, g.reaped, now);
      }
    }
  }

  /** On a disk that does not fail, a batch is written exactly when its payloads fit frames and the limits leave room. */
  lemma {:induction false} GroupDecided(l: Limits, origin: seq<View>, groups: seq<Group>, now: seq<View>, i: nat)
    requires Linked(l, origin, groups, now) && origin != [] && M.Contiguous(origin) && Within(l, origin)
    requires i < |groups| && Deliberate(groups[i].result)
    ensures var g := groups[i];
            g.result.Ok? <==>
              Framable(Data(g.requests)) && exists j: nat :: FitsWithout(l, g.before, j, Data(g.requests))
  {
    hide Appends, Within, M.Contiguous, M.Flatten, Framable, FitsWithout, Admissible, BatchSize, Deliberate;
    LinkedAt(l, origin, groups, now, i);
    var g := groups[i];
    AppendAnswer(l, g.before, Data(g.requests), g.result, g.reaped, g.after);
    AppendPlaced(l, g.before, Data(g.requests), g.result, g.reaped, g.after);
  }

  /** Appends the data of all requests as one batch, at the cost of `k` segments, and answers each of them. */
  method WriteBatch(log: Log, batch: seq<Request>) returns (answers: seq<Response>, ghost r: Result<uint64>, ghost k: nat)
    requires batch != [] && log.chain.Valid() && RoomFor(log.chain.limits, log.chain.views, Data(batch))
    modifies log.chain, log.chain.disk, log.chain.Objects()
    ensures |answers| == |batch| && SameChannels(batch, answers)
    ensures log.chain.Valid() && log.chain.OldOrNew()
    ensures Appends(log.chain.limits, old(log.chain.views), Data(batch), r, k, log.chain.views)
    ensures k < |old(log.chain.views)| && 0 <= Lost(old(log.chain.views), k) <= |old(log.Records()).rows|
    ensures log.Records() == old(log.Records()).Drop(Lost(old(log.chain.views), k)).Add(Written(batch, answers))
    ensures Numbered(batch, answers, old(log.Records()).Next())
    ensures Answered(batch, r, answers)
    ensures r.Err? ==> forall i | 0 <= i < |answers| :: answers[i].result == Err(r.error)
    ensures r.Ok? <==> forall i | 0 <= i < |answers| :: answers[i].result.Ok?
    ensures log.chain.disk.reliable && old(log.chain.Clean()) ==> Deliberate(r) && log.chain.Clean()
    ensures log.chain.disk.reliable && old(log.chain.Clean()) ==>
              (answers[0].result.Ok? <==>
                 Admissible(log.chain.limits, old(log.chain.views), BatchSize(Data(batch))) && Framable(Data(batch)))
  {
    hide Admissible, Segment.Valid, Segment.Covered, M.Contiguous, M.Flatten, M.Total, Ascending, Tidy, Live;
    hide Written, Numbered, BatchSize, Within, Takes, Limits.Narrow, Appends, Deliberate, Framable;
    hide Answered, FitsWithout, Placed, M.Extended, SameChannels;
    ValidParts(log.chain);
    var payloads := [];
    for i := 0 to |batch|
      invariant payloads == Data(batch[..i])
    {
      payloads := payloads + [batch[i].data];
    }
    assert batch[..|batch|] == batch;
    var result;
    result, k := log.Append(payloads);
    r := result;
    match result {
      case Err(e) =>
        answers := RespondAll(batch, e);
      case Ok(lastSeq) =>
        answers := RespondEach(batch, lastSeq - |batch| + 1);
    }
    AnsweredMeans(batch, r, answers);
    DeliberateError(r);
  }

  /** Answers every request with the same error. */
  method RespondAll(batch: seq<Request>, e: Error) returns (answers: seq<Response>)
    ensures |answers| == |batch| && SameChannels(batch, answers) && Answered(batch, Err(e), answers)
    ensures forall i | 0 <= i < |answers| :: answers[i].result == Err(e)
    ensures Written(batch, answers) == []
    ensures forall next: nat :: Numbered(batch, answers, next)
  {
    answers := [];
    for i := 0 to |batch|
      invariant |answers| == i && SameChannels(batch, answers) && Written(batch, answers) == []
      invariant forall j | 0 <= j < i :: answers[j].result == Err(e)
    {
      var before := answers;
      answers := answers + [Response(batch[i].channel, Err(e))];
      assert answers[..i] == before;
    }
  }

  /** Answers every request with success, numbering them from `first` on. */
  method RespondEach(batch: seq<Request>, first: nat) returns (answers: seq<Response>)
    requires 0 < first + |batch| < U64
    ensures |answers| == |batch| && SameChannels(batch, answers) && Answered(batch, Ok(first + |batch| - 1), answers)
    ensures Written(batch, answers) == Data(batch) && Numbered(batch, answers, first)
    ensures forall i | 0 <= i < |answers| :: answers[i].result == Ok(first + i)
  {
    answers := [];
    var number := first;
    for i := 0 to |batch|
      invariant |answers| == i && SameChannels(batch, answers) && number == first + i
      invariant forall j | 0 <= j < i :: answers[j].result == Ok(first + j)
    {
      answers := answers + [Response(batch[i].channel, Ok(number))];
      number := number + 1;
    }
    EachNumbered(batch, answers, first);
  }

  lemma {:induction false} EachWritten(requests: seq<Request>, responses: seq<Response>)
    requires |responses| <= |requests| && forall i | 0 <= i < |responses| :: responses[i].result.Ok?
    ensures Written(requests, responses) == Data(requests[..|responses|])
  {
    if responses != [] {
      var n := |responses| - 1;
      EachWritten(requests, responses[..n]);
      assert Data(requests[..n + 1]) == Data(requests[..n]) + [requests[n].data];
    }
  }

  lemma {:induction false} EachNumbered(requests: seq<Request>, responses: seq<Response>, first: nat)
    requires |responses| == |requests| && forall i | 0 <= i < |responses| :: responses[i].result == Ok(first + i)
    ensures Written(requests, responses) == Data(requests) && Numbered(requests, responses, first)
  {
    hide Written;
    EachWritten(requests, responses);
    assert requests[..|responses|] == requests;
    forall i | 0 <= i < |responses|
      ensures responses[i].result.value == first + |Written(requests, responses[..i])|
    {
      EachWritten(requests, responses[..i]);
    }
  }

  lemma {:induction false} TimelyPush(maxLength: int, maxSize: int, batch: seq<Request>, request: Request)
    requires batch != [] ==> DataSize(batch) < maxSize && |batch| < maxLength
    ensures Timely(maxLength, maxSize, batch + [request])
  {
    hide DataSize;
    assert (batch + [request])[..|batch|] == batch;
  }

  lemma {:induction false} GroupKept(maxLength: int, maxSize: int, groups: seq<Group>, g: Group)
    ensures Prompt(maxLength, maxSize, groups) && Timely(maxLength, maxSize, g.requests) ==>
              Prompt(maxLength, maxSize, groups + [g])
    ensures AllDeliberate(groups) && Deliberate(g.result) ==> AllDeliberate(groups + [g])
  {
    hide Timely, Deliberate;
  }

  lemma {:induction false} NoRequestsLeft(maxLength: int, maxSize: int)
    ensures DataSize([]) == 0 && Timely(maxLength, maxSize, [])
  {
  }

  class Writer {
    const log: Log
    const maxLength: int
    const maxSize: int
    var batch: seq<Request>
    var size: nat
    var armed: bool
    var stopped: bool
    /** All responses, in the order they were sent. */
    var sent: seq<Response>
    /** All requests, in the order they were taken. */
    ghost var arrived: seq<Request>
    /** The log as the writer found it, and how many of the oldest records it has given up since. */
    ghost const base: M.Log
    ghost var lost: nat
    /** The segments as the writer found them, whether storage is sound, and the batches appended since. */
    ghost const origin: seq<View>
    ghost const sound: bool
    ghost var groups: seq<Group>

    constructor (log: Log, maxLength: int, maxSize: int)
      requires log.chain.Valid()
      ensures Valid() && Waiting() && fresh(this)
      ensures this.log == log && this.maxLength == maxLength && this.maxSize == maxSize
      ensures !stopped && sent == [] && arrived == [] && base == log.Records()
      ensures groups == [] && origin == log.chain.views && (sound <==> log.chain.disk.reliable && log.chain.Clean())
    {
      hide Segment.Valid, Segment.Covered, M.Contiguous, M.Flatten, M.Total, Ascending, Tidy, Live, Accounted;
      NothingYet(log.chain.limits, log.chain.views);
      this.log, this.maxLength, this.maxSize := log, maxLength, maxSize;
      batch, size, armed, stopped, sent, arrived := [], 0, false, false, [], [];
      base, lost := log.Records(), 0;
      origin, sound, groups := log.chain.views, log.chain.disk.reliable && log.chain.Clean(), [];
    }

    /** Every request was answered in the order it came, or is in the batch. */
    ghost predicate Valid()
      reads this, log.chain, log.chain.disk, log.chain.Objects()
    {
      && log.chain.Valid()
      && Served(base, arrived, sent, lost, log.Records())
      && |sent| <= |arrived| && batch == arrived[|sent|..] && size == DataSize(batch)
      && Timely(maxLength, maxSize, batch) && Prompt(maxLength, maxSize, groups)
      && Accounted(log.chain.limits, origin, groups, log.chain.views, arrived, sent)
      && (sound ==> log.chain.disk.reliable && log.chain.Clean() && AllDeliberate(groups))
    }

    /** Between two events the batch is below both thresholds, and the timer runs exactly while there is a batch. */
    ghost predicate Waiting()
      reads this
    {
      && (armed <==> batch != [])
      && (batch != [] ==> size < maxSize && |batch| < maxLength)
      && (stopped ==> batch == [])
    }

    /** Behind the batch, the machine widths leave room for that many more records, of that many bytes in all. */
    ghost predicate Spare(rows: nat, bytes: nat)
      requires log.chain.Valid()
      reads this, log.chain, log.chain.disk, log.chain.Objects()
    {
      && log.Records().Next() + |batch| + rows < U64
      && Spacious(log.chain.limits, log.chain.views, |batch| + rows, BatchSize(Data(batch)) + bytes)
    }

    /** Sends the answers to a batch, which is then done with. */
    method Answer(answers: seq<Response>, ghost g: Group, ghost more: nat, ghost rows: nat, ghost bytes: nat)
      requires log.chain.Valid() && Served(base, arrived, sent + answers, lost + more, log.Records())
      requires Accounted(log.chain.limits, origin, groups + [g], log.chain.views, arrived, sent + answers)
      requires |sent + answers| == |arrived| && Prompt(maxLength, maxSize, groups + [g])
      requires sound ==> log.chain.disk.reliable && log.chain.Clean() && AllDeliberate(groups + [g])
      requires log.Records().Next() + rows < U64 && Spacious(log.chain.limits, log.chain.views, rows, bytes)
      modifies this
      ensures Valid() && Spare(rows, bytes) && batch == [] && sent == old(sent) + answers && groups == old(groups) + [g]
      ensures stopped == old(stopped) && armed == old(armed) && arrived == old(arrived)
    {
      hide Segment.Valid, Segment.Covered, M.Contiguous, M.Flatten, M.Total, Ascending, Tidy, Live, Served, Spacious;
      hide Accounted, Prompt, AllDeliberate, BatchSize;
      NoData();
      NoRequestsLeft(maxLength, maxSize);
      batch, size, sent, lost, groups := [], 0, sent + answers, lost + more, groups + [g];
    }

    /** Writes the batch, if there is one, and stops the timer. */
    method Flush(ghost rows: nat, ghost bytes: nat)
      requires Valid() && Spare(rows, bytes)
      modifies this, log.chain, log.chain.disk, log.chain.Objects()
      ensures Valid() && Spare(rows, bytes) && log.chain.OldOrNew()
      ensures batch == [] && !armed && stopped == old(stopped) && arrived == old(arrived)
      ensures |sent| == |arrived| && old(sent) <= sent
      ensures Batches(groups) == old(Batches(groups)) + if old(batch) == [] then [] else [old(batch)]
    {
      hide Chain.Valid, Chain.Clean, Spacious, Appends, BatchSize, Lost, RoomFor, Framable, Admissible, Data;
      hide Written, Numbered, Served, SameChannels, Answered, Accounted, Deliberate, DataSize, Batches, Timely, Prompt;
      hide AllDeliberate;
      armed := false;
      if |batch| > 0 {
        ValidParts(log.chain);
        ghost var before, l, start, data := log.Records(), log.chain.limits, log.chain.views, Data(batch);
        DataLength(batch);
        SpaciousRoom(l, start, data, rows, bytes);
        var answers, r, k := WriteBatch(log, batch);
        ghost var g := Group(batch, start, r, k, log.chain.views);
        SpaciousAppends(l, start, data, r, k, log.chain.views, rows, bytes);
        ServedBatch(base, arrived, sent, lost, before, answers, Lost(start, k));
        GroupAppended(l, origin, groups, start, arrived, sent, g, answers);
        GroupKept(maxLength, maxSize, groups, g);
        Answer(answers, g, Lost(start, k), rows, bytes);
      }
    }

    /** Adds one request to the batch, and starts the timer for the first one. */
    method Enqueue(request: Request, ghost rows: nat, ghost bytes: nat)
      requires Valid() && Waiting() && !stopped && Spare(1 + rows, BatchSize([request.data]) + bytes)
      modifies this
      ensures Valid() && Spare(rows, bytes) && armed && !stopped && sent == old(sent)
      ensures arrived == old(arrived) + [request] && batch == old(batch) + [request] && groups == old(groups)
    {
      hide Segment.Valid, Segment.Covered, M.Contiguous, M.Flatten, M.Total, Ascending, Served, Spacious, BatchSize;
      hide Accounted, Prompt, AllDeliberate, Live, Tidy, DataSize, Timely, Data;
      OneMoreWaits(log.chain.limits, origin, groups, log.chain.views, arrived, sent, request);
      TimelyPush(maxLength, maxSize, batch, request);
      ServedMore(base, arrived, sent, lost, log.Records(), request);
      DataSizePush(batch, request);
      BatchPush(batch, request);
      armed := armed || |batch| == 0;
      batch, size, arrived := batch + [request], size + |request.data|, arrived + [request];
    }

    /** Takes one request; at a threshold the whole batch is written at once. */
    method Receive(request: Request, ghost rows: nat, ghost bytes: nat)
      requires Valid() && Waiting() && !stopped && Spare(1 + rows, BatchSize([request.data]) + bytes)
      modifies this, log.chain, log.chain.disk, log.chain.Objects()
      ensures Valid() && Waiting() && Spare(rows, bytes) && log.chain.OldOrNew()
      ensures arrived == old(arrived) + [request] && !stopped && old(sent) <= sent
      ensures var b := old(batch) + [request];
              if |b| < maxLength && DataSize(b) < maxSize then sent == old(sent) && batch == b && groups == old(groups)
              else |sent| == |arrived| && batch == [] && Batches(groups) == old(Batches(groups)) + [b]
    {
      hide Valid, Chain.Valid, Spare, Batches;
      Enqueue(request, rows, bytes);
      Sized();
      if size < maxSize && |batch| < maxLength {
        return;
      }
      Flush(rows, bytes);
    }

    lemma Sized()
      requires Valid()
      ensures size == DataSize(batch)
    {
      hide Chain.Valid, Chain.Clean, Served, Accounted, Prompt;
    }

    /** The oldest request of the batch has waited long enough. */
    method TimerFires(ghost rows: nat, ghost bytes: nat)
      requires Valid() && Waiting() && armed && Spare(rows, bytes)
      modifies this, log.chain, log.chain.disk, log.chain.Objects()
      ensures Valid() && Waiting() && Spare(rows, bytes) && log.chain.OldOrNew()
      ensures arrived == old(arrived) && stopped == old(stopped) && |sent| == |arrived| && old(sent) <= sent
      ensures batch == [] && Batches(groups) == old(Batches(groups)) + [old(batch)]
    {
      Flush(rows, bytes);
    }

    /** The context was cancelled: what was taken is still written, and nothing more is taken. */
    method Cancel(ghost rows: nat, ghost bytes: nat)
      requires Valid() && Waiting() && Spare(rows, bytes)
      modifies this, log.chain, log.chain.disk, log.chain.Objects()
      ensures Valid() && Waiting() && Spare(rows, bytes) && log.chain.OldOrNew()
      ensures stopped && arrived == old(arrived) && |sent| == |arrived| && old(sent) <= sent
      ensures batch == [] && Batches(groups) == old(Batches(groups)) + if old(batch) == [] then [] else [old(batch)]
    {
      hide Segment.Valid, Segment.Covered, M.Contiguous, M.Flatten, M.Total, Ascending, Spacious;
      hide Served, Accounted, Prompt, AllDeliberate, Batches, Tidy, Live;
      Flush(rows, bytes);
      stopped := true;
    }
  }

  /** What the loop of a writer may see next. */
  datatype Event = Asked(request: Request) | Elapsed | Cancelled {
    function Requests(): seq<Request> { if Asked? then [request] else [] }
  }

  function Requests(events: seq<Event>): seq<Request>
  {
    if events == [] then [] else Requests(events[..|events| - 1]) + events[|events| - 1].Requests()
  }

  /** The events before the first cancellation. */
  function Uncancelled(events: seq<Event>): seq<Event>
  {
    if events == [] || events[0].Cancelled? then [] else [events[0]] + Uncancelled(events[1..])
  }

  /** The requests that a writer takes: those before the first cancellation, and none once it has stopped. */
  function Taken(stopped: bool, events: seq<Event>): seq<Request>
  {
    if stopped then [] else Requests(Uncancelled(events))
  }

  lemma {:induction false} UncancelledMore(events: seq<Event>, event: Event)
    ensures Uncancelled(events + [event]) ==
              Uncancelled(events) + if Cancelled in events || event.Cancelled? then [] else [event]
  {
    if events != [] && !events[0].Cancelled? {
      UncancelledMore(events[1..], event);
      assert (events + [event])[1..] == events[1..] + [event];
      assert Cancelled in events <==> Cancelled in events[1..] by { assert events == [events[0]] + events[1..]; }
    }
  }

  /** One more event adds its request to the taken ones unless the writer has stopped. */
  lemma {:induction false} TakenStep(stopped: bool, events: seq<Event>, i: nat)
    requires i < |events|
    ensures Taken(stopped, events[..i + 1]) ==
              Taken(stopped, events[..i]) + if stopped || Cancelled in events[..i] then [] else events[i].Requests()
  {
    var done, event := Uncancelled(events[..i]), events[i];
    assert events[..i + 1] == events[..i] + [event];
    UncancelledMore(events[..i], event);
    assert (done + [event])[..|done|] == done && done + [] == done;
    assert Requests(done) + [] == Requests(done);
  }

  function Arrivals(events: seq<Event>): nat
  {
    if events == [] then 0 else (if events[0].Asked? then 1 else 0) + Arrivals(events[1..])
  }

  /** The bytes that the requests take in the log. */
  function Volume(events: seq<Event>): nat
  {
    if events == [] then 0
    else (if events[0].Asked? then BatchSize([events[0].request.data]) else 0) + Volume(events[1..])
  }

  lemma {:induction false} BudgetStep(events: seq<Event>, i: nat)
    requires i < |events|
    ensures Arrivals(events[i..]) == Arrivals([events[i]]) + Arrivals(events[i + 1..])
    ensures Volume(events[i..]) == Volume([events[i]]) + Volume(events[i + 1..])
  {
    hide BatchSize;
    assert events[i..][1..] == events[i + 1..];
  }

  /**
    The batches that these events make a writer append: one at every request that reaches a threshold, and one whenever
    the timer fires or the context is cancelled while there are requests.
  */
  function Batched(maxLength: int, maxSize: int, batch: seq<Request>, events: seq<Event>): seq<seq<Request>>
    decreases events
  {
    if events == [] then []
    else
      match events[0]
      case Asked(request) =>
        var b := batch + [request];
        if |b| < maxLength && DataSize(b) < maxSize then Batched(maxLength, maxSize, b, events[1..])
        else [b] + Batched(maxLength, maxSize, [], events[1..])
      case Elapsed => (if batch == [] then [] else [batch]) + Batched(maxLength, maxSize, [], events[1..])
      case Cancelled => if batch == [] then [] else [batch]
  }

  /** The batch that one event makes a writer append, if any. */
  function Due(maxLength: int, maxSize: int, stopped: bool, batch: seq<Request>, event: Event): seq<seq<Request>>
  {
    if stopped then []
    else if event.Asked? then
      var b := batch + [event.request];
      if |b| < maxLength && DataSize(b) < maxSize then [] else [b]
    else if batch == [] then []
    else [batch]
  }

  /** The batches still to come, for a writer that may have stopped. */
  function ToCome(stopped: bool, maxLength: int, maxSize: int, batch: seq<Request>, events: seq<Event>): seq<seq<Request>>
  {
    if stopped then [] else Batched(maxLength, maxSize, batch, events)
  }

  /** The requests that wait after an event. */
  function Left(maxLength: int, maxSize: int, batch: seq<Request>, event: Event): seq<Request>
  {
    if event.Asked? && Due(maxLength, maxSize, false, batch, event) == [] then batch + [event.request] else []
  }

  /** One event turns the batch that is due into one that was appended. */
  lemma {:induction false} BatchedStep(done: seq<seq<Request>>, stopped: bool, maxLength: int, maxSize: int,
                                       batch: seq<Request>, events: seq<Event>, i: nat, left: seq<Request>)
    requires i < |events| && (!stopped ==> left == Left(maxLength, maxSize, batch, events[i]))
    ensures done + ToCome(stopped, maxLength, maxSize, batch, events[i..]) ==
              done + Due(maxLength, maxSize, stopped, batch, events[i])
              + ToCome(stopped || events[i].Cancelled?, maxLength, maxSize, left, events[i + 1..])
  {
    hide DataSize;
    assert events[i..][1..] == events[i + 1..];
    assert ToCome(stopped, maxLength, maxSize, batch, events[i..]) ==
           Due(maxLength, maxSize, stopped, batch, events[i])
           + ToCome(stopped || events[i].Cancelled?, maxLength, maxSize, left, events[i + 1..]);
  }

  lemma {:induction false} NoneToCome(stopped: bool, maxLength: int, maxSize: int, batch: seq<Request>)
    ensures ToCome(stopped, maxLength, maxSize, batch, []) == []
  {
  }

  /** What a writer has taken, whether it has stopped, the requests that wait, and the batches it appended. */
  datatype Phase = Phase(arrived: seq<Request>, stopped: bool, batch: seq<Request>, batches: seq<seq<Request>>)

  ghost function PhaseOf(w: Writer): Phase
    reads w
  {
    Phase(w.arrived, w.stopped, w.batch, Batches(w.groups))
  }

  /** One event takes a writer from one phase to the next. */
  ghost predicate Turned(maxLength: int, maxSize: int, p: Phase, event: Event, q: Phase, refused: seq<Request>)
  {
    && refused == (if p.stopped then event.Requests() else [])
    && q.arrived == (if p.stopped then p.arrived else p.arrived + event.Requests())
    && (q.stopped <==> p.stopped || event.Cancelled?)
    && (!p.stopped ==> q.batch == Left(maxLength, maxSize, p.batch, event))
    && q.batches == p.batches + Due(maxLength, maxSize, p.stopped, p.batch, event)
  }

  /** One turn of the loop; a writer that has stopped refuses requests. */
  method Turn(w: Writer, event: Event, ghost rows: nat, ghost bytes: nat) returns (refused: seq<Request>)
    requires w.Valid() && w.Waiting() && w.Spare(Arrivals([event]) + rows, Volume([event]) + bytes)
    modifies w, w.log.chain, w.log.chain.disk, w.log.chain.Objects()
    ensures w.Valid() && w.Waiting() && w.Spare(rows, bytes) && w.log.chain.OldOrNew() && w.log.chain.Valid()
    ensures old(w.sent) <= w.sent
    ensures refused == if old(w.stopped) then event.Requests() else []
    ensures w.arrived == if old(w.stopped) then old(w.arrived) else old(w.arrived) + event.Requests()
    ensures w.stopped <==> old(w.stopped) || event.Cancelled?
    ensures Turned(w.maxLength, w.maxSize, old(PhaseOf(w)), event, PhaseOf(w), refused)
    ensures event.Elapsed? || event.Cancelled? ==> |w.sent| == |w.arrived| && w.batch == []
    ensures event.Asked? && !old(w.stopped) ==>
              var b := old(w.batch) + [event.request];
              if |b| < w.maxLength && DataSize(b) < w.maxSize then w.sent == old(w.sent) && w.batch == b
              else |w.sent| == |w.arrived| && w.batch == []
  {
    hide Chain.Valid, BatchSize, Batches, DataSize, Writer.Valid, Writer.Spare;
    Accepts(w);
    SpareLess(w, rows, bytes, Arrivals([event]), Volume([event]));
    refused := [];
    match event {
      case Asked(request) =>
        if w.stopped {
          refused := [request];
        } else {
          w.Receive(request, rows, bytes);
        }
      case Elapsed =>
        if w.armed {
          w.TimerFires(rows, bytes);
        }
      case Cancelled =>
        if !w.stopped {
          w.Cancel(rows, bytes);
        }
    }
    Accepts(w);
  }

  /** Where a writer stands after the first `i` events. */
  ghost predicate Ran(maxLength: int, maxSize: int, p: Phase, events: seq<Event>, i: nat, q: Phase, refused: seq<Request>)
    requires i <= |events|
  {
    && p.arrived + Requests(events[..i]) == q.arrived + refused && (refused != [] ==> q.stopped)
    && q.arrived == p.arrived + Taken(p.stopped, events[..i])
    && (q.stopped <==> p.stopped || Cancelled in events[..i])
    && q.batches + ToCome(q.stopped, maxLength, maxSize, q.batch, events[i..])
       == p.batches + ToCome(p.stopped, maxLength, maxSize, p.batch, events)
  }

  lemma {:induction false} RanNone(maxLength: int, maxSize: int, p: Phase, events: seq<Event>)
    ensures Ran(maxLength, maxSize, p, events, 0, p, [])
  {
    hide Requests, Taken, ToCome;
    NoRequests();
    assert events[..0] == [] && events[0..] == events;
  }

  lemma {:induction false} RanStep(maxLength: int, maxSize: int, p: Phase, events: seq<Event>, i: nat, q: Phase,
                                   refused: seq<Request>, next: Phase, more: seq<Request>)
    requires i < |events| && Ran(maxLength, maxSize, p, events, i, q, refused)
    requires Turned(maxLength, maxSize, q, events[i], next, more)
    ensures Ran(maxLength, maxSize, p, events, i + 1, next, refused + more)
  {
    hide Requests, Event.Requests, Taken, ToCome, Due, Left;
    RequestsStep(events, i, p.arrived, q.arrived, refused);
    TakenStep(p.stopped, events, i);
    BatchedStep(q.batches, q.stopped, maxLength, maxSize, q.batch, events, i, next.batch);
  }

  lemma {:induction false} RanAll(maxLength: int, maxSize: int, p: Phase, events: seq<Event>, q: Phase, refused: seq<Request>)
    requires Ran(maxLength, maxSize, p, events, |events|, q, refused)
    ensures p.arrived + Requests(events) == q.arrived + refused && (refused != [] ==> q.stopped)
    ensures q.arrived == p.arrived + Taken(p.stopped, events) && (q.stopped <==> p.stopped || Cancelled in events)
    ensures q.batches == p.batches + if p.stopped then [] else Batched(maxLength, maxSize, p.batch, events)
  {
    hide Requests, Taken, Batched;
    assert events[..|events|] == events && events[|events|..] == [];
    assert ToCome(q.stopped, maxLength, maxSize, q.batch, []) == [] by { NoneToCome(q.stopped, maxLength, maxSize, q.batch); }
  }

  /**
    Runs a writer through any sequence of events. Every request before the first cancellation is taken, in
    order, and every later one is refused. The events alone decide which requests are appended together. All taken
    requests have been answered once the writer is stopped.
  */
  method Serve(w: Writer, events: seq<Event>) returns (refused: seq<Request>)
    requires w.Valid() && w.Waiting() && w.Spare(Arrivals(events), Volume(events))
    modifies w, w.log.chain, w.log.chain.disk, w.log.chain.Objects()
    ensures w.Valid() && w.Waiting() && old(w.sent) <= w.sent
    ensures old(w.arrived) + Requests(events) == w.arrived + refused
    ensures w.arrived == old(w.arrived) + Taken(old(w.stopped), events)
    ensures refused != [] ==> w.stopped
    ensures w.stopped ==> |w.sent| == |w.arrived|
    ensures w.stopped <==> old(w.stopped) || Cancelled in events
    ensures Batches(w.groups) ==
              old(Batches(w.groups))
              + if old(w.stopped) then [] else Batched(w.maxLength, w.maxSize, old(w.batch), events)
  {
    hide Writer.Valid, Writer.Waiting, Writer.Spare, Chain.Valid, Requests, Arrivals, Volume, Taken, Batches, Batched;
    hide Turned, Ran;
    Accepts(w);
    assert events[0..] == events;
    ghost var p := PhaseOf(w);
    RanNone(w.maxLength, w.maxSize, p, events);
    refused := [];
    for i := 0 to |events|
      invariant w.Valid() && w.Waiting() && w.log.chain.Valid() && w.log.chain.OldOrNew()
      invariant w.Spare(Arrivals(events[i..]), Volume(events[i..])) && old(w.sent) <= w.sent
      invariant Ran(w.maxLength, w.maxSize, p, events, i, PhaseOf(w), refused)
    {
      BudgetStep(events, i);
      ghost var q := PhaseOf(w);
      var more := Turn(w, events[i], Arrivals(events[i + 1..]), Volume(events[i + 1..]));
      RanStep(w.maxLength, w.maxSize, p, events, i, q, refused, PhaseOf(w), more);
      refused := refused + more;
    }
    RanAll(w.maxLength, w.maxSize, p, events, PhaseOf(w), refused);
    Accepts(w);
  }

  lemma NoRequests()
    ensures Requests([]) == [] && forall stopped :: Taken(stopped, []) == []
  {
  }

  /** A new request goes to the end of the taken ones, or of the refused ones if there are any. */
  lemma {:induction false} RequestsStep(events: seq<Event>, i: nat, start: seq<Request>, taken: seq<Request>,
                                        refused: seq<Request>)
    requires i < |events| && start + Requests(events[..i]) == taken + refused
    ensures start + Requests(events[..i + 1]) == taken + (refused + events[i].Requests())
    ensures refused == [] ==> start + Requests(events[..i + 1]) == taken + events[i].Requests() + (refused + [])
    ensures Cancelled in events[..i + 1] <==> Cancelled in events[..i] || events[i].Cancelled?
  {
    assert events[..i + 1][..i] == events[..i] && events[..i + 1] == events[..i] + [events[i]];
    var r := events[i].Requests();
    assert start + Requests(events[..i + 1]) == start + Requests(events[..i]) + r;
  }

  lemma Accepts(w: Writer)
    requires w.Valid() && w.Waiting()
    ensures w.log.chain.Valid()
    ensures w.batch == [] ==> |w.sent| == |w.arrived|
    ensures w.stopped ==> w.batch == []
  {
    hide Chain.Valid;
  }

  lemma SpareLess(w: Writer, rows: nat, bytes: nat, moreRows: nat, moreBytes: nat)
    requires w.Valid() && w.Spare(moreRows + rows, moreBytes + bytes)
    ensures w.Spare(rows, bytes)
  {
    hide Chain.Valid, Spacious, Served, BatchSize, Accounted, Prompt;
    SpaciousLess(w.log.chain.limits, w.log.chain.views, 0, |w.batch| + rows, BatchSize(Data(w.batch)) + bytes,
                 moreRows, moreBytes);
  }
}