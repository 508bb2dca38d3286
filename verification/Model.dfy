/**
  The log as its users see it: the number of the first retained record, and the records. Chains of
  segments are read as such a log.
*/
module Model {
  import opened Bytes
  import opened Layout

  datatype Log = Log(head: nat, rows: seq<Payload>) {
    function Next(): nat { head + |rows| }

    /** Forgets the oldest records. */
    function Drop(n: nat): Log
      requires n <= |rows|
    {
      Log(head + n, rows[n..])
    }

    function Add(batch: seq<Payload>): Log { Log(head, rows + batch) }

    /** The nearest number of a record, or of the place behind the last one. */
    function Clamp(sequence: nat): nat { if sequence <= head then head else if sequence >= Next() then Next() else sequence }

    /** Removes all records below `sequence`; past the end there is nothing more to remove. */
    function Before(sequence: nat): Log
    {
      if sequence <= head then this else if sequence >= Next() then Drop(|rows|) else Drop(sequence - head)
    }

    /** Removes all records above `sequence`; below the head the log starts over at `start`. */
    function After(sequence: nat, start: nat): Log
    {
      if sequence < head then Log(start, [])
      else if sequence >= Next() then this
      else Log(head, rows[..sequence - head + 1])
    }
  }

  /** There is a record with this number. */
  predicate Has(log: Log, n: nat) { log.head <= n < log.head + |log.rows| }

  /** What is left are the records numbered `sequence` and above, with their payloads; the next number is the same. */
  ghost predicate OnlyFrom(before: Log, sequence: nat, after: Log)
  {
    && after.head + |after.rows| == before.head + |before.rows|
    && forall n: nat :: (Has(after, n) <==> Has(before, n) && n >= sequence)
                        && (Has(after, n) ==> after.rows[n - after.head] == before.rows[n - before.head])
  }

  /** What is left are the records up to number `sequence`, with their payloads; the first number is the same. */
  ghost predicate OnlyThrough(before: Log, sequence: nat, after: Log)
  {
    && after.head == before.head
    && forall n: nat :: (Has(after, n) <==> Has(before, n) && n <= sequence)
                        && (Has(after, n) ==> after.rows[n - after.head] == before.rows[n - before.head])
  }

  /** The oldest records may be gone; the others keep their numbers, and the batch takes the next ones. */
  ghost predicate Extended(before: Log, batch: seq<Payload>, after: Log)
  {
    var next := before.head + |before.rows|;
    && before.head <= after.head <= next
    && after.head + |after.rows| == next + |batch|
    && forall n: nat | Has(after, n) ::
         after.rows[n - after.head] == if n < next then before.rows[n - before.head] else batch[n - next]
  }

  lemma {:induction false} ExtendedExactly(log: Log, n: nat, batch: seq<Payload>)
    requires n <= |log.rows|
    ensures Extended(log, batch, log.Drop(n).Add(batch))
  {
  }

  lemma {:induction false} TruncatedExactly(log: Log, sequence: nat, start: nat)
    ensures OnlyFrom(log, sequence, log.Before(sequence))
    ensures if sequence < log.head then log.After(sequence, start) == Log(start, [])
            else OnlyThrough(log, sequence, log.After(sequence, start))
  {
  }

  ghost predicate Contiguous(views: seq<View>)
  {
    && (forall i | 0 <= i < |views| :: views[i].start <= |views[i].rows|)
    && (forall i | 0 <= i < |views| - 1 :: views[i].Next() == views[i + 1].First())
  }

  /** The readable records of all segments, in order. */
  function Flatten(views: seq<View>): seq<Payload>
  {
    if views == [] then [] else views[0].Readable() + Flatten(views[1..])
  }

  /** The bytes all segments take. */
  function Total(views: seq<View>): nat
  {
    if views == [] then 0 else views[0].Size() + Total(views[1..])
  }

  function Abs(views: seq<View>): Log
    requires views != [] && Contiguous(views)
  {
    Log(views[0].First(), Flatten(views))
  }

  lemma {:induction false} TotalSplit(views: seq<View>, k: nat)
    requires k <= |views|
    ensures Total(views) == Total(views[..k]) + Total(views[k..])
  {
    if k > 0 {
      TotalSplit(views[1..], k - 1);
      assert views[..k][1..] == views[1..][..k - 1];
    } else {
      assert views[k..] == views;
    }
  }

  lemma {:induction false} TotalOne(v: View)
    ensures Total([v]) == v.Size()
  {
  }

  lemma {:induction false} FlattenSplit(views: seq<View>, k: nat)
    requires k <= |views|
    ensures Flatten(views) == Flatten(views[..k]) + Flatten(views[k..])
  {
    hide View.Readable;
    if k > 0 {
      FlattenSplit(views[1..], k - 1);
      assert views[..k][1..] == views[1..][..k - 1];
      assert views[1..][k - 1..] == views[k..];
    } else {
      assert views[k..] == views;
    }
  }

  lemma {:induction false} FlattenOne(v: View)
    ensures Flatten([v]) == v.Readable()
  {
  }

  lemma {:induction false} ContiguousParts(views: seq<View>, i: nat, j: nat)
    requires Contiguous(views) && i <= j <= |views|
    ensures Contiguous(views[i..j])
  {
  }

  /** No gaps and no overlaps: as many records as sequence numbers from the first to the last. */
  lemma {:induction false} FlattenLength(views: seq<View>)
    requires views != [] && Contiguous(views)
    ensures |Flatten(views)| == views[|views| - 1].Next() - views[0].First()
  {
    if |views| == 1 {
      FlattenOne(views[0]);
      assert views == [views[0]];
    } else {
      ContiguousParts(views, 1, |views|);
      FlattenLength(views[1..]);
    }
  }

  lemma {:induction false} FirstsOrdered(views: seq<View>, i: nat, j: nat)
    requires Contiguous(views) && i <= j < |views|
    ensures views[i].First() <= views[j].First() && views[i].Next() <= views[j].Next()
    ensures i < j ==> views[i].Next() <= views[j].First()
    decreases j - i
  {
    if i < j {
      FirstsOrdered(views, i, j - 1);
    }
  }

  /** Removing the oldest segments forgets exactly their records. */
  lemma {:induction false} AbsDrop(views: seq<View>, k: nat)
    requires Contiguous(views) && k < |views|
    ensures Contiguous(views[k..])
    ensures 0 <= views[k].First() - views[0].First() <= |Flatten(views)|
    ensures Abs(views[k..]) == Abs(views).Drop(views[k].First() - views[0].First())
  {
    hide Flatten, View.Readable;
    FlattenAround(views, k);
    FlattenCons(views[k], views[k + 1..]);
    assert views[k..] == [views[k]] + views[k + 1..];
  }

  lemma {:induction false} FlattenNone()
    ensures Flatten([]) == []
  {
  }

  // What the operations of a chain do to its segments, and what that means for the log

  /** The last segment takes a batch. */
  function Grown(views: seq<View>, batch: seq<Payload>): seq<View>
    requires views != []
  {
    var n := |views| - 1;
    views[..n] + [views[n].(rows := views[n].rows + batch)]
  }

  lemma {:induction false} AbsGrown(views: seq<View>, batch: seq<Payload>)
    requires views != [] && Contiguous(views)
    ensures Contiguous(Grown(views, batch))
    ensures Abs(Grown(views, batch)) == Abs(views).Add(batch)
    ensures Total(Grown(views, batch)) == Total(views) + BatchSize(batch)
  {
    hide Flatten, Total, Offset, BatchSize, Contiguous, View.Readable;
    var front, v := views[..|views| - 1], views[|views| - 1];
    var w := v.(rows := v.rows + batch);
    assert views == front + [v];
    GrownContiguous(views, batch);
    FlattenSnoc(front, v);
    FlattenSnoc(front, w);
    TotalSnoc(front, v);
    TotalSnoc(front, w);
    OffsetAppend(v.rows, batch);
    assert Flatten(front) + (v.Readable() + batch) == Flatten(front) + v.Readable() + batch;
  }

  lemma {:induction false} GrownContiguous(views: seq<View>, batch: seq<Payload>)
    requires views != [] && Contiguous(views)
    ensures Contiguous(Grown(views, batch)) && Grown(views, batch)[0].First() == views[0].First()
    ensures var v := views[|views| - 1]; v.(rows := v.rows + batch).Readable() == v.Readable() + batch
  {
  }

  lemma {:induction false} FlattenSnoc(front: seq<View>, v: View)
    ensures Flatten(front + [v]) == Flatten(front) + v.Readable()
  {
    hide Flatten, View.Readable;
    FlattenSplit(front + [v], |front|);
    FlattenOne(v);
    assert (front + [v])[..|front|] == front && (front + [v])[|front|..] == [v];
  }

  lemma {:induction false} TotalSnoc(front: seq<View>, v: View)
    ensures Total(front + [v]) == Total(front) + v.Size()
  {
    hide Total, Offset;
    TotalSplit(front + [v], |front|);
    TotalOne(v);
    assert (front + [v])[..|front|] == front && (front + [v])[|front|..] == [v];
  }

  /** An empty segment behind the last one changes nothing but the size. */
  lemma {:induction false} AbsRotated(views: seq<View>, v: View)
    requires views != [] && Contiguous(views) && v == View(views[|views| - 1].Next(), [], 0)
    ensures Contiguous(views + [v])
    ensures Abs(views + [v]) == Abs(views)
    ensures Total(views + [v]) == Total(views) + 64
  {
    hide Flatten, Total;
    FlattenSnoc(views, v);
    TotalSnoc(views, v);
  }

  /** Segments before `k` go, and segment `k` starts at `sequence`. */
  function Headed(views: seq<View>, k: nat, sequence: nat): seq<View>
    requires k < |views| && views[k].First() <= sequence
  {
    [views[k].(start := sequence - views[k].base)] + views[k + 1..]
  }

  lemma {:induction false} AbsHeaded(views: seq<View>, k: nat, sequence: nat)
    requires Contiguous(views) && k < |views| && views[k].First() <= sequence <= views[k].Next()
    ensures Contiguous(Headed(views, k, sequence))
    ensures Abs(Headed(views, k, sequence)) == Abs(views).Before(sequence)
  {
    hide Flatten, Contiguous, View.Readable, Log.Before;
    var w, d := views[k].(start := sequence - views[k].base), views[k].First() - views[0].First();
    HeadedContiguous(views, k, sequence);
    FlattenAround(views, k);
    FlattenCons(w, views[k + 1..]);
    ReadableParts(views[k], sequence);
    DropFurther(Flatten(views[..k]), views[k].Readable(), Flatten(views[k + 1..]), sequence - views[k].First());
    FlattenLength(views);
    FirstsOrdered(views, k, |views| - 1);
    BeforeIsDrop(Abs(views), sequence);
  }

  lemma {:induction false} HeadedSuffix(views: seq<View>, k: nat, sequence: nat)
    requires k < |views| && views[k].First() <= sequence
    ensures Headed(views[k..], 0, sequence) == Headed(views, k, sequence)
    ensures views[k].First() == sequence ==> Headed(views, k, sequence) == views[k..]
  {
  }

  lemma {:induction false} HeadedContiguous(views: seq<View>, k: nat, sequence: nat)
    requires Contiguous(views) && k < |views| && views[k].First() <= sequence <= views[k].Next()
    ensures Contiguous(Headed(views, k, sequence)) && views[k].start <= |views[k].rows|
  {
  }

  /** The records of a segment lie between those before it and those behind it. */
  lemma {:induction false} FlattenAround(views: seq<View>, k: nat)
    requires Contiguous(views) && k < |views|
    ensures Flatten(views) == Flatten(views[..k]) + (views[k].Readable() + Flatten(views[k + 1..]))
    ensures |Flatten(views[..k])| == views[k].First() - views[0].First()
  {
    hide Flatten, View.Readable;
    FlattenSplit(views, k);
    FlattenCons(views[k], views[k + 1..]);
    assert views[k..] == [views[k]] + views[k + 1..];
    if k > 0 {
      ContiguousParts(views, 0, k);
      FlattenLength(views[..k]);
    } else {
      assert views[..k] == [];
      FlattenNone();
    }
  }

  lemma {:induction false} FlattenCons(v: View, rest: seq<View>)
    ensures Flatten([v] + rest) == v.Readable() + Flatten(rest)
  {
    assert ([v] + rest)[1..] == rest;
  }

  lemma {:induction false} ReadableParts(v: View, sequence: nat)
    requires v.start <= |v.rows| && v.First() <= sequence <= v.Next()
    ensures sequence - v.First() <= |v.Readable()| == v.Next() - v.First()
    ensures v.(start := sequence - v.base).Readable() == v.Readable()[sequence - v.First()..]
    ensures sequence < v.Next() ==>
              v.(rows := v.rows[..sequence + 1 - v.base]).Readable() == v.Readable()[..sequence + 1 - v.First()]
  {
  }

  lemma {:induction false} DropFurther(front: seq<Payload>, mid: seq<Payload>, back: seq<Payload>, m: nat)
    requires m <= |mid|
    ensures (front + (mid + back))[|front| + m..] == mid[m..] + back
  {
  }

  lemma {:induction false} TakeThrough(front: seq<Payload>, mid: seq<Payload>, back: seq<Payload>, m: nat)
    requires m <= |mid|
    ensures (front + (mid + back))[..|front| + m] == front + mid[..m]
  {
  }

  lemma {:induction false} BeforeIsDrop(log: Log, sequence: nat)
    requires log.head <= sequence <= log.Next()
    ensures log.Before(sequence) == log.Drop(sequence - log.head)
  {
  }

  /** Segments behind `k` go, and segment `k` ends at `sequence`. */
  function Tailed(views: seq<View>, k: nat, sequence: nat): seq<View>
    requires k < |views| && views[k].base <= sequence < views[k].Next()
  {
    views[..k] + [views[k].(rows := views[k].rows[..sequence + 1 - views[k].base])]
  }

  lemma {:induction false} AbsTailed(views: seq<View>, k: nat, sequence: nat, start: nat)
    requires Contiguous(views) && k < |views| && views[k].First() <= sequence < views[k].Next()
    ensures Contiguous(Tailed(views, k, sequence))
    ensures Abs(Tailed(views, k, sequence)) == Abs(views).After(sequence, start)
  {
    hide Flatten, Contiguous, View.Readable;
    var v, m := views[k], sequence + 1 - views[k].First();
    var w := v.(rows := v.rows[..sequence + 1 - v.base]);
    TailedContiguous(views, k, sequence);
    FlattenAround(views, k);
    FlattenSnoc(views[..k], w);
    ReadableParts(v, sequence);
    TakeThrough(Flatten(views[..k]), v.Readable(), Flatten(views[k + 1..]), m);
    FlattenLength(views);
    FirstsOrdered(views, 0, k);
    FirstsOrdered(views, k, |views| - 1);
  }

  lemma {:induction false} TailedPrefix(views: seq<View>, k: nat, sequence: nat)
    requires k < |views| && views[k].base <= sequence < views[k].Next()
    ensures Tailed(views[..k + 1], k, sequence) == Tailed(views, k, sequence)
  {
    assert views[..k + 1][..k] == views[..k];
  }

  lemma {:induction false} TailedContiguous(views: seq<View>, k: nat, sequence: nat)
    requires Contiguous(views) && k < |views| && views[k].First() <= sequence < views[k].Next()
    ensures Contiguous(Tailed(views, k, sequence)) && views[k].start <= |views[k].rows|
    ensures Tailed(views, k, sequence)[0].First() == views[0].First()
  {
  }

  /** Frame `j` of segment `i` is the record with number base + j. */
  lemma {:induction false} RecordPlace(views: seq<View>, i: nat, j: nat)
    requires Contiguous(views) && i < |views| && views[i].start <= j < |views[i].rows|
    ensures var k := views[i].base + j - views[0].First();
            0 <= k < |Flatten(views)| && Flatten(views)[k] == views[i].rows[j]
  {
    hide Flatten;
    FlattenAround(views, i);
  }
}
