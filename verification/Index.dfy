/** The sparse cache of (frame index, byte offset) checkpoints (internal/segment/index/offset.go). */
module Index {
  import opened Bytes
  import opened Errors
  import opened Layout

  const STRIDE := 256

  datatype Entry = Entry(index: nat, offset: nat)

  /** `sort.Search` for the first key that is at least `target`. */
  method Search(keys: seq<int>, target: int) returns (i: nat)
    ensures i <= |keys|
    ensures i > 0 ==> keys[i - 1] < target
    ensures i < |keys| ==> keys[i] >= target
  {
    i := 0;
    var j := |keys|;
    while i < j
      invariant i <= j <= |keys|
      invariant i > 0 ==> keys[i - 1] < target
      invariant j < |keys| ==> keys[j] >= target
    {
      var h := (i + j) / 2;
      if keys[h] < target {
        i := h + 1;
      } else {
        j := h;
      }
    }
  }

  function Indexes(entries: seq<Entry>): seq<int>
  {
    seq(|entries|, k requires 0 <= k < |entries| => entries[k].index)
  }

  function Offsets(entries: seq<Entry>): seq<int>
  {
    seq(|entries|, k requires 0 <= k < |entries| => entries[k].offset)
  }

  ghost predicate Increasing(entries: seq<Entry>)
  {
    forall i, j | 0 <= i < j < |entries| :: entries[i].index < entries[j].index
  }

  /** The indexes that have a checkpoint. */
  ghost function Marks(entries: seq<Entry>): set<nat>
  {
    if entries == [] then {} else Marks(entries[..|entries| - 1]) + {entries[|entries| - 1].index}
  }

  // What the operations mean, entry by entry

  /** Linear insertion from the back: replaces the entry for the same index. */
  function Put(entries: seq<Entry>, e: Entry): seq<Entry>
  {
    if entries == [] then [e]
    else
      var init, last := entries[..|entries| - 1], entries[|entries| - 1];
      if last.index < e.index then entries + [e]
      else if last.index == e.index then init + [e]
      else Put(init, e) + [last]
  }

  function SparsePut(entries: seq<Entry>, e: Entry): seq<Entry>
  {
    if e.index % STRIDE == 0 then Put(entries, e) else entries
  }

  /** Drops entries behind `index` one at a time, but never the first one. */
  function KeepUpTo(entries: seq<Entry>, index: nat): seq<Entry>
  {
    if |entries| <= 1 || entries[|entries| - 1].index <= index then entries
    else KeepUpTo(entries[..|entries| - 1], index)
  }

  /** Drops entries before `index` one at a time, but keeps the last one that is not behind it. */
  function KeepFrom(entries: seq<Entry>, index: nat): seq<Entry>
  {
    if |entries| <= 1 || entries[1].index > index then entries
    else KeepFrom(entries[1..], index)
  }

  /** What insertion leaves behind the new entry. */
  function Rest(entries: seq<Entry>, e: Entry, i: nat): seq<Entry>
    requires i <= |entries|
  {
    if i < |entries| && entries[i].index == e.index then entries[i + 1..] else entries[i..]
  }

  /** Insertion at the position that a search finds is insertion from the back. */
  lemma {:induction false} PutSplit(entries: seq<Entry>, e: Entry, i: nat)
    requires Increasing(entries) && i <= |entries|
    requires i > 0 ==> entries[i - 1].index < e.index
    requires i < |entries| ==> entries[i].index >= e.index
    ensures Put(entries, e) == entries[..i] + [e] + Rest(entries, e, i)
  {
    hide Increasing;
    var n := |entries|;
    if i == n {
      assert entries[..i] == entries && Rest(entries, e, i) == [];
    } else if i == n - 1 && entries[i].index == e.index {
      assert Rest(entries, e, i) == [];
    } else {
      LastIsLarger(entries, e, i);
      PutSplit(entries[..n - 1], e, i);
      RestOfInit(entries, e, i);
    }
  }

  lemma {:induction false} LastIsLarger(entries: seq<Entry>, e: Entry, i: nat)
    requires Increasing(entries) && i < |entries|
    requires entries[i].index > e.index || (entries[i].index == e.index && i < |entries| - 1)
    ensures entries[|entries| - 1].index > e.index && Increasing(entries[..|entries| - 1])
  {
  }

  lemma {:induction false} RestOfInit(entries: seq<Entry>, e: Entry, i: nat)
    requires i < |entries| && (i == |entries| - 1 ==> entries[i].index != e.index)
    ensures var init, last := entries[..|entries| - 1], entries[|entries| - 1];
            && init[..i] == entries[..i]
            && init[..i] + [e] + Rest(init, e, i) + [last] == entries[..i] + [e] + Rest(entries, e, i)
  {
    var init, last := entries[..|entries| - 1], entries[|entries| - 1];
    assert Rest(entries, e, i) == Rest(init, e, i) + [last];
  }

  lemma {:induction false} KeepUpToSplit(entries: seq<Entry>, index: nat, i: nat)
    requires Increasing(entries) && i < |entries|
    requires i > 0 ==> entries[i].index <= index
    requires i + 1 < |entries| ==> entries[i + 1].index > index
    ensures KeepUpTo(entries, index) == entries[..i + 1]
  {
    if i + 1 < |entries| {
      var init := entries[..|entries| - 1];
      KeepUpToSplit(init, index, i);
    }
  }

  lemma {:induction false} KeepFromSplit(entries: seq<Entry>, index: nat, i: nat)
    requires Increasing(entries) && i < |entries|
    requires i > 0 ==> entries[i].index <= index
    requires i + 1 < |entries| ==> entries[i + 1].index > index
    ensures KeepFrom(entries, index) == entries[i..]
  {
    if i > 0 {
      KeepFromSplit(entries[1..], index, i - 1);
      assert entries[1..][i - 1..] == entries[i..];
    }
  }

  class OffsetIndex {
    var entries: seq<Entry>

    constructor ()
      ensures entries == []
    {
      entries := [];
    }

    method SparseSet(index: nat, offset: nat)
      requires Increasing(entries)
      modifies this
      ensures entries == SparsePut(old(entries), Entry(index, offset))
      ensures entries == if index % 256 == 0 then Put(old(entries), Entry(index, offset)) else old(entries)
    {
      if index % STRIDE != 0 {
        return;
      }
      Set(index, offset);
    }

    method Set(index: nat, offset: nat)
      requires Increasing(entries)
      modifies this
      ensures entries == Put(old(entries), Entry(index, offset))
    {
      var n := |entries|;
      var e := Entry(index, offset);
      if n == 0 {
        entries := [e];
        return;
      }
      if index > entries[n - 1].index {
        PutSplit(entries, e, n);
        entries := entries + [e];
        return;
      }
      var i := Search(Indexes(entries), index);
      PutSplit(entries, e, i);
      if i < n && entries[i].index == index {
        entries := entries[..i] + [e] + entries[i + 1..];
        return;
      }
      entries := entries[..i] + [e] + entries[i..];
    }

    method By(keys: seq<int>, bound: int) returns (r: Option<Entry>)
      requires |keys| == |entries|
      ensures r.None? ==> entries == [] || keys[0] > bound
      ensures r.Some? ==> exists i | 0 <= i < |entries| ::
                && r.value == entries[i] && keys[i] <= bound
                && (i + 1 < |keys| ==> keys[i + 1] > bound)
    {
      if |entries| == 0 {
        return None;
      }
      var i := Search(keys, bound + 1);
      if i == 0 {
        return None;
      }
      r := Some(entries[i - 1]);
    }

    /** The last checkpoint whose index is at most `index`. */
    method ForFrameIndex(index: nat) returns (r: Option<Entry>)
      requires Increasing(entries)
      ensures r.None? ==> forall k | 0 <= k < |entries| :: entries[k].index > index
      ensures r.Some? ==> r.value in entries && r.value.index <= index
      ensures r.Some? ==> forall k | 0 <= k < |entries| && entries[k].index <= index ::
                            entries[k].index <= r.value.index
    {
      r := By(Indexes(entries), index);
    }

    /** A checkpoint whose offset is at most `offset`, and whose successor's is not. */
    method ForOffset(offset: nat) returns (r: Option<Entry>)
      ensures r.None? ==> entries == [] || entries[0].offset > offset
      ensures r.Some? ==> r.value in entries && r.value.offset <= offset
      ensures r.Some? ==> exists i | 0 <= i < |entries| ::
                r.value == entries[i] && (i + 1 < |entries| ==> entries[i + 1].offset > offset)
    {
      r := By(Offsets(entries), offset);
    }

    method FindFrameIndex(index: nat) returns (i: int)
      requires Increasing(entries)
      ensures i == -1 <==> entries == []
      ensures i != -1 ==> 0 <= i < |entries|
      ensures i > 0 ==> entries[i].index <= index
      ensures 0 <= i && i + 1 < |entries| ==> entries[i + 1].index > index
    {
      if |entries| == 0 {
        return -1;
      }
      i := Search(Indexes(entries), index + 1);
      if i == 0 {
        return 0;
      }
      i := i - 1;
    }

    method TruncateAfter(index: nat)
      requires Increasing(entries)
      modifies this
      ensures entries == KeepUpTo(old(entries), index)
    {
      var i := FindFrameIndex(index);
      if i == -1 {
        return;
      }
      KeepUpToSplit(entries, index, i);
      entries := entries[..i + 1];
    }

    method TruncateBefore(index: nat)
      requires Increasing(entries)
      modifies this
      ensures entries == KeepFrom(old(entries), index)
    {
      var i := FindFrameIndex(index);
      if i == -1 {
        return;
      }
      KeepFromSplit(entries, index, i);
      entries := entries[i..];
    }
  }

  // Checkpoints against the frames they stand for

  ghost predicate Pair(rows: seq<Payload>, e: Entry)
  {
    e.index <= |rows| && e.offset == Offset(rows, e.index)
  }

  /** Every checkpoint is a true (index, offset) pair, in strictly increasing order. */
  ghost predicate Truthful(entries: seq<Entry>, rows: seq<Payload>)
  {
    Increasing(entries) && forall k | 0 <= k < |entries| :: Pair(rows, entries[k])
  }

  ghost predicate Covers(marks: set<nat>, from: nat, to: nat)
  {
    forall m | from <= m < to && m % STRIDE == 0 :: m in marks
  }

  /** Checkpoints are never more than a stride apart between the read start and the end. */
  ghost predicate Dense(entries: seq<Entry>, from: nat, to: nat)
  {
    {0, from, to} <= Marks(entries) && Covers(Marks(entries), from, to)
  }

  lemma {:induction false} PutMembers(entries: seq<Entry>, e: Entry)
    ensures forall x | x in Put(entries, e) :: x == e || x in entries
  {
    var n := |entries|;
    if n > 0 && entries[n - 1].index > e.index {
      PutMembers(entries[..n - 1], e);
    }
  }

  lemma {:induction false} PutIncreasing(entries: seq<Entry>, e: Entry)
    requires Increasing(entries)
    ensures Increasing(Put(entries, e))
  {
    var n := |entries|;
    if n > 0 && entries[n - 1].index > e.index {
      var init := entries[..n - 1];
      PutIncreasing(init, e);
      PutMembers(init, e);
      var front := Put(init, e);
      forall k | 0 <= k < |front|
        ensures front[k].index < entries[n - 1].index
      {
        assert front[k] in front;
      }
    }
  }

  lemma {:induction false} PutTruthful(entries: seq<Entry>, e: Entry, rows: seq<Payload>)
    requires Truthful(entries, rows) && Pair(rows, e)
    ensures Truthful(Put(entries, e), rows)
  {
    hide Offset, Increasing, Put;
    PutIncreasing(entries, e);
    PutMembers(entries, e);
    var out := Put(entries, e);
    forall k | 0 <= k < |out|
      ensures Pair(rows, out[k])
    {
      assert out[k] in out;
    }
  }

  lemma {:induction false} PutMarks(entries: seq<Entry>, e: Entry)
    ensures Marks(Put(entries, e)) == Marks(entries) + {e.index}
  {
    var n := |entries|;
    if n > 0 {
      var init, last := entries[..n - 1], entries[n - 1];
      if last.index < e.index {
        assert (entries + [e])[..n] == entries;
      } else if last.index == e.index {
        assert (init + [e])[..n - 1] == init;
      } else {
        PutMarks(init, e);
        var front := Put(init, e);
        assert (front + [last])[..|front|] == front;
      }
    }
  }

  /** Sampling a true position keeps the checkpoints true and extends what they cover. */
  lemma {:induction false} SparseSound(entries: seq<Entry>, e: Entry, rows: seq<Payload>, from: nat)
    requires Truthful(entries, rows) && Pair(rows, e)
    ensures Truthful(SparsePut(entries, e), rows)
    ensures Marks(entries) <= Marks(SparsePut(entries, e))
    ensures Covers(Marks(entries), from, e.index) ==> Covers(Marks(SparsePut(entries, e)), from, e.index + 1)
  {
    hide Truthful, Pair, Marks, Put;
    if e.index % STRIDE == 0 {
      PutTruthful(entries, e, rows);
      PutMarks(entries, e);
    }
  }

  lemma {:induction false} MarkHasEntry(entries: seq<Entry>, m: nat) returns (k: nat)
    requires m in Marks(entries)
    ensures k < |entries| && entries[k].index == m
  {
    var n := |entries| - 1;
    if entries[n].index == m {
      k := n;
    } else {
      k := MarkHasEntry(entries[..n], m);
    }
  }

  lemma {:induction false} EntryIsMark(entries: seq<Entry>, k: nat)
    requires k < |entries|
    ensures entries[k].index in Marks(entries)
  {
    var n := |entries| - 1;
    if k < n {
      EntryIsMark(entries[..n], k);
    }
  }

  /** Pairs stay true when frames are added or removed behind them. */
  lemma {:induction false} TruthfulPrefix(entries: seq<Entry>, rows: seq<Payload>, other: seq<Payload>)
    requires Truthful(entries, rows)
    requires forall k | 0 <= k < |entries| ::
               && entries[k].index <= |other|
               && rows[..entries[k].index] == other[..entries[k].index]
    ensures Truthful(entries, other)
  {
    hide Increasing, Offset;
    forall k | 0 <= k < |entries|
      ensures Pair(other, entries[k])
    {
      OffsetPrefix(rows, other, entries[k].index);
    }
  }

  lemma {:induction false} KeepUpToKeeps(entries: seq<Entry>, index: nat)
    requires Increasing(entries) && entries != [] && entries[0].index == 0
    ensures var out := KeepUpTo(entries, index);
            && out <= entries && Increasing(out)
            && (forall k | 0 <= k < |out| :: out[k].index <= index)
            && (forall m | m in Marks(entries) && m <= index :: m in Marks(out))
  {
    var n := |entries|;
    if n > 1 && entries[n - 1].index > index {
      KeepUpToKeeps(entries[..n - 1], index);
    }
  }

  lemma {:induction false} MarksOfTail(entries: seq<Entry>)
    requires entries != []
    ensures Marks(entries) == {entries[0].index} + Marks(entries[1..])
  {
    var n := |entries| - 1;
    if n > 0 {
      MarksOfTail(entries[..n]);
      assert entries[..n][1..] == entries[1..][..n - 1];
    }
  }

  lemma {:induction false} KeepFromKeeps(entries: seq<Entry>, index: nat)
    requires Increasing(entries)
    ensures var out := KeepFrom(entries, index);
            && Increasing(out)
            && (forall x | x in out :: x in entries)
            && (forall m | m in Marks(entries) && m >= index :: m in Marks(out))
  {
    if |entries| > 1 && entries[1].index <= index {
      KeepFromKeeps(entries[1..], index);
      MarksOfTail(entries);
    }
  }

  /** With dense checkpoints the nearest one at or before a frame is less than a stride away. */
  lemma {:induction false} NearestCheckpoint(entries: seq<Entry>, from: nat, to: nat, target: nat, floor: nat)
    requires Dense(entries, from, to) && from <= target <= to
    requires forall k | 0 <= k < |entries| && entries[k].index <= target :: entries[k].index <= floor
    ensures target - floor <= 255
  {
    hide Marks;
    var mark := target - target % STRIDE;
    var near := if mark < from then from else if mark < to then mark else to;
    var k := MarkHasEntry(entries, near);
  }
}
