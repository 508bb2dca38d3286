/** A file stands for one segment at most, and a directory for one sequence of segments. */
module Contents {
  import opened Bytes
  import opened Layout
  import opened Disks
  import opened Directories
  import opened Segments
  import F = Frames
  import S = Slots

  lemma {:induction false} FrameOf(file: seq<byte>, rows: seq<Payload>, i: nat)
    requires Holds(file, rows) && i < |rows|
    ensures F.FrameAt(file, i, Offset(rows, i), rows[i])
  {
    hide F.FrameAt, Offset;
  }

  /** Frames are found one after the other, so two readings of a file agree as far as both go. */
  lemma {:induction false} SameFront(file: seq<byte>, a: seq<Payload>, b: seq<Payload>, n: nat)
    requires Holds(file, a) && Holds(file, b) && n <= |a| && n <= |b|
    ensures a[..n] == b[..n] && Offset(a, n) == Offset(b, n)
  {
    hide F.Read, F.Validate, Holds;
    if n > 0 {
      SameFront(file, a, b, n - 1);
      FrameOf(file, a, n - 1);
      FrameOf(file, b, n - 1);
      assert a[..n] == a[..n - 1] + [a[n - 1]] && b[..n] == b[..n - 1] + [b[n - 1]];
    }
  }

  /** Where one reading ends, the other one has no frame. */
  lemma {:induction false} NoLonger(file: seq<byte>, v: View, w: View)
    requires FileOk(file, v) && FileOk(file, w) && Ends(file, v)
    ensures |w.rows| <= |v.rows|
  {
    hide F.Read, F.Validate, HeaderOk, Offset;
    var n := |v.rows|;
    if n < |w.rows| {
      FrameOf(file, w.rows, n);
      SameFront(file, v.rows, w.rows, n);
    }
  }

  /** The segment that a file stands for is the only one. */
  lemma {:induction false} OneSegment(file: seq<byte>, v: View, w: View)
    requires FileOk(file, v) && FileOk(file, w) && Ends(file, v) && Ends(file, w)
    ensures v == w
  {
    hide Ends, Holds, Offset, S.HeaderValid, S.StartSequence, S.Sound, S.Start, S.Meta;
    NoLonger(file, v, w);
    NoLonger(file, w, v);
    SameFront(file, v.rows, w.rows, |v.rows|);
    assert v.rows[..|v.rows|] == v.rows && w.rows[..|w.rows|] == w.rows;
    OffsetOrder(v.rows, v.start, w.start);
    OffsetOrder(v.rows, w.start, v.start);
  }

  lemma {:induction false} LastName(views: seq<View>)
    requires views != [] && Ascending(views)
    ensures var n := |views| - 1;
            && Names(views[..n]) == Names(views) - {views[n].base} && views[n].base in Names(views)
            && forall x | x in Names(views) :: x <= views[n].base
  {
    var n := |views| - 1;
    NamesSplit(views, n);
    assert views[n..] == [views[n]] && Names([views[n]]) == {views[n].base} by { NamesOne(views[n]); }
  }

  /** Ascending names are in one order only. */
  lemma {:induction false} SameNames(v: seq<View>, w: seq<View>)
    requires Ascending(v) && Ascending(w) && Names(v) == Names(w)
    ensures |v| == |w| && forall i | 0 <= i < |v| :: v[i].base == w[i].base
    decreases |v|
  {
    hide Names;
    if v == [] || w == [] {
      NoNames(v);
      NoNames(w);
    } else {
      var m, n := |v| - 1, |w| - 1;
      LastName(v);
      LastName(w);
      SameNames(v[..m], w[..n]);
      assert forall i | 0 <= i < m :: v[..m][i] == v[i] && w[..n][i] == w[i];
    }
  }

  lemma {:induction false} NoNames(views: seq<View>)
    ensures Names(views) == {} <==> views == []
  {
    if views != [] { NameOf(views, 0); }
  }

  /** A directory holds one sequence of segments at most, whether its last file ends cleanly, torn or corrupt. */
  lemma {:induction false} OneContent(files: Files, v: seq<View>, w: seq<View>)
    requires (Held(files, v) || Spoiled(files, v)) && (Held(files, w) || Spoiled(files, w))
    ensures v == w
  {
    hide FileOk, Quiet, Torn, Corrupt, Names, Verdict, Continues;
    SameNames(v, w);
    forall i | 0 <= i < |v|
      ensures v[i] == w[i]
    {
      EndsOneWay(files[v[i].base], v[i].rows);
      EndsOneWay(files[w[i].base], w[i].rows);
      OneSegment(files[v[i].base], v[i], w[i]);
    }
  }
}
