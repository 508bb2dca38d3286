/** What a directory of segment files holds, and the retention limits a chain is kept within. */
module Directories {
  import opened Bytes
  import opened Layout
  import opened Model
  import opened Disks

  function Names(views: seq<View>): set<nat>
  {
    set i | 0 <= i < |views| :: views[i].base
  }

  ghost predicate Ascending(views: seq<View>)
  {
    forall i, j | 0 <= i < j < |views| :: views[i].base < views[j].base
  }

  /** The file of a segment is there and holds it; behind its frames a reader sees a clean end. */
  ghost predicate Stored(files: Files, v: View)
  {
    v.base in files && FileOk(files[v.base], v)
  }

  ghost predicate Shut(files: Files, v: View)
  {
    Stored(files, v) && |v.rows| < U32 && Quiet(files[v.base], v.rows)
  }

  /** Behind the frames of this segment there may be a torn frame. */
  ghost predicate Open(files: Files, v: View)
  {
    Stored(files, v) && |v.rows| < U32 && (Quiet(files[v.base], v.rows) || Torn(files[v.base], v.rows))
  }

  /** Behind the frames of this segment there is a corrupt frame. */
  ghost predicate Broken(files: Files, v: View)
  {
    Stored(files, v) && |v.rows| < U32 && Corrupt(files[v.base], v.rows)
  }

  /** The directory holds exactly these segments, and the last file goes on with a corrupt frame. */
  ghost predicate Spoiled(files: Files, views: seq<View>)
  {
    && views != [] && Ascending(views)
    && files.Keys == Names(views)
    && (forall i | 0 <= i < |views| - 1 :: Shut(files, views[i]))
    && Broken(files, views[|views| - 1])
  }

  /** The directory holds exactly these segments; the last file may end in a torn frame. */
  ghost predicate Held(files: Files, views: seq<View>)
  {
    && views != [] && Ascending(views)
    && files.Keys == Names(views)
    && (forall i | 0 <= i < |views| - 1 :: Shut(files, views[i]))
    && Open(files, views[|views| - 1])
  }

  /** The directory holds exactly this chain; the last file may end in a torn frame. */
  ghost predicate Loadable(files: Files, views: seq<View>)
  {
    Held(files, views) && Contiguous(views)
  }

  /** The files of all these segments are there and end cleanly. */
  ghost predicate Live(files: Files, views: seq<View>)
  {
    forall i | 0 <= i < |views| :: Shut(files, views[i])
  }

  /** The directory holds exactly this chain, and every file ends cleanly. */
  ghost predicate Tidy(files: Files, views: seq<View>)
  {
    && views != [] && Contiguous(views) && Ascending(views)
    && files.Keys == Names(views)
    && Live(files, views)
  }

  lemma {:induction false} TidyIsLoadable(files: Files, views: seq<View>)
    requires Tidy(files, views)
    ensures Loadable(files, views)
  {
    hide Stored, Quiet, Torn;
  }

  /** Without the oldest files a tidy directory holds the rest of the chain. */
  lemma {:induction false} TidyDrop(files: Files, views: seq<View>, k: nat)
    requires Tidy(files, views) && k < |views|
    ensures Tidy(files - Names(views[..k]), views[k..])
  {
    hide Live;
    assert Contiguous(views[k..]) by { ContiguousParts(views, k, |views|); }
    NamesSplit(views, k);
    LiveDrop(files, views, k);
    assert (files - Names(views[..k])).Keys == Names(views[k..]);
  }

  lemma {:induction false} LiveDrop(files: Files, views: seq<View>, k: nat)
    requires Live(files, views) && Ascending(views) && k < |views|
    ensures Live(files - Names(views[..k]), views[k..])
  {
    hide FileOk, Quiet;
    var rest, gone := views[k..], Names(views[..k]);
    NamesSplit(views, k);
    forall i | 0 <= i < |rest|
      ensures Shut(files - gone, rest[i])
    {
      assert Shut(files, views[k + i]) && rest[i].base in Names(rest);
    }
  }

  lemma {:induction false} NamesSplit(views: seq<View>, k: nat)
    requires Ascending(views) && k <= |views|
    ensures Names(views) == Names(views[..k]) + Names(views[k..])
    ensures Names(views[..k]) !! Names(views[k..])
  {
    forall n | n in Names(views)
      ensures n in Names(views[..k]) + Names(views[k..])
    {
      var i :| 0 <= i < |views| && views[i].base == n;
      if i < k {
        assert views[..k][i].base == n;
      } else {
        assert views[k..][i - k].base == n;
      }
    }
    forall n | n in Names(views[..k])
      ensures n in Names(views) && n !in Names(views[k..])
    {
    }
  }

  lemma {:induction false} NameOf(views: seq<View>, i: nat)
    requires i < |views|
    ensures views[i].base in Names(views)
  {
  }

  lemma {:induction false} NamesOne(v: View)
    ensures Names([v]) == {v.base}
  {
    NameOf([v], 0);
  }

  /** Replacing one file by one that holds a new state of its segment. */
  lemma {:induction false} TidyReplace(files: Files, views: seq<View>, k: nat, file: seq<byte>, v: View)
    requires Tidy(files, views) && k < |views| && v.base == views[k].base
    requires FileOk(file, v) && |v.rows| < U32 && Quiet(file, v.rows) && Contiguous(views[k := v])
    ensures Tidy(files[v.base := file], views[k := v])
  {
    hide FileOk, Quiet, Contiguous, Live;
    NameOf(views, k);
    assert Names(views[k := v]) == Names(views) by { NamesReplace(views, k, v); }
    LiveReplace(files, views, k, file, v);
  }

  lemma {:induction false} LiveReplace(files: Files, views: seq<View>, k: nat, file: seq<byte>, v: View)
    requires Live(files, views) && Ascending(views) && k < |views| && v.base == views[k].base
    requires FileOk(file, v) && |v.rows| < U32 && Quiet(file, v.rows)
    ensures Live(files[v.base := file], views[k := v])
  {
    hide FileOk, Quiet;
    var f, w := files[v.base := file], views[k := v];
    forall i | 0 <= i < |w|
      ensures Shut(f, w[i])
    {
      assert Shut(files, views[i]);
    }
  }

  lemma {:induction false} LiveElsewhere(before: Files, views: seq<View>, name: nat, after: Files)
    requires Live(before, views) && after - {name} == before - {name}
    requires forall i | 0 <= i < |views| :: views[i].base != name
    ensures Live(after, views)
  {
    hide FileOk, Quiet;
    forall i | 0 <= i < |views|
      ensures Shut(after, views[i])
    {
      assert Shut(before, views[i]);
      assert views[i].base in after - {name} && (after - {name})[views[i].base] == (before - {name})[views[i].base];
    }
  }

  lemma {:induction false} NamesReplace(views: seq<View>, k: nat, v: View)
    requires k < |views| && v.base == views[k].base
    ensures Names(views[k := v]) == Names(views)
  {
    var w := views[k := v];
    forall n | n in Names(views)
      ensures n in Names(w)
    {
      var i :| 0 <= i < |views| && views[i].base == n;
      assert w[i].base == n;
    }
    forall n | n in Names(w)
      ensures n in Names(views)
    {
      var i :| 0 <= i < |w| && w[i].base == n;
      assert views[i].base == n;
    }
  }

  /** A new file behind the last one. */
  lemma {:induction false} TidyAdd(files: Files, views: seq<View>, file: seq<byte>, v: View)
    requires Tidy(files, views) && v.base !in files
    requires FileOk(file, v) && |v.rows| < U32 && Quiet(file, v.rows)
    requires Contiguous(views + [v]) && Ascending(views + [v])
    ensures Tidy(files[v.base := file], views + [v])
  {
    hide FileOk, Quiet, Contiguous, Ascending;
    var f, w := files[v.base := file], views + [v];
    NamesPush(views, v);
    forall i | 0 <= i < |w|
      ensures Shut(f, w[i])
    {
      if i < |views| {
        assert Shut(files, views[i]);
      }
    }
  }

  /** Without the newest files a tidy directory holds the front of the chain. */
  lemma {:induction false} TidyTake(files: Files, views: seq<View>, k: nat)
    requires Tidy(files, views) && 0 < k <= |views|
    ensures Tidy(files - Names(views[k..]), views[..k])
  {
    hide FileOk, Quiet;
    var rest, gone := views[..k], Names(views[k..]);
    assert Contiguous(rest) by { ContiguousParts(views, 0, k); }
    NamesSplit(views, k);
    assert (files - gone).Keys == Names(rest);
    forall i | 0 <= i < |rest|
      ensures Shut(files - gone, rest[i])
    {
      assert Shut(files, views[i]) && rest[i].base in Names(rest);
    }
  }

  lemma {:induction false} TidySingle(file: seq<byte>, v: View)
    requires FileOk(file, v) && |v.rows| < U32 && Quiet(file, v.rows) && v.start <= |v.rows|
    ensures Tidy(map[v.base := file], [v])
  {
    hide FileOk, Quiet;
    assert [v][0].base in Names([v]);
  }

  lemma {:induction false} NamesPush(views: seq<View>, v: View)
    ensures Names(views + [v]) == Names(views) + {v.base}
  {
    NamesConcat(views, [v]);
    assert [v][0].base in Names([v]);
  }

  lemma {:induction false} NamesConcat(a: seq<View>, b: seq<View>)
    ensures Names(a + b) == Names(a) + Names(b)
  {
    forall n | n in Names(a + b)
      ensures n in Names(a) + Names(b)
    {
      var i :| 0 <= i < |a + b| && (a + b)[i].base == n;
      assert if i < |a| then a[i].base == n else b[i - |a|].base == n;
    }
    forall n | n in Names(a) + Names(b)
      ensures n in Names(a + b)
    {
      if n in Names(a) {
        var i :| 0 <= i < |a| && a[i].base == n;
        assert (a + b)[i].base == n;
      } else {
        var i :| 0 <= i < |b| && b[i].base == n;
        assert (a + b)[|a| + i].base == n;
      }
    }
  }

  lemma {:induction false} ShutAt(files: Files, views: seq<View>, i: nat)
    requires (Tidy(files, views) || Live(files, views)) && i < |views|
    ensures Shut(files, views[i])
  {
  }
}
