/**
  An append that starts over a frame header left behind the last frame, and is cut short inside it: the
  file then goes on with a mix of the two headers.
*/
module Mixes {
  import opened Bytes
  import opened Errors
  import opened Layout
  import opened Model
  import opened Disks
  import opened Directories
  import opened Retention
  import F = Frames
  import S = Slots

  /** The first `n` bytes of one header and the rest of another. */
  function Mix(before: F.Header, header: F.Header, n: nat): F.Header
    requires n <= F.FRAME_HEADER
  {
    header[..n] + before[n..]
  }

  /** Headers that agree on the index agree with every mix of them. */
  lemma {:induction false} MixIndex(before: F.Header, header: F.Header, n: nat)
    requires n <= F.FRAME_HEADER && F.Index(before) == F.Index(header)
    ensures F.Index(Mix(before, header, n)) == F.Index(header)
  {
    Uint32Injective(before[4..8], header[4..8]);
    var x := Mix(before, header, n);
    assert forall i | 4 <= i < 8 :: before[i] == before[4..8][i - 4] && header[i] == header[4..8][i - 4];
    assert x[4..8] == header[4..8];
  }

  /** What a clean end with bytes behind the last frame looks like. */
  lemma {:induction false} Dangling(file: seq<byte>, rows: seq<Payload>)
    requires |rows| < U32 && Quiet(file, rows) && Offset(rows, |rows|) < |file|
    ensures |file| == Offset(rows, |rows|) + F.FRAME_HEADER
    ensures var h := file[Offset(rows, |rows|)..]; F.Index(h) == |rows| && F.PayloadLength(h) > 0
  {
    hide Offset;
    var at := Offset(rows, |rows|);
    assert file[at..at + F.FRAME_HEADER] == file[at..];
  }

  /** A lone frame header behind the last frame, by its length field and its checksum. */
  lemma {:induction false} LoneHeader(file: seq<byte>, rows: seq<Payload>, h: F.Header)
    requires |rows| < U32 && |file| == Offset(rows, |rows|) + F.FRAME_HEADER && file[Offset(rows, |rows|)..] == h
    requires F.Index(h) == |rows|
    ensures F.PayloadLength(h) > 0 ==> Quiet(file, rows)
    ensures F.PayloadLength(h) == 0 && F.Validate(h, []).None? ==> F.FrameAt(file, |rows|, Offset(rows, |rows|), [])
    ensures F.PayloadLength(h) == 0 && F.Validate(h, []).Some? ==> Corrupt(file, rows)
  {
    hide Offset, F.Index, F.PayloadLength;
    var at := Offset(rows, |rows|);
    assert file[at..at + F.FRAME_HEADER] == h;
  }

  /** The bytes of a batch begin with the header of its first frame. */
  lemma {:induction false} BatchBegins(index: nat, batch: seq<Payload>)
    requires batch != [] && index + |batch| <= U32
    ensures |EncodeAll(index, batch)| >= F.FRAME_HEADER
    ensures EncodeAll(index, batch)[..F.FRAME_HEADER] == F.NewHeader(index, batch[0])
  {
    hide EncodeAll, BatchSize, F.NewHeader;
    NextInBatch(index, batch, 0);
    assert batch[..0] == [] && BatchSize([]) == 0 by { EncodeNothing(0); }
    var e := F.Encode(index, batch[0]);
    assert EncodeAll(index, batch)[..F.FRAME_HEADER] == e[..F.FRAME_HEADER];
  }

  /** The file after `n` bytes of an append were written over a lone header. */
  lemma {:induction false} MixedBytes(file: seq<byte>, at: nat, data: seq<byte>, header: F.Header, n: nat)
    requires |file| == at + F.FRAME_HEADER && n < F.FRAME_HEADER <= |data| && data[..F.FRAME_HEADER] == header
    ensures var g := Overwrite(file, at, data[..n]);
            |g| == |file| && g[..at] == file[..at] && g[at..] == Mix(file[at..], header, n)
  {
    var g := Overwrite(file, at, data[..n]);
    assert data[..n] == header[..n];
    assert g[..at] == file[..at];
    assert g[at..] == header[..n] + file[at + n..];
    assert file[at..][n..] == file[at + n..];
  }

  /** A batch cut after `n` bytes, inside the header that was there before. */
  ghost predicate Mixed(files: Files, v: View, batch: seq<Payload>, n: nat, after: Files)
  {
    && v.base in files && |files[v.base]| == v.Size() + F.FRAME_HEADER && 0 < n < F.FRAME_HEADER
    && batch != [] && |v.rows| + |batch| < U32
    && after == files[v.base := Overwrite(files[v.base], v.Size(), EncodeAll(|v.rows|, batch)[..n])]
  }

  /** The header that such a file goes on with. */
  function MixedHeader(files: Files, v: View, batch: seq<Payload>, n: nat): F.Header
    requires v.base in files && |files[v.base]| == v.Size() + F.FRAME_HEADER && n <= F.FRAME_HEADER
    requires batch != [] && |v.rows| < U32
  {
    Mix(files[v.base][v.Size()..], F.NewHeader(|v.rows|, batch[0]), n)
  }

  /** The file of such a directory holds the old frames, and the mixed header decides what follows. */
  lemma {:induction false} MixedFile(files: Files, v: View, batch: seq<Payload>, n: nat, after: Files)
    requires Mixed(files, v, batch, n, after) && FileOk(files[v.base], v) && Quiet(files[v.base], v.rows)
    requires v.(rows := v.rows + [[]]).Fits()
    ensures var g, x := after[v.base], MixedHeader(files, v, batch, n);
            && FileOk(g, v)
            && (F.PayloadLength(x) > 0 ==> Quiet(g, v.rows))
            && (F.PayloadLength(x) == 0 && F.Validate(x, []).None? ==>
                  FileOk(g, v.(rows := v.rows + [[]])) && Quiet(g, v.rows + [[]]))
            && (F.PayloadLength(x) == 0 && F.Validate(x, []).Some? ==> Corrupt(g, v.rows))
  {
    hide HeaderOk, Offset, EncodeAll, F.NewHeader, Quiet, Corrupt, Overwrite, F.FrameAt, Mix, F.PayloadLength, F.Validate;
    var file, g, x := files[v.base], after[v.base], MixedHeader(files, v, batch, n);
    Dangling(file, v.rows);
    BatchBegins(|v.rows|, batch);
    MixedBytes(file, v.Size(), EncodeAll(|v.rows|, batch), F.NewHeader(|v.rows|, batch[0]), n);
    F.NewHeaderFields(|v.rows|, batch[0]);
    MixIndex(file[v.Size()..], F.NewHeader(|v.rows|, batch[0]), n);
    FileAgrees(file, g, v);
    LoneHeader(g, v.rows, x);
    if F.PayloadLength(x) == 0 && F.Validate(x, []).None? {
      HoldsFrame(g, v.rows, []);
      OffsetPushed(v.rows, []);
      HeaderOfPrefix(g[..S.SEGMENT_HEADER], v, v.rows + [[]]);
      QuietAtEnd(g, v.rows + [[]]);
    }
  }

  /** What a directory with such a file can be loaded as, if at all. */
  lemma {:induction false} MixedLoads(files: Files, views: seq<View>, batch: seq<Payload>, n: nat, after: Files)
    requires views != [] && Contiguous(views) && Tidy(files, views) && Mixed(files, Last(views), batch, n, after)
    requires Last(views).(rows := Last(views).rows + [[]]).Fits()
    ensures var x := MixedHeader(files, Last(views), batch, n);
            && (F.PayloadLength(x) > 0 ==> Tidy(after, views))
            && (F.PayloadLength(x) == 0 && F.Validate(x, []).None? ==> Tidy(after, Grown(views, [[]])))
            && (F.PayloadLength(x) == 0 && F.Validate(x, []).Some? ==> Spoiled(after, views))
  {
    hide FileOk, Quiet, Corrupt, Contiguous, View.Fits, Names, Offset, EncodeAll, Overwrite, F.PayloadLength, F.Validate;
    var v, k := Last(views), |views| - 1;
    var w, x := v.(rows := v.rows + [[]]), MixedHeader(files, v, batch, n);
    ShutAt(files, views, k);
    MixedFile(files, v, batch, n, after);
    AbsGrown(views, [[]]);
    assert Grown(views, [[]]) == views[k := w] && views[k := v] == views;
    if F.PayloadLength(x) > 0 {
      TidyReplace(files, views, k, after[v.base], v);
    } else if F.Validate(x, []).None? {
      TidyReplace(files, views, k, after[v.base], w);
    } else {
      SpoiledTail(files, views, after);
    }
  }

  lemma {:induction false} SpoiledTail(files: Files, views: seq<View>, after: Files)
    requires views != [] && Tidy(files, views) && Broken(after, Last(views))
    requires after == files[Last(views).base := after[Last(views).base]]
    ensures Spoiled(after, views)
  {
    hide FileOk, Quiet, Corrupt, Contiguous;
    NameOf(views, |views| - 1);
    forall i | 0 <= i < |views| - 1
      ensures Shut(after, views[i])
    {
      ShutAt(files, views, i);
    }
  }

  /** The mixed header promises an empty payload, and does not pass its checksum. */
  ghost predicate Spoils(files: Files, v: View, batch: seq<Payload>, after: Files)
  {
    exists n: nat :: SpoilsAt(files, v, batch, n, after)
  }

  ghost predicate SpoilsAt(files: Files, v: View, batch: seq<Payload>, n: nat, after: Files)
  {
    && Mixed(files, v, batch, n, after)
    && var x := MixedHeader(files, v, batch, n);
       F.PayloadLength(x) == 0 && F.Validate(x, []).Some?
  }

  /** The mixed header passes for a frame with an empty payload by accident: it is not the new header. */
  ghost predicate Haunts(files: Files, v: View, batch: seq<Payload>, after: Files)
  {
    exists n: nat :: HauntsAt(files, v, batch, n, after)
  }

  ghost predicate HauntsAt(files: Files, v: View, batch: seq<Payload>, n: nat, after: Files)
  {
    && Mixed(files, v, batch, n, after)
    && var x := MixedHeader(files, v, batch, n);
       && F.PayloadLength(x) == 0 && F.Validate(x, []).None?
       && x != F.NewHeader(|v.rows|, batch[0])
  }

  /** Only an empty payload is announced by a length field of zero. */
  lemma {:induction false} EmptyFrame(index: uint32, payload: Payload)
    requires |payload| < U32 && F.PayloadLength(F.NewHeader(index, payload)) == 0
    ensures payload == []
  {
    hide F.NewHeader;
    F.NewHeaderFields(index, payload);
  }

  /**
    An empty payload appended over the header of a longer one, and cut after eight bytes: the length field is
    the new one and the checksum the old one.
  */
  lemma {:induction false} EightBytes(index: uint32, longer: Payload)
    requires 0 < |longer| < U32
    requires F.StoredCrc(F.NewHeader(index, longer)) != F.StoredCrc(F.NewHeader(index, []))
    ensures var x := Mix(F.NewHeader(index, longer), F.NewHeader(index, []), 8);
            F.PayloadLength(x) == 0 && F.Validate(x, []) == Some(InvalidChecksum)
  {
    hide F.StoredCrc;
    var h, e := F.NewHeader(index, longer), F.NewHeader(index, []);
    var x := Mix(h, e, 8);
    F.NewHeaderFields(index, []);
    assert x[..4] == e[..4] && x[12..] == h[12..];
    assert h[8..12] == Zeroes(4) && e[8..12] == Zeroes(4);
    assert x[..12] == e[..8] + h[8..12] && e[..12] == e[..8] + e[8..12];
    SameCrc(x, h);
  }

  lemma {:induction false} SameCrc(a: F.Header, b: F.Header)
    requires a[12..] == b[12..]
    ensures F.StoredCrc(a) == F.StoredCrc(b)
  {
  }

  /** A log in this state, appended to and cut like this, cannot be loaded. */
  lemma {:induction false} EightBytesSpoil(files: Files, views: seq<View>, longer: Payload)
    requires views != [] && Contiguous(views) && Tidy(files, views) && |Last(views).rows| + 1 < U32
    requires Last(views).base in files && Last(views).Size() <= |files[Last(views).base]|
    requires files[Last(views).base][Last(views).Size()..] == F.NewHeader(|Last(views).rows|, longer) && 0 < |longer| < U32
    requires var i := |Last(views).rows|; F.StoredCrc(F.NewHeader(i, longer)) != F.StoredCrc(F.NewHeader(i, []))
    requires Last(views).(rows := Last(views).rows + [[]]).Fits()
    ensures var v := Last(views);
            Spoiled(files[v.base := Overwrite(files[v.base], v.Size(), EncodeAll(|v.rows|, [[]])[..8])], views)
  {
    hide Tidy, Contiguous, View.Fits, Offset, EncodeAll, Overwrite, F.NewHeader, F.PayloadLength, F.Validate, F.StoredCrc;
    var v := Last(views);
    BatchBegins(|v.rows|, [[]]);
    EightBytes(|v.rows|, longer);
    MixedLoads(files, views, [[]], 8, files[v.base := Overwrite(files[v.base], v.Size(), EncodeAll(|v.rows|, [[]])[..8])]);
  }
}
