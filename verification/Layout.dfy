/** Where the frames of a segment lie in its file, and what a file that holds them looks like. */
module Layout {
  import opened Bytes
  import opened Errors
  import F = Frames
  import S = Slots

  /** One segment: the sequence of its first frame, every frame it stores, and how many are hidden. */
  datatype View = View(base: nat, rows: seq<Payload>, start: nat) {
    function First(): nat { base + start }
    function Next(): nat { base + |rows| }
    function Size(): nat { Offset(rows, |rows|) }
    function Readable(): seq<Payload> { if start <= |rows| then rows[start..] else [] }

    /** The machine widths the format is built on are respected. */
    ghost predicate Fits()
    {
      && start <= |rows| < U32
      && Next() < U64
      && Size() <= MAX_INT64
      && forall i | 0 <= i < |rows| :: |rows[i]| < U32
    }
  }

  /** The byte offset of frame `i`, by adding up the frames before it. */
  function Offset(rows: seq<Payload>, i: nat): nat
    requires i <= |rows|
  {
    if i == 0 then S.SEGMENT_HEADER else Offset(rows, i - 1) + F.FRAME_HEADER + |rows[i - 1]|
  }

  function BatchSize(batch: seq<Payload>): nat
  {
    if batch == [] then 0 else BatchSize(batch[..|batch| - 1]) + F.FRAME_HEADER + |batch[|batch| - 1]|
  }

  /** Every payload has a length that a frame can state. */
  predicate Framable(batch: seq<Payload>)
  {
    forall i | 0 <= i < |batch| :: |batch[i]| < U32
  }

  /** The bytes of a batch whose first frame has index `index`; frame indexes wrap as uint32. */
  function EncodeAll(index: nat, batch: seq<Payload>): seq<byte>
  {
    if batch == [] then []
    else EncodeAll(index, batch[..|batch| - 1]) + F.Encode((index + |batch| - 1) % U32, batch[|batch| - 1])
  }

  lemma {:induction false} EncodeNothing(index: nat)
    ensures EncodeAll(index, []) == [] && BatchSize([]) == 0
  {
  }

  // Offsets

  lemma {:induction false} OffsetLowerBound(rows: seq<Payload>, i: nat, j: nat)
    requires i <= j <= |rows|
    ensures Offset(rows, i) + 16 * (j - i) <= Offset(rows, j)
    decreases j
  {
    if i < j {
      OffsetLowerBound(rows, i, j - 1);
    }
  }

  lemma {:induction false} OffsetPrefix(rows: seq<Payload>, other: seq<Payload>, i: nat)
    requires i <= |rows| && i <= |other| && rows[..i] == other[..i]
    ensures Offset(rows, i) == Offset(other, i)
  {
    if i > 0 {
      assert rows[..i - 1] == rows[..i][..i - 1] == other[..i - 1];
      assert rows[i - 1] == rows[..i][i - 1] == other[i - 1];
      OffsetPrefix(rows, other, i - 1);
    }
  }

  lemma {:induction false} OffsetAppend(rows: seq<Payload>, batch: seq<Payload>)
    ensures Offset(rows + batch, |rows| + |batch|) == Offset(rows, |rows|) + BatchSize(batch)
  {
    if batch == [] {
      assert rows + batch == rows;
    } else {
      var init := batch[..|batch| - 1];
      OffsetAppend(rows, init);
      OffsetPrefix(rows + batch, rows + init, |rows| + |init|);
    }
  }

  lemma {:induction false} EncodeAllLength(index: nat, batch: seq<Payload>)
    ensures |EncodeAll(index, batch)| == BatchSize(batch)
  {
    if batch != [] {
      EncodeAllLength(index, batch[..|batch| - 1]);
    }
  }

  // Files

  /** Every frame of `rows` can be read at its linear offset. */
  ghost predicate Holds(file: seq<byte>, rows: seq<Payload>)
  {
    && Offset(rows, |rows|) <= |file|
    && forall i | 0 <= i < |rows| :: F.FrameAt(file, i, Offset(rows, i), rows[i])
  }

  /** What a reader standing behind the last frame sees: a clean end, or a frame that was cut short. */
  function End(file: seq<byte>, rows: seq<Payload>): Result<F.Frame>
    requires |rows| < U32
  {
    F.Read(file, F.NO_LIMIT, |rows|, Offset(rows, |rows|))
  }

  ghost predicate Quiet(file: seq<byte>, rows: seq<Payload>)
    requires |rows| < U32
  {
    End(file, rows) == Err(Eof)
  }

  ghost predicate Torn(file: seq<byte>, rows: seq<Payload>)
    requires |rows| < U32
  {
    End(file, rows) == Err(UnexpectedEof)
  }

  /** Behind the last frame lies a whole frame that does not pass its checksum. */
  ghost predicate Corrupt(file: seq<byte>, rows: seq<Payload>)
    requires |rows| < U32
  {
    End(file, rows).Ok? && F.Validate(End(file, rows).value.header, End(file, rows).value.payload) == Some(InvalidChecksum)
  }

  /** Behind the last frame lies another one. */
  ghost predicate Continues(file: seq<byte>, rows: seq<Payload>)
    requires |rows| < U32
  {
    End(file, rows).Ok? && F.Validate(End(file, rows).value.header, End(file, rows).value.payload).None?
  }

  /** The 32-bit number at a position, most significant byte first. */
  function Word(file: seq<byte>, at: nat): nat
    requires at + 4 <= |file|
  {
    file[at] as int * 0x100_0000 + file[at + 1] as int * 0x1_0000 + file[at + 2] as int * 0x100 + file[at + 3] as int
  }

  /** What the bytes behind the frames of a segment are. */
  datatype Tail = CleanEnd | TornFrame | Misnumbered | BadChecksum | NextFrame

  /**
    What lies at byte `n`, where frame `k` should begin: nothing; fewer bytes than a frame header, or than the frame
    whose header is there, except that a header alone passes for nothing; or the header of another frame; or a frame
    with a wrong checksum; or the right frame.
  */
  function TailOf(file: seq<byte>, n: nat, k: nat): Tail
    requires n <= |file|
  {
    if |file| == n then CleanEnd
    else if |file| < n + 16 then TornFrame
    else if Word(file, n + 4) != k then Misnumbered
    else
      var end := n + 16 + Word(file, n);
      if |file| < end then (if |file| == n + 16 then CleanEnd else TornFrame)
      else if Word(file, n + 12) != Crc32c(file[n..n + 12] + file[n + 16..end]) then BadChecksum
      else NextFrame
  }

  lemma {:induction false} WordReads(file: seq<byte>, at: nat)
    requires at + 4 <= |file|
    ensures Word(file, at) == Uint32(file[at..at + 4])
  {
    var s := file[at..at + 4];
    assert s[..2] == [file[at], file[at + 1]] && s[2..] == [file[at + 2], file[at + 3]];
  }

  lemma {:induction false} HeaderWords(file: seq<byte>, n: nat)
    requires n + 16 <= |file|
    ensures var h: F.Header := file[n..n + 16];
            && F.PayloadLength(h) == Word(file, n) && F.Index(h) == Word(file, n + 4)
            && F.StoredCrc(h) == Word(file, n + 12) && h[..12] == file[n..n + 12]
  {
    hide Word, Uint32;
    var h := file[n..n + 16];
    WordReads(file, n);
    WordReads(file, n + 4);
    WordReads(file, n + 12);
    assert h[..4] == file[n..n + 4] && h[4..8] == file[n + 4..n + 8] && h[12..] == file[n + 12..n + 16];
  }

  /** What a reader makes of the bytes behind the last frame, in every case. */
  lemma {:induction false} TailReads(file: seq<byte>, rows: seq<Payload>)
    requires |rows| < U32 && Offset(rows, |rows|) <= |file|
    ensures match TailOf(file, Offset(rows, |rows|), |rows|)
            case CleanEnd => Quiet(file, rows)
            case TornFrame => Torn(file, rows)
            case Misnumbered => End(file, rows) == Err(InvalidFrameIndex)
            case BadChecksum => Corrupt(file, rows)
            case NextFrame => Continues(file, rows)
  {
    hide Word, Offset, F.PayloadLength, F.Index, F.StoredCrc;
    var n := Offset(rows, |rows|);
    if n + 16 <= |file| { HeaderWords(file, n); }
  }

  /** The slot that a file's header stands for. */
  function MetaOf(file: seq<byte>): S.MetaSlot
    requires |file| >= S.SEGMENT_HEADER
  {
    match S.Meta(file[..S.SEGMENT_HEADER])
    case Ok(m) => m
    case Err(_) => Zeroes(16)
  }

  /** The header of a file stands for this view. */
  ghost predicate HeaderOk(h: S.Header, v: View)
    requires v.start <= |v.rows|
  {
    && S.HeaderValid(h)
    && S.StartSequence(h) == v.base
    && S.Sound(h)
    && S.Start(S.Meta(h).value) == Offset(v.rows, v.start)
  }

  ghost predicate FileOk(file: seq<byte>, v: View)
  {
    && v.Fits()
    && |file| >= S.SEGMENT_HEADER
    && HeaderOk(file[..S.SEGMENT_HEADER], v)
    && Holds(file, v.rows)
  }

  /** Frames survive any change of the file outside the bytes they occupy. */
  lemma {:induction false} HoldsAgree(file: seq<byte>, other: seq<byte>, rows: seq<Payload>, n: nat)
    requires Holds(file, rows) && n <= |rows| && Offset(rows, n) <= |other|
    requires S.SEGMENT_HEADER <= Offset(rows, n) <= |file|
    requires file[S.SEGMENT_HEADER..Offset(rows, n)] == other[S.SEGMENT_HEADER..Offset(rows, n)]
    ensures Holds(other, rows[..n])
  {
    hide F.FrameAt, Offset;
    OffsetPrefix(rows, rows[..n], n);
    forall i | 0 <= i < n
      ensures F.FrameAt(other, i, Offset(rows[..n], i), rows[..n][i])
    {
      FrameAgrees(file, other, rows, n, i);
    }
  }

  lemma {:induction false} SliceAgrees<T>(a: seq<T>, b: seq<T>, from: nat, lo: nat, hi: nat, to: nat)
    requires from <= lo <= hi <= to <= |a| && to <= |b|
    requires a[from..to] == b[from..to]
    ensures a[lo..hi] == b[lo..hi]
  {
    forall k | lo <= k < hi
      ensures a[k] == b[k]
    {
      assert a[from..to][k - from] == b[from..to][k - from];
    }
  }

  /** Frame `i` lies between the header and the end, and ends where frame `i + 1` begins. */
  lemma {:induction false} FrameSpan(rows: seq<Payload>, i: nat, n: nat)
    requires i < n <= |rows|
    ensures S.SEGMENT_HEADER <= Offset(rows, i)
    ensures Offset(rows, i) + F.FRAME_HEADER + |rows[i]| <= Offset(rows, n)
  {
    OffsetLowerBound(rows, 0, i);
    OffsetLowerBound(rows, i + 1, n);
  }

  lemma {:induction false} FrameAgrees(file: seq<byte>, other: seq<byte>, rows: seq<Payload>, n: nat, i: nat)
    requires i < n <= |rows| && F.FrameAt(file, i, Offset(rows, i), rows[i])
    requires S.SEGMENT_HEADER <= Offset(rows, n) <= |other| && Offset(rows, n) <= |file|
    requires file[S.SEGMENT_HEADER..Offset(rows, n)] == other[S.SEGMENT_HEADER..Offset(rows, n)]
    ensures F.FrameAt(other, i, Offset(rows[..n], i), rows[..n][i])
  {
    hide F.FrameAt, Offset;
    var lo := Offset(rows, i);
    FrameSpan(rows, i, n);
    SliceAgrees(file, other, S.SEGMENT_HEADER, lo, lo + F.FRAME_HEADER + |rows[i]|, Offset(rows, n));
    F.FrameIsLocal(file, other, i, lo, rows[i]);
    OffsetPrefix(rows, rows[..n], i);
  }

  lemma {:induction false} HoldsPush(file: seq<byte>, rows: seq<Payload>, p: Payload)
    requires Holds(file, rows) && |rows| < U32 && |p| < U32
    requires Offset(rows, |rows|) + F.FRAME_HEADER + |p| <= |file|
    requires file[Offset(rows, |rows|)..Offset(rows, |rows|) + F.FRAME_HEADER + |p|] == F.Encode(|rows|, p)
    ensures Holds(file, rows + [p])
  {
    hide F.FrameAt, F.Encode, Offset, Holds;
    F.EncodedFrameReads(file, |rows|, Offset(rows, |rows|), p);
    HoldsFrame(file, rows, p);
  }

  lemma {:induction false} HoldsFrame(file: seq<byte>, rows: seq<Payload>, p: Payload)
    requires Holds(file, rows) && F.FrameAt(file, |rows|, Offset(rows, |rows|), p)
    requires Offset(rows, |rows|) + F.FRAME_HEADER + |p| <= |file|
    ensures Holds(file, rows + [p])
  {
    hide F.FrameAt, Offset;
    var all := rows + [p];
    OffsetPushed(rows, p);
    forall i | 0 <= i < |all|
      ensures F.FrameAt(file, i, Offset(all, i), all[i])
    {
      OffsetPrefix(all, rows, i);
    }
  }

  lemma {:induction false} OffsetPushed(rows: seq<Payload>, p: Payload)
    ensures Offset(rows + [p], |rows| + 1) == Offset(rows, |rows|) + F.FRAME_HEADER + |p|
  {
    OffsetPrefix(rows + [p], rows, |rows|);
  }

  /** Frames written behind the last one are held too. */
  lemma {:induction false} HoldsBatch(file: seq<byte>, rows: seq<Payload>, batch: seq<Payload>)
    requires Holds(file, rows)
    requires |rows| + |batch| < U32
    requires forall i | 0 <= i < |batch| :: |batch[i]| < U32
    requires Offset(rows, |rows|) + BatchSize(batch) <= |file|
    requires file[Offset(rows, |rows|)..Offset(rows, |rows|) + BatchSize(batch)] == EncodeAll(|rows|, batch)
    ensures Holds(file, rows + batch)
  {
    hide F.FrameAt, F.Encode, Offset, Holds, EncodeAll;
    if batch == [] {
      assert rows + batch == rows;
    } else {
      var init, p := batch[..|batch| - 1], batch[|batch| - 1];
      SliceOfBatch(file, Offset(rows, |rows|), |rows|, batch);
      HoldsBatch(file, rows, init);
      OffsetAppend(rows, init);
      HoldsPush(file, rows + init, p);
      assert rows + batch == rows + init + [p];
    }
  }

  lemma {:induction false} SliceOfBatch(file: seq<byte>, at: nat, index: nat, batch: seq<Payload>)
    requires batch != [] && index + |batch| < U32
    requires at + BatchSize(batch) <= |file|
    requires file[at..at + BatchSize(batch)] == EncodeAll(index, batch)
    ensures var init, p := batch[..|batch| - 1], batch[|batch| - 1];
            && file[at..at + BatchSize(init)] == EncodeAll(index, init)
            && file[at + BatchSize(init)..at + BatchSize(batch)] == F.Encode(index + |init|, p)
  {
    hide F.Encode, EncodeAll, BatchSize;
    var init := batch[..|batch| - 1];
    EncodeAllStep(index, batch);
    SplitSlice(file, at, at + BatchSize(init), at + BatchSize(batch));
  }

  lemma {:induction false} EncodeAllStep(index: nat, batch: seq<Payload>)
    requires batch != [] && index + |batch| <= U32
    ensures var init, p := batch[..|batch| - 1], batch[|batch| - 1];
            && BatchSize(batch) == BatchSize(init) + F.FRAME_HEADER + |p| == |EncodeAll(index, batch)|
            && EncodeAll(index, batch)[..BatchSize(init)] == EncodeAll(index, init)
            && EncodeAll(index, batch)[BatchSize(init)..] == F.Encode(index + |init|, p)
  {
    hide F.Encode;
    EncodeAllLength(index, batch[..|batch| - 1]);
    EncodeAllLength(index, batch);
  }

  lemma {:induction false} SplitSlice(s: seq<byte>, at: nat, mid: nat, end: nat)
    requires at <= mid <= end <= |s|
    ensures s[at..end][..mid - at] == s[at..mid] && s[at..end][mid - at..] == s[mid..end]
  {
  }

  // Changes to a file

  function Overwrite(file: seq<byte>, at: nat, data: seq<byte>): seq<byte>
    requires at <= |file|
  {
    file[..at] + data + if at + |data| <= |file| then file[at + |data|..] else []
  }

  lemma {:induction false} OverwriteSlices(file: seq<byte>, at: nat, data: seq<byte>)
    requires at <= |file|
    ensures var g := Overwrite(file, at, data);
            && |g| == (if at + |data| <= |file| then |file| else at + |data|)
            && g[..at] == file[..at]
            && g[at..at + |data|] == data
            && (at + |data| <= |file| ==> g[at + |data|..] == file[at + |data|..])
  {
    var g := Overwrite(file, at, data);
    assert g[..at] == file[..at];
    assert g[at..at + |data|] == data;
    if at + |data| <= |file| {
      assert g[at + |data|..] == file[at + |data|..];
    }
  }

  /** A file that agrees up to the end of the last frame holds the same segment. */
  lemma {:induction false} FileAgrees(file: seq<byte>, other: seq<byte>, v: View)
    requires FileOk(file, v)
    requires v.Size() <= |other| && v.Size() <= |file| && other[..v.Size()] == file[..v.Size()]
    ensures FileOk(other, v)
  {
    hide HeaderOk, Offset, F.FrameAt;
    OffsetLowerBound(v.rows, 0, |v.rows|);
    assert Offset(v.rows, 0) == 64 by { OffsetAtZero(v.rows); }
    SliceAgrees(file, other, 0, 0, 64, v.Size());
    SliceAgrees(file, other, 0, 64, v.Size(), v.Size());
    HoldsAgree(file, other, v.rows, |v.rows|);
    assert v.rows[..|v.rows|] == v.rows;
  }

  lemma {:induction false} OffsetAtZero(rows: seq<Payload>)
    ensures Offset(rows, 0) == 64
  {
  }

  lemma {:induction false} QuietAtEnd(file: seq<byte>, rows: seq<Payload>)
    requires |rows| < U32 && |file| == Offset(rows, |rows|)
    ensures Quiet(file, rows)
  {
  }

  /** A clean end leaves at most one frame header dangling behind the last frame. */
  lemma {:induction false} QuietIsShort(file: seq<byte>, rows: seq<Payload>)
    requires |rows| < U32 && Quiet(file, rows)
    ensures |file| <= Offset(rows, |rows|) + F.FRAME_HEADER
  {
  }

  /** Cutting the file at a frame boundary keeps exactly the frames before it. */
  lemma {:induction false} FileChop(file: seq<byte>, v: View, n: nat)
    requires FileOk(file, v) && v.start <= n <= |v.rows|
    ensures Offset(v.rows, n) <= |file|
    ensures var w := v.(rows := v.rows[..n]);
            && w.Size() == Offset(v.rows, n)
            && FileOk(file[..Offset(v.rows, n)], w)
            && Quiet(file[..Offset(v.rows, n)], w.rows)
  {
    hide HeaderOk, Offset, F.FrameAt, F.Read;
    var end := Offset(v.rows, n);
    OffsetLowerBound(v.rows, n, |v.rows|);
    OffsetLowerBound(v.rows, 0, n);
    OffsetAtZero(v.rows);
    OffsetPrefix(v.rows, v.rows[..n], n);
    var cut := file[..end];
    SliceAgrees(file, cut, 0, 64, end, end);
    HoldsAgree(file, cut, v.rows, n);
    assert cut[..64] == file[..64];
    HeaderOfPrefix(file[..64], v, v.rows[..n]);
    QuietAtEnd(cut, v.rows[..n]);
  }

  lemma {:induction false} HeaderOfPrefix(h: S.Header, v: View, rows: seq<Payload>)
    requires v.start <= |v.rows| && v.start <= |rows| && rows[..v.start] == v.rows[..v.start]
    requires HeaderOk(h, v)
    ensures HeaderOk(h, v.(rows := rows))
  {
    OffsetPrefix(v.rows, rows, v.start);
  }

  /** Writing an encoded batch behind the last frame appends its payloads. */
  lemma {:induction false} FileAppend(file: seq<byte>, v: View, batch: seq<Payload>)
    requires FileOk(file, v) && v.Size() <= |file|
    requires v.(rows := v.rows + batch).Fits()
    ensures var g := Overwrite(file, v.Size(), EncodeAll(|v.rows|, batch));
            FileOk(g, v.(rows := v.rows + batch))
  {
    hide HeaderOk, Offset, F.FrameAt, EncodeAll, Overwrite;
    var w := v.(rows := v.rows + batch);
    var g := Overwrite(file, v.Size(), EncodeAll(|v.rows|, batch));
    OverwriteSlices(file, v.Size(), EncodeAll(|v.rows|, batch));
    EncodeAllLength(|v.rows|, batch);
    FileAgrees(file, g, v);
    forall i | 0 <= i < |batch|
      ensures |batch[i]| < U32
    {
      assert batch[i] == w.rows[|v.rows| + i];
    }
    HoldsBatch(g, v.rows, batch);
    HeaderOfPrefix(g[..64], v, w.rows);
  }

  /** A file with a clean end, once appended to, ends exactly behind its last frame. */
  lemma {:induction false} AppendEnds(file: seq<byte>, v: View, batch: seq<Payload>)
    requires FileOk(file, v) && v.Size() <= |file| && Quiet(file, v.rows) && batch != []
    ensures |Overwrite(file, v.Size(), EncodeAll(|v.rows|, batch))| == v.(rows := v.rows + batch).Size()
  {
    hide Quiet, Offset, EncodeAll, Holds, HeaderOk, Overwrite;
    QuietIsShort(file, v.rows);
    OffsetAppend(v.rows, batch);
    EncodeAllLength(|v.rows|, batch);
    OverwriteSlices(file, v.Size(), EncodeAll(|v.rows|, batch));
  }

  // Torn tails

  /** How many frames of a batch lie wholly within its first `n` bytes. */
  function WholeFrames(batch: seq<Payload>, n: nat): (j: nat)
    ensures j <= |batch| && BatchSize(batch[..j]) <= n
    ensures j < |batch| ==> n < BatchSize(batch[..j + 1])
  {
    if BatchSize(batch) <= n then
      assert batch[..|batch|] == batch;
      |batch|
    else
      var init := batch[..|batch| - 1];
      var j := WholeFrames(init, n);
      assert init[..j] == batch[..j];
      assert j < |init| ==> init[..j + 1] == batch[..j + 1];
      assert j == |init| ==> batch[..j + 1] == batch;
      j
  }

  lemma {:induction false} EncodeAllPrefix(index: nat, batch: seq<Payload>, k: nat)
    requires k <= |batch|
    ensures BatchSize(batch[..k]) <= BatchSize(batch) == |EncodeAll(index, batch)|
    ensures EncodeAll(index, batch)[..BatchSize(batch[..k])] == EncodeAll(index, batch[..k])
  {
    hide F.Encode;
    EncodeAllLength(index, batch);
    if k == |batch| {
      assert batch[..k] == batch;
    } else {
      var init := batch[..|batch| - 1];
      EncodeAllPrefix(index, init, k);
      assert init[..k] == batch[..k];
      EncodeAllLength(index, init);
    }
  }

  /** The bytes of the frame after the first `k` frames of a batch. */
  lemma {:induction false} NextInBatch(index: nat, batch: seq<Payload>, k: nat)
    requires k < |batch| && index + |batch| <= U32
    ensures BatchSize(batch[..k + 1]) == BatchSize(batch[..k]) + F.FRAME_HEADER + |batch[k]|
    ensures BatchSize(batch[..k + 1]) <= |EncodeAll(index, batch)|
    ensures EncodeAll(index, batch)[BatchSize(batch[..k])..BatchSize(batch[..k + 1])]
         == F.Encode(index + k, batch[k])
  {
    hide F.Encode, EncodeAll, BatchSize;
    var one, e := batch[..k + 1], EncodeAll(index, batch);
    assert one[..k] == batch[..k];
    EncodeAllPrefix(index, batch, k + 1);
    EncodeAllStep(index, one);
    SplitSlice(e, 0, BatchSize(batch[..k]), BatchSize(one));
    assert e[0..BatchSize(one)] == e[..BatchSize(one)];
  }

  /** `file` is frames followed by the first `n` bytes of an encoded batch. */
  ghost predicate CutBatch(file: seq<byte>, rows: seq<Payload>, batch: seq<Payload>, n: nat)
  {
    && Holds(file, rows)
    && |rows| + |batch| < U32
    && (forall i | 0 <= i < |batch| :: |batch[i]| < U32)
    && n <= |EncodeAll(|rows|, batch)|
    && file[Offset(rows, |rows|)..] == EncodeAll(|rows|, batch)[..n]
  }

  lemma {:induction false} WholeFramesHeld(file: seq<byte>, rows: seq<Payload>, batch: seq<Payload>, n: nat)
    requires CutBatch(file, rows, batch, n)
    ensures var done := batch[..WholeFrames(batch, n)];
            && Holds(file, rows + done)
            && |file| == Offset(rows, |rows|) + n
            && Offset(rows + done, |rows + done|) == Offset(rows, |rows|) + BatchSize(done)
  {
    hide F.FrameAt, F.Encode, EncodeAll, Offset, WholeFrames;
    var at, done := Offset(rows, |rows|), batch[..WholeFrames(batch, n)];
    EncodeAllPrefix(|rows|, batch, |done|);
    WholePart(file, at, EncodeAll(|rows|, batch), n, BatchSize(done));
    HoldsBatch(file, rows, done);
    OffsetAppend(rows, done);
  }

  /**
    Frames followed by any byte prefix of an encoded batch read as the frames and the whole frames of
    that prefix; behind them the reader sees a clean end or a frame cut short, and nothing else.
  */
  lemma {:induction false} TornTail(file: seq<byte>, rows: seq<Payload>, batch: seq<Payload>, n: nat)
    requires CutBatch(file, rows, batch, n)
    ensures var done := batch[..WholeFrames(batch, n)];
            && Holds(file, rows + done)
            && End(file, rows + done) == Err(F.TornError(n - BatchSize(done)))
  {
    hide F.FrameAt, F.Encode, F.Read, EncodeAll, Offset, Holds, WholeFrames;
    WholeFramesHeld(file, rows, batch, n);
    var j, at := WholeFrames(batch, n), Offset(rows, |rows|);
    var size := BatchSize(batch[..j]);
    if j < |batch| {
      NextInBatch(|rows|, batch, j);
      CutPart(file, at, EncodeAll(|rows|, batch), n, size, BatchSize(batch[..j + 1]));
      F.TornFrameReads(file, |rows| + j, at + size, batch[j], n - size);
    } else {
      assert batch[..j] == batch;
      EncodeAllLength(|rows|, batch);
      F.ReadPastEnd(file, |rows| + j, at + size);
    }
  }

  lemma {:induction false} WholePart(file: seq<byte>, at: nat, e: seq<byte>, n: nat, k: nat)
    requires at <= |file| && k <= n <= |e| && file[at..] == e[..n]
    ensures |file| == at + n && file[at..at + k] == e[..k]
  {
    assert file[at..at + k] == file[at..][..k];
  }

  lemma {:induction false} CutPart(file: seq<byte>, at: nat, e: seq<byte>, n: nat, k: nat, next: nat)
    requires at <= |file| && k <= n <= next <= |e| && file[at..] == e[..n]
    ensures |file| == at + n && file[at + k..] == e[k..next][..n - k]
  {
    assert file[at + k..] == file[at..][k..];
    assert e[..n][k..] == e[k..next][..n - k];
  }

  // Metadata slots in a file

  lemma {:induction false} SlotWriteSlices(file: seq<byte>, position: nat, m: S.MetaSlot)
    requires |file| >= S.SEGMENT_HEADER && (position == 16 || position == 32)
    ensures var g := Overwrite(file, position, m);
            && |g| == |file|
            && g[..S.SEGMENT_HEADER] == S.PutSlot(file[..S.SEGMENT_HEADER], position, m)
            && g[S.SEGMENT_HEADER..] == file[S.SEGMENT_HEADER..]
  {
    var g := Overwrite(file, position, m);
    assert g[..64] == file[..position] + m + file[position + 16..64];
    assert file[..64][..position] == file[..position];
    assert file[..64][position + 16..] == file[position + 16..64];
    assert g[64..] == file[64..];
  }

  /** A change confined to the header keeps the frames and what lies behind them. */
  lemma {:induction false} HeaderSwap(file: seq<byte>, other: seq<byte>, v: View, w: View)
    requires FileOk(file, v) && w.rows == v.rows && w.Fits()
    requires |other| == |file| && other[S.SEGMENT_HEADER..] == file[S.SEGMENT_HEADER..]
    requires HeaderOk(other[..S.SEGMENT_HEADER], w)
    ensures FileOk(other, w)
    ensures End(other, v.rows) == End(file, v.rows)
  {
    hide HeaderOk, F.FrameAt, Offset, F.Read;
    OffsetLowerBound(v.rows, 0, |v.rows|);
    OffsetAtZero(v.rows);
    SliceAgrees(file, other, 64, 64, v.Size(), |file|);
    HoldsAgree(file, other, v.rows, |v.rows|);
    assert v.rows[..|v.rows|] == v.rows;
    F.ReadIgnoresFront(file, other, |v.rows|, v.Size());
  }

  lemma {:induction false} HeaderKeepsIdentity(h: S.Header, g: S.Header)
    requires g[..16] == h[..16]
    ensures S.HeaderValid(g) == S.HeaderValid(h) && S.StartSequence(g) == S.StartSequence(h)
  {
    assert g[..4] == g[..16][..4] == h[..4];
    assert g[4..8] == g[..16][4..8] == h[4..8];
    assert g[8..16] == g[..16][8..] == h[8..16];
  }

  /** The file after `slot` was written where the successor of its live slot belongs. */
  function WithSlot(file: seq<byte>, slot: S.MetaSlot): seq<byte>
    requires |file| >= S.SEGMENT_HEADER
  {
    Overwrite(file, S.WritePosition(MetaOf(file)), slot)
  }

  /** A finished update of the read offset moves the start of the segment and nothing else. */
  lemma {:induction false} SlotWriteMovesStart(file: seq<byte>, v: View, start: nat, offset: uint64)
    requires FileOk(file, v) && start <= |v.rows| && offset == Offset(v.rows, start)
    ensures var n := S.NextSlot(MetaOf(file), offset);
            var g := WithSlot(file, n);
            && FileOk(g, v.(start := start)) && MetaOf(g) == n
            && |g| == |file| && End(g, v.rows) == End(file, v.rows)
  {
    hide F.Read, F.FrameAt, Offset, S.Meta, S.NextSlot, Overwrite, S.Fresh, S.Settled, S.PutSlot, S.Start, Holds;
    hide S.HeaderValid, S.StartSequence;
    OffsetLowerBound(v.rows, 0, start);
    OffsetAtZero(v.rows);
    var h, m := file[..64], MetaOf(file);
    var n := S.NextSlot(m, offset);
    S.UpdateLands(h, offset);
    S.NextSlotStart(m, offset);
    S.PutSlotSlices(h, S.WritePosition(m), n);
    SlotWriteSlices(file, S.WritePosition(m), n);
    HeaderKeepsIdentity(h, S.PutSlot(h, S.WritePosition(m), n));
    HeaderSwap(file, WithSlot(file, n), v, v.(start := start));
  }

  lemma {:induction false} FitsIndex(file: seq<byte>, v: View)
    requires FileOk(file, v)
    ensures |v.rows| < U32 && v.start <= |v.rows| && v.Next() < U64
  {
  }

  /** An update that did not land whole leaves the file standing for the same segment. */
  lemma {:induction false} TornSlotKeepsStart(file: seq<byte>, v: View, offset: uint64, torn: S.MetaSlot)
    requires FileOk(file, v)
    requires S.Detectable(file[..S.SEGMENT_HEADER], MetaOf(file), offset, torn)
    requires torn != S.NextSlot(MetaOf(file), offset)
    ensures var g := WithSlot(file, torn);
            FileOk(g, v) && |g| == |file| && End(g, v.rows) == End(file, v.rows)
  {
    hide F.Read, F.FrameAt, Offset, S.Meta, S.NextSlot, Overwrite, S.Fresh, S.Settled, S.PutSlot, S.Start, Holds;
    hide S.HeaderValid, S.StartSequence, S.Detectable;
    var h, m := file[..64], MetaOf(file);
    S.TornUpdateKeeps(h, offset, torn);
    S.PutSlotSlices(h, S.WritePosition(m), torn);
    SlotWriteSlices(file, S.WritePosition(m), torn);
    HeaderKeepsIdentity(h, S.PutSlot(h, S.WritePosition(m), torn));
    HeaderSwap(file, WithSlot(file, torn), v, v);
  }
}
