/**
  The hybrid layout rule: the padded v1 byte stream against the piece-aligned v2 file list,
  and the totals that an accepted layout reports.
 */
module Layout {
  import opened Common
  import opened Orders
  import opened Bencode
  import opened TorrentFiles
  import opened PieceMath

  /** Bytes of the v1 stream formed by these files. */
  function StreamLength(files: seq<TorrentFile>): nat {
    if files == [] then 0 else StreamLength(files[..|files| - 1]) + files[|files| - 1].length
  }

  /** Pieces of a v2 file list: every file starts a new piece. */
  ghost function PieceSum(files: seq<TorrentFile>, p: nat): nat
    requires p > 0
  {
    if files == [] then 0 else PieceSum(files[..|files| - 1], p) + CeilDiv(files[|files| - 1].length, p)
  }

  function Contents(files: seq<TorrentFile>): seq<TorrentFile> {
    if files == [] then []
    else
      var last := files[|files| - 1];
      Contents(files[..|files| - 1]) + if last.kind.Padding? then [] else [last]
  }

  predicate HasBytes(f: TorrentFile) { !f.kind.Padding? && f.length > 0 }

  /** End of the last file with bytes in the v1 stream. */
  ghost function ContentEnd(files: seq<TorrentFile>): nat {
    if files == [] then 0
    else if HasBytes(files[|files| - 1]) then StreamLength(files)
    else ContentEnd(files[..|files| - 1])
  }

  /** Offset of the i-th file in the v2 layout of section "upgrade path" of BEP 52. */
  ghost function V2Offset(tree: seq<TorrentFile>, i: nat, p: nat): nat
    requires p > 0 && i <= |tree|
  {
    PieceSum(tree[..i], p) * p
  }

  /** The k-th file has no bytes, or starts at the v2 offset of the files before it. */
  ghost predicate AlignedAt(legacy: seq<TorrentFile>, k: nat, p: nat)
    requires p > 0 && k < |legacy|
  {
    HasBytes(legacy[k]) ==> StreamLength(legacy[..k]) == PieceSum(Contents(legacy[..k]), p) * p
  }

  ghost predicate AllAligned(legacy: seq<TorrentFile>, p: nat)
    requires p > 0
  {
    forall k :: 0 <= k < |legacy| ==> AlignedAt(legacy, k, p)
  }

  /** The layout rule itself, without the order in which the checker looks at it. */
  ghost predicate HybridAligned(legacy: seq<TorrentFile>, tree: seq<TorrentFile>, p: nat)
    requires p > 0
  {
    && Contents(legacy) == tree
    && AllAligned(legacy, p)
    && StreamLength(legacy) <= PieceSum(tree, p) * p
  }

  // ---- prefixes

  lemma Extend(files: seq<TorrentFile>, k: nat)
    requires k < |files|
    ensures files[..k + 1][..k] == files[..k] && files[..k + 1][k] == files[k]
    ensures StreamLength(files[..k + 1]) == StreamLength(files[..k]) + files[k].length
    ensures Contents(files[..k + 1]) == Contents(files[..k]) + if files[k].kind.Padding? then [] else [files[k]]
    ensures ContentEnd(files[..k + 1]) == if HasBytes(files[k]) then StreamLength(files[..k + 1]) else ContentEnd(files[..k])
  {
    assert files[..k + 1][..k] == files[..k];
  }

  lemma ExtendPieces(files: seq<TorrentFile>, k: nat, p: nat)
    requires p > 0 && k < |files|
    ensures PieceSum(files[..k + 1], p) == PieceSum(files[..k], p) + CeilDiv(files[k].length, p)
  {
    assert files[..k + 1][..k] == files[..k];
  }

  lemma {:induction false} PrefixBounds(files: seq<TorrentFile>, k: nat)
    requires k <= |files|
    ensures StreamLength(files[..k]) <= StreamLength(files)
    ensures Contents(files[..k]) <= Contents(files)
    ensures ContentEnd(files) <= StreamLength(files)
    decreases |files|
  {
    if k == |files| {
      assert files[..k] == files;
      if files != [] { PrefixBounds(files[..k - 1], k - 1); }
    } else {
      var n := |files| - 1;
      assert files[..n][..k] == files[..k];
      PrefixBounds(files[..n], k);
    }
  }

  lemma ContentIndex(files: seq<TorrentFile>, k: nat)
    requires k < |files| && !files[k].kind.Padding?
    ensures |Contents(files[..k])| < |Contents(files)|
    ensures Contents(files)[|Contents(files[..k])|] == files[k]
    ensures Contents(files)[..|Contents(files[..k])|] == Contents(files[..k])
  {
    Extend(files, k);
    PrefixBounds(files, k + 1);
    assert Contents(files[..k + 1])[|Contents(files[..k])|] == files[k];
  }

  lemma AppendPieces(contents: seq<TorrentFile>, f: TorrentFile, p: nat)
    requires p > 0
    ensures PieceSum(contents + [f], p) == PieceSum(contents, p) + CeilDiv(f.length, p)
    ensures f.length == 0 ==> PieceSum(contents + [f], p) == PieceSum(contents, p)
  {
    assert (contents + [f])[..|contents|] == contents;
    CeilAtMost(f.length, p);
  }

  // ---- the layout theorems

  /** One more file: aligned or without bytes, it adds its own pieces to the content. */
  lemma ContentEndStep(files: seq<TorrentFile>, k: nat, p: nat)
    requires p > 0 && k < |files| && AlignedAt(files, k, p)
    requires CeilDiv(ContentEnd(files[..k]), p) == PieceSum(Contents(files[..k]), p)
    ensures CeilDiv(ContentEnd(files[..k + 1]), p) == PieceSum(Contents(files[..k + 1]), p)
  {
    var f, before := files[k], Contents(files[..k]);
    Extend(files, k);
    AppendPieces(before, f, p);
    assert before + [] == before;
    if HasBytes(f) {
      CeilFromBoundary(StreamLength(files[..k]), PieceSum(before, p), f.length, p);
    }
  }

  /** Up to its last byte of content, an aligned stream occupies exactly the pieces of its contents. */
  lemma {:induction false} ContentEndPieces(files: seq<TorrentFile>, k: nat, p: nat)
    requires p > 0 && k <= |files|
    requires forall j :: 0 <= j < k ==> AlignedAt(files, j, p)
    ensures CeilDiv(ContentEnd(files[..k]), p) == PieceSum(Contents(files[..k]), p)
    decreases k
  {
    if k == 0 {
      CeilAtMost(0, p);
    } else {
      ContentEndPieces(files, k - 1, p);
      assert AlignedAt(files, k - 1, p);
      ContentEndStep(files, k - 1, p);
    }
  }

  /**
    In every hybrid layout that satisfies the rule, each file with bytes sits in the padded v1
    stream at its own v2 offset, both formats count the same pieces, and the padding after the
    last byte of content is shorter than one piece.
   */
  lemma HybridStreamMatchesTree(legacy: seq<TorrentFile>, tree: seq<TorrentFile>, p: nat)
    requires p > 0 && HybridAligned(legacy, tree, p)
    ensures forall k :: 0 <= k < |legacy| && HasBytes(legacy[k]) ==>
      var i := |Contents(legacy[..k])|;
      i < |tree| && tree[i] == legacy[k] && StreamLength(legacy[..k]) == V2Offset(tree, i, p)
    ensures CeilDiv(StreamLength(legacy), p) == PieceSum(tree, p)
    ensures ContentEnd(legacy) <= StreamLength(legacy) < ContentEnd(legacy) + p
  {
    forall k | 0 <= k < |legacy| && HasBytes(legacy[k])
      ensures var i := |Contents(legacy[..k])|;
        i < |tree| && tree[i] == legacy[k] && StreamLength(legacy[..k]) == V2Offset(tree, i, p)
    {
      ContentIndex(legacy, k);
      assert AlignedAt(legacy, k, p);
    }
    assert legacy[..|legacy|] == legacy;
    ContentEndPieces(legacy, |legacy|, p);
    PrefixBounds(legacy, |legacy|);
    PaddingReachesBoundary(ContentEnd(legacy), p);
    CeilMonotone(ContentEnd(legacy), StreamLength(legacy), p);
    var n := PieceSum(tree, p);
    MulStrict(CeilDiv(StreamLength(legacy), p) - 1, n, p);
  }

  /** The v2 piece space of the tree ends where the content of the padded v1 stream ends. */
  lemma {:induction false} SpaceEndsWithContent(files: seq<TorrentFile>, k: nat, p: nat)
    requires p > 0 && k <= |files|
    requires forall j :: 0 <= j < k ==> AlignedAt(files, j, p)
    ensures Space(Contents(files[..k]), true, p) == ContentEnd(files[..k])
    decreases k
  {
    if k > 0 {
      var f, before := files[k - 1], Contents(files[..k - 1]);
      SpaceEndsWithContent(files, k - 1, p);
      Extend(files, k - 1);
      assert AlignedAt(files, k - 1, p);
      if f.kind.Padding? {
        assert before + [] == before;
      } else {
        assert (before + [f])[..|before|] == before;
        SpacePieces(before, p);
      }
    }
  }

  // ---- the checker's loop

  method NextBoundary(v: nat, p: nat) returns (b: nat)
    requires p > 0
    ensures b == CeilDiv(v, p) * p
  {
    PaddingReachesBoundary(v, p);
    b := v + (p - v % p) % p;
  }

  /** One non-padding file of the comparison loop; the result is the new end of the v2 content. */
  method PlaceFile(file: TorrentFile, twin: TorrentFile, offset: nat, v2End: nat, p: nat) returns (r: Result<nat>)
    requires p > 0 && offset + file.length <= U64_MAX
    ensures r.Ok? <==> file == twin && (file.length > 0 ==> offset == CeilDiv(v2End, p) * p)
    ensures r.Ok? ==> r.value == if file.length > 0 then offset + file.length else v2End
    ensures r.Err? ==> r.reason in {HybridLayout, LengthOverflow}
  {
    var end := v2End;
    if file.length > 0 {
      var aligned := NextBoundary(v2End, p);
      if aligned > U64_MAX {
        return Err(LengthOverflow);
      }
      if offset != aligned {
        return Err(HybridLayout);
      }
      end := aligned + file.length;
    }
    MultipleHasNoRemainder(CeilDiv(v2End, p), p);
    if file != twin || (file.length > 0 && offset % p != 0) {
      return Err(HybridLayout);
    }
    return Ok(end);
  }

  /** Where a comparison that has accepted the first `k` files stands. */
  ghost predicate Compared(legacy: seq<TorrentFile>, tree: seq<TorrentFile>, k: nat, p: nat, offset: nat, v2End: nat,
                           index: nat)
    requires p > 0 && k <= |legacy|
  {
    && offset == StreamLength(legacy[..k]) && v2End == ContentEnd(legacy[..k])
    && CeilDiv(v2End, p) == PieceSum(Contents(legacy[..k]), p)
    && index <= |tree| && Contents(legacy[..k]) == tree[..index]
    && forall j :: 0 <= j < k ==> AlignedAt(legacy, j, p)
  }

  /** One turn of the comparison loop. */
  method CompareFile(legacy: seq<TorrentFile>, tree: seq<TorrentFile>, k: nat, p: nat, offset: nat, v2End: nat,
                     index: nat)
    returns (r: Result<nat>)
    requires p > 0 && k < |legacy| && StreamLength(legacy) <= U64_MAX && |Contents(legacy)| == |tree|
    requires Compared(legacy, tree, k, p, offset, v2End, index)
    ensures r.Ok? ==>
      Compared(legacy, tree, k + 1, p, offset + legacy[k].length, r.value, index + if legacy[k].kind.Padding? then 0 else 1)
    ensures r.Err? ==> r.reason in {HybridLayout, LengthOverflow} && !HybridAligned(legacy, tree, p)
  {
    var file := legacy[k];
    Extend(legacy, k);
    PrefixBounds(legacy, k + 1);
    var end := v2End;
    if !file.kind.Padding? {
      ContentIndex(legacy, k);
      var placed := PlaceFile(file, tree[index], offset, v2End, p);
      if placed.Err? {
        assert file != tree[index] || !AlignedAt(legacy, k, p);
        return placed;
      }
      end := placed.value;
      assert tree[..index + 1] == tree[..index] + [file];
    }
    ContentEndStep(legacy, k, p);
    return Ok(end);
  }

  /**
    The comparison loop accepts exactly the aligned layouts whose end boundary is a 64-bit number.
    The caller has already established that the whole stream length is one.
   */
  method CheckHybrid(legacy: seq<TorrentFile>, tree: seq<TorrentFile>, p: nat) returns (r: Result<()>)
    requires p > 0 && StreamLength(legacy) <= U64_MAX
    ensures r.Ok? <==> HybridAligned(legacy, tree, p) && PieceSum(tree, p) * p <= U64_MAX
    ensures r.Err? ==> r.reason in {HybridLayout, LengthOverflow}
  {
    var regular := Contents(legacy);
    if |regular| != |tree| {
      return Err(HybridLayout);
    }
    var offset: nat, v2End: nat, index: nat := 0, 0, 0;
    CeilAtMost(0, p);
    for k := 0 to |legacy|
      invariant Compared(legacy, tree, k, p, offset, v2End, index)
    {
      v2End :- CompareFile(legacy, tree, k, p, offset, v2End, index);
      offset, index := offset + legacy[k].length, index + if legacy[k].kind.Padding? then 0 else 1;
    }
    assert legacy[..|legacy|] == legacy && tree[..|tree|] == tree;
    assert Contents(legacy) == tree && AllAligned(legacy, p);
    var endBoundary := NextBoundary(v2End, p);
    if endBoundary > U64_MAX {
      return Err(LengthOverflow);
    }
    if offset > endBoundary {
      return Err(HybridLayout);
    }
    return Ok(());
  }

  const HUGE: nat := 0x4000_0000_0000_0000

  function HugeFile(name: Byte, length: nat): TorrentFile { TorrentFile(length, Regular, [[name]], None) }

  /** Four files of 2^62 bytes each, the last one byte short, in pieces of 2^62 bytes. */
  function HugeFiles(): seq<TorrentFile> {
    [HugeFile(1, HUGE), HugeFile(2, HUGE), HugeFile(3, HUGE), HugeFile(4, HUGE - 1)]
  }

  lemma HugePrefixes(k: nat)
    requires k <= 3
    ensures var files := HugeFiles();
      StreamLength(files[..k]) == k * HUGE && PieceSum(files[..k], HUGE) == k && Contents(files[..k]) == files[..k]
  {
    if k > 0 {
      HugePrefixes(k - 1);
      Extend(HugeFiles(), k - 1);
      ExtendPieces(HugeFiles(), k - 1, HUGE);
      CeilUnique(HUGE, HUGE, 1);
    }
  }

  /** An aligned layout whose stream fits 64 bits and whose end boundary does not: the checker rejects it. */
  lemma AlignedButTooLarge()
    ensures var files := HugeFiles();
      HybridAligned(files, files, HUGE) && StreamLength(files) <= U64_MAX && PieceSum(files, HUGE) * HUGE > U64_MAX
  {
    var files := HugeFiles();
    forall k: nat | k < |files| ensures AlignedAt(files, k, HUGE) { HugePrefixes(k); }
    HugePrefixes(3);
    Extend(files, 3);
    ExtendPieces(files, 3, HUGE);
    CeilUnique(HUGE - 1, HUGE, 1);
    assert files[..4] == files && files[..3] + [files[3]] == files;
  }

  // ---- totals

  /** Bytes of the piece space: the plain stream for v1, every file from a piece boundary for v2. */
  ghost function Space(files: seq<TorrentFile>, isV2: bool, p: nat): nat
    requires p > 0
  {
    if files == [] then 0
    else
      var before, last := Space(files[..|files| - 1], isV2, p), files[|files| - 1];
      if isV2 && last.length > 0 then CeilDiv(before, p) * p + last.length else before + last.length
  }

  ghost function PaddingLength(files: seq<TorrentFile>): nat {
    if files == [] then 0
    else PaddingLength(files[..|files| - 1]) + if files[|files| - 1].kind.Padding? then files[|files| - 1].length else 0
  }

  datatype Totals = Totals(total: nat, padding: nat, space: nat, pieces: nat)

  ghost predicate TotalsOf(t: Totals, files: seq<TorrentFile>, isV2: bool, p: nat)
    requires p > 0
  {
    && t.padding == PaddingLength(files)
    && t.total + t.padding == StreamLength(files)
    && t.space == Space(files, isV2, p)
    && t.pieces == if isV2 then PieceSum(files, p) else 0
  }

  lemma SpaceStep(files: seq<TorrentFile>, k: nat, isV2: bool, p: nat)
    requires p > 0 && k < |files|
    ensures Space(files[..k + 1], isV2, p) ==
      if isV2 && files[k].length > 0 then CeilDiv(Space(files[..k], isV2, p), p) * p + files[k].length
      else Space(files[..k], isV2, p) + files[k].length
    ensures Space(files[..k], isV2, p) + files[k].length <= Space(files[..k + 1], isV2, p)
    ensures PaddingLength(files[..k + 1]) == PaddingLength(files[..k]) + if files[k].kind.Padding? then files[k].length else 0
    ensures StreamLength(files[..k + 1]) == StreamLength(files[..k]) + files[k].length
  {
    assert files[..k + 1][..k] == files[..k];
  }

  lemma {:induction false} SpaceMonotone(files: seq<TorrentFile>, k: nat, isV2: bool, p: nat)
    requires p > 0 && k <= |files|
    ensures Space(files[..k], isV2, p) <= Space(files, isV2, p)
    decreases |files| - k
  {
    if k == |files| {
      assert files[..k] == files;
    } else {
      SpaceStep(files, k, isV2, p);
      SpaceMonotone(files, k + 1, isV2, p);
    }
  }

  /** The v2 piece space spans exactly the pieces of its files. */
  lemma {:induction false} SpacePieces(files: seq<TorrentFile>, p: nat)
    requires p > 0
    ensures CeilDiv(Space(files, true, p), p) == PieceSum(files, p)
  {
    CeilAtMost(0, p);
    if files != [] {
      var before, last := files[..|files| - 1], files[|files| - 1];
      SpacePieces(before, p);
      CeilFromBoundary(PieceSum(before, p) * p, PieceSum(before, p), last.length, p);
    }
  }

  /** One turn of the totals loop: overflow exactly when the piece space leaves 64 bits. */
  method AddFile(t: Totals, file: TorrentFile, isV2: bool, p: nat) returns (r: Result<Totals>)
    requires p > 0 && t.total + t.padding <= t.space && t.pieces <= t.space
    ensures var start := if isV2 && file.length > 0 then CeilDiv(t.space, p) * p else t.space;
      && (r.Ok? <==> start + file.length <= U64_MAX)
      && (r.Err? ==> r.reason == LengthOverflow)
      && (r.Ok? ==> r.value == Totals(
            t.total + if file.kind.Padding? then 0 else file.length,
            t.padding + if file.kind.Padding? then file.length else 0,
            start + file.length,
            t.pieces + if isV2 then CeilDiv(file.length, p) else 0))
  {
    CeilAtMost(file.length, p);
    var total, padding, space, pieces := t.total, t.padding, t.space, t.pieces;
    if file.kind.Padding? {
      padding := padding + file.length;
    } else {
      total := total + file.length;
    }
    if isV2 && file.length > 0 {
      space := NextBoundary(space, p);
      pieces := pieces + CeilDiv(file.length, p);
    }
    space := space + file.length;
    if padding > U64_MAX || total > U64_MAX || pieces > U64_MAX || space > U64_MAX {
      return Err(LengthOverflow);
    }
    return Ok(Totals(total, padding, space, pieces));
  }

  /** The totals loop succeeds exactly when the whole piece space is a 64-bit number of bytes. */
  method SumFiles(files: seq<TorrentFile>, isV2: bool, p: nat) returns (r: Result<Totals>)
    requires p > 0
    ensures r.Ok? <==> Space(files, isV2, p) <= U64_MAX
    ensures r.Ok? ==> TotalsOf(r.value, files, isV2, p)
    ensures r.Err? ==> r.reason == LengthOverflow
  {
    var t := Totals(0, 0, 0, 0);
    for k := 0 to |files|
      invariant TotalsOf(t, files[..k], isV2, p)
      invariant t.total + t.padding <= t.space <= U64_MAX && t.pieces <= t.space
    {
      SpaceStep(files, k, isV2, p);
      ExtendPieces(files, k, p);
      CeilAtMost(files[k].length, p);
      var sum := AddFile(t, files[k], isV2, p);
      if sum.Err? {
        SpaceMonotone(files, k + 1, isV2, p);
        return Err(sum.reason);
      }
      t := sum.value;
    }
    assert files[..|files|] == files;
    return Ok(t);
  }

  lemma MultipleHasNoRemainder(k: nat, p: nat)
    requires p > 0
    ensures k * p % p == 0
  {
    var q, r := k * p / p, k * p % p;
    assert k * p == q * p + r;
    assert (k - q) * p == r;
    if k - q >= 1 { MulMonotone(1, k - q, p); }
    if k - q <= -1 { MulMonotone(k - q, -1, p); }
  }
}
