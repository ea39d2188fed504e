/**
  The metainfo checker: header fields, the v1 file list, the piece count, and the whole analysis
  with the exact condition under which each format is accepted.
 */
module Metainfo {
  import opened Common
  import opened Orders
  import opened Bencode
  import opened TorrentFiles
  import opened PieceMath
  import opened Layout
  import opened FileTree
  import opened PathRules

  datatype Format = V1 | V2 | Hybrid

  datatype Header = Header(format: Format, pieceLength: nat)

  predicate PowerOfTwo(n: nat) {
    n == 1 || (n > 0 && n % 2 == 0 && PowerOfTwo(n / 2))
  }

  function ReadVersion(d: Dictionary): Result<Option<int>> {
    match Get(d, META_VERSION)
    case None => Ok(None)
    case Some(v) =>
      var n :- AsInteger(v);
      if n == 2 then Ok(Some(n)) else Err(UnsupportedMetaVersion)
  }

  function CheckPrivate(d: Dictionary): Result<()> {
    match Get(d, PRIVATE)
    case None => Ok(())
    case Some(v) =>
      var n :- AsInteger(v);
      if n == 0 || n == 1 then Ok(()) else Err(PrivateFlag)
  }

  function ReadHeader(d: Dictionary): (r: Result<Header>)
    ensures r.Ok? ==> r.value.pieceLength > 0
    ensures r.Ok? && !r.value.format.V1? ==> r.value.pieceLength >= 16384 && PowerOfTwo(r.value.pieceLength)
    ensures r.Err? ==> r.reason != PathConflict
  {
    var version :- ReadVersion(d);
    var _ :- OptionalBytes(d, NAME_UTF8);
    var _ :- OptionalBytes(d, NAME);
    var pieceLength :- Length(d, PIECE_LENGTH);
    if pieceLength == 0 || (version.Some? && (pieceLength < 16384 || !PowerOfTwo(pieceLength))) then Err(PieceLength)
    else
      var _ :- CheckPrivate(d);
      var format := if version.None? then V1 else if Get(d, PIECES).Some? then Hybrid else V2;
      Ok(Header(format, pieceLength))
  }

  // ---- v1 file list

  function ReadV1Item(item: Value): (r: Result<TorrentFile>)
    ensures r.Err? ==> r.reason != PathConflict
  {
    var f :- AsDict(item);
    var attr :- OptionalBytes(f, ATTR);
    var padding := 'p' as int in attr.GetOr([]);
    var raw :- if Get(f, PATH).Some? then OptionalPath(f, PATH) else OptionalPath(f, PATH_UTF8);
    if raw.None? && !padding then Err(MissingPath)
    else
      var _ :- OptionalPath(f, PATH_UTF8);
      ParseFile(f, raw.GetOr([]))
  }

  function V1Items(items: seq<Value>): (r: Result<seq<TorrentFile>>)
    ensures r.Err? ==> r.reason != PathConflict
  {
    if items == [] then Ok([])
    else
      var f :- ReadV1Item(items[0]);
      var rest :- V1Items(items[1..]);
      Ok([f] + rest)
  }

  function V1Name(d: Dictionary): Result<Name> {
    var v :- Required(d, NAME);
    var name :- AsBytes(v);
    var _ :- Segment(name);
    var _ :- OptionalBytes(d, NAME_UTF8);
    Ok(name)
  }

  function V1Files(d: Dictionary): (r: Result<seq<TorrentFile>>)
    ensures r.Err? ==> r.reason != PathConflict
  {
    var name :- V1Name(d);
    match Get(d, FILES)
    case None => var f :- ParseFile(d, [name]); Ok([f])
    case Some(files) =>
      if files.List? && Get(d, LENGTH).None? && files.items != [] then V1Items(files.items)
      else Err(FileLayout)
  }

  lemma V1ItemsStep(items: seq<Value>, k: nat)
    requires k < |items|
    ensures ReadV1Item(items[k]).Err? ==> V1Items(items[k..]) == Err(ReadV1Item(items[k]).reason)
    ensures ReadV1Item(items[k]).Ok? && V1Items(items[k + 1..]).Err? ==> V1Items(items[k..]) == V1Items(items[k + 1..])
    ensures ReadV1Item(items[k]).Ok? && V1Items(items[k + 1..]).Ok? ==>
      V1Items(items[k..]) == Ok([ReadV1Item(items[k]).value] + V1Items(items[k + 1..]).value)
  {
    assert items[k..][0] == items[k] && items[k..][1..] == items[k + 1..];
  }

  method ReadV1Items(items: seq<Value>) returns (r: Result<seq<TorrentFile>>)
    ensures r == V1Items(items)
  {
    var out := [];
    assert items[0..] == items;
    for k := 0 to |items|
      invariant V1Items(items[k..]).Ok? ==> V1Items(items).Ok? && V1Items(items).value == out + V1Items(items[k..]).value
      invariant V1Items(items[k..]).Err? ==> V1Items(items) == V1Items(items[k..])
    {
      V1ItemsStep(items, k);
      var f :- ReadV1Item(items[k]);
      out := out + [f];
    }
    assert items[|items|..] == [] && out + [] == out;
    return Ok(out);
  }

  method ReadV1Files(d: Dictionary) returns (r: Result<seq<TorrentFile>>)
    ensures r == V1Files(d)
  {
    var name :- V1Name(d);
    match Get(d, FILES) {
      case None =>
        var f :- ParseFile(d, [name]);
        return Ok([f]);
      case Some(files) =>
        if !files.List? || Get(d, LENGTH).Some? || files.items == [] {
          return Err(FileLayout);
        }
        r := ReadV1Items(files.items);
    }
  }

  function CheckedTotal(files: seq<TorrentFile>): (r: Result<nat>)
    ensures r == if StreamLength(files) <= U64_MAX then Ok(StreamLength(files)) else Err(LengthOverflow)
  {
    if files == [] then Ok(0)
    else
      var before :- CheckedTotal(files[..|files| - 1]);
      var sum := before + files[|files| - 1].length;
      if sum > U64_MAX then Err(LengthOverflow) else Ok(sum)
  }

  /** The v1 piece string holds exactly `n` digests of 20 bytes. */
  predicate HasDigests(d: Dictionary, n: nat) {
    Get(d, PIECES).Some? && Get(d, PIECES).value.Bytes? && |Get(d, PIECES).value.bytes| == 20 * n
  }

  function CheckV1(d: Dictionary, files: seq<TorrentFile>, p: nat): (r: Result<nat>)
    requires p > 0
    ensures r.Ok? <==> StreamLength(files) <= U64_MAX && HasDigests(d, CeilDiv(StreamLength(files), p))
    ensures r.Ok? ==> r.value == CeilDiv(StreamLength(files), p)
    ensures r.Err? ==> r.reason in {MissingField, BytesType, LengthOverflow, PieceCount}
  {
    var v :- Required(d, PIECES);
    var pieces :- AsBytes(v);
    var total :- CheckedTotal(files);
    if |pieces| % 20 != 0 || |pieces| / 20 != CeilDiv(total, p) then Err(PieceCount)
    else Ok(|pieces| / 20)
  }

  // ---- acceptance, format by format

  function TreeOf(d: Dictionary): (r: Result<seq<TorrentFile>>)
    ensures r.Err? ==> r.reason != PathConflict
  {
    var v :- Required(d, FILE_TREE);
    var root :- AsDict(v);
    var files :- Flatten(root, []);
    if files == [] then Err(EmptyFileTree) else Ok(files)
  }

  ghost predicate NoDangling(files: seq<TorrentFile>) {
    forall i :: 0 <= i < |files| ==> !Dangling(files, files[i])
  }

  ghost predicate ValidV1(d: Dictionary, p: nat)
    requires p > 0
  {
    && V1Files(d).Ok?
    && var files := V1Files(d).value;
       CheckV1(d, files, p).Ok? && PrefixFree(Contents(files)) && NoDangling(files)
  }

  ghost predicate ValidV2(d: Dictionary, p: nat)
    requires p > 0
  {
    && TreeOf(d).Ok?
    && var files := TreeOf(d).value;
       Space(files, true, p) <= U64_MAX && NoDangling(files)
  }

  /** Both layouts parse, agree byte for byte on placement, and end on a 64-bit boundary. */
  ghost predicate ValidHybrid(d: Dictionary, p: nat)
    requires p > 0
  {
    && TreeOf(d).Ok? && V1Files(d).Ok?
    && var tree, legacy := TreeOf(d).value, V1Files(d).value;
       && CheckV1(d, legacy, p).Ok?
       && HybridAligned(legacy, tree, p) && PieceSum(tree, p) * p <= U64_MAX
       && NoDangling(legacy)
  }

  ghost predicate Valid(d: Dictionary, h: Header)
    requires h.pieceLength > 0
  {
    match h.format
    case V1 => ValidV1(d, h.pieceLength)
    case V2 => ValidV2(d, h.pieceLength)
    case Hybrid => ValidHybrid(d, h.pieceLength)
  }

  datatype ParsedInfo = ParsedInfo(header: Header, files: seq<TorrentFile>, totals: Totals)

  lemma {:induction false} TreeHasNoPadding(files: seq<TorrentFile>)
    requires forall i :: 0 <= i < |files| ==> !files[i].kind.Padding?
    ensures Contents(files) == files
  {
    if files != [] {
      TreeHasNoPadding(files[..|files| - 1]);
    }
  }

  lemma {:induction false} V1SpaceIsStream(files: seq<TorrentFile>, p: nat)
    requires p > 0
    ensures Space(files, false, p) == StreamLength(files)
  {
    if files != [] {
      V1SpaceIsStream(files[..|files| - 1], p);
    }
  }

  /** The tree of an ordered info dictionary: no padding, and no two conflicting paths. */
  lemma TreeFacts(d: Dictionary)
    requires Ordered(d) && TreeOf(d).Ok?
    ensures Contents(TreeOf(d).value) == TreeOf(d).value && PrefixFree(TreeOf(d).value)
  {
    var i :| 0 <= i < |d| && d[i].key == FILE_TREE && d[i].value == Get(d, FILE_TREE).value;
    FlattenIsExact(d[i].value.entries);
    TreeHasNoPadding(TreeOf(d).value);
  }

  method ReadTree(d: Dictionary) returns (r: Result<seq<TorrentFile>>)
    ensures r == TreeOf(d)
  {
    var v :- Required(d, FILE_TREE);
    var root :- AsDict(v);
    var walk := new TreeWalk();
    var _ :- walk.Walk(root);
    assert walk.out == Flatten(root, []).value;
    return if walk.out == [] then Err(EmptyFileTree) else Ok(walk.out);
  }

  /** The files a format reports, after its own layout checks. */
  ghost predicate LayoutAccepts(d: Dictionary, h: Header, files: seq<TorrentFile>)
    requires h.pieceLength > 0
  {
    match h.format
    case V1 => V1Files(d) == Ok(files)
    case V2 => TreeOf(d) == Ok(files)
    case Hybrid =>
      && V1Files(d) == Ok(files) && TreeOf(d).Ok? && CheckV1(d, files, h.pieceLength).Ok?
      && HybridAligned(files, TreeOf(d).value, h.pieceLength)
      && PieceSum(TreeOf(d).value, h.pieceLength) * h.pieceLength <= U64_MAX
  }

  method ReadFiles(d: Dictionary, h: Header) returns (r: Result<seq<TorrentFile>>)
    requires h.pieceLength > 0
    ensures r.Ok? ==> LayoutAccepts(d, h, r.value)
    ensures r.Err? ==> r.reason != PathConflict && forall files :: !LayoutAccepts(d, h, files)
  {
    if h.format.V1? {
      r := ReadV1Files(d);
      return;
    }
    var tree :- ReadTree(d);
    if h.format.V2? {
      return Ok(tree);
    }
    var legacy :- ReadV1Files(d);
    var _ :- CheckV1(d, legacy, h.pieceLength);
    var _ :- CheckHybrid(legacy, tree, h.pieceLength);
    return Ok(legacy);
  }

  /** What the checker reports about the accepted files: their bytes, padding, piece space and pieces. */
  ghost predicate Reports(t: Totals, files: seq<TorrentFile>, h: Header)
    requires h.pieceLength > 0
  {
    && t.padding == PaddingLength(files) && t.total + t.padding == StreamLength(files)
    && t.space == Space(files, h.format.V2?, h.pieceLength)
    && t.pieces == if h.format.V2? then PieceSum(files, h.pieceLength) else CeilDiv(StreamLength(files), h.pieceLength)
  }

  /** Totals and piece count of files whose layout was accepted. */
  method Summarise(d: Dictionary, h: Header, files: seq<TorrentFile>) returns (r: Result<Totals>)
    requires h.pieceLength > 0
    ensures r.Ok? <==>
      if h.format.V2? then Space(files, true, h.pieceLength) <= U64_MAX else CheckV1(d, files, h.pieceLength).Ok?
    ensures r.Ok? ==> Reports(r.value, files, h)
    ensures r.Err? ==> r.reason != PathConflict
  {
    V1SpaceIsStream(files, h.pieceLength);
    var totals :- SumFiles(files, h.format.V2?, h.pieceLength);
    if h.format.V2? {
      return Ok(totals);
    }
    var pieces :- CheckV1(d, files, h.pieceLength);
    return Ok(totals.(pieces := pieces));
  }

  /** Once the layout is accepted, only totals, conflicts and symlinks are left to decide. */
  lemma StagesDecide(d: Dictionary, h: Header, files: seq<TorrentFile>)
    requires Ordered(d) && h.pieceLength > 0 && LayoutAccepts(d, h, files)
    ensures !h.format.V1? ==> PrefixFree(Contents(files))
    ensures Valid(d, h) <==>
      && (if h.format.V2? then Space(files, true, h.pieceLength) <= U64_MAX else CheckV1(d, files, h.pieceLength).Ok?)
      && PrefixFree(Contents(files)) && NoDangling(files)
  {
    if !h.format.V1? {
      TreeFacts(d);
    }
  }

  lemma RejectedLayoutIsInvalid(d: Dictionary, h: Header)
    requires h.pieceLength > 0 && forall files :: !LayoutAccepts(d, h, files)
    ensures !Valid(d, h)
  {
    if Valid(d, h) {
      assert LayoutAccepts(d, h, if h.format.V2? then TreeOf(d).value else V1Files(d).value);
    }
  }

  lemma PieceCountsAgree(d: Dictionary, h: Header, files: seq<TorrentFile>)
    requires h.pieceLength > 0 && !h.format.V1? && LayoutAccepts(d, h, files)
    ensures PieceSum(TreeOf(d).value, h.pieceLength) ==
      if h.format.V2? then PieceSum(files, h.pieceLength) else CeilDiv(StreamLength(files), h.pieceLength)
  {
    if h.format.Hybrid? {
      HybridStreamMatchesTree(files, TreeOf(d).value, h.pieceLength);
    }
  }

  /** The stages after the header; the conflict rule can only fire for v1. */
  method AnalyzeFiles(d: Dictionary, h: Header) returns (r: Result<ParsedInfo>)
    requires Ordered(d) && h.pieceLength > 0
    ensures r.Ok? <==> Valid(d, h)
    ensures r.Ok? ==> r.value.header == h && LayoutAccepts(d, h, r.value.files)
    ensures r.Ok? ==>
      PrefixFree(Contents(r.value.files)) && NoDangling(r.value.files) && Reports(r.value.totals, r.value.files, h)
    ensures r.Ok? && !h.format.V1? ==> r.value.totals.pieces == PieceSum(TreeOf(d).value, h.pieceLength)
    ensures r == Err(PathConflict) ==> h.format.V1?
  {
    var read := ReadFiles(d, h);
    if read.Err? {
      RejectedLayoutIsInvalid(d, h);
      return Err(read.reason);
    }
    var files := read.value;
    StagesDecide(d, h, files);
    var totals :- Summarise(d, h, files);
    if !h.format.V1? {
      PieceCountsAgree(d, h, files);
    }
    var _ :- CheckPaths(files);
    return Ok(ParsedInfo(h, files, totals));
  }

  /**
    The checker accepts exactly the valid dictionaries of each format. What it reports for v2 and
    hybrid has the piece count of the file tree; and for those two the conflict rule never fires.
   */
  method Analyze(root: Value) returns (r: Result<ParsedInfo>)
    requires root.Dict? ==> Ordered(root.entries)
    ensures r.Ok? <==> root.Dict? && ReadHeader(root.entries).Ok? && Valid(root.entries, ReadHeader(root.entries).value)
    ensures r.Ok? ==>
      r.value.header == ReadHeader(root.entries).value && LayoutAccepts(root.entries, r.value.header, r.value.files)
    ensures r.Ok? ==> PrefixFree(Contents(r.value.files)) && NoDangling(r.value.files)
    ensures r.Ok? ==> Reports(r.value.totals, r.value.files, r.value.header)
    ensures r.Ok? && !r.value.header.format.V1? ==>
      r.value.totals.pieces == PieceSum(TreeOf(root.entries).value, r.value.header.pieceLength)
    ensures r == Err(PathConflict) ==>
      root.Dict? && ReadHeader(root.entries).Ok? && ReadHeader(root.entries).value.format.V1?
  {
    var d :- AsDict(root);
    var h :- ReadHeader(d);
    r := AnalyzeFiles(d, h);
  }
}
