/** Decoded bencode values and the field readers of the metainfo checker. */
module Bencode {
  import opened Common
  import opened Orders

  datatype Reason =
    | MissingField | DictionaryType | BytesType | IntegerType | NegativeLength
    | PathType | EmptyPath | InvalidPath | FileAttributes | SymlinkLength | FileSha1Length
    | MissingPath | FileLayout | PieceCount | FileTreeConflict | V2PaddingFile | PiecesRoot
    | EmptyFileTree | LengthOverflow | HybridLayout | PathConflict | DanglingSymlink
    | PieceLength | PrivateFlag | UnsupportedMetaVersion

  datatype Result<+T> = Ok(value: T) | Err(reason: Reason) {
    predicate IsFailure() { Err? }
    function PropagateFailure<U>(): Result<U> requires Err? { Err(reason) }
    function Extract(): T requires Ok? { value }
  }

  type Int64 = n: int | -0x8000_0000_0000_0000 <= n < 0x8000_0000_0000_0000

  datatype Entry = Entry(key: Name, value: Value)

  /** A dictionary is listed in the iteration order of the ordered map that holds it. */
  datatype Value =
    | Bytes(bytes: Name)
    | Integer(n: Int64)
    | List(items: seq<Value>)
    | Dict(entries: seq<Entry>)

  type Dictionary = seq<Entry>

  predicate KeysAscend(d: Dictionary) {
    forall i, j :: 0 <= i < j < |d| ==> NameLess(d[i].key, d[j].key)
  }

  /** What an ordered map guarantees at every level: keys strictly ascend, so none repeats. */
  ghost predicate Ordered(d: Dictionary) {
    && KeysAscend(d)
    && forall i :: 0 <= i < |d| && d[i].value.Dict? ==> Ordered(d[i].value.entries)
  }

  function Get(d: Dictionary, key: Name): (v: Option<Value>)
    ensures v.Some? <==> exists i :: 0 <= i < |d| && d[i].key == key
    ensures v.Some? ==> exists i :: 0 <= i < |d| && d[i].key == key && d[i].value == v.value
  {
    if d == [] then None
    else if d[0].key == key then Some(d[0].value)
    else
      assert forall i :: 0 <= i < |d| - 1 ==> d[1..][i] == d[i + 1];
      Get(d[1..], key)
  }

  lemma GetAt(d: Dictionary, i: nat)
    requires KeysAscend(d) && i < |d|
    ensures Get(d, d[i].key) == Some(d[i].value)
  {
    NameOrder();
    assert Get(d, d[i].key).Some?;
  }

  // Field names, as the bytes of their ASCII text.
  const ATTR: Name := [0x61, 0x74, 0x74, 0x72] // attr
  const LENGTH: Name := [0x6C, 0x65, 0x6E, 0x67, 0x74, 0x68] // length
  const SHA1: Name := [0x73, 0x68, 0x61, 0x31] // sha1
  const SYMLINK_PATH: Name := [0x73, 0x79, 0x6D, 0x6C, 0x69, 0x6E, 0x6B, 0x20, 0x70, 0x61, 0x74, 0x68] // symlink path
  const PIECES_ROOT: Name := [0x70, 0x69, 0x65, 0x63, 0x65, 0x73, 0x20, 0x72, 0x6F, 0x6F, 0x74] // pieces root
  const NAME: Name := [0x6E, 0x61, 0x6D, 0x65] // name
  const NAME_UTF8: Name := [0x6E, 0x61, 0x6D, 0x65, 0x2E, 0x75, 0x74, 0x66, 0x2D, 0x38] // name.utf-8
  const FILES: Name := [0x66, 0x69, 0x6C, 0x65, 0x73] // files
  const PATH: Name := [0x70, 0x61, 0x74, 0x68] // path
  const PATH_UTF8: Name := [0x70, 0x61, 0x74, 0x68, 0x2E, 0x75, 0x74, 0x66, 0x2D, 0x38] // path.utf-8
  const PIECES: Name := [0x70, 0x69, 0x65, 0x63, 0x65, 0x73] // pieces
  const PIECE_LENGTH: Name := [0x70, 0x69, 0x65, 0x63, 0x65, 0x20, 0x6C, 0x65, 0x6E, 0x67, 0x74, 0x68] // piece length
  const META_VERSION: Name := [0x6D, 0x65, 0x74, 0x61, 0x20, 0x76, 0x65, 0x72, 0x73, 0x69, 0x6F, 0x6E] // meta version
  const PRIVATE: Name := [0x70, 0x72, 0x69, 0x76, 0x61, 0x74, 0x65] // private
  const FILE_TREE: Name := [0x66, 0x69, 0x6C, 0x65, 0x20, 0x74, 0x72, 0x65, 0x65] // file tree

  function AsDict(v: Value): Result<Dictionary> { if v.Dict? then Ok(v.entries) else Err(DictionaryType) }
  function AsBytes(v: Value): Result<Name> { if v.Bytes? then Ok(v.bytes) else Err(BytesType) }
  function AsInteger(v: Value): Result<int> { if v.Integer? then Ok(v.n) else Err(IntegerType) }

  function Required(d: Dictionary, key: Name): Result<Value> {
    match Get(d, key)
    case Some(v) => Ok(v)
    case None => Err(MissingField)
  }

  function Length(d: Dictionary, key: Name): Result<nat> {
    var v :- Required(d, key);
    var n :- AsInteger(v);
    if n < 0 then Err(NegativeLength) else Ok(n)
  }

  function OptionalBytes(d: Dictionary, key: Name): Result<Option<Name>> {
    match Get(d, key)
    case None => Ok(None)
    case Some(v) => var b :- AsBytes(v); Ok(Some(b))
  }

  const SLASH: Byte := 0x2F
  const BACKSLASH: Byte := 0x5C
  const DOT: Byte := 0x2E

  predicate IsSegment(b: Name) {
    b != [] && b != [DOT] && b != [DOT, DOT] && SLASH !in b && BACKSLASH !in b && 0 !in b
  }

  function Segment(b: Name): Result<()> { if IsSegment(b) then Ok(()) else Err(InvalidPath) }

  function Segments(items: seq<Value>): (r: Result<Path>)
    ensures r.Ok? <==> forall i :: 0 <= i < |items| ==> items[i].Bytes? && IsSegment(items[i].bytes)
    ensures r.Ok? ==> |r.value| == |items| && forall i :: 0 <= i < |items| ==> items[i] == Bytes(r.value[i])
    ensures r.Err? ==> r.reason != PathConflict
  {
    if items == [] then Ok([])
    else
      var b :- AsBytes(items[0]);
      var _ :- Segment(b);
      var rest :- Segments(items[1..]);
      Ok([b] + rest)
  }

  function ReadPath(v: Value): (r: Result<Path>)
    ensures r.Ok? <==>
      v.List? && v.items != [] && forall i :: 0 <= i < |v.items| ==> v.items[i].Bytes? && IsSegment(v.items[i].bytes)
    ensures r.Ok? ==>
      |r.value| == |v.items| && forall i :: 0 <= i < |r.value| ==> v.items[i] == Bytes(r.value[i]) && IsSegment(r.value[i])
    ensures r.Err? ==> r.reason != PathConflict
  {
    if !v.List? then Err(PathType)
    else if v.items == [] then Err(EmptyPath)
    else Segments(v.items)
  }

  function OptionalPath(d: Dictionary, key: Name): Result<Option<Path>> {
    match Get(d, key)
    case None => Ok(None)
    case Some(v) => var p :- ReadPath(v); Ok(Some(p))
  }
}
