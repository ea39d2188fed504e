/**
  The v2 file tree: depth-first flattening, the paths it can produce, and the in-place walk that
  the checker performs with one shared path and one shared output list.
 */
module FileTree {
  import opened Common
  import opened Orders
  import opened Bencode
  import opened TorrentFiles

  function ParseLeaf(leaf: Value, path: Path): (r: Result<TorrentFile>)
    ensures r.Ok? ==> r.value.rawPath == path && !r.value.kind.Padding?
    ensures r.Ok? ==> r.value.length < 0x8000_0000_0000_0000
    ensures r.Err? ==> r.reason != PathConflict
  {
    var properties :- AsDict(leaf);
    var f :- ParseFile(properties, path);
    if f.kind.Padding? then Err(V2PaddingFile)
    else
      var root :- OptionalBytes(properties, PIECES_ROOT);
      if (f.length > 0 && root.None?) || (root.Some? && |root.value| != 32) then Err(PiecesRoot)
      else Ok(f)
  }

  function Flatten(d: Dictionary, path: Path): (r: Result<seq<TorrentFile>>)
    ensures r.Err? ==> r.reason != PathConflict
    decreases d, 1
  {
    match Get(d, [])
    case Some(leaf) =>
      if path == [] || |d| != 1 then Err(FileTreeConflict)
      else
        var f :- ParseLeaf(leaf, path);
        Ok([f])
    case None => FlattenChildren(d, path)
  }

  function FlattenChildren(d: Dictionary, path: Path): (r: Result<seq<TorrentFile>>)
    ensures r.Err? ==> r.reason != PathConflict
    decreases d, 0
  {
    if d == [] then Ok([])
    else
      var _ :- Segment(d[0].key);
      var child :- AsDict(d[0].value);
      var first :- Flatten(child, path + [d[0].key]);
      var rest :- FlattenChildren(d[1..], path);
      Ok(first + rest)
  }

  ghost predicate Ascending(files: seq<TorrentFile>) {
    forall i, j :: 0 <= i < j < |files| ==> PathLess(files[i].rawPath, files[j].rawPath)
  }

  /** No file sits at, or below, the path of another. */
  ghost predicate PrefixFree(files: seq<TorrentFile>) {
    forall i, j :: 0 <= i < |files| && 0 <= j < |files| && i != j ==> !(files[i].rawPath <= files[j].rawPath)
  }

  ghost predicate AllUnder(files: seq<TorrentFile>, path: Path) {
    forall i :: 0 <= i < |files| ==> path <= files[i].rawPath
  }

  /** Every file continues `path` with a key of `d`. */
  ghost predicate StartWithKeys(files: seq<TorrentFile>, path: Path, d: Dictionary) {
    forall i :: 0 <= i < |files| ==>
      && |path| < |files[i].rawPath|
      && path <= files[i].rawPath
      && exists k :: 0 <= k < |d| && d[k].key == files[i].rawPath[|path|]
  }

  lemma {:induction false} FirstDifferenceDecides(base: Path, p: Path, q: Path)
    requires base <= p && base <= q && |base| < |p| && |base| < |q|
    requires NameLess(p[|base|], q[|base|])
    ensures PathLess(p, q) && !(p <= q) && !(q <= p)
  {
    NameOrder();
    if base != [] {
      FirstDifferenceDecides(base[1..], p[1..], q[1..]);
    }
  }

  lemma ConcatKeepsOrder(first: seq<TorrentFile>, rest: seq<TorrentFile>, path: Path, key: Name, d: Dictionary)
    requires Ascending(first) && PrefixFree(first) && Ascending(rest) && PrefixFree(rest)
    requires AllUnder(first, path + [key]) && StartWithKeys(rest, path, d)
    requires forall k :: 0 <= k < |d| ==> NameLess(key, d[k].key)
    ensures Ascending(first + rest) && PrefixFree(first + rest)
  {
    forall i, j | 0 <= i < |first| && 0 <= j < |rest|
      ensures PathLess(first[i].rawPath, rest[j].rawPath)
      ensures !(first[i].rawPath <= rest[j].rawPath) && !(rest[j].rawPath <= first[i].rawPath)
    {
      assert path + [key] <= first[i].rawPath;
      FirstDifferenceDecides(path, first[i].rawPath, rest[j].rawPath);
    }
  }

  /** Flattening an ordered tree yields strictly ascending, prefix-free paths below the start. */
  lemma {:induction false} FlattenAscends(d: Dictionary, path: Path)
    requires Ordered(d) && Flatten(d, path).Ok?
    ensures Ascending(Flatten(d, path).value) && PrefixFree(Flatten(d, path).value)
    ensures AllUnder(Flatten(d, path).value, path)
    decreases d, 1
  {
    if Get(d, []).None? {
      ChildrenAscend(d, path);
    }
  }

  lemma {:induction false} ChildrenAscend(d: Dictionary, path: Path)
    requires Ordered(d) && FlattenChildren(d, path).Ok?
    ensures Ascending(FlattenChildren(d, path).value) && PrefixFree(FlattenChildren(d, path).value)
    ensures StartWithKeys(FlattenChildren(d, path).value, path, d)
    decreases d, 0
  {
    if d != [] {
      var key, child := d[0].key, d[0].value.entries;
      var first := Flatten(child, path + [key]).value;
      var rest := FlattenChildren(d[1..], path).value;
      FlattenAscends(child, path + [key]);
      ChildrenAscend(d[1..], path);
      ConcatKeepsOrder(first, rest, path, key, d[1..]);
      forall i | 0 <= i < |first|
        ensures |path| < |first[i].rawPath| && path <= first[i].rawPath && first[i].rawPath[|path|] == d[0].key
      {
        assert path + [key] <= first[i].rawPath;
      }
      forall i | 0 <= i < |rest|
        ensures exists k :: 0 <= k < |d| && d[k].key == rest[i].rawPath[|path|]
      {
        var k :| 0 <= k < |d[1..]| && d[1..][k].key == rest[i].rawPath[|path|];
        assert d[k + 1].key == rest[i].rawPath[|path|];
      }
    }
  }

  /** Reference reading of the tree: the directory or leaf reached by following `rel`. */
  function NodeAt(d: Dictionary, rel: Path): (n: Option<Dictionary>)
    decreases rel
  {
    if rel == [] then Some(d)
    else
      match Get(d, rel[0])
      case Some(Dict(child)) => NodeAt(child, rel[1..])
      case _ => None
  }

  /** `rel` names a leaf: no empty component, and the node reached carries file properties. */
  ghost predicate LeafAt(d: Dictionary, rel: Path) {
    [] !in rel && NodeAt(d, rel).Some? && Get(NodeAt(d, rel).value, []).Some?
  }

  ghost function LeafProperties(d: Dictionary, rel: Path): Value
    requires LeafAt(d, rel)
  {
    Get(NodeAt(d, rel).value, []).value
  }

  ghost predicate Lists(files: seq<TorrentFile>, p: Path) {
    exists i :: 0 <= i < |files| && files[i].rawPath == p
  }

  /** Every listed file is the parsed leaf found at its path. */
  ghost predicate FilesAreLeaves(files: seq<TorrentFile>, d: Dictionary, path: Path) {
    forall i :: 0 <= i < |files| ==>
      && path <= files[i].rawPath
      && LeafAt(d, files[i].rawPath[|path|..])
      && ParseLeaf(LeafProperties(d, files[i].rawPath[|path|..]), files[i].rawPath) == Ok(files[i])
  }

  lemma {:induction false} FilesComeFromLeaves(d: Dictionary, path: Path)
    requires Ordered(d) && Flatten(d, path).Ok?
    ensures FilesAreLeaves(Flatten(d, path).value, d, path)
    decreases d, 1
  {
    if Get(d, []).None? {
      ChildFilesComeFromLeaves(d, path, 0);
      assert d[0..] == d;
    }
  }

  /** A leaf of a child, seen from its parent. */
  lemma LeafOfChild(d: Dictionary, k: nat, rel: Path)
    requires KeysAscend(d) && k < |d| && d[k].key != [] && d[k].value.Dict?
    requires LeafAt(d[k].value.entries, rel)
    ensures LeafAt(d, [d[k].key] + rel)
    ensures LeafProperties(d, [d[k].key] + rel) == LeafProperties(d[k].value.entries, rel)
  {
    GetAt(d, k);
    assert ([d[k].key] + rel)[1..] == rel;
  }

  lemma ChildLeavesAreLeaves(files: seq<TorrentFile>, d: Dictionary, path: Path, k: nat)
    requires KeysAscend(d) && k < |d| && d[k].key != [] && d[k].value.Dict?
    requires FilesAreLeaves(files, d[k].value.entries, path + [d[k].key])
    ensures FilesAreLeaves(files, d, path)
  {
    forall i | 0 <= i < |files|
      ensures path <= files[i].rawPath
      ensures LeafAt(d, files[i].rawPath[|path|..])
      ensures ParseLeaf(LeafProperties(d, files[i].rawPath[|path|..]), files[i].rawPath) == Ok(files[i])
    {
      var p := files[i].rawPath;
      PathBelow(path, d[k].key, p);
      LeafOfChild(d, k, p[|path| + 1..]);
    }
  }

  lemma PathBelow(path: Path, key: Name, p: Path)
    requires path + [key] <= p
    ensures path <= p && p[|path + [key]|..] == p[|path| + 1..] && p[|path|..] == [key] + p[|path| + 1..]
  {
    assert p[|path|] == (path + [key])[|path|];
  }

  lemma {:induction false} ChildFilesComeFromLeaves(d: Dictionary, path: Path, from: nat)
    requires Ordered(d) && from <= |d| && FlattenChildren(d[from..], path).Ok?
    ensures FilesAreLeaves(FlattenChildren(d[from..], path).value, d, path)
    decreases d, 0, |d| - from
  {
    if from < |d| {
      assert d[from..][0] == d[from] && d[from..][1..] == d[from + 1..];
      var child := d[from].value.entries;
      FilesComeFromLeaves(child, path + [d[from].key]);
      ChildLeavesAreLeaves(Flatten(child, path + [d[from].key]).value, d, path, from);
      ChildFilesComeFromLeaves(d, path, from + 1);
    }
  }

  /** A node with a named entry is a directory: it cannot also carry file properties. */
  lemma NamedEntryMeansDirectory(d: Dictionary, path: Path, key: Name)
    requires Flatten(d, path).Ok? && key != [] && Get(d, key).Some?
    ensures FlattenChildren(d, path) == Flatten(d, path)
  {
    if Get(d, []).Some? {
      assert false;
    }
  }

  lemma StepDown(path: Path, rel: Path)
    requires rel != []
    ensures path + [rel[0]] + rel[1..] == path + rel && rel[0] in rel
    ensures forall n :: n in rel[1..] ==> n in rel
  {}

  lemma {:induction false} LeavesAreListed(d: Dictionary, path: Path, rel: Path)
    requires Flatten(d, path).Ok? && LeafAt(d, rel)
    ensures Lists(Flatten(d, path).value, path + rel)
    decreases |rel|
  {
    if rel == [] {
      assert path + rel == path;
      assert Flatten(d, path).value[0].rawPath == path;
    } else {
      var key, rest := rel[0], rel[1..];
      StepDown(path, rel);
      NamedEntryMeansDirectory(d, path, key);
      var i :| 0 <= i < |d| && d[i].key == key && d[i].value == Get(d, key).value;
      ChildIsListed(d, path, i);
      LeavesAreListed(d[i].value.entries, path + [key], rest);
    }
  }

  /** The files of the i-th child appear among the files of the directory. */
  lemma {:induction false} ChildIsListed(d: Dictionary, path: Path, i: nat)
    requires FlattenChildren(d, path).Ok? && i < |d|
    ensures d[i].value.Dict? && Flatten(d[i].value.entries, path + [d[i].key]).Ok?
    ensures forall p :: Lists(Flatten(d[i].value.entries, path + [d[i].key]).value, p) ==>
      Lists(FlattenChildren(d, path).value, p)
    decreases i
  {
    var first := Flatten(d[0].value.entries, path + [d[0].key]).value;
    var rest := FlattenChildren(d[1..], path).value;
    forall p ensures (Lists(first, p) || Lists(rest, p)) ==> Lists(first + rest, p) {
      if Lists(first, p) {
        var k :| 0 <= k < |first| && first[k].rawPath == p;
        assert (first + rest)[k].rawPath == p;
      } else if Lists(rest, p) {
        var k :| 0 <= k < |rest| && rest[k].rawPath == p;
        assert (first + rest)[|first| + k].rawPath == p;
      }
    }
    if i > 0 {
      ChildIsListed(d[1..], path, i - 1);
    }
  }

  /** An accepted tree lists exactly its leaves, each once, in ascending prefix-free order. */
  lemma FlattenIsExact(d: Dictionary)
    requires Ordered(d) && Flatten(d, []).Ok?
    ensures var files := Flatten(d, []).value;
      && Ascending(files) && PrefixFree(files)
      && (forall p: Path :: Lists(files, p) <==> LeafAt(d, p))
      && (forall i :: 0 <= i < |files| ==>
            LeafAt(d, files[i].rawPath) && ParseLeaf(LeafProperties(d, files[i].rawPath), files[i].rawPath) == Ok(files[i]))
  {
    var files := Flatten(d, []).value;
    FlattenAscends(d, []);
    FilesComeFromLeaves(d, []);
    forall i | 0 <= i < |files|
      ensures LeafAt(d, files[i].rawPath)
      ensures ParseLeaf(LeafProperties(d, files[i].rawPath), files[i].rawPath) == Ok(files[i])
    {
      assert files[i].rawPath[0..] == files[i].rawPath;
    }
    forall p: Path | LeafAt(d, p) ensures Lists(files, p) {
      LeavesAreListed(d, [], p);
      assert [] + p == p;
    }
  }

  /** The checker's walk: one path stack and one output list, pushed and popped in place. */
  class TreeWalk {
    var path: Path
    var out: seq<TorrentFile>

    constructor ()
      ensures path == [] && out == []
    {
      path, out := [], [];
    }

    method Walk(d: Dictionary) returns (r: Result<()>)
      modifies this
      ensures r.Ok? <==> Flatten(d, old(path)).Ok?
      ensures r.Ok? ==> path == old(path) && out == old(out) + Flatten(d, old(path)).value
      ensures r.Err? ==> Flatten(d, old(path)) == Err(r.reason)
      decreases d
    {
      var leaf := Get(d, []);
      if leaf.Some? {
        if path == [] || |d| != 1 {
          return Err(FileTreeConflict);
        }
        var f :- ParseLeaf(leaf.value, path);
        out := out + [f];
        return Ok(());
      }
      ghost var base, start := path, out;
      assert d[0..] == d;
      for i := 0 to |d|
        invariant path == base
        invariant FlattenChildren(d[i..], base).Ok? ==>
          FlattenChildren(d, base).Ok? && start + FlattenChildren(d, base).value == out + FlattenChildren(d[i..], base).value
        invariant FlattenChildren(d[i..], base).Err? ==> FlattenChildren(d, base) == FlattenChildren(d[i..], base)
      {
        assert d[i..][0] == d[i] && d[i..][1..] == d[i + 1..];
        var _ :- Segment(d[i].key);
        path := path + [d[i].key];
        var child :- AsDict(d[i].value);
        var _ :- Walk(child);
        path := path[..|path| - 1];
      }
      return Ok(());
    }
  }
}
