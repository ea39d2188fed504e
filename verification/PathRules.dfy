/**
  Path rules of an accepted torrent. The checker sorts the paths once and looks only at neighbours
  and at one binary-search position; both shortcuts are shown equal to the all-pairs rules.
 */
module PathRules {
  import opened Common
  import opened Orders
  import opened Bencode
  import opened TorrentFiles
  import opened FileTree
  import opened Layout

  function PathsOf(files: seq<TorrentFile>): (ps: seq<Path>)
    ensures |ps| == |files| && forall i :: 0 <= i < |files| ==> ps[i] == files[i].rawPath
  {
    seq(|files|, i requires 0 <= i < |files| => files[i].rawPath)
  }

  ghost predicate NonDescending(ps: seq<Path>) {
    forall i, j :: 0 <= i < j < |ps| ==> PathAtMost(ps[i], ps[j])
  }

  function InsertPath(ps: seq<Path>, p: Path): (r: seq<Path>)
    ensures multiset(r) == multiset(ps) + multiset{p}
  {
    if ps == [] || PathAtMost(p, ps[0]) then [p] + ps
    else
      assert ps == [ps[0]] + ps[1..];
      [ps[0]] + InsertPath(ps[1..], p)
  }

  function SortPaths(ps: seq<Path>): (r: seq<Path>)
    ensures multiset(r) == multiset(ps)
  {
    if ps == [] then []
    else
      assert ps == [ps[0]] + ps[1..];
      InsertPath(SortPaths(ps[1..]), ps[0])
  }

  lemma {:induction false} InsertKeepsOrder(ps: seq<Path>, p: Path)
    requires NonDescending(ps)
    ensures NonDescending(InsertPath(ps, p))
  {
    PathOrder();
    if ps != [] && !PathAtMost(p, ps[0]) {
      InsertKeepsOrder(ps[1..], p);
      var rest := InsertPath(ps[1..], p);
      forall j | 0 <= j < |rest| ensures PathAtMost(ps[0], rest[j]) {
        assert rest[j] in multiset(rest);
        assert rest[j] == p || rest[j] in ps[1..];
      }
    }
  }

  lemma {:induction false} SortOrders(ps: seq<Path>)
    ensures NonDescending(SortPaths(ps))
  {
    if ps != [] {
      SortOrders(ps[1..]);
      InsertKeepsOrder(SortPaths(ps[1..]), ps[0]);
    }
  }

  // ---- the all-pairs rule depends only on which paths occur and how often

  ghost predicate NoPairConflicts(ps: seq<Path>) {
    forall i, j :: 0 <= i < |ps| && 0 <= j < |ps| && i != j ==> !(ps[i] <= ps[j])
  }

  ghost predicate ConflictFree(m: multiset<Path>) {
    forall p, q :: p in m && q in m && p <= q ==> p == q && m[p] == 1
  }

  lemma {:induction false} Occurrences(ps: seq<Path>, p: Path)
    ensures multiset(ps)[p] >= 2 <==> exists i, j :: 0 <= i < j < |ps| && ps[i] == p && ps[j] == p
  {
    if ps != [] {
      assert ps == [ps[0]] + ps[1..];
      Occurrences(ps[1..], p);
      if ps[0] == p && p in ps[1..] {
        var j :| 0 <= j < |ps[1..]| && ps[1..][j] == p;
        assert ps[0] == p && ps[j + 1] == p;
      }
      if exists i, j :: 0 <= i < j < |ps| && ps[i] == p && ps[j] == p {
        var i, j :| 0 <= i < j < |ps| && ps[i] == p && ps[j] == p;
        assert ps[1..][j - 1] == p;
        if i > 0 { assert ps[1..][i - 1] == p; }
      }
      if exists i, j :: 0 <= i < j < |ps[1..]| && ps[1..][i] == p && ps[1..][j] == p {
        var i, j :| 0 <= i < j < |ps[1..]| && ps[1..][i] == p && ps[1..][j] == p;
        assert ps[i + 1] == p && ps[j + 1] == p;
      }
    }
  }

  lemma PairsFromMultiset(ps: seq<Path>)
    ensures NoPairConflicts(ps) <==> ConflictFree(multiset(ps))
  {
    if NoPairConflicts(ps) {
      forall p, q | p in multiset(ps) && q in multiset(ps) && p <= q
        ensures p == q && multiset(ps)[p] == 1
      {
        var i :| 0 <= i < |ps| && ps[i] == p;
        var j :| 0 <= j < |ps| && ps[j] == q;
        assert i == j;
        Occurrences(ps, p);
      }
    }
    if ConflictFree(multiset(ps)) {
      forall i, j | 0 <= i < |ps| && 0 <= j < |ps| && i != j ensures !(ps[i] <= ps[j]) {
        if ps[i] <= ps[j] {
          assert ps[i] in multiset(ps) && ps[j] in multiset(ps);
          Occurrences(ps, ps[i]);
        }
      }
    }
  }

  // ---- neighbours suffice

  /** In a sorted list, any conflict shows up between two neighbours. */
  lemma NeighboursSuffice(ps: seq<Path>)
    requires NonDescending(ps)
    ensures NoPairConflicts(ps) <==> forall k :: 0 <= k < |ps| - 1 ==> !(ps[k] <= ps[k + 1])
  {
    PathOrder();
    NameOrder();
    if forall k :: 0 <= k < |ps| - 1 ==> !(ps[k] <= ps[k + 1]) {
      forall i, j | 0 <= i < |ps| && 0 <= j < |ps| && i != j ensures !(ps[i] <= ps[j]) {
        if ps[i] <= ps[j] {
          ConflictReachesNeighbour(ps, i, j);
        }
      }
    }
  }

  lemma ConflictReachesNeighbour(ps: seq<Path>, i: nat, j: nat)
    requires NonDescending(ps) && i < |ps| && j < |ps| && i != j && ps[i] <= ps[j]
    ensures exists k :: 0 <= k < |ps| - 1 && ps[k] <= ps[k + 1]
  {
    PathOrder();
    NameOrder();
    if ps[i] != ps[j] {
      PrefixIsSmaller(NameLess, ps[i], ps[j]);
    }
    var a, b := if i < j then i else j, if i < j then j else i;
    assert ps[a] <= ps[b] by {
      PathAsymmetric(ps[i], ps[j]);
      if j < i { assert PathAtMost(ps[j], ps[i]); }
    }
    if ps[a] != ps[a + 1] {
      assert PathLess(ps[a], ps[a + 1]);
      if b != a + 1 { assert PathAtMost(ps[a + 1], ps[b]); }
      PrefixInterval(NameLess, ps[a], ps[a + 1], ps[b]);
    }
    assert ps[a] <= ps[a + 1];
  }

  method NeighbourConflict(ps: seq<Path>) returns (conflict: bool)
    requires NonDescending(ps)
    ensures conflict <==> !NoPairConflicts(ps)
  {
    NeighboursSuffice(ps);
    for k := 0 to |ps|
      invariant forall j :: 0 <= j < k && j < |ps| - 1 ==> !(ps[j] <= ps[j + 1])
    {
      if k < |ps| - 1 && ps[k] <= ps[k + 1] {
        return true;
      }
    }
    return false;
  }

  // ---- one binary search decides a symlink

  datatype Position = Found(index: nat) | Missing(index: nat)

  method BinarySearch(ps: seq<Path>, target: Path) returns (at: Position)
    requires NonDescending(ps)
    ensures at.Found? ==> at.index < |ps| && ps[at.index] == target
    ensures at.Missing? ==>
      && at.index <= |ps|
      && (forall i :: 0 <= i < at.index ==> PathLess(ps[i], target))
      && (forall i :: at.index <= i < |ps| ==> PathLess(target, ps[i]))
  {
    PathOrder();
    var low, high := 0, |ps|;
    while low < high
      invariant 0 <= low <= high <= |ps|
      invariant forall i :: 0 <= i < low ==> PathLess(ps[i], target)
      invariant forall i :: high <= i < |ps| ==> PathLess(target, ps[i])
    {
      var mid := (low + high) / 2;
      if ps[mid] == target {
        return Found(mid);
      } else if PathLess(ps[mid], target) {
        low := mid + 1;
      } else {
        high := mid;
      }
    }
    return Missing(low);
  }

  /** The target is a listed path, or a directory above one. */
  ghost predicate Resolves(ps: seq<Path>, target: Path) {
    exists i :: 0 <= i < |ps| && target <= ps[i]
  }

  /** If any path extends a missing target, then the first path after the target does. */
  lemma FirstLargerExtends(ps: seq<Path>, target: Path, index: nat)
    requires NonDescending(ps) && index <= |ps|
    requires forall i :: 0 <= i < index ==> PathLess(ps[i], target)
    requires forall i :: index <= i < |ps| ==> PathLess(target, ps[i])
    ensures Resolves(ps, target) <==> index < |ps| && target <= ps[index]
  {
    if Resolves(ps, target) {
      var i :| 0 <= i < |ps| && target <= ps[i];
      ExtensionIsNotSmaller(target, ps[i]);
      assert index <= i;
      if index < i {
        PathOrder();
        NameOrder();
        assert PathAtMost(ps[index], ps[i]);
        PrefixInterval(NameLess, target, ps[index], ps[i]);
      }
    }
  }

  lemma ExtensionIsNotSmaller(p: Path, q: Path)
    requires p <= q
    ensures !PathLess(q, p)
  {
    NameOrder();
    if p == q {
      LexIrreflexive(NameLess, p);
    } else {
      PrefixIsSmaller(NameLess, p, q);
      PathAsymmetric(p, q);
    }
  }

  method ResolveTarget(ps: seq<Path>, target: Path) returns (ok: bool)
    requires NonDescending(ps)
    ensures ok <==> Resolves(ps, target)
  {
    var at := BinarySearch(ps, target);
    match at {
      case Found(index) =>
        assert target <= ps[index];
        return true;
      case Missing(index) =>
        FirstLargerExtends(ps, target, index);
        return index < |ps| && target <= ps[index];
    }
  }

  // ---- the whole path check

  ghost predicate Dangling(files: seq<TorrentFile>, f: TorrentFile) {
    f.rawTarget.Some? && !Resolves(PathsOf(Contents(files)), f.rawTarget.value)
  }

  lemma ResolvesFromMultiset(ps: seq<Path>, qs: seq<Path>, target: Path)
    requires multiset(ps) == multiset(qs) && Resolves(ps, target)
    ensures Resolves(qs, target)
  {
    var i :| 0 <= i < |ps| && target <= ps[i];
    assert ps[i] in multiset(qs);
  }

  method SortedContents(files: seq<TorrentFile>) returns (paths: seq<Path>)
    ensures NonDescending(paths) && multiset(paths) == multiset(PathsOf(Contents(files)))
    ensures NoPairConflicts(paths) <==> PrefixFree(Contents(files))
  {
    var listed := PathsOf(Contents(files));
    paths := SortPaths(listed);
    SortOrders(listed);
    PairsFromMultiset(listed);
    PairsFromMultiset(paths);
    assert NoPairConflicts(listed) <==> PrefixFree(Contents(files));
  }

  method FindDangling(files: seq<TorrentFile>, paths: seq<Path>) returns (dangling: bool)
    requires NonDescending(paths) && multiset(paths) == multiset(PathsOf(Contents(files)))
    ensures dangling <==> exists i :: 0 <= i < |files| && Dangling(files, files[i])
  {
    ghost var listed := PathsOf(Contents(files));
    for k := 0 to |files|
      invariant forall j :: 0 <= j < k ==> !Dangling(files, files[j])
    {
      if files[k].rawTarget.Some? {
        var target := files[k].rawTarget.value;
        var ok := ResolveTarget(paths, target);
        if !ok {
          if Resolves(listed, target) { ResolvesFromMultiset(listed, paths, target); }
          assert Dangling(files, files[k]);
          return true;
        }
        ResolvesFromMultiset(paths, listed, target);
      }
    }
    return false;
  }

  /** The path stage of the checker against the all-pairs rules, on every list of files. */
  method CheckPaths(files: seq<TorrentFile>) returns (r: Result<()>)
    ensures r == Err(PathConflict) <==> !PrefixFree(Contents(files))
    ensures r == Err(DanglingSymlink) <==>
      PrefixFree(Contents(files)) && exists i :: 0 <= i < |files| && Dangling(files, files[i])
    ensures r.Err? ==> r.reason in {PathConflict, DanglingSymlink}
  {
    var paths := SortedContents(files);
    var conflict := NeighbourConflict(paths);
    if conflict {
      return Err(PathConflict);
    }
    var dangling := FindDangling(files, paths);
    return if dangling then Err(DanglingSymlink) else Ok(());
  }

  /** A flattened tree, or a v1 list whose contents are one, never trips the conflict rule. */
  lemma TreeHasNoConflict(d: Dictionary, files: seq<TorrentFile>)
    requires Ordered(d) && Flatten(d, []).Ok? && Contents(files) == Flatten(d, []).value
    ensures PrefixFree(Contents(files))
  {
    FlattenAscends(d, []);
  }
}
