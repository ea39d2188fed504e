/** Strict total orders, and the lexicographic order that byte strings and torrent paths use. */
module Orders {

  type Byte = x: int | 0 <= x < 256
  type Name = seq<Byte>
  type Path = seq<Name>

  ghost predicate StrictTotal<T(!new)>(lt: (T, T) -> bool) {
    && (forall x :: !lt(x, x))
    && (forall x, y :: lt(x, y) || lt(y, x) || x == y)
    && (forall x, y, z :: lt(x, y) && lt(y, z) ==> lt(x, z))
  }

  /** Slice order of the standard library: first difference decides, a proper prefix comes first. */
  predicate LexLess<T(==)>(lt: (T, T) -> bool, a: seq<T>, b: seq<T>) {
    |b| > 0 && (|a| == 0 || lt(a[0], b[0]) || (a[0] == b[0] && LexLess(lt, a[1..], b[1..])))
  }

  predicate ByteLess(a: Byte, b: Byte) { a < b }

  predicate NameLess(a: Name, b: Name) { LexLess(ByteLess, a, b) }

  predicate PathLess(a: Path, b: Path) { LexLess(NameLess, a, b) }

  predicate PathAtMost(a: Path, b: Path) { a == b || PathLess(a, b) }

  lemma {:induction false} LexIrreflexive<T(!new)>(lt: (T, T) -> bool, a: seq<T>)
    requires StrictTotal(lt)
    ensures !LexLess(lt, a, a)
  {
    if a != [] {
      LexIrreflexive(lt, a[1..]);
    }
  }

  lemma {:induction false} LexConnected<T(!new)>(lt: (T, T) -> bool, a: seq<T>, b: seq<T>)
    requires StrictTotal(lt)
    ensures LexLess(lt, a, b) || LexLess(lt, b, a) || a == b
  {
    if a != [] && b != [] && a[0] == b[0] {
      LexConnected(lt, a[1..], b[1..]);
      if a[1..] == b[1..] {
        assert a == [a[0]] + a[1..] && b == [b[0]] + b[1..];
      }
    }
  }

  lemma {:induction false} LexTransitive<T(!new)>(lt: (T, T) -> bool, a: seq<T>, b: seq<T>, c: seq<T>)
    requires StrictTotal(lt)
    requires LexLess(lt, a, b) && LexLess(lt, b, c)
    ensures LexLess(lt, a, c)
  {
    if a != [] && a[0] == b[0] && b[0] == c[0] {
      LexTransitive(lt, a[1..], b[1..], c[1..]);
    }
  }

  lemma ByteOrder()
    ensures StrictTotal(ByteLess)
  {}

  lemma NameOrder()
    ensures StrictTotal(NameLess)
  {
    ByteOrder();
    forall x: Name ensures !NameLess(x, x) { LexIrreflexive(ByteLess, x); }
    forall x: Name, y: Name ensures NameLess(x, y) || NameLess(y, x) || x == y { LexConnected(ByteLess, x, y); }
    forall x: Name, y: Name, z: Name | NameLess(x, y) && NameLess(y, z) ensures NameLess(x, z) {
      LexTransitive(ByteLess, x, y, z);
    }
  }

  lemma PathOrder()
    ensures StrictTotal(PathLess)
  {
    NameOrder();
    forall x: Path ensures !PathLess(x, x) { LexIrreflexive(NameLess, x); }
    forall x: Path, y: Path ensures PathLess(x, y) || PathLess(y, x) || x == y { LexConnected(NameLess, x, y); }
    forall x: Path, y: Path, z: Path | PathLess(x, y) && PathLess(y, z) ensures PathLess(x, z) {
      LexTransitive(NameLess, x, y, z);
    }
  }

  lemma PathAsymmetric(p: Path, q: Path)
    ensures !(PathLess(p, q) && PathLess(q, p))
  {
    NameOrder();
    LexIrreflexive(NameLess, p);
    if PathLess(p, q) && PathLess(q, p) { LexTransitive(NameLess, p, q, p); }
  }

  /** A proper prefix is smaller than its extensions. */
  lemma {:induction false} PrefixIsSmaller<T(!new)>(lt: (T, T) -> bool, a: seq<T>, b: seq<T>)
    requires StrictTotal(lt)
    requires a <= b && a != b
    ensures LexLess(lt, a, b)
  {
    if a != [] {
      assert a[1..] <= b[1..];
      assert a == [a[0]] + a[1..] && b == [b[0]] + b[1..];
      PrefixIsSmaller(lt, a[1..], b[1..]);
    }
  }

  /** Everything between a string and one of its extensions is itself an extension. */
  lemma {:induction false} PrefixInterval<T(!new)>(lt: (T, T) -> bool, a: seq<T>, m: seq<T>, b: seq<T>)
    requires StrictTotal(lt)
    requires a <= b
    requires LexLess(lt, a, m)
    requires m == b || LexLess(lt, m, b)
    ensures a <= m
  {
    if a != [] && m != b {
      assert m[0] == a[0];
      PrefixInterval(lt, a[1..], m[1..], b[1..]);
      assert m == [m[0]] + m[1..] && a == [a[0]] + a[1..];
    }
  }
}
