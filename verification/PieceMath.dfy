/** Piece arithmetic: ceiling division and rounding up to a piece boundary. */
module PieceMath {

  function CeilDiv(n: nat, p: nat): (q: nat)
    requires p > 0
    ensures (q - 1) * p < n <= q * p
  {
    CeilBounds(n, p);
    (n + p - 1) / p
  }

  lemma CeilBounds(n: nat, p: nat)
    requires p > 0
    ensures var q := (n + p - 1) / p; q >= 0 && (q - 1) * p < n <= q * p
  {
    var q, r := (n + p - 1) / p, (n + p - 1) % p;
    assert n + p - 1 == q * p + r;
    assert (q - 1) * p == q * p - p;
  }

  /** The bounds determine the quotient. */
  lemma CeilUnique(n: nat, p: nat, k: nat)
    requires p > 0
    requires (k - 1) * p < n <= k * p
    ensures CeilDiv(n, p) == k
  {
    var q := CeilDiv(n, p);
    if q < k { MulMonotone(q, k - 1, p); }
    if k < q { MulMonotone(k, q - 1, p); }
  }

  lemma MulMonotone(a: int, b: int, p: nat)
    requires a <= b
    ensures a * p <= b * p
  {}

  lemma MulStrict(a: int, b: int, p: nat)
    requires p > 0 && a * p < b * p
    ensures a < b
  {
    if b <= a { MulMonotone(b, a, p); }
  }

  /** The checker's padding formula reaches the next piece boundary. */
  lemma PaddingReachesBoundary(v: nat, p: nat)
    requires p > 0
    ensures v + (p - v % p) % p == CeilDiv(v, p) * p
    ensures v <= CeilDiv(v, p) * p < v + p
  {
    BoundaryAbove(v, p, v / p, v % p);
    if v % p == 0 { SelfMod(p); } else { SmallMod(p - v % p, p); }
  }

  lemma SelfMod(p: nat)
    requires p > 0
    ensures p % p == 0
  {}

  lemma SmallMod(x: nat, p: nat)
    requires x < p
    ensures x % p == x
  {}

  /** From quotient and remainder: the boundary at or above `v`. */
  lemma BoundaryAbove(v: nat, p: nat, q: nat, r: nat)
    requires p > 0 && v == q * p + r && r < p
    ensures CeilDiv(v, p) * p == if r == 0 then v else v + p - r
  {
    if r == 0 {
      assert (q - 1) * p == q * p - p;
      CeilUnique(v, p, q);
    } else {
      assert (q + 1) * p == q * p + p;
      CeilUnique(v, p, q + 1);
    }
  }

  /** Appending a file at a piece boundary adds exactly its own pieces. */
  lemma CeilAfterBoundary(k: nat, n: nat, p: nat)
    requires p > 0
    ensures CeilDiv(k * p + n, p) == k + CeilDiv(n, p)
  {
    var q := CeilDiv(n, p);
    assert (k + q) * p == k * p + q * p;
    assert (k + q - 1) * p == k * p + (q - 1) * p;
    CeilUnique(k * p + n, p, k + q);
  }

  lemma CeilFromBoundary(start: nat, k: nat, n: nat, p: nat)
    requires p > 0 && start == k * p
    ensures CeilDiv(start + n, p) == k + CeilDiv(n, p)
  {
    CeilAfterBoundary(k, n, p);
  }

  lemma CeilAtMost(n: nat, p: nat)
    requires p > 0
    ensures CeilDiv(n, p) <= n
    ensures n == 0 ==> CeilDiv(n, p) == 0
    ensures n > 0 ==> CeilDiv(n, p) > 0
  {
    var q := CeilDiv(n, p);
    if n < q { MulMonotone(n, q - 1, p); MulMonotone(1, p, n); }
  }

  /** CeilDiv is the smallest number of pieces that holds n bytes. */
  lemma CeilMonotone(m: nat, n: nat, p: nat)
    requires p > 0 && m <= n
    ensures CeilDiv(m, p) <= CeilDiv(n, p)
  {
    MulStrict(CeilDiv(m, p) - 1, CeilDiv(n, p), p);
  }
}
