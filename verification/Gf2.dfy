/** Polynomials over the two-element field: words as coefficient lists, products coefficient by
    coefficient. */
module Gf2 {
  import opened Bits

  /** The sum of the first `n` values. */
  function XorSum(f: int -> bool, n: nat): bool {
    n > 0 && (XorSum(f, n - 1) != f(n - 1))
  }

  lemma {:induction false} SumOfEqual(f: int -> bool, g: int -> bool, n: nat)
    requires forall i | 0 <= i < n :: f(i) == g(i)
    ensures XorSum(f, n) == XorSum(g, n)
  {
    if n > 0 {
      SumOfEqual(f, g, n - 1);
    }
  }

  lemma {:induction false} SumOfZeros(f: int -> bool, n: nat)
    requires forall i | 0 <= i < n :: !f(i)
    ensures !XorSum(f, n)
  {
    if n > 0 {
      SumOfZeros(f, n - 1);
    }
  }

  lemma {:induction false} SumOfSums(f: int -> bool, g: int -> bool, n: nat)
    ensures XorSum(i => f(i) != g(i), n) == (XorSum(f, n) != XorSum(g, n))
  {
    if n > 0 {
      SumOfSums(f, g, n - 1);
    }
  }

  lemma {:induction false} SumSplit(f: int -> bool, n: nat, m: nat)
    ensures XorSum(f, n + m) == (XorSum(f, n) != XorSum(i => f(n + i), m))
  {
    if m > 0 {
      SumSplit(f, n, m - 1);
    }
  }

  lemma {:induction false} SumReversed(f: int -> bool, n: nat)
    ensures XorSum(i => f(n - 1 - i), n) == XorSum(f, n)
  {
    if n > 0 {
      SumReversed(f, n - 1);
      var g := i => f(n - 1 - i);
      SumSplit(g, 1, n - 1);
      SumOfEqual(i => g(1 + i), i => f(n - 1 - 1 - i), n - 1);
      assert XorSum(g, 1) == g(0);
    }
  }

  /** A factor common to all terms can be taken out. */
  lemma {:induction false} SumScaled(f: int -> bool, c: bool, n: nat)
    ensures XorSum(i => c && f(i), n) == (c && XorSum(f, n))
  {
    if n > 0 {
      SumScaled(f, c, n - 1);
    }
  }

  // ------------------------------------------------------------------ products

  /** A coefficient, zero outside the word. */
  predicate At(a: Word, i: int) {
    0 <= i < |a| && a[i]
  }

  function Terms(a: Word, b: Word, r: int): int -> bool {
    i => At(a, i) && At(b, r - i)
  }

  /** Coefficient `r` of the product. */
  function Coef(a: Word, b: Word, r: nat): bool {
    XorSum(Terms(a, b, r), r + 1)
  }

  lemma CoefSymmetric(a: Word, b: Word, r: nat)
    ensures Coef(a, b, r) == Coef(b, a, r)
  {
    SumReversed(Terms(a, b, r), r + 1);
    SumOfEqual(i => Terms(a, b, r)(r + 1 - 1 - i), Terms(b, a, r), r + 1);
  }

  /** Any number of terms that includes the nonzero ones gives the coefficient. */
  lemma CoefTerms(a: Word, b: Word, r: nat, n: nat)
    requires n > r || n >= |a|
    ensures XorSum(Terms(a, b, r), n) == Coef(a, b, r)
  {
    var f := Terms(a, b, r);
    if n > r {
      SumSplit(f, r + 1, n - r - 1);
      SumOfZeros(i => f(r + 1 + i), n - r - 1);
    } else {
      SumSplit(f, n, r + 1 - n);
      SumOfZeros(i => f(n + i), r + 1 - n);
    }
  }

  function Rest(n: nat, j: int): nat {
    if 0 <= j < n then n - j else 0
  }

  lemma DiagonalGrows(f: (int, int) -> bool, n: nat, j: nat)
    requires j < n
    ensures XorSum(t => f(j + t, j), Rest(n, j)) == (XorSum(t => f(j + t, j), Rest(n - 1, j)) != f(n - 1, j))
  {
    var g := t => f(j + t, j);
    assert XorSum(g, n - j) == (XorSum(g, n - j - 1) != g(n - j - 1));
    SumOfEqual(t => f(j + t, j), g, n - j);
    SumOfEqual(t => f(j + t, j), g, n - j - 1);
  }

  function Count(i: int): nat {
    if i < 0 then 0 else i + 1
  }

  /** The triangle of products, summed by rows or by diagonals. */
  lemma {:induction false} Triangle(f: (int, int) -> bool, n: nat)
    ensures XorSum(i => XorSum(j => f(i, j), Count(i)), n) == XorSum(j => XorSum(t => f(j + t, j), Rest(n, j)), n)
  {
    if n > 0 {
      Triangle(f, n - 1);
      var rows := i => XorSum(j => f(i, j), Count(i));
      var last := j => f(n - 1, j);
      var shorter := j => XorSum(t => f(j + t, j), Rest(n - 1, j));
      var longer := j => XorSum(t => f(j + t, j), Rest(n, j));
      forall j | 0 <= j < n ensures longer(j) == (shorter(j) != last(j)) {
        DiagonalGrows(f, n, j);
      }
      SumOfSums(shorter, last, n);
      SumOfEqual(longer, j => shorter(j) != last(j), n);
      assert !shorter(n - 1);
      assert XorSum(shorter, n) == XorSum(shorter, n - 1);
      assert rows(n - 1) == XorSum(j => f(n - 1, j), n);
      SumOfEqual(j => f(n - 1, j), last, n);
      assert XorSum(rows, n) == (XorSum(rows, n - 1) != rows(n - 1));
    }
  }

  /** The product modulo x^w. */
  function Product(a: Word, b: Word, w: nat): (c: Word)
    ensures |c| == w
  {
    seq(w, r requires 0 <= r < w => Coef(a, b, r))
  }

  function Triple(a: Word, b: Word, c: Word, r: int): (int, int) -> bool {
    (i, j) => At(a, j) && At(b, i - j) && At(c, r - i)
  }

  lemma RowOfTriple(a: Word, b: Word, c: Word, w: nat, r: nat, i: nat)
    requires i <= r < w
    ensures Terms(Product(a, b, w), c, r)(i) == XorSum(j => Triple(a, b, c, r)(i, j), Count(i))
  {
    SumScaled(Terms(a, b, i), At(c, r - i), i + 1);
    var f, s, g := Triple(a, b, c, r), At(c, r - i), Terms(a, b, i);
    var row, scaled := j => f(i, j), j => s && g(j);
    forall j | 0 <= j < i + 1 ensures row(j) == scaled(j) {
    }
    SumOfEqual(row, scaled, i + 1);
  }

  lemma DiagonalOfTriple(a: Word, b: Word, c: Word, w: nat, r: nat, j: nat)
    requires j <= r < w
    ensures Terms(a, Product(b, c, w), r)(j) == XorSum(t => Triple(a, b, c, r)(j + t, j), Rest(r + 1, j))
  {
    SumScaled(Terms(b, c, r - j), At(a, j), r - j + 1);
    var f, s, g := Triple(a, b, c, r), At(a, j), Terms(b, c, r - j);
    var diagonal, scaled := t => f(j + t, j), t => s && g(t);
    forall t | 0 <= t < r - j + 1 ensures diagonal(t) == scaled(t) {
    }
    SumOfEqual(diagonal, scaled, r - j + 1);
  }

  lemma ProductAssociative(a: Word, b: Word, c: Word, w: nat, r: nat)
    requires r < w
    ensures Coef(Product(a, b, w), c, r) == Coef(a, Product(b, c, w), r)
  {
    var f := Triple(a, b, c, r);
    Triangle(f, r + 1);
    var rows := i => XorSum(j => f(i, j), Count(i));
    var diagonals := j => XorSum(t => f(j + t, j), Rest(r + 1, j));
    forall i | 0 <= i < r + 1 ensures Terms(Product(a, b, w), c, r)(i) == rows(i) {
      RowOfTriple(a, b, c, w, r, i);
    }
    SumOfEqual(Terms(Product(a, b, w), c, r), rows, r + 1);
    forall j | 0 <= j < r + 1 ensures Terms(a, Product(b, c, w), r)(j) == diagonals(j) {
      DiagonalOfTriple(a, b, c, w, r, j);
    }
    SumOfEqual(Terms(a, Product(b, c, w), r), diagonals, r + 1);
    SumOfEqual(rows, i => XorSum(j => f(i, j), Count(i)), r + 1);
    SumOfEqual(diagonals, j => XorSum(t => f(j + t, j), Rest(r + 1, j)), r + 1);
  }

  /** Only the coefficients up to `r` matter for coefficient `r`. */
  lemma CoefLocal(a: Word, a': Word, b: Word, b': Word, r: nat)
    requires forall i | 0 <= i <= r :: At(a, i) == At(a', i)
    requires forall i | 0 <= i <= r :: At(b, i) == At(b', i)
    ensures Coef(a, b, r) == Coef(a', b', r)
  {
    SumOfEqual(Terms(a, b, r), Terms(a', b', r), r + 1);
  }

  /** Multiplying by one. */
  lemma CoefOne(a: Word, one: Word, r: nat)
    requires forall i | 0 <= i <= r :: At(one, i) == (i == 0)
    ensures Coef(a, one, r) == At(a, r)
  {
    var f := Terms(a, one, r);
    SumOfZeros(f, r);
    assert f(r) == At(a, r);
  }

  lemma CoefAppend(q: Word, b: bool, p: Word, r: nat)
    ensures Coef(q + [b], p, r) == (Coef(q, p, r) != (b && At(p, r - |q|)))
  {
    var f, g := Terms(q + [b], p, r), Terms(q, p, r);
    CoefTerms(q + [b], p, r, |q| + 1);
    CoefTerms(q, p, r, |q|);
    SumOfEqual(f, g, |q|);
    assert XorSum(f, |q| + 1) == (XorSum(f, |q|) != f(|q|));
  }

  /** Only the terms of the middle stretch are nonzero. */
  lemma SumMiddle(f: int -> bool, lo: nat, n: nat, hi: nat)
    requires forall i | 0 <= i < lo || lo + n <= i < lo + n + hi :: !f(i)
    ensures XorSum(f, lo + n + hi) == XorSum(i => f(lo + i), n)
  {
    SumSplit(f, lo + n, hi);
    SumOfZeros(i => f(lo + n + i), hi);
    SumSplit(f, lo, n);
    SumOfZeros(f, lo);
  }

  /** The coefficients of the product of the reversed words, from the top, are the upper
      coefficients of the product. */
  lemma CoefReversed(a: Word, b: Word, r: nat)
    requires |a| == |b| && r < |a|
    ensures Coef(Reverse(a), Reverse(b), |a| - 1 - r) == Coef(a, b, |a| - 1 + r)
  {
    var w, n := |a|, |a| - r;
    var f := Terms(a, b, w - 1 + r);
    forall i | 0 <= i < r || w <= i < w + r ensures !f(i) {
      assert !(At(a, i) && At(b, w - 1 + r - i));
    }
    SumMiddle(f, r, n, r);
    var h := i => f(r + i);
    SumReversed(h, n);
    var g := Terms(Reverse(a), Reverse(b), n - 1);
    forall i | 0 <= i < n ensures g(i) == h(n - 1 - i) {
      assert At(Reverse(a), i) == At(a, w - 1 - i);
      assert At(Reverse(b), n - 1 - i) == At(b, w - 1 - (n - 1 - i));
    }
    SumOfEqual(g, i => h(n - 1 - i), n);
  }

  lemma CoefBeyond(a: Word, b: Word, r: nat)
    requires r + 1 >= |a| + |b| && |a| > 0
    ensures !Coef(a, b, r)
  {
    SumOfZeros(Terms(a, b, r), r + 1);
  }

  lemma {:induction false} SumPairs(f: int -> bool, n: nat)
    ensures XorSum(i => f(2 * i) != f(2 * i + 1), n) == XorSum(f, 2 * n)
  {
    if n > 0 {
      SumPairs(f, n - 1);
      assert XorSum(f, 2 * n) == (XorSum(f, 2 * n - 1) != f(2 * n - 1));
      assert XorSum(f, 2 * n - 1) == (XorSum(f, 2 * n - 2) != f(2 * n - 2));
    }
  }
}
