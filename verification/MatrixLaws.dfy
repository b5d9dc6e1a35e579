/** Laws of what the matrix kernel computes: the products determined by what they do to single elements, the
    score of a stretch of elements, and the elements in closed form. */
module MatrixLaws {
  import opened BitPlaces
  import opened Bitwise
  import opened Crc
  import opened CrcTheory
  import opened Division
  import opened MachineTypes
  import opened Matrix

  type Elements = seq<S16>

  // ----- matrices by row and column

  /** x in row p and column q, and 0 elsewhere. */
  function Single(n: nat, p: nat, q: nat, x: S16): (m: Elements)
    ensures |m| == n * n
  {
    seq(n * n, t requires 0 <= t < n * n => if t == p * n + q then x else 0)
  }

  /** The unit matrix. */
  function One(n: nat): (m: Elements)
    ensures |m| == n * n
  {
    seq(n * n, t requires 0 <= t < n * n => if OnDiagonal(n, t) then 1 else 0)
  }

  predicate OnDiagonal(n: nat, t: nat)
    requires t < n * n
  {
    Place(n, t);
    t / n == t % n
  }

  /** The element in row i and column j. */
  function At<T>(m: seq<T>, n: nat, i: nat, j: nat): T
    requires |m| == n * n && i < n && j < n
  {
    Cell(n, i, j);
    m[i * n + j]
  }

  lemma SingleAt(n: nat, p: nat, q: nat, x: S16, i: nat, j: nat)
    requires p < n && q < n && i < n && j < n
    ensures At(Single(n, p, q, x), n, i, j) == if i == p && j == q then x else 0
  {
    Cell(n, i, j);
    Cell(n, p, q);
  }

  lemma OneAt(n: nat, i: nat, j: nat)
    requires i < n && j < n
    ensures At(One(n), n, i, j) == if i == j then 1 else 0
  {
    Cell(n, i, j);
  }

  /** What matrix_mul_matrix leaves in C, by row and column. */
  ghost function ProductAt(extract: bool, a: Elements, b: Elements, n: nat, i: nat, j: nat): S32
    requires |a| == |b| == n * n && i < n && j < n
  {
    At(Product(extract, a, b, n), n, i, j)
  }

  lemma ProductIsDot(extract: bool, a: Elements, b: Elements, n: nat, i: nat, j: nat)
    requires |a| == |b| == n * n && i < n && j < n
    ensures ProductAt(extract, a, b, n, i, j) == ToS32(Dot(extract, a, b, n, i, j, n))
  {
    hide Dot, ToS32;
    Cell(n, i, j);
  }

  lemma SmallIs(x: int)
    requires -0x8000_0000 <= x < 0x8000_0000
    ensures ToS32(x) == x
  {
  }

  // ----- sums of terms

  lemma DotMore(extract: bool, a: Elements, b: Elements, n: nat, i: nat, j: nat, k: nat)
    requires |a| == |b| == n * n && i < n && j < n && 0 < k <= n
    ensures Dot(extract, a, b, n, i, j, k) ==
      Dot(extract, a, b, n, i, j, k - 1) + Term(extract, At(a, n, i, k - 1), At(b, n, k - 1, j))
  {
    hide Term;
    Cell(n, i, k - 1);
    Cell(n, k - 1, j);
  }

  lemma ZeroTerm(extract: bool, x: S16)
    ensures Term(extract, 0, x) == 0 && Term(extract, x, 0) == 0
  {
    assert x as int * 0 == 0 && 0 * x as int == 0;
  }

  /** Where one factor has only a single element in the row or column, one term is left. */
  lemma {:induction false} OneTerm(extract: bool, a: Elements, b: Elements, n: nat, i: nat, j: nat, k: nat, q: nat)
    requires |a| == |b| == n * n && i < n && j < n && k <= n && q < n
    requires forall r: nat | r < n && r != q :: At(a, n, i, r) == 0 || At(b, n, r, j) == 0
    ensures Dot(extract, a, b, n, i, j, k) == if q < k then Term(extract, At(a, n, i, q), At(b, n, q, j)) else 0
  {
    hide Term, At;
    if k > 0 {
      OneTerm(extract, a, b, n, i, j, k - 1, q);
      DotMore(extract, a, b, n, i, j, k);
      ZeroTerm(extract, At(a, n, i, k - 1));
      ZeroTerm(extract, At(b, n, k - 1, j));
    } else {
      hide Dot;
      NoTerms(extract, a, b, n, i, j);
    }
  }

  lemma NoTerms(extract: bool, a: Elements, b: Elements, n: nat, i: nat, j: nat)
    requires |a| == |b| == n * n && i < n && j < n
    ensures Dot(extract, a, b, n, i, j, 0) == 0
  {
  }

  // ----- the plain product

  /** The unit matrix times B is B, and A times the unit matrix is A. */
  lemma OneIsNeutral(m: Elements, n: nat, i: nat, j: nat)
    requires |m| == n * n && i < n && j < n
    ensures ProductAt(false, One(n), m, n, i, j) == At(m, n, i, j)
    ensures ProductAt(false, m, One(n), n, i, j) == At(m, n, i, j)
  {
    hide Dot, At, One, ProductAt, ToS32;
    forall r: nat, s: nat | r < n && s < n ensures At(One(n), n, r, s) == if r == s then 1 else 0 { OneAt(n, r, s); }
    OneTerm(false, One(n), m, n, i, j, n, i);
    OneTerm(false, m, One(n), n, i, j, n, j);
    ProductIsDot(false, One(n), m, n, i, j);
    ProductIsDot(false, m, One(n), n, i, j);
    SmallIs(At(m, n, i, j));
  }

  /** Single elements meet only when the column of the first is the row of the second. */
  lemma SinglesMeet(n: nat, p: nat, q: nat, r: nat, s: nat, i: nat, j: nat)
    requires p < n && q < n && r < n && s < n && i < n && j < n
    ensures ProductAt(false, Single(n, p, q, 1), Single(n, r, s, 1), n, i, j) ==
      if q == r then At(Single(n, p, s, 1), n, i, j) else 0
  {
    hide Dot, At, Single, ProductAt, ToS32;
    var a, b := Single(n, p, q, 1), Single(n, r, s, 1);
    forall u: nat, v: nat | u < n && v < n
      ensures At(a, n, u, v) == if u == p && v == q then 1 else 0
      ensures At(b, n, u, v) == if u == r && v == s then 1 else 0
    {
      SingleAt(n, p, q, 1, u, v);
      SingleAt(n, r, s, 1, u, v);
    }
    OneTerm(false, a, b, n, i, j, n, q);
    ProductIsDot(false, a, b, n, i, j);
    SingleAt(n, p, s, 1, i, j);
    SmallIs(0);
    SmallIs(1);
  }

  /** The product is additive in each factor. */
  lemma {:induction false} DotAddsLeft(a: Elements, a1: Elements, a2: Elements, b: Elements, n: nat, i: nat, j: nat,
                                       k: nat)
    requires |a| == |a1| == |a2| == |b| == n * n && i < n && j < n && k <= n
    requires forall t :: 0 <= t < n * n ==> a[t] as int == a1[t] as int + a2[t] as int
    ensures Dot(false, a, b, n, i, j, k) == Dot(false, a1, b, n, i, j, k) + Dot(false, a2, b, n, i, j, k)
  {
    hide Dot;
    if k > 0 {
      DotAddsLeft(a, a1, a2, b, n, i, j, k - 1);
      DotMore(false, a, b, n, i, j, k);
      DotMore(false, a1, b, n, i, j, k);
      DotMore(false, a2, b, n, i, j, k);
      Cell(n, i, k - 1);
      Distributes(At(a1, n, i, k - 1), At(a2, n, i, k - 1), At(b, n, k - 1, j));
    } else {
      NoTerms(false, a, b, n, i, j);
      NoTerms(false, a1, b, n, i, j);
      NoTerms(false, a2, b, n, i, j);
    }
  }

  lemma {:induction false} DotAddsRight(a: Elements, b: Elements, b1: Elements, b2: Elements, n: nat, i: nat, j: nat,
                                        k: nat)
    requires |a| == |b| == |b1| == |b2| == n * n && i < n && j < n && k <= n
    requires forall t :: 0 <= t < n * n ==> b[t] as int == b1[t] as int + b2[t] as int
    ensures Dot(false, a, b, n, i, j, k) == Dot(false, a, b1, n, i, j, k) + Dot(false, a, b2, n, i, j, k)
  {
    hide Dot;
    if k > 0 {
      DotAddsRight(a, b, b1, b2, n, i, j, k - 1);
      DotMore(false, a, b, n, i, j, k);
      DotMore(false, a, b1, n, i, j, k);
      DotMore(false, a, b2, n, i, j, k);
      Cell(n, k - 1, j);
      Distributes(At(b1, n, k - 1, j), At(b2, n, k - 1, j), At(a, n, i, k - 1));
    } else {
      NoTerms(false, a, b, n, i, j);
      NoTerms(false, a, b1, n, i, j);
      NoTerms(false, a, b2, n, i, j);
    }
  }

  lemma Distributes(x: int, y: int, z: int)
    ensures (x + y) * z == x * z + y * z == z * (x + y)
  {
  }

  lemma WrappedSum(x: int, y: int)
    ensures ToS32(x + y) == ToS32(ToS32(x) as int + ToS32(y) as int)
  {
    Wrap32(x, ToS32(y));
    Wrap32(y, x);
  }

  lemma ProductAdds(a: Elements, a1: Elements, a2: Elements, b: Elements, b1: Elements, b2: Elements, n: nat, i: nat,
                    j: nat)
    requires |a| == |a1| == |a2| == |b| == |b1| == |b2| == n * n && i < n && j < n
    requires forall t :: 0 <= t < n * n ==> a[t] as int == a1[t] as int + a2[t] as int
    requires forall t :: 0 <= t < n * n ==> b[t] as int == b1[t] as int + b2[t] as int
    ensures ProductAt(false, a, b, n, i, j) ==
      ToS32(ProductAt(false, a1, b, n, i, j) as int + ProductAt(false, a2, b, n, i, j) as int)
    ensures ProductAt(false, a, b, n, i, j) ==
      ToS32(ProductAt(false, a, b1, n, i, j) as int + ProductAt(false, a, b2, n, i, j) as int)
  {
    hide Dot, ProductAt, ToS32;
    DotAddsLeft(a, a1, a2, b, n, i, j, n);
    DotAddsRight(a, b, b1, b2, n, i, j, n);
    ProductIsDot(false, a, b, n, i, j);
    ProductIsDot(false, a1, b, n, i, j);
    ProductIsDot(false, a2, b, n, i, j);
    ProductIsDot(false, a, b1, n, i, j);
    ProductIsDot(false, a, b2, n, i, j);
    WrappedSum(Dot(false, a1, b, n, i, j, n), Dot(false, a2, b, n, i, j, n));
    WrappedSum(Dot(false, a, b1, n, i, j, n), Dot(false, a, b2, n, i, j, n));
  }

  // ----- the bit-extracted product

  /** Bits 2 to 5 of a number as a number, times bits 5 to 11. */
  function BitProduct(x: int): nat {
    var p := BitOf(x, 4) + 2 * BitOf(x, 8) + 4 * BitOf(x, 0x10) + 8 * BitOf(x, 0x20);
    var q := BitOf(x, 0x20) + 2 * BitOf(x, 0x40) + 4 * BitOf(x, 0x80) + 8 * BitOf(x, 0x100) + 0x10 * BitOf(x, 0x200)
      + 0x20 * BitOf(x, 0x400) + 0x40 * BitOf(x, 0x800);
    p * q
  }

  lemma LowNibble(x: int)
    ensures x / 4 % 0x10 == BitOf(x, 4) + 2 * BitOf(x, 8) + 4 * BitOf(x, 0x10) + 8 * BitOf(x, 0x20)
  {
    hide BitOf;
    Peel(x, 4, 8);
    Peel(x, 8, 4);
    Peel(x, 0x10, 2);
    Peel(x, 0x20, 1);
  }

  lemma HighBits(x: int)
    ensures x / 0x20 % 0x80 == BitOf(x, 0x20) + 2 * BitOf(x, 0x40) + 4 * BitOf(x, 0x80) + 8 * BitOf(x, 0x100)
      + 0x10 * BitOf(x, 0x200) + 0x20 * BitOf(x, 0x400) + 0x40 * BitOf(x, 0x800)
  {
    hide BitOf;
    Peel(x, 0x20, 0x40);
    Peel(x, 0x40, 0x20);
    Peel(x, 0x80, 0x10);
    Peel(x, 0x100, 8);
    Peel(x, 0x200, 4);
    Peel(x, 0x400, 2);
    Peel(x, 0x800, 1);
  }

  lemma TermIsBits(x: S16, y: S16)
    ensures Term(true, x, y) == BitProduct(x as int * y as int)
    ensures 0 <= Term(true, x, y) <= 127 * 127
  {
    hide BitOf;
    LowNibble(x as int * y as int);
    HighBits(x as int * y as int);
    BitsBound(BitExtract(x as int * y as int, 2, 4), BitExtract(x as int * y as int, 5, 7));
  }

  /** A single element picks the row of B that matches its column, bit by bit, into its row. */
  lemma SinglePicks(n: nat, p: nat, q: nat, x: S16, b: Elements, i: nat, j: nat)
    requires p < n && q < n && |b| == n * n && i < n && j < n
    ensures ProductAt(true, Single(n, p, q, x), b, n, i, j) ==
      if i == p then BitProduct(x as int * At(b, n, q, j) as int) else 0
  {
    hide Dot, At, Single, ProductAt, ToS32, Term, BitProduct;
    var a := Single(n, p, q, x);
    forall u: nat, v: nat | u < n && v < n ensures At(a, n, u, v) == if u == p && v == q then x else 0 {
      SingleAt(n, p, q, x, u, v);
    }
    OneTerm(true, a, b, n, i, j, n, q);
    ProductIsDot(true, a, b, n, i, j);
    ZeroTerm(true, At(b, n, q, j));
    TermIsBits(x, At(b, n, q, j));
    SmallIs(0);
    SmallIs(Term(true, x, At(b, n, q, j)));
  }

  /** No place holds an element of both. */
  ghost predicate Apart(a: Elements, a1: Elements, a2: Elements) {
    && |a| == |a1| == |a2|
    && forall t :: 0 <= t < |a| ==> (a1[t] == 0 && a[t] == a2[t]) || (a2[t] == 0 && a[t] == a1[t])
  }

  lemma {:induction false} DotOfParts(extract: bool, a: Elements, a1: Elements, a2: Elements, b: Elements, n: nat,
                                      i: nat, j: nat, k: nat)
    requires |a| == |b| == n * n && i < n && j < n && k <= n && Apart(a, a1, a2)
    ensures Dot(extract, a, b, n, i, j, k) == Dot(extract, a1, b, n, i, j, k) + Dot(extract, a2, b, n, i, j, k)
  {
    hide Dot, Term;
    if k > 0 {
      DotOfParts(extract, a, a1, a2, b, n, i, j, k - 1);
      DotMore(extract, a, b, n, i, j, k);
      DotMore(extract, a1, b, n, i, j, k);
      DotMore(extract, a2, b, n, i, j, k);
      Cell(n, i, k - 1);
      ZeroTerm(extract, At(b, n, k - 1, j));
    } else {
      NoTerms(extract, a, b, n, i, j);
      NoTerms(extract, a1, b, n, i, j);
      NoTerms(extract, a2, b, n, i, j);
    }
  }

  /** So both products are the sums of what the single elements of A give. */
  lemma PartsAdd(extract: bool, a: Elements, a1: Elements, a2: Elements, b: Elements, n: nat, i: nat, j: nat)
    requires |a| == |b| == n * n && i < n && j < n && Apart(a, a1, a2)
    ensures ProductAt(extract, a, b, n, i, j) ==
      ToS32(ProductAt(extract, a1, b, n, i, j) as int + ProductAt(extract, a2, b, n, i, j) as int)
  {
    hide Dot, ProductAt, ToS32;
    DotOfParts(extract, a, a1, a2, b, n, i, j, n);
    ProductIsDot(extract, a, b, n, i, j);
    ProductIsDot(extract, a1, b, n, i, j);
    ProductIsDot(extract, a2, b, n, i, j);
    WrappedSum(Dot(extract, a1, b, n, i, j, n), Dot(extract, a2, b, n, i, j, n));
  }

  // ----- the product with a vector

  /** A matrix whose first column is the first row of b. */
  function Upright(b: Elements, n: nat): (m: Elements)
    requires |b| == n * n
    ensures |m| == n * n
  {
    seq(n * n, t requires 0 <= t < n * n => FirstOfRow(b, n, t))
  }

  function FirstOfRow(b: Elements, n: nat, t: nat): S16
    requires |b| == n * n && t < n * n
  {
    Place(n, t);
    RowEnds(n, 0);
    if t % n == 0 then b[t / n] else 0
  }

  lemma UprightAt(b: Elements, n: nat, i: nat)
    requires |b| == n * n && i < n
    ensures At(Upright(b, n), n, i, 0) == At(b, n, 0, i)
  {
    Cell(n, i, 0);
    Cell(n, 0, i);
  }

  lemma {:induction false} VectIsDot(a: Elements, b: Elements, n: nat, i: nat, k: nat)
    requires |a| == |b| == n * n && i < n && k <= n
    ensures VectDot(a, b, n, i, k) == Dot(false, a, Upright(b, n), n, i, 0, k)
  {
    hide Dot, Upright;
    if k > 0 {
      VectIsDot(a, b, n, i, k - 1);
      DotMore(false, a, Upright(b, n), n, i, 0, k);
      UprightAt(b, n, k - 1);
      Cell(n, i, k - 1);
      Cell(n, 0, k - 1);
    } else {
      NoTerms(false, a, Upright(b, n), n, i, 0);
    }
  }

  /** What matrix_mul_vect leaves in the first n cells of C is the first column of a product. */
  lemma VectIsProduct(c: seq<S32>, a: Elements, b: Elements, n: nat, i: nat)
    requires |a| == |b| == |c| == n * n && i < n
    ensures At(WithVect(c, a, b, n), n, 0, i) == ProductAt(false, a, Upright(b, n), n, i, 0)
  {
    hide Dot, ToS32, ProductAt, VectDot, Upright;
    Cell(n, 0, i);
    VectIsDot(a, b, n, i, n);
    ProductIsDot(false, a, Upright(b, n), n, i, 0);
  }

  /** The unit matrix leaves the vector, and a unit vector picks a column. */
  lemma VectUnits(c: seq<S32>, m: Elements, n: nat, i: nat, q: nat)
    requires |m| == |c| == n * n && i < n && q < n
    ensures At(WithVect(c, One(n), m, n), n, 0, i) == At(m, n, 0, i)
    ensures At(WithVect(c, m, Single(n, 0, q, 1), n), n, 0, i) == At(m, n, i, q)
  {
    hide Dot, ToS32, ProductAt, WithVect, Upright, At, Single, One;
    VectIsProduct(c, One(n), m, n, i);
    OneIsNeutral(Upright(m, n), n, i, 0);
    UprightAt(m, n, i);
    var e := Single(n, 0, q, 1);
    VectIsProduct(c, m, e, n, i);
    forall r: nat | r < n && r != q ensures At(Upright(e, n), n, r, 0) == 0 {
      UprightAt(e, n, r);
      SingleAt(n, 0, q, 1, 0, r);
    }
    UprightAt(e, n, q);
    SingleAt(n, 0, q, 1, 0, q);
    OneTerm(false, m, Upright(e, n), n, i, 0, n, q);
    ProductIsDot(false, m, Upright(e, n), n, i, 0);
    SmallIs(At(m, n, i, q));
  }

  // ----- a matrix times a constant, and plus one

  /** Times 1 is the matrix, and the constants add. */
  lemma ScaledLaws(a: Elements, u: S16, v: S16, w: S16, t: nat)
    requires t < |a| && w as int == u as int + v as int
    ensures Scaled(a, 1)[t] == a[t]
    ensures Scaled(a, w)[t] == ToS32(Scaled(a, u)[t] as int + Scaled(a, v)[t] as int)
  {
    hide ToS32;
    SmallIs(a[t]);
    Distributes(u, v, a[t]);
    WrappedSum(a[t] as int * u as int, a[t] as int * v as int);
  }

  /** To nothing the constant itself is added, and two constants one after the other add up. */
  lemma PlusLaws(a: Elements, u: S16, v: S16, t: nat)
    requires t < |a|
    ensures a[t] == 0 ==> PlusConst(a, u)[t] == u
    ensures PlusConst(PlusConst(a, u), v)[t] == PlusConst(a, ToS16(u as int + v as int))[t]
  {
    PlusTwice(a[t], u, v);
  }

  lemma PlusTwice(x: S16, u: S16, v: S16)
    ensures ToS16(u) == u && ToS16(x) == x
    ensures ToS16(ToS16(x as int + u) as int + v) == ToS16(x as int + ToS16(u as int + v as int) as int)
  {
    WrapSum16(x as int + u, v);
    WrapSum16(u as int + v, x);
  }

  // ----- the score

  /** The score of more elements, from one on. */
  function ScoredFrom(s: Scoring, c: seq<S32>, clip: S16): Scoring {
    if c == [] then s else Scored(ScoredFrom(s, c[..|c| - 1], clip), c[|c| - 1], clip)
  }

  lemma ScoredLast(s: Scoring, c: seq<S32>, cur: S32, clip: S16)
    ensures ScoringOf(c + [cur], clip) == Scored(ScoringOf(c, clip), cur, clip)
    ensures ScoredFrom(s, c + [cur], clip) == Scored(ScoredFrom(s, c, clip), cur, clip)
    ensures ScoredFrom(s, [], clip) == s
  {
    hide Scored;
    assert (c + [cur])[..|c|] == c;
  }

  lemma {:induction false} ScoredInParts(c: seq<S32>, d: seq<S32>, clip: S16)
    ensures ScoringOf(c + d, clip) == ScoredFrom(ScoringOf(c, clip), d, clip)
    decreases |d|
  {
    hide Scored, ScoringOf, ScoredFrom;
    var s := ScoringOf(c, clip);
    if d == [] {
      assert c + d == c;
      ScoredLast(s, d, 0, clip);
    } else {
      var before, last := d[..|d| - 1], d[|d| - 1];
      assert d == before + [last] && c + d == c + before + [last];
      ScoredInParts(c, before, clip);
      ScoredLast(s, before, last, clip);
      ScoredLast(s, c + before, last, clip);
    }
  }

  function SumOf(c: seq<S32>): int {
    if c == [] then 0 else SumOf(c[..|c| - 1]) + c[|c| - 1] as int
  }

  /** How many elements are larger than the one before. */
  function Ascents(prev: S32, c: seq<S32>): nat {
    if c == [] then 0
    else
      var last := c[|c| - 1];
      Ascents(prev, c[..|c| - 1]) + if last > (if |c| == 1 then prev else c[|c| - 2]) then 1 else 0
  }

  /** The running sum does not reach above the clip value, nor overflow. */
  ghost predicate Below(sum: S32, c: seq<S32>, clip: S16) {
    forall k :: 0 < k <= |c| ==> -0x8000_0000 <= sum as int + SumOf(c[..k]) <= clip as int
  }

  /** While the running sum stays below the clip value each element larger than the one before scores one. */
  lemma {:induction false} BelowScores(s: Scoring, c: seq<S32>, clip: S16)
    requires Below(s.sum, c, clip)
    ensures ScoredFrom(s, c, clip).score == ToS16(s.score as int + Ascents(s.prev, c))
    ensures ScoredFrom(s, c, clip).sum as int == s.sum as int + SumOf(c)
    ensures ScoredFrom(s, c, clip).prev == if c == [] then s.prev else c[|c| - 1]
  {
    hide ToS16, ToS32;
    if c == [] {
      assert ToS16(s.score) == s.score by { SameIn16(s.score); }
    } else {
      var before := c[..|c| - 1];
      forall k | 0 < k <= |before| ensures before[..k] == c[..k] { }
      assert c[..|c|] == c;
      BelowScores(s, before, clip);
      SmallIs(s.sum as int + SumOf(c));
      WrapSum16(s.score as int + Ascents(s.prev, before), 1);
      WrapSum16(s.score as int + Ascents(s.prev, before), 0);
    }
  }

  lemma SameIn16(x: S16)
    ensures ToS16(x) == x
  {
  }

  /** The element that brings it above scores ten, and the sum starts again. */
  lemma AboveScores(s: Scoring, c: seq<S32>, cur: S32, clip: S16)
    requires Below(s.sum, c, clip) && clip as int < s.sum as int + SumOf(c) + cur as int < 0x8000_0000
    ensures ScoredFrom(s, c + [cur], clip) == Scoring(0, cur, ToS16(s.score as int + Ascents(s.prev, c) + 10))
  {
    hide ToS16, ToS32;
    assert (c + [cur])[..|c|] == c;
    BelowScores(s, c, clip);
    SmallIs(s.sum as int + SumOf(c) + cur as int);
    WrapSum16(s.score as int + Ascents(s.prev, c), 10);
  }

  /** The clip value has its four high bits set and the others from the value. */
  lemma BigByBits(val: S16, k: nat)
    requires k < 16
    ensures BitIn(Big(val), k) == if k >= 12 then 1 else BitIn(val, k)
  {
    Powers();
    var big: int := Big(val);
    var low := val as int % 0x1000;
    assert big % 0x1000 == low && big / 0x1000 == -1;
    hide Pow2, BitIn, Big;
    if k < 12 {
      BitOfRest(big, 12, k);
      BitOfRest(val, 12, k);
    } else {
      BitOfShifted(big, 12, k - 12);
      AllOnes(k - 12);
    }
  }

  lemma {:induction false} AllOnes(k: nat)
    ensures BitIn(-1, k) == 1
  {
    if k == 0 {
      BitOfHalf(-1, 0);
    } else {
      AllOnes(k - 1);
      BitOfHalf(-1, k - 1);
      assert -1 / 2 == -1;
    }
  }

  /** What matrix_test returns is the CRC of four scores, in the order of its operations. */
  lemma TestIsCrc(a: Elements, b: Elements, n: nat, val: S16)
    requires |a| == |b| == n * n
    ensures var clip, c := Big(val), Scaled(a, val);
      TestCrc(a, b, n, val) == Feed(ScoreBits(c, clip) + ScoreBits(WithVect(c, a, b, n), clip)
        + ScoreBits(Product(false, a, b, n), clip) + ScoreBits(Product(true, a, b, n), clip), NoBits())
  {
    hide Scaled, WithVect, Product, ScoreBits, Feed, Big, NoBits, ScoreInto;
    var clip, c := Big(val), Scaled(a, val);
    var s1, s2, s3, s4 := ScoreBits(c, clip), ScoreBits(WithVect(c, a, b, n), clip),
      ScoreBits(Product(false, a, b, n), clip), ScoreBits(Product(true, a, b, n), clip);
    ScoreIsFed(c, clip, NoBits());
    ScoreIsFed(WithVect(c, a, b, n), clip, Feed(s1, NoBits()));
    FeedAppend(s1, s2, NoBits());
    ScoreIsFed(Product(false, a, b, n), clip, Feed(s1 + s2, NoBits()));
    FeedAppend(s1 + s2, s3, NoBits());
    ScoreIsFed(Product(true, a, b, n), clip, Feed(s1 + s2 + s3, NoBits()));
    FeedAppend(s1 + s2 + s3, s4, NoBits());
  }

  /** The 16 bits of a score in two's complement. */
  ghost function ScoreBits(c: seq<S32>, clip: S16): seq<bool> {
    LowBits(ScoringOf(c, clip).score as int % 0x1_0000, 16)
  }

  lemma ScoreIsFed(c: seq<S32>, clip: S16, crc: Word)
    ensures ScoreInto(c, clip, crc) == Feed(ScoreBits(c, clip), crc)
  {
    hide ScoringOf, LowBits, Feed, CrcWord;
    WordIsFeed(ToU16(ScoringOf(c, clip).score), crc);
  }

  // ----- the elements

  function Factorial(t: nat): nat {
    if t == 0 then 1 else t * Factorial(t - 1)
  }

  /** Up to multiples of 2^16 the running seed is the seed times a factorial. */
  lemma {:induction false} SeedIsFactorial(seed0: S32, t: nat) returns (m: int)
    ensures SeedAfter(seed0, t) == (if seed0 == 0 then 1 else seed0 as int) * Factorial(t) - 0x1_0000 * m
  {
    hide NextSeed;
    if t == 0 {
      m := 0;
    } else {
      var first: int, f: int := if seed0 == 0 then 1 else seed0, Factorial(t - 1);
      var m0 := SeedIsFactorial(seed0, t - 1);
      var k := NextSeedIs(t, SeedAfter(seed0, t - 1));
      SeedNext(seed0, t);
      assert t * (first * f - 0x1_0000 * m0) == first * (t * f) - 0x1_0000 * (t * m0);
      m := t * m0 + k;
    }
  }

  /** So elements number t of B and of A are what core_init_matrix says, for every seed and number. */
  lemma ElementsInClosedForm(seed0: S32, t: nat)
    ensures var s := (if seed0 == 0 then 1 else seed0 as int) * Factorial(t + 1);
      ElementB(seed0, t) == ToS16(s + (t + 1)) && ElementA(seed0, t) == (s + 2 * (t + 1)) % 0x100
  {
    hide SeedAfter, Factorial;
    var s: int := (if seed0 == 0 then 1 else seed0 as int) * Factorial(t + 1);
    var m := SeedIsFactorial(seed0, t + 1);
    SameRests(s + (t + 1), m);
    SameRests(s + 2 * (t + 1), m);
  }

  lemma SameRests(x: int, m: int)
    ensures ToS16(x - 0x1_0000 * m) == ToS16(x) && (x - 0x1_0000 * m) % 0x100 == x % 0x100
  {
    QuotientIs(x - 0x1_0000 * m, 0x100, x / 0x100 - 0x100 * m, x % 0x100);
  }
}
