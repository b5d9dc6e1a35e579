/** The matrix kernel of core_matrix.c: products that do not overflow, and a matrix that comes back. */
module Matrix {
  import opened Crc
  import opened Division
  import opened MachineTypes

  lemma Wrap32(x: int, y: int)
    ensures ToS32(ToS32(x) + y) == ToS32(x + y)
    ensures -0x8000_0000 <= x < 0x8000_0000 ==> ToS32(x) == x
  {
  }

  lemma Wrap16(x: S16, y: int)
    ensures ToS16(ToS16(x + y) + ToS16(-y)) == x
  {
  }

  lemma RowEnds(n: nat, i: nat)
    requires i < n
    ensures 0 <= i * n && i * n + n == (i + 1) * n <= n * n
  {
    var rest := n - i - 1;
    assert n * n == (i + 1 + rest) * n == (i + 1) * n + rest * n;
    assert rest * n >= 0 && i * n >= 0;
  }

  /** Where row i and column j meet. */
  lemma Cell(n: nat, i: nat, j: nat)
    requires i < n && j < n
    ensures 0 <= i * n + j < n * n && (i * n + j) / n == i && (i * n + j) % n == j && (i + 1) * n == i * n + n <= n * n
  {
    RowEnds(n, i);
    var x := i * n + j;
    assert x == n * i + j;
    QuotientIs(x, n, i, j);
  }

  // ----- A plus a constant

  function PlusConst(a: seq<S16>, val: int): seq<S16> {
    seq(|a|, t requires 0 <= t < |a| => ToS16(a[t] as int + val))
  }

  /** matrix_add_const; C adds in int and stores 16 bits. */
  method AddConst(n: nat, a: array<S16>, val: S16)
    requires a.Length == n * n
    modifies a
    ensures a[..] == PlusConst(old(a[..]), val)
  {
    hide ToS16;
    for i := 0 to n
      invariant 0 <= i * n <= n * n
      invariant forall t :: 0 <= t < i * n ==> a[t] == ToS16(old(a[t]) as int + val)
      invariant forall t :: i * n <= t < a.Length ==> a[t] == old(a[t])
    {
      Cell(n, i, 0);
      ghost var row := i * n;
      for j := 0 to n
        invariant row == i * n && row + j <= a.Length
        invariant forall t :: 0 <= t < row + j ==> a[t] == ToS16(old(a[t]) as int + val)
        invariant forall t :: row + j <= t < a.Length ==> a[t] == old(a[t])
      {
        a[i * n + j] := ToS16(a[i * n + j] as int + val);
      }
    }
  }

  lemma ConstGoesAway(a: seq<S16>, val: S16)
    ensures PlusConst(PlusConst(a, val), ToS16(-(val as int))) == a
  {
    hide ToS16;
    forall t | 0 <= t < |a| ensures PlusConst(PlusConst(a, val), ToS16(-(val as int)))[t] == a[t] {
      Wrap16(a[t], val);
    }
  }

  // ----- products

  /** Bits from, from+1, and so on of x, length of them; >> keeps the sign. */
  function BitExtract(x: int, from: nat, length: nat): (r: nat)
    requires from == 2 || from == 5
    requires length == 4 || length == 7
    ensures r <= 127
  {
    x / (if from == 2 then 4 else 32) % (if length == 4 then 16 else 128)
  }

  /** What one pair of elements adds: their product, or bits of it. */
  function Term(extract: bool, x: S16, y: S16): int {
    var tmp := x as int * y as int;
    if extract then BitExtract(tmp, 2, 4) * BitExtract(tmp, 5, 7) else tmp
  }

  /** The product of row i of a and column j of b, over the first k terms. */
  ghost function Dot(extract: bool, a: seq<S16>, b: seq<S16>, n: nat, i: nat, j: nat, k: nat): int
    requires |a| == |b| == n * n && i < n && j < n && k <= n
  {
    if k == 0 then 0
    else
      Cell(n, i, k - 1);
      Cell(n, k - 1, j);
      Dot(extract, a, b, n, i, j, k - 1) + Term(extract, a[i * n + (k - 1)], b[(k - 1) * n + j])
  }

  /** The product of row i of a with the first row of b. */
  ghost function VectDot(a: seq<S16>, b: seq<S16>, n: nat, i: nat, k: nat): int
    requires |a| == |b| == n * n && i < n && k <= n
  {
    if k == 0 then 0
    else
      Cell(n, i, k - 1);
      Cell(n, 0, k - 1);
      VectDot(a, b, n, i, k - 1) + a[i * n + (k - 1)] as int * b[k - 1]
  }

  ghost predicate IsProduct(extract: bool, c: seq<S32>, a: seq<S16>, b: seq<S16>, n: nat, upto: nat)
    requires |a| == |b| == |c| == n * n && upto <= n * n
  {
    forall t: nat | t < upto :: t / n < n && t % n < n && c[t] == ToS32(Dot(extract, a, b, n, t / n, t % n, n))
  }

  /** One cell of a product: the inner loop. */
  method MulCell(extract: bool, n: nat, c: array<S32>, a: array<S16>, b: array<S16>, i: nat, j: nat)
    requires a.Length == b.Length == c.Length == n * n && i < n && j < n
    modifies c
    ensures i * n + j < c.Length
    ensures c[i * n + j] == ToS32(Dot(extract, a[..], b[..], n, i, j, n))
    ensures forall t :: 0 <= t < c.Length && t != i * n + j ==> c[t] == old(c[t])
    ensures a[..] == old(a[..]) && b[..] == old(b[..])
  {
    Cell(n, i, j);
    hide ToS32, Term;
    c[i * n + j] := 0;
    Wrap32(0, 0);
    for k := 0 to n
      invariant a[..] == old(a[..]) && b[..] == old(b[..])
      invariant c[i * n + j] == ToS32(Dot(extract, a[..], b[..], n, i, j, k))
      invariant forall t :: 0 <= t < c.Length && t != i * n + j ==> c[t] == old(c[t])
    {
      Cell(n, i, k);
      Cell(n, k, j);
      var term := Term(extract, a[i * n + k], b[k * n + j]);
      Wrap32(Dot(extract, a[..], b[..], n, i, j, k), term);
      c[i * n + j] := ToS32(c[i * n + j] as int + term);
    }
  }

  /** matrix_mul_matrix and matrix_mul_matrix_bitextract, in two's complement. */
  method MulMatrix(extract: bool, n: nat, c: array<S32>, a: array<S16>, b: array<S16>)
    requires a.Length == b.Length == c.Length == n * n
    modifies c
    ensures IsProduct(extract, c[..], a[..], b[..], n, n * n)
    ensures a[..] == old(a[..]) && b[..] == old(b[..])
  {
    hide ToS32, Dot;
    for i := 0 to n
      invariant 0 <= i * n <= n * n
      invariant a[..] == old(a[..]) && b[..] == old(b[..])
      invariant IsProduct(extract, c[..], a[..], b[..], n, i * n)
    {
      Cell(n, i, 0);
      ghost var row := i * n;
      for j := 0 to n
        invariant row == i * n && row + j <= n * n
        invariant a[..] == old(a[..]) && b[..] == old(b[..])
        invariant IsProduct(extract, c[..], a[..], b[..], n, row + j)
      {
        Cell(n, i, j);
        MulCell(extract, n, c, a, b, i, j);
      }
    }
  }

  /** matrix_mul_vect, in two's complement; only the first n cells of c are written. */
  method MulVect(n: nat, c: array<S32>, a: array<S16>, b: array<S16>)
    requires a.Length == b.Length == c.Length == n * n
    modifies c
    ensures n <= c.Length && forall i: nat | i < n :: c[i] == ToS32(VectDot(a[..], b[..], n, i, n))
    ensures c[..] == WithVect(old(c[..]), a[..], b[..], n)
    ensures a[..] == old(a[..]) && b[..] == old(b[..])
  {
    hide ToS32;
    if n > 0 { Cell(n, 0, n - 1); }
    for i := 0 to n
      invariant a[..] == old(a[..]) && b[..] == old(b[..])
      invariant forall r: nat | r < i :: c[r] == ToS32(VectDot(a[..], b[..], n, r, n))
      invariant forall t :: i <= t < c.Length ==> c[t] == old(c[t])
    {
      c[i] := 0;
      Wrap32(0, 0);
      for j := 0 to n
        invariant a[..] == old(a[..]) && b[..] == old(b[..])
        invariant forall r: nat | r < i :: c[r] == ToS32(VectDot(a[..], b[..], n, r, n))
        invariant forall t :: i < t < c.Length ==> c[t] == old(c[t])
        invariant c[i] == ToS32(VectDot(a[..], b[..], n, i, j))
      {
        Cell(n, i, j);
        var term := a[i * n + j] as int * b[j] as int;
        Wrap32(VectDot(a[..], b[..], n, i, j), term);
        c[i] := ToS32(c[i] as int + term);
      }
    }
  }

  // ----- no overflow

  /** The elements of A as core_init_matrix makes them, plus the constant of matrix_test. */
  predicate Small(a: seq<S16>, bound: nat) {
    forall t :: 0 <= t < |a| ==> 0 <= a[t] <= bound
  }

  lemma ProductBound(x: int, y: int)
    requires 0 <= x <= 510 && -0x8000 <= y < 0x8000
    ensures -510 * 0x8000 <= x * y <= 510 * 0x8000
  {
    Nonnegative(x, y + 0x8000);
    Nonnegative(x, 0x8000 - y);
    assert x * (y + 0x8000) == x * y + x * 0x8000 && x * (0x8000 - y) == x * 0x8000 - x * y;
  }

  lemma BitsBound(p: nat, q: nat)
    requires p <= 127 && q <= 127
    ensures 0 <= p * q <= 127 * 127
  {
    Nonnegative(p, 127 - q);
    Nonnegative(p, q);
    assert p * (127 - q) == 127 * p - p * q;
  }

  lemma TermBound(extract: bool, x: S16, y: S16)
    requires 0 <= x <= 510
    ensures -510 * 0x8000 <= Term(extract, x, y) <= 510 * 0x8000
  {
    var tmp := x as int * y as int;
    ProductBound(x, y);
    BitsBound(BitExtract(tmp, 2, 4), BitExtract(tmp, 5, 7));
    hide BitExtract;
  }

  lemma {:induction false} DotBound(extract: bool, a: seq<S16>, b: seq<S16>, n: nat, i: nat, j: nat, k: nat)
    requires |a| == |b| == n * n && i < n && j < n && k <= n && Small(a, 510)
    ensures -510 * 0x8000 * k <= Dot(extract, a, b, n, i, j, k) <= 510 * 0x8000 * k
  {
    if k > 0 {
      DotBound(extract, a, b, n, i, j, k - 1);
      DotStep(extract, a, b, n, i, j, k);
      hide Dot;
    }
  }

  lemma DotStep(extract: bool, a: seq<S16>, b: seq<S16>, n: nat, i: nat, j: nat, k: nat)
    requires |a| == |b| == n * n && i < n && j < n && 0 < k <= n && Small(a, 510)
    ensures -510 * 0x8000 <= Dot(extract, a, b, n, i, j, k) - Dot(extract, a, b, n, i, j, k - 1) <= 510 * 0x8000
  {
    hide Term;
    Cell(n, i, k - 1);
    Cell(n, k - 1, j);
    TermBound(extract, a[i * n + (k - 1)], b[(k - 1) * n + j]);
  }

  /** For elements of A up to 510 and dimensions up to 128 the 32-bit product is the mathematical one. */
  lemma ProductIsExact(extract: bool, a: seq<S16>, b: seq<S16>, n: nat, i: nat, j: nat)
    requires |a| == |b| == n * n && i < n && j < n && n <= 128 && Small(a, 510)
    ensures ToS32(Dot(extract, a, b, n, i, j, n)) == Dot(extract, a, b, n, i, j, n)
  {
    DotBound(extract, a, b, n, i, j, n);
  }

  lemma {:induction false} VectBound(a: seq<S16>, b: seq<S16>, n: nat, i: nat, k: nat)
    requires |a| == |b| == n * n && i < n && k <= n && Small(a, 510)
    ensures -510 * 0x8000 * k <= VectDot(a, b, n, i, k) <= 510 * 0x8000 * k
  {
    if k > 0 {
      VectBound(a, b, n, i, k - 1);
      Cell(n, i, k - 1);
      Cell(n, 0, k - 1);
      TermBound(false, a[i * n + (k - 1)], b[k - 1]);
    }
  }

  lemma VectIsExact(a: seq<S16>, b: seq<S16>, n: nat, i: nat)
    requires |a| == |b| == n * n && i < n && n <= 128 && Small(a, 510)
    ensures ToS32(VectDot(a, b, n, i, n)) == VectDot(a, b, n, i, n)
  {
    VectBound(a, b, n, i, n);
  }

  // ----- the test

  /** matrix_mul_const */
  method MulConst(n: nat, c: array<S32>, a: array<S16>, val: S16)
    requires a.Length == c.Length == n * n
    modifies c
    ensures c[..] == Scaled(a[..], val)
    ensures a[..] == old(a[..])
  {
    for i := 0 to n
      invariant 0 <= i * n <= n * n && a[..] == old(a[..])
      invariant forall t :: 0 <= t < i * n ==> c[t] == a[t] as int * val as int
    {
      Cell(n, i, 0);
      ghost var row := i * n;
      for j := 0 to n
        invariant row == i * n && row + j <= c.Length && a[..] == old(a[..])
        invariant forall t :: 0 <= t < row + j ==> c[t] == a[t] as int * val as int
      {
        SquareFits(a[i * n + j], val);
        c[i * n + j] := a[i * n + j] as int * val as int;
      }
    }
  }

  lemma SquareFits(x: S16, y: S16)
    ensures -0x8000_0000 <= x as int * y as int < 0x8000_0000
  {
    var u: int, v: int := x, y;
    Nonnegative(0x8000 - u, 0x8000 + v);
    Nonnegative(0x8000 + u, 0x8000 - v);
    Nonnegative(0x8000 + u, 0x8000 + v);
    Nonnegative(0x8000 - u, 0x8000 - v);
    assert (0x8000 - u) * (0x8000 + v) + (0x8000 + u) * (0x8000 - v) == 0x8000_0000 - 2 * (u * v);
    assert (0x8000 + u) * (0x8000 + v) + (0x8000 - u) * (0x8000 - v) == 0x8000_0000 + 2 * (u * v);
  }

  lemma Nonnegative(x: int, y: int)
    requires x >= 0 && y >= 0
    ensures x * y >= 0
  {
  }

  // ----- matrix_sum

  /** The running sum, the element before, and the score so far. */
  datatype Scoring = Scoring(sum: S32, prev: S32, score: S16)

  /** One more element: ten when the running sum is above the clip value, which then starts again, and
      otherwise one if the element is larger than the one before. */
  function Scored(s: Scoring, cur: S32, clip: S16): Scoring {
    var sum := ToS32(s.sum as int + cur);
    if sum > clip then Scoring(0, cur, ToS16(s.score + 10))
    else Scoring(sum, cur, ToS16(s.score as int + if cur > s.prev then 1 else 0))
  }

  function ScoringOf(c: seq<S32>, clip: S16): Scoring {
    if c == [] then Scoring(0, 0, 0) else Scored(ScoringOf(c[..|c| - 1], clip), c[|c| - 1], clip)
  }

  lemma ScoredNext(c: seq<S32>, clip: S16, k: nat)
    requires k < |c|
    ensures ScoringOf(c[..k + 1], clip) == Scored(ScoringOf(c[..k], clip), c[k], clip)
  {
    assert c[..k + 1][..k] == c[..k];
  }

  /** matrix_sum, in two's complement. */
  method Sum(n: nat, c: array<S32>, clip: S16) returns (ret: S16)
    requires c.Length == n * n
    ensures ret == ScoringOf(c[..], clip).score
  {
    hide Scored, ToS16, ToS32, ScoringOf;
    var sum: S32, prev: S32, cur: S32 := 0, 0, 0;
    ret := 0;
    NoScore(c[..], clip);
    for i := 0 to n
      invariant 0 <= i * n <= n * n && ScoringOf(c[..i * n], clip) == Scoring(sum, prev, ret)
    {
      Cell(n, i, 0);
      ghost var row := i * n;
      for j := 0 to n
        invariant row == i * n && row + j <= c.Length && ScoringOf(c[..row + j], clip) == Scoring(sum, prev, ret)
      {
        cur := c[i * n + j];
        ScoredNext(c[..], clip, row + j);
        ScoredIs(Scoring(sum, prev, ret), cur, clip);
        assert c[..][..row + j] == c[..row + j] && c[..][..row + j + 1] == c[..row + j + 1];
        sum := ToS32(sum as int + cur);
        if sum > clip {
          ret := ToS16(ret + 10);
          sum := 0;
        } else {
          ret := ToS16(ret as int + if cur > prev then 1 else 0);
        }
        prev := cur;
      }
    }
    assert c[..n * n] == c[..];
  }

  lemma NoScore(c: seq<S32>, clip: S16)
    ensures ScoringOf(c[..0], clip) == Scoring(0, 0, 0)
  {
  }

  lemma ScoredIs(s: Scoring, cur: S32, clip: S16)
    ensures Scored(s, cur, clip) ==
      var sum := ToS32(s.sum as int + cur);
      if sum > clip then Scoring(0, cur, ToS16(s.score + 10))
      else Scoring(sum, cur, ToS16(s.score as int + if cur > s.prev then 1 else 0))
  {
  }

  /** matrix_big: 0xf000 | val */
  function Big(val: S16): S16 {
    val as int % 0x1000 - 0x1000
  }

  /** The clip value is always negative. So of a matrix without negative elements the score says only how
      many elements it has: ten for each, whatever they are. */
  lemma {:induction false} NonnegativeScoresTen(c: seq<S32>, val: S16)
    requires forall t :: 0 <= t < |c| ==> c[t] >= 0
    ensures ScoringOf(c, Big(val)).score == ToS16(10 * |c|) && ScoringOf(c, Big(val)).sum == 0
  {
    hide Scored, ToS16, Big;
    if c == [] {
      assert ToS16(0) == 0 by { WrapNothing(); }
    } else {
      var before := c[..|c| - 1];
      NonnegativeScoresTen(before, val);
      BigIsNegative(val);
      ScoresTen(ScoringOf(before, Big(val)), c[|c| - 1], Big(val), |before|);
    }
  }

  lemma WrapNothing()
    ensures ToS16(0) == 0
  {
  }

  lemma BigIsNegative(val: S16)
    ensures Big(val) < 0
  {
  }

  lemma ScoresTen(s: Scoring, cur: S32, clip: S16, k: nat)
    requires s.sum == 0 && s.score == ToS16(10 * k) && cur >= 0 > clip
    ensures Scored(s, cur, clip).score == ToS16(10 * (k + 1)) && Scored(s, cur, clip).sum == 0
  {
    hide ToS16, ToS32;
    Wrap32(0, cur);
    Wrap32(cur, 0);
    WrapSum16(10 * k, 10);
  }

  lemma WrapSum16(x: int, y: int)
    ensures ToS16(ToS16(x) as int + y) == ToS16(x + y)
  {
  }

  // ----- matrix_test

  ghost function Scaled(a: seq<S16>, val: S16): (c: seq<S32>)
    ensures |c| == |a|
  {
    seq(|a|, t requires 0 <= t < |a| => ToS32(a[t] as int * val as int))
  }

  /** c with the product of a and the first row of b in its first n cells. */
  ghost function WithVect(c: seq<S32>, a: seq<S16>, b: seq<S16>, n: nat): (r: seq<S32>)
    requires |a| == |b| == |c| == n * n
    ensures |r| == |c|
  {
    seq(|c|, t requires 0 <= t < |c| => if t < n then ToS32(VectDot(a, b, n, t, n)) else c[t])
  }

  ghost function Product(extract: bool, a: seq<S16>, b: seq<S16>, n: nat): (c: seq<S32>)
    requires |a| == |b| == n * n
    ensures |c| == n * n
  {
    seq(n * n, t requires 0 <= t < n * n => ProductCell(extract, a, b, n, t))
  }

  ghost function ProductCell(extract: bool, a: seq<S16>, b: seq<S16>, n: nat, t: nat): (c: S32)
    requires |a| == |b| == n * n && t < n * n
    ensures n > 0 && t / n < n && t % n < n && c == ToS32(Dot(extract, a, b, n, t / n, t % n, n))
  {
    Place(n, t);
    ToS32(Dot(extract, a, b, n, t / n, t % n, n))
  }

  lemma Place(n: nat, t: nat)
    requires t < n * n
    ensures n > 0 && t / n < n && t % n < n
  {
    assert t == n * (t / n) + t % n;
    LargerProduct(n, t / n);
  }

  lemma LargerProduct(n: nat, q: nat)
    ensures q >= n ==> n * q >= n * n
  {
    if q >= n {
      Nonnegative(n, q - n);
      assert n * (q - n) == n * q - n * n;
    }
  }

  lemma OnlyProduct(extract: bool, c: seq<S32>, a: seq<S16>, b: seq<S16>, n: nat)
    requires |a| == |b| == |c| == n * n && IsProduct(extract, c, a, b, n, n * n)
    ensures c == Product(extract, a, b, n)
  {
    hide Dot, ToS32;
    var p := Product(extract, a, b, n);
    forall t | 0 <= t < n * n ensures c[t] == p[t] {
      Place(n, t);
    }
  }

  ghost function ScoreInto(c: seq<S32>, clip: S16, crc: Word): Word {
    CrcWord(ToU16(ScoringOf(c, clip).score), crc)
  }

  /** The CRC over the scores of the four results. */
  ghost function TestCrc(a: seq<S16>, b: seq<S16>, n: nat, val: S16): Word
    requires |a| == |b| == n * n
  {
    var clip, c := Big(val), Scaled(a, val);
    ScoreInto(Product(true, a, b, n), clip,
      ScoreInto(Product(false, a, b, n), clip,
        ScoreInto(WithVect(c, a, b, n), clip,
          ScoreInto(c, clip, NoBits()))))
  }

  function NoBits(): Word {
    LowBits(0, 16)
  }

  /** matrix_test: a is back as it was for every val, the last product over a + val is left in c, and the
      CRC is over the scores of a + val times val, by the first row of b, and by b in both ways. */
  method Test(n: nat, c: array<S32>, a: array<S16>, b: array<S16>, val: S16) returns (crc: Word)
    requires a.Length == b.Length == c.Length == n * n && a != b
    modifies a, c
    ensures a[..] == old(a[..]) && b[..] == old(b[..])
    ensures c[..] == Product(true, PlusConst(old(a[..]), val), b[..], n)
    ensures crc == TestCrc(PlusConst(old(a[..]), val), b[..], n, val)
  {
    hide ToS16, ToS32, IsProduct, ScoreInto, Big, Scaled, WithVect, Product;
    var clip := Big(val);
    AddConst(n, a, val);
    ghost var shifted := a[..];
    MulConst(n, c, a, val);
    crc := SumInto(n, c, clip, NoBits());
    MulVect(n, c, a, b);
    crc := SumInto(n, c, clip, crc);
    MulMatrix(false, n, c, a, b);
    OnlyProduct(false, c[..], a[..], b[..], n);
    crc := SumInto(n, c, clip, crc);
    MulMatrix(true, n, c, a, b);
    OnlyProduct(true, c[..], a[..], b[..], n);
    crc := SumInto(n, c, clip, crc);
    AddConst(n, a, ToS16(-(val as int)));
    ConstGoesAway(old(a[..]), val);
  }

  /** The score of c goes into the CRC. */
  method SumInto(n: nat, c: array<S32>, clip: S16, crc0: Word) returns (crc: Word)
    requires c.Length == n * n
    ensures crc == ScoreInto(c[..], clip, crc0)
  {
    var score := Sum(n, c, clip);
    crc := Crcu16(ToU16(score), crc0);
  }

  // ----- core_init_matrix

  /** i*i*2*4 in 32 bits. */
  function Reached(i: nat): U32 {
    8 * (i * i) % 0x1_0000_0000
  }

  /** The first i at which the largest value of Reached comes up. */
  const LAST_I := 57098059
  const MOST_REACHED := 0xFFFF_FFC8

  /** No square has a larger 32-bit multiple by 8, so for blocks above that the loop never ends. */
  lemma NeverMore(i: nat)
    ensures Reached(i) <= MOST_REACHED
  {
    SquareResidue(i);
    ReachedBound(i * i);
  }

  lemma ReachedBound(x: int)
    requires x % 8 == 0 || x % 8 == 1 || x % 0x20 == 4
    ensures 8 * x % 0x1_0000_0000 <= MOST_REACHED
  {
    var high, r := x / 0x2000_0000, x % 0x2000_0000;
    Remainders(x, high, r);
  }

  lemma Remainders(x: int, high: int, r: nat)
    requires x == 0x2000_0000 * high + r && r < 0x2000_0000
    ensures 8 * x % 0x1_0000_0000 == 8 * r && x % 0x20 == r % 0x20 && x % 8 == r % 8
  {
    QuotientIs(8 * x, 0x1_0000_0000, high, 8 * r);
    QuotientIs(x, 0x20, 0x100_0000 * high + r / 0x20, r % 0x20);
    QuotientIs(x, 8, 0x400_0000 * high + r / 8, r % 8);
  }

  /** Squares end in these bits. */
  lemma SquareResidue(i: nat)
    ensures i * i % 8 == 0 || i * i % 8 == 1 || i * i % 0x20 == 4
  {
    var q, r := i / 4, i % 4;
    var s: int, t: int := q * q, (q + 1) * q;
    SquareOf(q, r);
    if r == 0 {
      QuotientIs(i * i, 8, 2 * s, 0);
    } else if r == 1 {
      QuotientIs(i * i, 8, 2 * s + q, 1);
    } else if r == 2 {
      EvenProduct(q);
      assert t == s + q;
      QuotientIs(i * i, 0x20, t / 2, 4);
    } else {
      QuotientIs(i * i, 8, 2 * s + 3 * q + 1, 1);
    }
  }

  lemma SquareOf(q: int, r: int)
    ensures (4 * q + r) * (4 * q + r) == 16 * (q * q) + 8 * r * q + r * r
  {
  }

  lemma EvenProduct(q: int)
    ensures (q + 1) * q % 2 == 0
  {
    if q % 2 == 0 {
      var h := q / 2;
      assert (q + 1) * (2 * h) == 2 * ((q + 1) * h);
    } else {
      var h := (q + 1) / 2;
      assert (2 * h) * q == 2 * (h * q);
    }
  }

  /** The dimension. It is one less than the first i that reaches the block size: in blocks of up to
      8*23170*23170 bytes the largest n with 8*n*n below the block size, in larger ones, where the square
      has wrapped, an n whose matrices do not fit, and in an empty one 2^32-1. Above MOST_REACHED bytes
      there is no such i. */
  method Dimension(blksize: U32) returns (n: U32)
    requires blksize <= MOST_REACHED
    ensures blksize == 0 ==> n == 0xFFFF_FFFF
    ensures blksize > 0 ==> Reached(n + 1) >= blksize && forall k: nat | k <= n :: Reached(k) < blksize
    ensures 1 <= blksize <= 8 * (23170 * 23170) ==> 8 * (n * n) < blksize <= 8 * ((n + 1) * (n + 1))
    ensures blksize > 8 * (23170 * 23170) ==> 8 * (n * n) > blksize
  {
    hide Reached;
    var i, j := 0, 0;
    Squares();
    while j < blksize
      invariant 0 <= i <= LAST_I && j == Reached(i)
      invariant forall k: nat | k < i :: Reached(k) < blksize
      decreases LAST_I - i
    {
      i := i + 1;
      j := Reached(i);
    }
    n := (i - 1) % 0x1_0000_0000;
    if blksize > 0 { DimensionIs(blksize, n); }
  }

  lemma Squares()
    ensures Reached(0) == 0 && Reached(LAST_I) == MOST_REACHED && Reached(23170) == 8 * (23170 * 23170)
    ensures Reached(23171) == 194632
  {
    assert LAST_I * LAST_I == 3260188341567481;
  }

  lemma ReachedExactly(i: nat)
    requires i <= 23170
    ensures Reached(i) == 8 * (i * i) <= 8 * (23170 * 23170)
  {
    SquaresOrdered(i, 23170);
  }

  lemma DimensionIs(blksize: U32, n: nat)
    requires blksize > 0 && Reached(n + 1) >= blksize && forall k: nat | k <= n :: Reached(k) < blksize
    ensures blksize <= 8 * (23170 * 23170) ==> 8 * (n * n) < blksize <= 8 * ((n + 1) * (n + 1))
    ensures blksize > 8 * (23170 * 23170) ==> 8 * (n * n) > blksize
  {
    hide Reached;
    Squares();
    if blksize <= 8 * (23170 * 23170) {
      assert n + 1 <= 23170;
      ReachedExactly(n);
      ReachedExactly(n + 1);
    } else {
      if n + 1 <= 23170 { ReachedExactly(n + 1); }
      assert n + 1 > 23171;
      SquaresOrdered(23171, n);
    }
  }

  lemma SquaresOrdered(i: nat, k: nat)
    requires i <= k
    ensures i * i <= k * k
  {
    Nonnegative(i, k - i);
    Nonnegative(k, k - i);
    assert i * (k - i) == i * k - i * i && k * (k - i) == k * k - k * i;
  }

  /** 4 + (((x) - 1) & ~3) */
  function AlignMem(x: nat): nat {
    4 + (x as int - 1) / 4 * 4
  }

  /** In an aligned block the matrices A, B and C follow each other and end inside it; elsewhere the
      alignment must fit, too. */
  lemma MatricesFit(blk: nat, blksize: nat, n: nat)
    requires 8 * n * n < blksize
    ensures var a := AlignMem(blk);
      var b := a + 2 * (n * n);
      var c := AlignMem(b + 2 * (n * n));
      && blk <= a < blk + 4 && a % 4 == 0
      && c == b + 2 * (n * n)
      && (blk % 4 == 0 ==> a == blk && c + 4 * (n * n) < blk + blksize)
      && (c + 4 * (n * n) <= blk + blksize <==> 8 * n * n + (a - blk) <= blksize)
  {
    var m := n * n;
    assert 8 * n * n == 8 * m;
    assert (AlignMem(blk) + 4 * m) % 4 == 0;
  }

  /** The C remainder. */
  function Rem(x: int, m: nat): int
    requires m > 0
  {
    if x >= 0 then x % m else -((-x) % m)
  }

  /** order * seed in 32 bits, reduced. */
  function NextSeed(order: int, seed: int): int {
    Rem(ToS32(order * seed), 65536)
  }

  /** The seed after t elements. */
  function SeedAfter(seed0: S32, t: nat): int {
    if t == 0 then (if seed0 == 0 then 1 else seed0) else NextSeed(t, SeedAfter(seed0, t - 1))
  }

  /** The elements of B and A with this number. */
  function ElementB(seed0: S32, t: nat): S16 {
    ToS16(SeedAfter(seed0, t + 1) + (t + 1))
  }

  function ElementA(seed0: S32, t: nat): S16 {
    (SeedAfter(seed0, t + 1) + 2 * (t + 1)) % 0x100
  }

  /** The loops that fill A and B; the values of A are clipped to a byte. */
  method FillMatrices(n: nat, seed0: S32, a: array<S16>, b: array<S16>)
    requires a.Length == b.Length == n * n && a != b
    modifies a, b
    ensures forall t :: 0 <= t < n * n ==> b[t] == ElementB(seed0, t) && a[t] == ElementA(seed0, t)
    ensures Small(a[..], 255)
  {
    hide NextSeed, ElementA, ElementB, SeedAfter;
    var seed: int, order := if seed0 == 0 then 1 else seed0, 1;
    FirstSeed(seed0);
    for i := 0 to n
      invariant 0 <= i * n <= n * n && order == i * n + 1 && seed == SeedAfter(seed0, order - 1)
      invariant forall t :: 0 <= t < i * n ==>
        b[t] == ElementB(seed0, t) && a[t] == ElementA(seed0, t) && 0 <= a[t] <= 255
    {
      Cell(n, i, 0);
      ghost var row := i * n;
      for j := 0 to n
        invariant row == i * n && row + j <= a.Length && order == row + j + 1 && seed == SeedAfter(seed0, order - 1)
        invariant forall t :: 0 <= t < row + j ==>
          b[t] == ElementB(seed0, t) && a[t] == ElementA(seed0, t) && 0 <= a[t] <= 255
      {
        SeedNext(seed0, order);
        seed := NextSeed(order, seed);
        var val: S16 := ToS16(seed + order);
        val := ToS16(val as int % 0x1_0000);
        ClippedB(seed, order);
        ClippedA(seed, order, val);
        ElementsAre(seed0, row + j);
        b[i * n + j] := val;
        val := ToS16(val as int + order);
        val := ToS16(val as int % 0x100);
        a[i * n + j] := val;
        order := order + 1;
      }
    }
  }

  lemma FirstSeed(seed0: S32)
    ensures SeedAfter(seed0, 0) == if seed0 == 0 then 1 else seed0
  {
  }

  lemma SeedNext(seed0: S32, t: nat)
    requires t > 0
    ensures SeedAfter(seed0, t) == NextSeed(t, SeedAfter(seed0, t - 1))
  {
  }

  lemma ElementsAre(seed0: S32, t: nat)
    ensures ElementB(seed0, t) == ToS16(SeedAfter(seed0, t + 1) + (t + 1))
    ensures ElementA(seed0, t) == (SeedAfter(seed0, t + 1) + 2 * (t + 1)) % 0x100
  {
  }

  lemma ClippedB(seed: int, order: int)
    ensures ToS16(ToS16(seed + order) as int % 0x1_0000) == ToS16(seed + order)
  {
  }

  lemma ClippedA(seed: int, order: int, val: S16)
    requires val == ToS16(seed + order)
    ensures ToS16(ToS16(val as int + order) as int % 0x100) == (seed + 2 * order) % 0x100
  {
    var m := Wrapped(seed + order);
    var z := seed + 2 * order;
    var k := Wrapped(val as int + order);
    var w: int := ToS16(val as int + order);
    assert w == z - 0x1_0000 * (m + k);
    QuotientIs(w, 0x100, z / 0x100 - 0x100 * (m + k), z % 0x100);
  }

  /** How often 2^16 is taken from a number. */
  lemma Wrapped(x: int) returns (m: int)
    ensures ToS16(x) as int == x - 0x1_0000 * m
  {
    m := (x + 0x8000) / 0x1_0000;
  }

  /** For dimensions up to 181 the products that make the seeds do not overflow. */
  lemma SeedsDoNotOverflow(seed0: S32, t: nat)
    requires t <= 181 * 181
    ensures t > 0 ==> -65536 < SeedAfter(seed0, t) < 65536
    ensures -0x8000_0000 <= (t + 1) * SeedAfter(seed0, t) < 0x8000_0000
  {
    if t > 0 {
      SeedSize(seed0, t);
      hide SeedAfter;
      var s := SeedAfter(seed0, t);
      assert (t + 1) * (65535 - s) == 65535 * (t + 1) - (t + 1) * s;
      assert (t + 1) * (65535 + s) == 65535 * (t + 1) + (t + 1) * s;
      Nonnegative(t + 1, 65535 - s);
      Nonnegative(t + 1, 65535 + s);
    }
  }

  /** The next seed differs from the product by a multiple of 2^16. */
  lemma NextSeedIs(order: int, seed: int) returns (m: int)
    ensures NextSeed(order, seed) == order * seed - 0x1_0000 * m
  {
    var x := order * seed;
    var high, y: int := (x + 0x8000_0000) / 0x1_0000_0000, ToS32(x);
    assert y == x - 0x1_0000_0000 * high;
    var low := if y >= 0 then y / 0x1_0000 else -((-y) / 0x1_0000);
    m := 0x1_0000 * high + low;
  }

  /** Factors of two in an element's number are taken into the seed. */
  lemma SeedTakes(seed0: S32, t: nat, d: nat, q: nat, e: nat)
    requires t > 0 && d > 0 && q > 0 && SeedAfter(seed0, t - 1) % d == 0 && t % q == 0 && d * q * e == 0x1_0000
    ensures SeedAfter(seed0, t) % (d * q) == 0
  {
    var seed := SeedAfter(seed0, t - 1);
    var m := NextSeedIs(t, seed);
    SeedNext(seed0, t);
    hide NextSeed, SeedAfter;
    var k := Quotient(seed, d);
    var j := Quotient(t, q);
    Factor(t, seed, d, q, k, j);
    MultipleOf(SeedAfter(seed0, t), d * q, j * k, e, m);
  }

  lemma Quotient(x: int, d: nat) returns (k: int)
    requires d > 0 && x % d == 0
    ensures x == d * k
  {
    k := x / d;
  }

  lemma MultipleOf(x: int, p: nat, u: int, e: nat, m: int)
    requires p > 0 && p * e == 0x1_0000 && x == p * u - 0x1_0000 * m
    ensures x % p == 0
  {
    assert (p * e) * m == p * (e * m);
    assert p * (u - e * m) == p * u - p * (e * m);
    QuotientIs(x, p, u - e * m, 0);
  }

  lemma Factor(t: int, seed: int, d: nat, q: nat, k: int, j: int)
    requires seed == d * k && t == q * j
    ensures t * seed == (d * q) * (j * k)
  {
  }

  lemma EightSeeds(seed0: S32)
    ensures SeedAfter(seed0, 8) % 0x80 == 0
  {
    hide SeedAfter;
    SeedTakes(seed0, 1, 1, 1, 0x10000);
    SeedTakes(seed0, 2, 1, 2, 0x8000);
    SeedTakes(seed0, 3, 2, 1, 0x8000);
    SeedTakes(seed0, 4, 2, 4, 0x2000);
    SeedTakes(seed0, 5, 8, 1, 0x2000);
    SeedTakes(seed0, 6, 8, 2, 0x1000);
    SeedTakes(seed0, 7, 0x10, 1, 0x1000);
    SeedTakes(seed0, 8, 0x10, 8, 0x200);
  }

  lemma EighteenSeeds(seed0: S32)
    ensures SeedAfter(seed0, 18) % 0x1_0000 == 0
  {
    hide SeedAfter;
    EightSeeds(seed0);
    SeedTakes(seed0, 9, 0x80, 1, 0x200);
    SeedTakes(seed0, 10, 0x80, 2, 0x100);
    SeedTakes(seed0, 11, 0x100, 1, 0x100);
    SeedTakes(seed0, 12, 0x100, 4, 0x40);
    SeedTakes(seed0, 13, 0x400, 1, 0x40);
    SeedTakes(seed0, 14, 0x400, 2, 0x20);
    SeedTakes(seed0, 15, 0x800, 1, 0x20);
    SeedTakes(seed0, 16, 0x800, 16, 2);
    SeedTakes(seed0, 17, 0x8000, 1, 2);
    SeedTakes(seed0, 18, 0x8000, 2, 1);
  }

  /** The seed is multiplied by 1, 2, 3, ... and kept to 16 bits, so from the 18th element on it is 0. */
  lemma {:induction false} SeedDies(seed0: S32, t: nat)
    requires t >= 18
    ensures SeedAfter(seed0, t) == 0
    decreases t
  {
    if t == 18 {
      hide SeedAfter;
      EighteenSeeds(seed0);
      SeedSize(seed0, 18);
    } else {
      SeedDies(seed0, t - 1);
    }
  }

  lemma SeedSize(seed0: S32, t: nat)
    requires t > 0
    ensures -65536 < SeedAfter(seed0, t) < 65536
  {
    hide ToS32;
  }

  /** So the seed decides 17 elements of each matrix, and all the others are what their number says. */
  lemma SeedDoesNotMatter(seed0: S32, t: nat)
    requires t >= 17
    ensures ElementB(seed0, t) == ToS16(t + 1) && ElementA(seed0, t) == 2 * (t + 1) % 0x100
  {
    SeedDies(seed0, t + 1);
  }
}
