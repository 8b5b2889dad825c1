/**
 * Dense 4-D cubes (rows, cols, depth, batch) stored in the CRDB layout, in which
 * the column index varies fastest, then the row, then the depth, then the batch.
 * A 2-D matrix is a cube of shape (rows, cols, 1, 1), i.e. row-major.
 *
 * The module also holds the arithmetic the bridges are specified with: finite
 * sums, dot products, and the two data-movement maps every layout change in the
 * bridges is made of, Gather (read through an index table) and Scatter (add
 * through an index table).
 */
module Tensor {

  // ---------------------------------------------------------------------------
  // Shapes and the CRDB layout
  // ---------------------------------------------------------------------------

  datatype Shape = Shape(R: nat, C: nat, D: nat, B: nat)
  {
    /** Number of elements of a cube of this shape. */
    function Count(): nat { R * C * D * B }
  }

  datatype Coord = Coord(r: nat, c: nat, d: nat, b: nat)

  /** The shape of a matrix with the given number of rows and columns. */
  function MatShape(rows: nat, cols: nat): Shape
  {
    Shape(rows, cols, 1, 1)
  }

  predicate InShape(s: Shape, p: Coord)
  {
    p.r < s.R && p.c < s.C && p.d < s.D && p.b < s.B
  }

  /** Physical offset of logical position p in a CRDB cube of shape s. */
  function Offset(s: Shape, p: Coord): nat
  {
    ((p.b * s.D + p.d) * s.R + p.r) * s.C + p.c
  }

  /** Logical position of physical offset q in a CRDB cube of shape s. */
  function CoordOf(s: Shape, q: nat): Coord
  {
    if s.C == 0 || s.R == 0 || s.D == 0 then Coord(0, 0, 0, 0)
    else
      var t1: nat := q / s.C;
      var t2: nat := t1 / s.R;
      Coord(t1 % s.R, q % s.C, t2 % s.D, t2 / s.D)
  }

  lemma DivBound(q: nat, x: nat, y: nat)
    requires y > 0 && q < x * y
    ensures q / y < x
  {
    if q / y >= x {
      MulMono(x, q / y, y);
    }
  }

  lemma MulMono(a: nat, b: nat, c: nat)
    requires a <= b
    ensures a * c <= b * c
  {
  }

  lemma DivModUnique(q: nat, y: nat, x: nat, z: nat)
    requires z < y && q == x * y + z
    ensures q / y == x && q % y == z
  {
    var a, b := q / y, q % y;
    assert q == a * y + b;
    assert (x - a) * y == b - z;
    if x > a {
      assert (x - a) * y >= y by { MulMono(1, x - a, y); }
    } else if x < a {
      assert (a - x) * y >= y by { MulMono(1, a - x, y); }
    }
  }

  /** Offsets of in-shape positions are in range. */
  lemma OffsetInRange(s: Shape, p: Coord)
    requires InShape(s, p)
    ensures Offset(s, p) < s.Count()
  {
    var t2 := p.b * s.D + p.d;
    PlaceBound(p.b, p.d, s.B, s.D);
    var t1 := t2 * s.R + p.r;
    PlaceBound(t2, p.r, s.B * s.D, s.R);
    PlaceBound(t1, p.c, s.B * s.D * s.R, s.C);
    assert Offset(s, p) == t1 * s.C + p.c;
    assert s.B * s.D * s.R * s.C == s.Count();
  }

  /** A digit x < X placed after a prefix t < n stays below n * X. */
  lemma PlaceBound(t: nat, x: nat, n: nat, X: nat)
    requires t < n && x < X
    ensures t * X + x < n * X
  {
    MulMono(t + 1, n, X);
    assert (t + 1) * X == t * X + X;
  }

  /** CoordOf inverts Offset on in-shape positions. */
  lemma CoordOfOffset(s: Shape, p: Coord)
    requires InShape(s, p)
    ensures CoordOf(s, Offset(s, p)) == p
  {
    var t2 := p.b * s.D + p.d;
    var t1 := t2 * s.R + p.r;
    DivModUnique(Offset(s, p), s.C, t1, p.c);
    DivModUnique(t1, s.R, t2, p.r);
    DivModUnique(t2, s.D, p.b, p.d);
  }

  lemma DivMod(q: nat, y: nat)
    requires y > 0
    ensures q == q / y * y + q % y && q % y < y
  {
  }

  lemma CountPositive(s: Shape)
    requires s.Count() > 0
    ensures s.R > 0 && s.C > 0 && s.D > 0 && s.B > 0
  {
  }

  /** Offset inverts CoordOf on in-range offsets. */
  lemma OffsetOfCoord(s: Shape, q: nat)
    requires q < s.Count()
    ensures InShape(s, CoordOf(s, q)) && Offset(s, CoordOf(s, q)) == q
  {
    CountPositive(s);
    var t1 := q / s.C;
    var t2 := t1 / s.R;
    var p := CoordOf(s, q);
    assert p == Coord(t1 % s.R, q % s.C, t2 % s.D, t2 / s.D);
    assert s.Count() == ((s.B * s.D) * s.R) * s.C;
    DivBound(q, s.B * s.D * s.R, s.C);
    DivBound(t1, s.B * s.D, s.R);
    DivBound(t2, s.B, s.D);
    DivMod(q, s.C);
    DivMod(t1, s.R);
    DivMod(t2, s.D);
    assert p.b * s.D + p.d == t2;
    assert t2 * s.R + p.r == t1;
  }

  // ---------------------------------------------------------------------------
  // Finite sums and dot products
  // ---------------------------------------------------------------------------

  /** Element i of s, or 0 outside s. */
  function At(s: seq<real>, i: int): real
  {
    if 0 <= i < |s| then s[i] else 0.0
  }

  function Zeros(n: nat): (z: seq<real>)
    ensures |z| == n && forall i :: 0 <= i < n ==> z[i] == 0.0
  {
    seq(n, _ => 0.0)
  }

  /** f(0) + f(1) + ... + f(n - 1). */
  function Sum(n: nat, f: nat -> real): real
  {
    if n == 0 then 0.0 else Sum(n - 1, f) + f(n - 1)
  }

  lemma {:induction false} SumExt(n: nat, f: nat -> real, g: nat -> real)
    requires forall i: nat :: i < n ==> f(i) == g(i)
    ensures Sum(n, f) == Sum(n, g)
  {
    if n > 0 {
      SumExt(n - 1, f, g);
    }
  }

  lemma {:induction false} SumZero(n: nat, f: nat -> real)
    requires forall i: nat :: i < n ==> f(i) == 0.0
    ensures Sum(n, f) == 0.0
  {
    if n > 0 {
      SumZero(n - 1, f);
    }
  }

  /** Sum of a function that is zero except at one index. */
  lemma {:induction false} SumSingle(n: nat, f: nat -> real, k: nat)
    requires k < n
    requires forall i: nat :: i < n && i != k ==> f(i) == 0.0
    ensures Sum(n, f) == f(k)
  {
    if k == n - 1 {
      SumZero(n - 1, f);
    } else {
      SumSingle(n - 1, f, k);
    }
  }

  lemma {:induction false} SumScale(n: nat, c: real, f: nat -> real, g: nat -> real)
    requires forall i: nat :: i < n ==> g(i) == c * f(i)
    ensures Sum(n, g) == c * Sum(n, f)
  {
    if n > 0 {
      SumScale(n - 1, c, f, g);
    }
  }

  lemma {:induction false} SumAdd(n: nat, f: nat -> real, g: nat -> real, h: nat -> real)
    requires forall i: nat :: i < n ==> h(i) == f(i) + g(i)
    ensures Sum(n, h) == Sum(n, f) + Sum(n, g)
  {
    if n > 0 {
      SumAdd(n - 1, f, g, h);
    }
  }

  /** A sum over a + b indices is a sum over the first a plus a sum over the rest. */
  lemma {:induction false} SumConcat(a: nat, b: nat, f: nat -> real, g: nat -> real)
    requires forall j: nat :: j < b ==> g(j) == f(a + j)
    ensures Sum(a + b, f) == Sum(a, f) + Sum(b, g)
  {
    if b > 0 {
      SumConcat(a, b - 1, f, g);
    }
  }

  /** Row i of F, the function j |-> F(i, j). */
  function Row(i: nat, F: (nat, nat) -> real): nat -> real
  {
    (j: nat) => F(i, j)
  }

  /** Column j of F, the function i |-> F(i, j). */
  function Col(j: nat, F: (nat, nat) -> real): nat -> real
  {
    (i: nat) => F(i, j)
  }

  /** The function i |-> F(i, 0) + ... + F(i, n - 1). */
  function RowSum(n: nat, F: (nat, nat) -> real): nat -> real
  {
    (i: nat) => Sum(n, Row(i, F))
  }

  /** The function j |-> F(0, j) + ... + F(m - 1, j). */
  function ColSum(m: nat, F: (nat, nat) -> real): nat -> real
  {
    (j: nat) => Sum(m, Col(j, F))
  }

  /** A sum over m * n indices is a double sum over row i < m and column j < n. */
  lemma {:induction false} SumSplit(m: nat, n: nat, f: nat -> real, F: (nat, nat) -> real)
    requires forall i: nat, j: nat :: i < m && j < n ==> F(i, j) == f(i * n + j)
    ensures Sum(m * n, f) == Sum(m, RowSum(n, F))
  {
    if m > 0 {
      SumSplit(m - 1, n, f, F);
      assert m * n == (m - 1) * n + n;
      SumConcat((m - 1) * n, n, f, Row(m - 1, F));
    }
  }

  /** The order of the two sums of a double sum can be exchanged. */
  lemma {:induction false} SumSwap(m: nat, n: nat, F: (nat, nat) -> real)
    ensures Sum(m, RowSum(n, F)) == Sum(n, ColSum(m, F))
  {
    if m > 0 {
      SumSwap(m - 1, n, F);
      forall j: nat | j < n
        ensures ColSum(m, F)(j) == ColSum(m - 1, F)(j) + Row(m - 1, F)(j)
      {
        assert Sum(m, Col(j, F)) == Sum(m - 1, Col(j, F)) + Col(j, F)(m - 1);
      }
      SumAdd(n, ColSum(m - 1, F), Row(m - 1, F), ColSum(m, F));
    } else {
      SumZero(n, ColSum(0, F));
    }
  }

  /** The function (i, j) |-> f(i * n + j): f read as a matrix with n columns. */
  function Grid(f: nat -> real, n: nat): (nat, nat) -> real
  {
    (i: nat, j: nat) => f(i * n + j)
  }

  /** Plane i of T, the function (j, k) |-> T(i, j, k). */
  function Slice(i: nat, T: (nat, nat, nat) -> real): (nat, nat) -> real
  {
    (j: nat, k: nat) => T(i, j, k)
  }

  /** The function i |-> sum of T(i, j, k) over j < n2 and k < n3. */
  function Plane(n2: nat, n3: nat, T: (nat, nat, nat) -> real): nat -> real
  {
    (i: nat) => Sum(n2, RowSum(n3, Slice(i, T)))
  }

  /** Triple sum of T(i, j, k) over i < n1, j < n2, k < n3, summed in that nesting. */
  function Sum3(n1: nat, n2: nat, n3: nat, T: (nat, nat, nat) -> real): real
  {
    Sum(n1, Plane(n2, n3, T))
  }

  function Swap12(T: (nat, nat, nat) -> real): (nat, nat, nat) -> real
  {
    (i: nat, j: nat, k: nat) => T(j, i, k)
  }

  function Swap23(T: (nat, nat, nat) -> real): (nat, nat, nat) -> real
  {
    (i: nat, j: nat, k: nat) => T(i, k, j)
  }

  /** The two inner sums of a triple sum can be exchanged. */
  lemma Sum3Swap23(n1: nat, n2: nat, n3: nat, T: (nat, nat, nat) -> real)
    ensures Sum3(n1, n2, n3, T) == Sum3(n1, n3, n2, Swap23(T))
  {
    forall i: nat | i < n1
      ensures Plane(n2, n3, T)(i) == Plane(n3, n2, Swap23(T))(i)
    {
      SumSwap(n2, n3, Slice(i, T));
      forall k: nat | k < n3
        ensures ColSum(n2, Slice(i, T))(k) == RowSum(n2, Slice(i, Swap23(T)))(k)
      {
        SumExt(n2, Col(k, Slice(i, T)), Row(k, Slice(i, Swap23(T))));
      }
      SumExt(n3, ColSum(n2, Slice(i, T)), RowSum(n2, Slice(i, Swap23(T))));
    }
    SumExt(n1, Plane(n2, n3, T), Plane(n3, n2, Swap23(T)));
  }

  /** The two outer sums of a triple sum can be exchanged. */
  lemma Sum3Swap12(n1: nat, n2: nat, n3: nat, T: (nat, nat, nat) -> real)
    ensures Sum3(n1, n2, n3, T) == Sum3(n2, n1, n3, Swap12(T))
  {
    var G := (i: nat, j: nat) => RowSum(n3, Slice(i, T))(j);
    forall i: nat | i < n1
      ensures Plane(n2, n3, T)(i) == RowSum(n2, G)(i)
    {
      SumExt(n2, RowSum(n3, Slice(i, T)), Row(i, G));
    }
    SumExt(n1, Plane(n2, n3, T), RowSum(n2, G));
    SumSwap(n1, n2, G);
    forall j: nat | j < n2
      ensures ColSum(n1, G)(j) == Plane(n1, n3, Swap12(T))(j)
    {
      forall i: nat | i < n1
        ensures Col(j, G)(i) == RowSum(n3, Slice(j, Swap12(T)))(i)
      {
        SumExt(n3, Row(j, Slice(i, T)), Row(i, Slice(j, Swap12(T))));
      }
      SumExt(n1, Col(j, G), RowSum(n3, Slice(j, Swap12(T))));
    }
    SumExt(n2, ColSum(n1, G), Plane(n1, n3, Swap12(T)));
  }

  /** Equals multiplied by the same factor stay equal (the solver keeps products as opaque terms). */
  lemma MulEqual(x: real, y: real, z: real)
    requires x == y
    ensures x * z == y * z && z * x == z * y
  {
  }

  lemma MulBoth(x: real, x': real, y: real, y': real)
    requires x == x' && y == y'
    ensures x * y == x' * y'
  {
  }

  /** Sum of the products of corresponding elements. */
  function Dot(a: seq<real>, b: seq<real>): real
    requires |a| == |b|
  {
    Sum(|a|, Products(a, b))
  }

  /** The function i |-> a[i] * b[i]. */
  function Products(a: seq<real>, b: seq<real>): nat -> real
  {
    (i: nat) => At(a, i) * At(b, i)
  }

  lemma DotSnoc(a: seq<real>, b: seq<real>)
    requires |a| == |b| > 0
    ensures Dot(a, b) == Dot(a[..|a| - 1], b[..|b| - 1]) + a[|a| - 1] * b[|b| - 1]
  {
    var n := |a| - 1;
    SumExt(n, Products(a, b), Products(a[..n], b[..n]));
  }

  /** Adding v at position p changes a dot product by x[p] * v. */
  lemma {:induction false} DotUpdate(x: seq<real>, s: seq<real>, p: nat, v: real)
    requires |x| == |s| && p < |s|
    ensures Dot(x, s[p := s[p] + v]) == Dot(x, s) + x[p] * v
  {
    var n := |s| - 1;
    var s' := s[p := s[p] + v];
    DotSnoc(x, s);
    DotSnoc(x, s');
    if p < n {
      assert s'[..n] == s[..n][p := s[p] + v];
      DotUpdate(x[..n], s[..n], p, v);
    } else {
      assert s'[..n] == s[..n];
    }
  }

  // ---------------------------------------------------------------------------
  // Gather and Scatter through an index table
  // ---------------------------------------------------------------------------

  predicate IndexIn(idx: seq<nat>, n: nat)
  {
    forall q :: 0 <= q < |idx| ==> idx[q] < n
  }

  /** Element q of the result is x[idx[q]]: a pure data movement. */
  function Gather(x: seq<real>, idx: seq<nat>): (r: seq<real>)
    ensures |r| == |idx|
  {
    seq(|idx|, q requires 0 <= q < |idx| => At(x, idx[q]))
  }

  /**
   * Scatter-add: starting from n zeros, adds each y[q] into position idx[q],
   * in the order q = 0, 1, ..., so that every position receives the sum of all
   * entries that name it.
   */
  function Scatter(y: seq<real>, idx: seq<nat>, n: nat): (r: seq<real>)
    requires |y| == |idx|
    ensures |r| == n
    decreases |y|
  {
    if |y| == 0 then Zeros(n)
    else
      var s := Scatter(y[..|y| - 1], idx[..|idx| - 1], n);
      var p := idx[|idx| - 1];
      if p < n then s[p := s[p] + y[|y| - 1]] else s
  }

  /** Scatter is the adjoint (transpose) of Gather: <Gather(x), y> = <x, Scatter(y)>. */
  lemma {:induction false} GatherScatterAdjoint(x: seq<real>, y: seq<real>, idx: seq<nat>)
    requires |y| == |idx| && IndexIn(idx, |x|)
    ensures Dot(Gather(x, idx), y) == Dot(x, Scatter(y, idx, |x|))
  {
    var m := |y|;
    if m > 0 {
      var y', idx' := y[..m - 1], idx[..m - 1];
      GatherScatterAdjoint(x, y', idx');
      assert Gather(x, idx)[..m - 1] == Gather(x, idx');
      DotSnoc(Gather(x, idx), y);
      DotUpdate(x, Scatter(y', idx', |x|), idx[m - 1], y[m - 1]);
    } else {
      SumZero(|x|, Products(x, Scatter(y, idx, |x|)));
    }
  }

  /** Each position of Scatter(y) is the sum of the y[q] whose index is that position. */
  lemma {:induction false} ScatterSumsHits(y: seq<real>, idx: seq<nat>, n: nat, p: nat)
    requires |y| == |idx| && p < n
    ensures Scatter(y, idx, n)[p] == Sum(|y|, (q: nat) => if q < |idx| && idx[q] == p then At(y, q) else 0.0)
  {
    var m := |y|;
    if m > 0 {
      var y', idx' := y[..m - 1], idx[..m - 1];
      ScatterSumsHits(y', idx', n, p);
      SumExt(m - 1, (q: nat) => if q < |idx'| && idx'[q] == p then At(y', q) else 0.0,
                    (q: nat) => if q < |idx| && idx[q] == p then At(y, q) else 0.0);
    } else {
      SumZero(0, (q: nat) => if q < |idx| && idx[q] == p then At(y, q) else 0.0);
    }
  }

  /** Scattering ones counts, at each position, how many entries of idx name it. */
  lemma {:induction false} ScatterOnesCounts(idx: seq<nat>, n: nat, p: nat)
    requires p < n
    ensures Scatter(seq(|idx|, _ => 1.0), idx, n)[p] == multiset(idx)[p] as real
  {
    var m := |idx|;
    if m > 0 {
      var idx' := idx[..m - 1];
      assert seq(|idx|, _ => 1.0)[..m - 1] == seq(|idx'|, _ => 1.0);
      ScatterOnesCounts(idx', n, p);
      assert idx == idx' + [idx[m - 1]];
      assert multiset(idx) == multiset(idx') + multiset{idx[m - 1]};
    }
  }

  predicate Injective(idx: seq<nat>)
  {
    forall q: nat, q': nat :: 0 <= q < |idx| && 0 <= q' < |idx| && q != q' ==> idx[q] != idx[q']
  }

  /** Through an injective table, Scatter puts y[q] at idx[q] and zero elsewhere. */
  lemma {:induction false} ScatterInjective(y: seq<real>, idx: seq<nat>, n: nat)
    requires |y| == |idx| && IndexIn(idx, n) && Injective(idx)
    ensures forall q :: 0 <= q < |y| ==> Scatter(y, idx, n)[idx[q]] == y[q]
    ensures forall p :: 0 <= p < n && p !in idx ==> Scatter(y, idx, n)[p] == 0.0
  {
    var m := |y|;
    if m > 0 {
      var y', idx' := y[..m - 1], idx[..m - 1];
      ScatterInjective(y', idx', n);
      assert forall p :: p !in idx ==> p !in idx';
      assert idx[m - 1] !in idx';
    }
  }

  /** Scattering through a permutation is gathering through its inverse. */
  lemma ScatterPermutation(y: seq<real>, idx: seq<nat>, inv: seq<nat>)
    requires |y| == |idx| == |inv|
    requires IndexIn(idx, |y|) && IndexIn(inv, |y|)
    requires forall p :: 0 <= p < |inv| ==> idx[inv[p]] == p
    requires forall q :: 0 <= q < |idx| ==> inv[idx[q]] == q
    ensures Scatter(y, idx, |y|) == Gather(y, inv)
  {
    ScatterInjective(y, idx, |y|);
    forall p | 0 <= p < |y|
      ensures Scatter(y, idx, |y|)[p] == Gather(y, inv)[p]
    {
      assert idx[inv[p]] == p;
    }
  }
}
