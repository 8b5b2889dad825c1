/**
 * The dense kernels the convolution bridge is built from, specified as
 * functions over flat buffers: GEMM in its three transpose configurations with
 * alpha/beta accumulation, the elementwise multiply, and the scanner that applies
 * a nonlinearity elementwise.
 *
 * A matrix with `rows` rows and `cols` columns is the cube (rows, cols, 1, 1);
 * entry (i, j) sits at offset i * cols + j.
 */
module Kernels {
  import opened Tensor

  /** The transpose conventions of the GEMM kernel configurations. */
  datatype GemmConfig = NoTransNoTrans | NoTransTrans | TransNoTrans

  /** A GEMM kernel: C := alpha * op(A) * op(B) + beta * C. */
  datatype GemmKernel = GemmKernel(config: GemmConfig, alpha: real, beta: real)

  /** The nonlinearity of a convolution bridge; NoFunc leaves outputs untouched. */
  datatype NonLinearFunction = NoFunc | Func(f: real -> real)

  /** Entry (i, l) of the M x K operand op(A); A is stored K x M when transposed. */
  function OpA(config: GemmConfig, a: seq<real>, M: nat, K: nat, i: nat, l: nat): real
  {
    if config == TransNoTrans then At(a, l * M + i) else At(a, i * K + l)
  }

  /** Entry (l, j) of the K x N operand op(B); B is stored N x K when transposed. */
  function OpB(config: GemmConfig, b: seq<real>, K: nat, N: nat, l: nat, j: nat): real
  {
    if config == NoTransTrans then At(b, j * K + l) else At(b, l * N + j)
  }

  /** The terms l |-> op(A)(i, l) * op(B)(l, j) of entry (i, j) of op(A) * op(B). */
  function ProductTerms(config: GemmConfig, a: seq<real>, b: seq<real>, M: nat, K: nat, N: nat,
                        i: nat, j: nat): nat -> real
  {
    (l: nat) => OpA(config, a, M, K, i, l) * OpB(config, b, K, N, l, j)
  }

  lemma ProductTermAt(a: seq<real>, b: seq<real>, M: nat, K: nat, N: nat, i: nat, j: nat, l: nat)
    ensures ProductTerms(NoTransNoTrans, a, b, M, K, N, i, j)(l) == At(a, i * K + l) * At(b, l * N + j)
  {
  }

  /** Entry (i, j) of the M x N product op(A) * op(B), inner dimension K. */
  function Product(config: GemmConfig, a: seq<real>, b: seq<real>, M: nat, K: nat, N: nat,
                   i: nat, j: nat): real
  {
    Sum(K, ProductTerms(config, a, b, M, K, N, i, j))
  }

  /** GEMM with M x N result, inner dimension K, accumulating into c with weight beta. */
  function Gemm(kernel: GemmKernel, M: nat, N: nat, K: nat, a: seq<real>, b: seq<real>,
                c: seq<real>): (r: seq<real>)
    ensures |r| == M * N
  {
    seq(M * N, (q: int) requires 0 <= q < M * N =>
      var p := CoordOf(MatShape(M, N), q);
      kernel.alpha * Product(kernel.config, a, b, M, K, N, p.r, p.c) + kernel.beta * At(c, q))
  }

  /** Entry (i, j) of a GEMM result. */
  lemma GemmAt(kernel: GemmKernel, M: nat, N: nat, K: nat, a: seq<real>, b: seq<real>,
               c: seq<real>, i: nat, j: nat)
    requires i < M && j < N
    ensures i * N + j < M * N
    ensures Gemm(kernel, M, N, K, a, b, c)[i * N + j]
         == kernel.alpha * Product(kernel.config, a, b, M, K, N, i, j) + kernel.beta * At(c, i * N + j)
  {
    var p := Coord(i, j, 0, 0);
    OffsetInRange(MatShape(M, N), p);
    CoordOfOffset(MatShape(M, N), p);
  }

  /** The product op(A) * op(B): a GEMM with alpha 1 and beta 0, which ignores what C held. */
  function MatMul(config: GemmConfig, M: nat, N: nat, K: nat, a: seq<real>, b: seq<real>): (r: seq<real>)
    ensures |r| == M * N
  {
    Gemm(GemmKernel(config, 1.0, 0.0), M, N, K, a, b, [])
  }

  /**
   * The accumulation semantics of a GEMM kernel: every entry is alpha times the
   * product entry plus beta times what C held there.
   */
  lemma GemmAccumulates(kernel: GemmKernel, M: nat, N: nat, K: nat, a: seq<real>, b: seq<real>,
                        c: seq<real>)
    ensures forall q :: 0 <= q < M * N ==>
      Gemm(kernel, M, N, K, a, b, c)[q] == kernel.alpha * MatMul(kernel.config, M, N, K, a, b)[q] + kernel.beta * At(c, q)
  {
  }

  /** A GEMM with alpha -s and beta 1 takes s times the product away from what C held. */
  lemma GemmDescent(config: GemmConfig, s: real, M: nat, N: nat, K: nat, a: seq<real>, b: seq<real>,
                    c: seq<real>, q: nat)
    requires q < M * N && |c| == M * N
    ensures Gemm(GemmKernel(config, -s, 1.0), M, N, K, a, b, c)[q] == c[q] - s * MatMul(config, M, N, K, a, b)[q]
  {
    var e := CoordOf(MatShape(M, N), q);
    var v := Product(config, a, b, M, K, N, e.r, e.c);
    assert Gemm(GemmKernel(config, -s, 1.0), M, N, K, a, b, c)[q] == -s * v + 1.0 * c[q];
    assert MatMul(config, M, N, K, a, b)[q] == 1.0 * v + 0.0 * At([], q);
  }

  /** With beta 0 the old contents of C do not matter. */
  lemma GemmOverwrites(config: GemmConfig, M: nat, N: nat, K: nat, a: seq<real>, b: seq<real>, c: seq<real>)
    ensures Gemm(GemmKernel(config, 1.0, 0.0), M, N, K, a, b, c) == MatMul(config, M, N, K, a, b)
  {
  }

  /** p holds the M x N product op(A) * op(B) with inner dimension K, entry by entry. */
  ghost predicate IsProduct(config: GemmConfig, a: seq<real>, b: seq<real>, M: nat, K: nat, N: nat,
                            p: seq<real>)
  {
    |p| == M * N &&
    forall i: nat, j: nat :: i < M && j < N ==> At(p, i * N + j) == Product(config, a, b, M, K, N, i, j)
  }

  /** With alpha 1 and beta 0, a GEMM result is exactly the product op(A) * op(B). */
  lemma PlainIsProduct(config: GemmConfig, M: nat, N: nat, K: nat, a: seq<real>, b: seq<real>,
                       c: seq<real>)
    ensures IsProduct(config, a, b, M, K, N, Gemm(GemmKernel(config, 1.0, 0.0), M, N, K, a, b, c))
  {
    forall i: nat, j: nat | i < M && j < N
      ensures At(Gemm(GemmKernel(config, 1.0, 0.0), M, N, K, a, b, c), i * N + j)
           == Product(config, a, b, M, K, N, i, j)
    {
      GemmAt(GemmKernel(config, 1.0, 0.0), M, N, K, a, b, c, i, j);
    }
  }

  /** The elementwise-multiply kernel. */
  function Hadamard(a: seq<real>, b: seq<real>): (r: seq<real>)
    requires |a| == |b|
    ensures |r| == |a|
  {
    seq(|a|, (i: int) requires 0 <= i < |a| => a[i] * b[i])
  }

  /** The nonlinearity applied to one value. */
  function ApplyOne(func: NonLinearFunction, v: real): real
  {
    match func
    case NoFunc => v
    case Func(f) => f(v)
  }

  /** The scanner: the nonlinearity applied to every element, unless there is none. */
  function Apply(func: NonLinearFunction, a: seq<real>): (r: seq<real>)
    ensures |r| == |a|
    ensures forall i :: 0 <= i < |a| ==> r[i] == ApplyOne(func, a[i])
  {
    match func
    case NoFunc => a
    case Func(f) => seq(|a|, (i: int) requires 0 <= i < |a| => f(a[i]))
  }

  // ---------------------------------------------------------------------------
  // GEMM and its transposes are adjoint to each other
  // ---------------------------------------------------------------------------

  /** The terms A(i, l) * B(l, j) * C(i, j) of the pairing <A * B, C>. */
  function PairingTerms(a: seq<real>, b: seq<real>, c: seq<real>, K: nat, N: nat): (nat, nat, nat) -> real
  {
    (i: nat, j: nat, l: nat) => At(a, i * K + l) * At(b, l * N + j) * At(c, i * N + j)
  }

  /** A dot product of two M x N matrices whose entry products are sums over K terms is a triple sum. */
  lemma DotAsSum3(u: seq<real>, v: seq<real>, M: nat, N: nat, K: nat, T: (nat, nat, nat) -> real)
    requires |u| == |v| == M * N
    requires forall i: nat, j: nat :: i < M && j < N ==>
      At(u, i * N + j) * At(v, i * N + j) == Sum(K, Row(j, Slice(i, T)))
    ensures Dot(u, v) == Sum3(M, N, K, T)
  {
    var G := Grid(Products(u, v), N);
    SumSplit(M, N, Products(u, v), G);
    forall i: nat | i < M
      ensures RowSum(N, G)(i) == Plane(N, K, T)(i)
    {
      DotRowAsSum2(u, v, N, K, T, i);
    }
    SumExt(M, RowSum(N, G), Plane(N, K, T));
  }

  /** Row i of the entry products, summed, is plane i of the triple sum. */
  lemma DotRowAsSum2(u: seq<real>, v: seq<real>, N: nat, K: nat, T: (nat, nat, nat) -> real, i: nat)
    requires forall j: nat :: j < N ==>
      At(u, i * N + j) * At(v, i * N + j) == Sum(K, Row(j, Slice(i, T)))
    ensures RowSum(N, Grid(Products(u, v), N))(i) == Plane(N, K, T)(i)
  {
    SumExt(N, Row(i, Grid(Products(u, v), N)), RowSum(K, Slice(i, T)));
  }

  /** <A * B, C> written as a triple sum over (i, j, l). */
  lemma PairingAsSum3(a: seq<real>, b: seq<real>, c: seq<real>, p: seq<real>, M: nat, N: nat, K: nat)
    requires IsProduct(NoTransNoTrans, a, b, M, K, N, p) && |c| == M * N
    ensures Dot(p, c) == Sum3(M, N, K, PairingTerms(a, b, c, K, N))
  {
    var T := PairingTerms(a, b, c, K, N);
    forall i: nat, j: nat | i < M && j < N
      ensures At(p, i * N + j) * At(c, i * N + j) == Sum(K, Row(j, Slice(i, T)))
    {
      PairingEntry(a, b, c, p, M, N, K, i, j);
    }
    DotAsSum3(p, c, M, N, K, T);
  }

  /** Entry (i, j) of <A * B, C>: the product entry times C(i, j) is the sum over l of its terms. */
  lemma PairingEntry(a: seq<real>, b: seq<real>, c: seq<real>, p: seq<real>, M: nat, N: nat, K: nat, i: nat, j: nat)
    requires At(p, i * N + j) == Product(NoTransNoTrans, a, b, M, K, N, i, j)
    ensures At(p, i * N + j) * At(c, i * N + j) == Sum(K, Row(j, Slice(i, PairingTerms(a, b, c, K, N))))
  {
    var w := At(c, i * N + j);
    var f, g := ProductTerms(NoTransNoTrans, a, b, M, K, N, i, j), Row(j, Slice(i, PairingTerms(a, b, c, K, N)));
    EntryTerms(a, b, c, M, N, K, i, j);
    SumScale(K, w, f, g);
    MulEqual(At(p, i * N + j), Sum(K, f), w);
  }

  lemma EntryTerm(a: seq<real>, b: seq<real>, c: seq<real>, M: nat, N: nat, K: nat, i: nat, j: nat, l: nat)
    ensures Row(j, Slice(i, PairingTerms(a, b, c, K, N)))(l)
         == At(c, i * N + j) * ProductTerms(NoTransNoTrans, a, b, M, K, N, i, j)(l)
  {
    var x, y, w := At(a, i * K + l), At(b, l * N + j), At(c, i * N + j);
    assert ProductTerms(NoTransNoTrans, a, b, M, K, N, i, j)(l) == x * y;
    assert x * y * w == w * (x * y);
  }

  lemma EntryTerms(a: seq<real>, b: seq<real>, c: seq<real>, M: nat, N: nat, K: nat, i: nat, j: nat)
    ensures forall l: nat :: l < K ==>
      Row(j, Slice(i, PairingTerms(a, b, c, K, N)))(l)
        == At(c, i * N + j) * ProductTerms(NoTransNoTrans, a, b, M, K, N, i, j)(l)
  {
    forall l: nat | l < K
      ensures Row(j, Slice(i, PairingTerms(a, b, c, K, N)))(l)
           == At(c, i * N + j) * ProductTerms(NoTransNoTrans, a, b, M, K, N, i, j)(l)
    {
      EntryTerm(a, b, c, M, N, K, i, j, l);
    }
  }

  lemma Reorder(x: real, y: real, w: real)
    ensures x * y * w == y * (x * w) == x * (w * y)
  {
  }

  lemma RightTerm(a: seq<real>, b: seq<real>, c: seq<real>, M: nat, N: nat, K: nat, l: nat, j: nat, i: nat)
    ensures Row(j, Slice(l, Swap23(Swap12(Swap23(PairingTerms(a, b, c, K, N))))))(i)
         == At(b, l * N + j) * ProductTerms(TransNoTrans, a, c, K, M, N, l, j)(i)
  {
    var x, y, w := At(a, i * K + l), At(b, l * N + j), At(c, i * N + j);
    assert ProductTerms(TransNoTrans, a, c, K, M, N, l, j)(i) == x * w;
    Reorder(x, y, w);
  }

  lemma LeftTerm(a: seq<real>, b: seq<real>, c: seq<real>, M: nat, N: nat, K: nat, i: nat, l: nat, j: nat)
    ensures Row(l, Slice(i, Swap23(PairingTerms(a, b, c, K, N))))(j)
         == At(a, i * K + l) * ProductTerms(NoTransTrans, c, b, M, N, K, i, l)(j)
  {
    var x, y, w := At(a, i * K + l), At(b, l * N + j), At(c, i * N + j);
    assert ProductTerms(NoTransTrans, c, b, M, N, K, i, l)(j) == w * y;
    Reorder(x, y, w);
  }

  lemma RightTerms(a: seq<real>, b: seq<real>, c: seq<real>, M: nat, N: nat, K: nat, l: nat, j: nat)
    ensures forall i: nat :: i < M ==>
      Row(j, Slice(l, Swap23(Swap12(Swap23(PairingTerms(a, b, c, K, N))))))(i)
        == At(b, l * N + j) * ProductTerms(TransNoTrans, a, c, K, M, N, l, j)(i)
  {
    forall i: nat | i < M
      ensures Row(j, Slice(l, Swap23(Swap12(Swap23(PairingTerms(a, b, c, K, N))))))(i)
           == At(b, l * N + j) * ProductTerms(TransNoTrans, a, c, K, M, N, l, j)(i)
    {
      RightTerm(a, b, c, M, N, K, l, j, i);
    }
  }

  lemma LeftTerms(a: seq<real>, b: seq<real>, c: seq<real>, M: nat, N: nat, K: nat, i: nat, l: nat)
    ensures forall j: nat :: j < N ==>
      Row(l, Slice(i, Swap23(PairingTerms(a, b, c, K, N))))(j)
        == At(a, i * K + l) * ProductTerms(NoTransTrans, c, b, M, N, K, i, l)(j)
  {
    forall j: nat | j < N
      ensures Row(l, Slice(i, Swap23(PairingTerms(a, b, c, K, N))))(j)
           == At(a, i * K + l) * ProductTerms(NoTransTrans, c, b, M, N, K, i, l)(j)
    {
      LeftTerm(a, b, c, M, N, K, i, l, j);
    }
  }

  /** Entry (l, j) of <B, A^T * C>: B(l, j) times the transposed product entry, as a sum over i. */
  lemma RightScaled(a: seq<real>, b: seq<real>, c: seq<real>, q: seq<real>, M: nat, N: nat, K: nat, l: nat, j: nat)
    requires At(q, l * N + j) == Product(TransNoTrans, a, c, K, M, N, l, j)
    ensures At(b, l * N + j) * At(q, l * N + j)
         == Sum(M, Row(j, Slice(l, Swap23(Swap12(Swap23(PairingTerms(a, b, c, K, N)))))))
  {
    var y := At(b, l * N + j);
    var f, g := ProductTerms(TransNoTrans, a, c, K, M, N, l, j),
                Row(j, Slice(l, Swap23(Swap12(Swap23(PairingTerms(a, b, c, K, N))))));
    RightTerms(a, b, c, M, N, K, l, j);
    SumScale(M, y, f, g);
    MulEqual(At(q, l * N + j), Sum(M, f), y);
  }

  /** Entry (i, l) of <A, C * B^T>: A(i, l) times the transposed product entry, as a sum over j. */
  lemma LeftScaled(a: seq<real>, b: seq<real>, c: seq<real>, r: seq<real>, M: nat, N: nat, K: nat, i: nat, l: nat)
    requires At(r, i * K + l) == Product(NoTransTrans, c, b, M, N, K, i, l)
    ensures At(a, i * K + l) * At(r, i * K + l) == Sum(N, Row(l, Slice(i, Swap23(PairingTerms(a, b, c, K, N)))))
  {
    var x := At(a, i * K + l);
    var f, g := ProductTerms(NoTransTrans, c, b, M, N, K, i, l), Row(l, Slice(i, Swap23(PairingTerms(a, b, c, K, N))));
    LeftTerms(a, b, c, M, N, K, i, l);
    SumScale(N, x, f, g);
    MulEqual(At(r, i * K + l), Sum(N, f), x);
  }

  /** <B, A^T * C> written as a triple sum over (l, j, i). */
  lemma RightAsSum3(a: seq<real>, b: seq<real>, c: seq<real>, q: seq<real>, M: nat, N: nat, K: nat)
    requires |b| == K * N && IsProduct(TransNoTrans, a, c, K, M, N, q)
    ensures Dot(b, q) == Sum3(K, N, M, Swap23(Swap12(Swap23(PairingTerms(a, b, c, K, N)))))
  {
    var T' := Swap23(Swap12(Swap23(PairingTerms(a, b, c, K, N))));
    forall l: nat, j: nat | l < K && j < N
      ensures At(b, l * N + j) * At(q, l * N + j) == Sum(M, Row(j, Slice(l, T')))
    {
      RightScaled(a, b, c, q, M, N, K, l, j);
    }
    DotAsSum3(b, q, K, N, M, T');
  }

  /** <A, C * B^T> written as a triple sum over (i, l, j). */
  lemma LeftAsSum3(a: seq<real>, b: seq<real>, c: seq<real>, r: seq<real>, M: nat, N: nat, K: nat)
    requires |a| == M * K && IsProduct(NoTransTrans, c, b, M, N, K, r)
    ensures Dot(a, r) == Sum3(M, K, N, Swap23(PairingTerms(a, b, c, K, N)))
  {
    var T' := Swap23(PairingTerms(a, b, c, K, N));
    forall i: nat, l: nat | i < M && l < K
      ensures At(a, i * K + l) * At(r, i * K + l) == Sum(N, Row(l, Slice(i, T')))
    {
      LeftScaled(a, b, c, r, M, N, K, i, l);
    }
    DotAsSum3(a, r, M, K, N, T');
  }

  /** Reordering the triple sum over (i, j, l) into the order (l, j, i). */
  lemma SwapToRight(M: nat, N: nat, K: nat, T: (nat, nat, nat) -> real)
    ensures Sum3(M, N, K, T) == Sum3(K, N, M, Swap23(Swap12(Swap23(T))))
  {
    Sum3Swap23(M, N, K, T);
    Sum3Swap12(M, K, N, Swap23(T));
    Sum3Swap23(K, M, N, Swap12(Swap23(T)));
  }

  /**
   * The transposed-A product is the adjoint of the product in its right operand:
   * <A * B, C> = <B, A^T * C>.
   */
  lemma ProductAdjointRight(a: seq<real>, b: seq<real>, c: seq<real>, p: seq<real>, q: seq<real>,
                            M: nat, N: nat, K: nat)
    requires |b| == K * N && |c| == M * N
    requires IsProduct(NoTransNoTrans, a, b, M, K, N, p) && IsProduct(TransNoTrans, a, c, K, M, N, q)
    ensures Dot(p, c) == Dot(b, q)
  {
    PairingAsSum3(a, b, c, p, M, N, K);
    SwapToRight(M, N, K, PairingTerms(a, b, c, K, N));
    RightAsSum3(a, b, c, q, M, N, K);
  }

  /**
   * The transposed-B product is the adjoint of the product in its left operand:
   * <A * B, C> = <A, C * B^T>.
   */
  lemma ProductAdjointLeft(a: seq<real>, b: seq<real>, c: seq<real>, p: seq<real>, r: seq<real>,
                           M: nat, N: nat, K: nat)
    requires |a| == M * K && |c| == M * N
    requires IsProduct(NoTransNoTrans, a, b, M, K, N, p) && IsProduct(NoTransTrans, c, b, M, N, K, r)
    ensures Dot(p, c) == Dot(a, r)
  {
    PairingAsSum3(a, b, c, p, M, N, K);
    Sum3Swap23(M, N, K, PairingTerms(a, b, c, K, N));
    LeftAsSum3(a, b, c, r, M, N, K);
  }

  /** GEMM with A transposed is the adjoint of the plain product in B: <A * B, C> = <B, A^T * C>. */
  lemma GemmAdjointRight(a: seq<real>, b: seq<real>, c: seq<real>, M: nat, N: nat, K: nat)
    requires |b| == K * N && |c| == M * N
    ensures Dot(MatMul(NoTransNoTrans, M, N, K, a, b), c) == Dot(b, MatMul(TransNoTrans, K, N, M, a, c))
  {
    PlainIsProduct(NoTransNoTrans, M, N, K, a, b, []);
    PlainIsProduct(TransNoTrans, K, N, M, a, c, []);
    ProductAdjointRight(a, b, c, MatMul(NoTransNoTrans, M, N, K, a, b),
      MatMul(TransNoTrans, K, N, M, a, c), M, N, K);
  }

  /** GEMM with B transposed is the adjoint of the plain product in A: <A * B, C> = <A, C * B^T>. */
  lemma GemmAdjointLeft(a: seq<real>, b: seq<real>, c: seq<real>, M: nat, N: nat, K: nat)
    requires |a| == M * K && |c| == M * N
    ensures Dot(MatMul(NoTransNoTrans, M, N, K, a, b), c) == Dot(a, MatMul(NoTransTrans, M, K, N, c, b))
  {
    PlainIsProduct(NoTransNoTrans, M, N, K, a, b, []);
    PlainIsProduct(NoTransTrans, M, K, N, c, b, []);
    ProductAdjointLeft(a, b, c, MatMul(NoTransNoTrans, M, N, K, a, b),
      MatMul(NoTransTrans, M, K, N, c, b), M, N, K);
  }
}
