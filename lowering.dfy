/**
 * The two layout changes of the convolution bridge.
 *
 * Lowering (type 1, stride 1, no padding) copies every k x k x iD window of the
 * input cube into one column of a K x N matrix, K = k * k * iD, N = oR * oC * iB.
 * Row l of the lowered matrix is the window position (kr, kc, d) at offset
 * l = (d * k + kr) * k + kc, the order in which the model cube lists one kernel's
 * weights; column n is the output position (i, j) of image b at offset
 * n = (b * oR + i) * oC + j. Inverse lowering adds every lowered entry back into
 * the input position it was read from.
 *
 * The output remap turns the GEMM result, grouped by output channel and then by
 * image, into a CRDB cube grouped by image and then by channel.
 */
module Lowering {
  import opened Tensor

  /**
   * Input cube iR x iC x iD x iB, square kernel of side k, mB output channels.
   * The kernel fits in the input, so the output sides iR - k + 1 and iC - k + 1
   * are natural numbers.
   */
  datatype RawGeometry = Geometry(iR: nat, iC: nat, iD: nat, iB: nat, k: nat, mB: nat)

  type Geometry = g: RawGeometry | g.k <= g.iR + 1 && g.k <= g.iC + 1
    witness Geometry(0, 0, 0, 0, 0, 0)

  /** Rows of the output cube. */
  function OutRows(g: Geometry): nat { g.iR + 1 - g.k }

  /** Columns of the output cube. */
  function OutCols(g: Geometry): nat { g.iC + 1 - g.k }

  /** Output positions of one image. */
  function Positions(g: Geometry): nat { OutRows(g) * OutCols(g) }

  function InputShape(g: Geometry): Shape { Shape(g.iR, g.iC, g.iD, g.iB) }

  function ModelShape(g: Geometry): Shape { Shape(g.k, g.k, g.iD, g.mB) }

  function OutputShape(g: Geometry): Shape { Shape(OutRows(g), OutCols(g), g.mB, g.iB) }

  /** The positions (kr, kc, d) of one window: the rows of the lowered matrix. */
  function WindowShape(g: Geometry): Shape { Shape(g.k, g.k, g.iD, 1) }

  /** The output positions (i, j) of every image b: the columns of the lowered matrix. */
  function PositionShape(g: Geometry): Shape { Shape(OutRows(g), OutCols(g), 1, g.iB) }

  /** Rows of the lowered matrix, k * k * iD. */
  function LoweredRows(g: Geometry): nat { WindowShape(g).Count() }

  /** Columns of the lowered matrix, oR * oC * iB. */
  function LoweredCols(g: Geometry): nat { PositionShape(g).Count() }

  // ---------------------------------------------------------------------------
  // Lowering and its inverse
  // ---------------------------------------------------------------------------

  /** The input offset that lowered entry (l, n) is read from. */
  function Source(g: Geometry, l: nat, n: nat): nat
  {
    var w := CoordOf(WindowShape(g), l);
    var p := CoordOf(PositionShape(g), n);
    Offset(InputShape(g), Coord(p.r + w.r, p.c + w.c, w.d, p.b))
  }

  /** For every lowered entry, in row-major order, the input offset it copies. */
  function LowerIndex(g: Geometry): (idx: seq<nat>)
    ensures |idx| == LoweredRows(g) * LoweredCols(g)
  {
    var K, N := LoweredRows(g), LoweredCols(g);
    seq(K * N, (q: int) requires 0 <= q < K * N =>
      var e := CoordOf(MatShape(K, N), q);
      Source(g, e.r, e.c))
  }

  /** Lowering: the K x N matrix whose column n holds the input window of output position n. */
  function Lower(g: Geometry, x: seq<real>): (r: seq<real>)
    ensures |r| == LoweredRows(g) * LoweredCols(g)
  {
    Gather(x, LowerIndex(g))
  }

  /**
   * Inverse lowering: the input-shaped cube, cleared, into which every lowered
   * entry is added at the position it was read from.
   */
  function InverseLower(g: Geometry, y: seq<real>): (r: seq<real>)
    requires |y| == LoweredRows(g) * LoweredCols(g)
    ensures |r| == InputShape(g).Count()
  {
    Scatter(y, LowerIndex(g), InputShape(g).Count())
  }

  /** Every window of every output position lies inside the input cube. */
  lemma SourceInRange(g: Geometry, l: nat, n: nat)
    requires l < LoweredRows(g) && n < LoweredCols(g)
    ensures Source(g, l, n) < InputShape(g).Count()
  {
    OffsetOfCoord(WindowShape(g), l);
    OffsetOfCoord(PositionShape(g), n);
    var w := CoordOf(WindowShape(g), l);
    var p := CoordOf(PositionShape(g), n);
    OffsetInRange(InputShape(g), Coord(p.r + w.r, p.c + w.c, w.d, p.b));
  }

  /** Entry (l, n) of the lowering table, and its place in the table. */
  lemma LowerIndexAt(g: Geometry, l: nat, n: nat)
    requires l < LoweredRows(g) && n < LoweredCols(g)
    ensures l * LoweredCols(g) + n < |LowerIndex(g)|
    ensures LowerIndex(g)[l * LoweredCols(g) + n] == Source(g, l, n)
  {
    var K, N := LoweredRows(g), LoweredCols(g);
    OffsetInRange(MatShape(K, N), Coord(l, n, 0, 0));
    CoordOfOffset(MatShape(K, N), Coord(l, n, 0, 0));
  }

  /** Lowering reads only positions of the input cube. */
  lemma LowerIndexInRange(g: Geometry)
    ensures IndexIn(LowerIndex(g), InputShape(g).Count())
  {
    var K, N := LoweredRows(g), LoweredCols(g);
    forall q | 0 <= q < K * N
      ensures LowerIndex(g)[q] < InputShape(g).Count()
    {
      OffsetOfCoord(MatShape(K, N), q);
      var e := CoordOf(MatShape(K, N), q);
      SourceInRange(g, e.r, e.c);
    }
  }

  /**
   * Lowering is im2col: the lowered entry in the row of window position (kr, kc, d)
   * and the column of output position (i, j) of image b is input element
   * (i + kr, j + kc, d, b).
   */
  lemma LowerAt(g: Geometry, x: seq<real>, w: Coord, p: Coord)
    requires InShape(WindowShape(g), w) && InShape(PositionShape(g), p)
    ensures Offset(WindowShape(g), w) * LoweredCols(g) + Offset(PositionShape(g), p) < |Lower(g, x)|
    ensures At(Lower(g, x), Offset(WindowShape(g), w) * LoweredCols(g) + Offset(PositionShape(g), p))
         == At(x, Offset(InputShape(g), Coord(p.r + w.r, p.c + w.c, w.d, p.b)))
  {
    OffsetInRange(WindowShape(g), w);
    OffsetInRange(PositionShape(g), p);
    CoordOfOffset(WindowShape(g), w);
    CoordOfOffset(PositionShape(g), p);
    LowerIndexAt(g, Offset(WindowShape(g), w), Offset(PositionShape(g), p));
  }

  /** Inverse lowering is the adjoint of lowering: <Lower(x), y> = <x, InverseLower(y)>. */
  lemma LowerAdjoint(g: Geometry, x: seq<real>, y: seq<real>)
    requires |x| == InputShape(g).Count() && |y| == LoweredRows(g) * LoweredCols(g)
    ensures Dot(Lower(g, x), y) == Dot(x, InverseLower(g, y))
  {
    LowerIndexInRange(g);
    GatherScatterAdjoint(x, y, LowerIndex(g));
  }

  /**
   * Inverse lowering of an all-ones matrix counts, at every input position, how
   * many lowered entries were read from it.
   */
  lemma InverseLowerOnes(g: Geometry, p: nat)
    requires p < InputShape(g).Count()
    ensures InverseLower(g, seq(LoweredRows(g) * LoweredCols(g), _ => 1.0))[p]
         == multiset(LowerIndex(g))[p] as real
  {
    ScatterOnesCounts(LowerIndex(g), InputShape(g).Count(), p);
  }

  /** Lowered entry (l, n) of y where it was read from input offset p, and 0 elsewhere. */
  function ReadFrom(g: Geometry, y: seq<real>, p: nat): (nat, nat) -> real
  {
    (l: nat, n: nat) => if Source(g, l, n) == p then At(y, l * LoweredCols(g) + n) else 0.0
  }

  /**
   * Inverse lowering sums into input position p exactly the lowered entries
   * (l, n) that lowering read from p.
   */
  lemma InverseLowerSums(g: Geometry, y: seq<real>, p: nat)
    requires |y| == LoweredRows(g) * LoweredCols(g) && p < InputShape(g).Count()
    ensures InverseLower(g, y)[p] == Sum(LoweredRows(g), RowSum(LoweredCols(g), ReadFrom(g, y, p)))
  {
    var K, N, idx := LoweredRows(g), LoweredCols(g), LowerIndex(g);
    var h := (q: nat) => if q < |idx| && idx[q] == p then At(y, q) else 0.0;
    forall l: nat, n: nat | l < K && n < N
      ensures ReadFrom(g, y, p)(l, n) == h(l * N + n)
    {
      LowerIndexAt(g, l, n);
    }
    SumSplit(K, N, h, ReadFrom(g, y, p));
    ScatterSumsHits(y, idx, InputShape(g).Count(), p);
  }

  /** 1 when the window of output position (i, j) covers input row r and column c, else 0. */
  function Covers(g: Geometry, r: nat, c: nat): (nat, nat) -> real
  {
    (i: nat, j: nat) => if i <= r < i + g.k && j <= c < j + g.k then 1.0 else 0.0
  }

  /** The number of output positions (i, j) of one image whose window covers input row r, column c. */
  function CoveringWindows(g: Geometry, r: nat, c: nat): real
  {
    Sum(OutRows(g), RowSum(OutCols(g), Covers(g, r, c)))
  }

  /**
   * Lowered entry (l, n), with n the output position e, is read from input
   * position p exactly when row l is the window offset that carries e onto p.
   */
  lemma SourceIs(g: Geometry, l: nat, e: Coord, p: Coord)
    requires l < LoweredRows(g) && InShape(PositionShape(g), e) && InShape(InputShape(g), p)
    ensures var w := CoordOf(WindowShape(g), l);
      Source(g, l, Offset(PositionShape(g), e)) == Offset(InputShape(g), p)
      <==> e.r + w.r == p.r && e.c + w.c == p.c && w.d == p.d && e.b == p.b
  {
    var w := CoordOf(WindowShape(g), l);
    OffsetOfCoord(WindowShape(g), l);
    CoordOfOffset(PositionShape(g), e);
    var s := Coord(e.r + w.r, e.c + w.c, w.d, e.b);
    assert Source(g, l, Offset(PositionShape(g), e)) == Offset(InputShape(g), s);
    if Offset(InputShape(g), s) == Offset(InputShape(g), p) {
      CoordOfOffset(InputShape(g), s);
      CoordOfOffset(InputShape(g), p);
    }
  }

  /**
   * The lowered entries of output position e read from input position p: one
   * when e is in p's image and its window covers p, none otherwise.
   */
  lemma ColumnReads(g: Geometry, p: Coord, e: Coord)
    requires InShape(InputShape(g), p) && InShape(PositionShape(g), e)
    ensures var ones := seq(LoweredRows(g) * LoweredCols(g), _ => 1.0);
      ColSum(LoweredRows(g), ReadFrom(g, ones, Offset(InputShape(g), p)))(Offset(PositionShape(g), e))
      == if e.b == p.b then Covers(g, p.r, p.c)(e.r, e.c) else 0.0
  {
    var K, N := LoweredRows(g), LoweredCols(g);
    var ones := seq(K * N, _ => 1.0);
    var n := Offset(PositionShape(g), e);
    OffsetInRange(PositionShape(g), e);
    var col := Col(n, ReadFrom(g, ones, Offset(InputShape(g), p)));
    if e.b == p.b && e.r <= p.r < e.r + g.k && e.c <= p.c < e.c + g.k {
      var w0 := Coord(p.r - e.r, p.c - e.c, p.d, 0);
      var l0 := Offset(WindowShape(g), w0);
      OffsetInRange(WindowShape(g), w0);
      CoordOfOffset(WindowShape(g), w0);
      SourceIs(g, l0, e, p);
      PlaceBound(l0, n, K, N);
      forall l: nat | l < K && l != l0
        ensures col(l) == 0.0
      {
        SourceIs(g, l, e, p);
        OffsetOfCoord(WindowShape(g), l);
      }
      SumSingle(K, col, l0);
    } else {
      forall l: nat | l < K
        ensures col(l) == 0.0
      {
        SourceIs(g, l, e, p);
        OffsetOfCoord(WindowShape(g), l);
      }
      SumZero(K, col);
    }
  }

  /** Row i of image b' of such a sum: Covers(r, c) in image b, zero in the others. */
  lemma PositionRow(g: Geometry, f: nat -> real, b: nat, r: nat, c: nat, b': nat, i: nat)
    requires b' < g.iB && i < OutRows(g)
    requires forall e :: InShape(PositionShape(g), e) ==>
      f(Offset(PositionShape(g), e)) == if e.b == b then Covers(g, r, c)(e.r, e.c) else 0.0
    ensures Sum(OutCols(g), Row(b' * OutRows(g) + i, Grid(f, OutCols(g))))
         == if b' == b then RowSum(OutCols(g), Covers(g, r, c))(i) else 0.0
  {
    var oR, oC := OutRows(g), OutCols(g);
    var row := Row(b' * oR + i, Grid(f, oC));
    forall j: nat | j < oC
      ensures row(j) == f(Offset(PositionShape(g), Coord(i, j, 0, b')))
    {
      assert Offset(PositionShape(g), Coord(i, j, 0, b')) == (b' * oR + i) * oC + j;
    }
    if b' == b {
      forall j: nat | j < oC
        ensures row(j) == Row(i, Covers(g, r, c))(j)
      {
        assert InShape(PositionShape(g), Coord(i, j, 0, b'));
      }
      SumExt(oC, row, Row(i, Covers(g, r, c)));
    } else {
      forall j: nat | j < oC
        ensures row(j) == 0.0
      {
        assert InShape(PositionShape(g), Coord(i, j, 0, b'));
      }
      SumZero(oC, row);
    }
  }

  /**
   * A sum over the output positions of all images of a term that vanishes outside
   * image b and is Covers(r, c) inside it is the number of windows covering (r, c).
   */
  lemma SumPositions(g: Geometry, f: nat -> real, b: nat, r: nat, c: nat)
    requires b < g.iB
    requires forall e :: InShape(PositionShape(g), e) ==>
      f(Offset(PositionShape(g), e)) == if e.b == b then Covers(g, r, c)(e.r, e.c) else 0.0
    ensures Sum(LoweredCols(g), f) == CoveringWindows(g, r, c)
  {
    var oR, oC, B := OutRows(g), OutCols(g), g.iB;
    var F1 := Grid(f, oC);
    var F2 := Grid(RowSum(oC, F1), oR);
    PositionCount(g);
    SumSplit(B * oR, oC, f, F1);
    SumSplit(B, oR, RowSum(oC, F1), F2);
    forall b': nat | b' < B
      ensures RowSum(oR, F2)(b') == if b' == b then CoveringWindows(g, r, c) else 0.0
    {
      forall i: nat | i < oR
        ensures Row(b', F2)(i) == if b' == b then RowSum(oC, Covers(g, r, c))(i) else 0.0
      {
        PositionRow(g, f, b, r, c, b', i);
      }
      if b' == b {
        SumExt(oR, Row(b', F2), RowSum(oC, Covers(g, r, c)));
      } else {
        SumZero(oR, Row(b', F2));
      }
    }
    SumSingle(B, RowSum(oR, F2), b);
  }

  /** The columns of the lowered matrix, counted image by image and row by row. */
  lemma PositionCount(g: Geometry)
    ensures LoweredCols(g) == (g.iB * OutRows(g)) * OutCols(g)
  {
    var oR, oC, B := OutRows(g), OutCols(g), g.iB;
    assert oR * oC * 1 * B == B * (oR * oC);
    assert B * (oR * oC) == (B * oR) * oC;
  }

  /**
   * Inverse lowering of an all-ones matrix yields, at input position (r, c, d, b),
   * the number of output positions whose k x k window covers row r and column c.
   */
  lemma InverseLowerCountsWindows(g: Geometry, p: Coord)
    requires InShape(InputShape(g), p)
    ensures Offset(InputShape(g), p) < InputShape(g).Count()
    ensures InverseLower(g, seq(LoweredRows(g) * LoweredCols(g), _ => 1.0))[Offset(InputShape(g), p)]
         == CoveringWindows(g, p.r, p.c)
  {
    var K, N := LoweredRows(g), LoweredCols(g);
    var ones := seq(K * N, _ => 1.0);
    var P := Offset(InputShape(g), p);
    OffsetInRange(InputShape(g), p);
    InverseLowerSums(g, ones, P);
    SumSwap(K, N, ReadFrom(g, ones, P));
    forall e | InShape(PositionShape(g), e)
      ensures ColSum(K, ReadFrom(g, ones, P))(Offset(PositionShape(g), e))
           == if e.b == p.b then Covers(g, p.r, p.c)(e.r, e.c) else 0.0
    {
      ColumnReads(g, p, e);
    }
    SumPositions(g, ColSum(K, ReadFrom(g, ones, P)), p.b, p.r, p.c);
  }

  // ---------------------------------------------------------------------------
  // The output remap
  // ---------------------------------------------------------------------------

  /**
   * The transposition of O x B blocks of S contiguous elements: result offset
   * (b * O + o) * S + s reads offset (o * B + b) * S + s.
   */
  function TransposeIndex(O: nat, B: nat, S: nat): (idx: seq<nat>)
    ensures |idx| == Shape(1, S, O, B).Count()
  {
    seq(Shape(1, S, O, B).Count(), (q: int) requires 0 <= q < Shape(1, S, O, B).Count() =>
      var p := CoordOf(Shape(1, S, O, B), q);
      Offset(Shape(1, S, B, O), Coord(0, p.c, p.b, p.d)))
  }

  /** Remap of a GEMM result grouped by channel (O) then image (B) into image-major order. */
  function Remap(O: nat, B: nat, S: nat, y: seq<real>): (r: seq<real>)
    ensures |r| == Shape(1, S, O, B).Count()
  {
    Gather(y, TransposeIndex(O, B, S))
  }

  /** The inverse remap: from image-major order back to channel-major order. */
  function UnRemap(O: nat, B: nat, S: nat, y: seq<real>): (r: seq<real>)
    ensures |r| == Shape(1, S, B, O).Count()
  {
    Gather(y, TransposeIndex(B, O, S))
  }

  /** Block (o, b) of the channel-major buffer becomes block (b, o) of the remapped one. */
  lemma TransposeIndexAt(O: nat, B: nat, S: nat, o: nat, b: nat, s: nat)
    requires o < O && b < B && s < S
    ensures Offset(Shape(1, S, O, B), Coord(0, s, o, b)) < |TransposeIndex(O, B, S)|
    ensures TransposeIndex(O, B, S)[Offset(Shape(1, S, O, B), Coord(0, s, o, b))]
         == Offset(Shape(1, S, B, O), Coord(0, s, b, o))
  {
    OffsetInRange(Shape(1, S, O, B), Coord(0, s, o, b));
    CoordOfOffset(Shape(1, S, O, B), Coord(0, s, o, b));
  }

  /** Transposing the blocks back undoes the transposition. */
  lemma TransposeInverse(O: nat, B: nat, S: nat)
    ensures IndexIn(TransposeIndex(O, B, S), Shape(1, S, B, O).Count())
    ensures forall q :: 0 <= q < |TransposeIndex(O, B, S)| ==>
      TransposeIndex(B, O, S)[TransposeIndex(O, B, S)[q]] == q
  {
    forall q | 0 <= q < |TransposeIndex(O, B, S)|
      ensures TransposeIndex(O, B, S)[q] < Shape(1, S, B, O).Count()
      ensures TransposeIndex(B, O, S)[TransposeIndex(O, B, S)[q]] == q
    {
      OffsetOfCoord(Shape(1, S, O, B), q);
      var p := CoordOf(Shape(1, S, O, B), q);
      TransposeIndexAt(B, O, S, p.b, p.d, p.c);
      TransposeIndexAt(O, B, S, p.d, p.b, p.c);
    }
  }

  /** Remapped entry (b, o, s) is GEMM entry (o, b, s). */
  lemma RemapAt(O: nat, B: nat, S: nat, y: seq<real>, o: nat, b: nat, s: nat)
    requires o < O && b < B && s < S
    ensures Offset(Shape(1, S, O, B), Coord(0, s, o, b)) < |Remap(O, B, S, y)|
    ensures Remap(O, B, S, y)[Offset(Shape(1, S, O, B), Coord(0, s, o, b))]
         == At(y, Offset(Shape(1, S, B, O), Coord(0, s, b, o)))
  {
    TransposeIndexAt(O, B, S, o, b, s);
  }

  /** The inverse remap undoes the remap. */
  lemma UnRemapRemap(O: nat, B: nat, S: nat, y: seq<real>)
    requires |y| == Shape(1, S, B, O).Count()
    ensures UnRemap(O, B, S, Remap(O, B, S, y)) == y
  {
    TransposeInverse(O, B, S);
    TransposeInverse(B, O, S);
    var r := UnRemap(O, B, S, Remap(O, B, S, y));
    forall q | 0 <= q < |y|
      ensures r[q] == y[q]
    {
      assert TransposeIndex(O, B, S)[TransposeIndex(B, O, S)[q]] == q;
    }
  }

  /** The remap undoes the inverse remap. */
  lemma RemapUnRemap(O: nat, B: nat, S: nat, y: seq<real>)
    requires |y| == Shape(1, S, O, B).Count()
    ensures Remap(O, B, S, UnRemap(O, B, S, y)) == y
  {
    UnRemapRemap(B, O, S, y);
  }

  /** The inverse remap is the adjoint of the remap: <Remap(y), z> = <y, UnRemap(z)>. */
  lemma RemapAdjoint(O: nat, B: nat, S: nat, y: seq<real>, z: seq<real>)
    requires |y| == |z| == Shape(1, S, O, B).Count()
    ensures Dot(Remap(O, B, S, y), z) == Dot(y, UnRemap(O, B, S, z))
  {
    var n := |z|;
    var idx, inv := TransposeIndex(O, B, S), TransposeIndex(B, O, S);
    assert Shape(1, S, B, O).Count() == n;
    TransposeInverse(O, B, S);
    TransposeInverse(B, O, S);
    GatherScatterAdjoint(y, z, idx);
    ScatterPermutation(z, idx, inv);
  }

  /** With a single block row or column the transposition moves nothing. */
  lemma UnRemapTrivial(O: nat, B: nat, S: nat, y: seq<real>)
    requires O == 1 || B == 1
    requires |y| == Shape(1, S, O, B).Count()
    ensures UnRemap(O, B, S, y) == y
  {
    forall q | 0 <= q < |y|
      ensures UnRemap(O, B, S, y)[q] == y[q]
    {
      assert q < Shape(1, S, B, O).Count();
      OffsetOfCoord(Shape(1, S, B, O), q);
      var p := CoordOf(Shape(1, S, B, O), q);
      var t := if B == 1 then p.b else p.d;
      assert p.r == 0 && (p.b == 0 || p.d == 0);
      assert q == t * S + p.c;
      assert TransposeIndex(B, O, S)[q] == t * S + p.c;
    }
  }
}
