/** The threshold matrices of ordered dithering: recursive Bayer matrices of size 2, 4, 8
    and 16, and the clustered 4x4 Knoll matrix. */
module Matrices {

  import Grid

  /** The Bayer index matrices as tabulated, before scaling. */
  const Bayer2Index: seq<seq<int>> := [[0, 2], [3, 1]]
  const Bayer4Index: seq<seq<int>> := [
    [0, 8, 2, 10],
    [12, 4, 14, 6],
    [3, 11, 1, 9],
    [15, 7, 13, 5]]
  const Bayer8Index: seq<seq<int>> := [
    [0, 32, 8, 40, 2, 34, 10, 42],
    [48, 16, 56, 24, 50, 18, 58, 26],
    [12, 44, 4, 36, 14, 46, 6, 38],
    [60, 28, 52, 20, 62, 30, 54, 22],
    [3, 35, 11, 43, 1, 33, 9, 41],
    [51, 19, 59, 27, 49, 17, 57, 25],
    [15, 47, 7, 39, 13, 45, 5, 37],
    [63, 31, 55, 23, 61, 29, 53, 21]]

  /** The clustered-dot matrix as tabulated, before scaling. */
  const KnollIndex: seq<seq<int>> := [
    [6, 12, 10, 16],
    [8, 4, 14, 2],
    [11, 15, 9, 13],
    [5, 7, 3, 1]]

  ghost predicate Square(m: seq<seq<int>>, n: nat) {
    |m| == n && forall y :: 0 <= y < n ==> |m[y]| == n
  }

  /** Some cell of the n-by-n matrix m holds v. */
  ghost predicate Holds(m: seq<seq<int>>, n: nat, v: int)
    requires Square(m, n)
  {
    exists y, x :: 0 <= y < n && 0 <= x < n && m[y][x] == v
  }

  /** m is an n-by-n matrix holding each of base, base+1, ..., base+n*n-1 exactly once. */
  ghost predicate IsPermutationFrom(m: seq<seq<int>>, n: nat, base: int) {
    && Square(m, n)
    && (forall y, x :: 0 <= y < n && 0 <= x < n ==> base <= m[y][x] < base + n * n)
    && (forall v :: base <= v < base + n * n ==> Holds(m, n, v))
    && (forall y1, x1, y2, x2 :: 0 <= y1 < n && 0 <= x1 < n && 0 <= y2 < n && 0 <= x2 < n && m[y1][x1] == m[y2][x2]
          ==> y1 == y2 && x1 == x2)
  }

  /** Every entry multiplied by k. */
  function Scaled(m: seq<seq<int>>, k: int): (r: seq<seq<int>>)
    ensures |r| == |m| && forall y :: 0 <= y < |m| ==> |r[y]| == |m[y]|
    ensures forall y, x :: 0 <= y < |m| && 0 <= x < |m[y]| ==> r[y][x] == k * m[y][x]
  {
    seq(|m|, y requires 0 <= y < |m| => seq(|m[y]|, x requires 0 <= x < |m[y]| => k * m[y][x]))
  }

  /** The recursive Bayer construction: a 2n-by-2n matrix made of four copies of 4*m, the
      copy in quadrant (qy, qx) offset by the 2x2 index Bayer2Index[qy][qx]. */
  function Doubled(m: seq<seq<int>>, n: nat): (r: seq<seq<int>>)
    requires n > 0 && Square(m, n)
    ensures Square(r, 2 * n)
  {
    seq(2 * n, y requires 0 <= y < 2 * n =>
      seq(2 * n, x requires 0 <= x < 2 * n => 4 * m[y % n][x % n] + Bayer2Index[y / n][x / n]))
  }

  /** Checks, row by row from row y, that every row of m has length n. */
  function RowsHaveLength(m: seq<seq<int>>, n: nat, y: nat): bool
    decreases |m| - y
  {
    y >= |m| || (|m[y]| == n && RowsHaveLength(m, n, y + 1))
  }

  lemma {:induction false} RowsHaveLengthSound(m: seq<seq<int>>, n: nat, y: nat)
    requires RowsHaveLength(m, n, y)
    ensures forall k :: y <= k < |m| ==> |m[k]| == n
    decreases |m| - y
  {
    if y < |m| {
      RowsHaveLengthSound(m, n, y + 1);
    }
  }

  /** Cell i of m in row-major order satisfies the inverse-table check: the value there,
      less base, is an index of pos that points back at the cell, and the cell pos[i]
      holds base + i. */
  predicate InverseAt(m: seq<seq<int>>, n: nat, pos: seq<(int, int)>, base: int, i: nat)
    requires i < n * n
  {
    var y, x := i / n, i % n;
    && y < |m| && x < |m[y]|
    && 0 <= m[y][x] - base < |pos| && pos[m[y][x] - base] == (y, x)
    && i < |pos| && 0 <= pos[i].0 < |m| && 0 <= pos[i].1 < |m[pos[i].0]|
    && m[pos[i].0][pos[i].1] == base + i
  }

  /** Checks InverseAt for cells i, i+1, ..., n*n-1; evaluated on constant tables. */
  function CheckInverse(m: seq<seq<int>>, n: nat, pos: seq<(int, int)>, base: int, i: nat): bool
    decreases n * n - i
  {
    i >= n * n || (InverseAt(m, n, pos, base, i) && CheckInverse(m, n, pos, base, i + 1))
  }

  lemma {:induction false} CheckInverseAll(m: seq<seq<int>>, n: nat, pos: seq<(int, int)>, base: int, i: nat)
    requires CheckInverse(m, n, pos, base, i)
    ensures forall j :: i <= j < n * n ==> InverseAt(m, n, pos, base, j)
    decreases n * n - i
  {
    if i < n * n {
      CheckInverseAll(m, n, pos, base, i + 1);
    }
  }

  lemma InverseOfCell(m: seq<seq<int>>, n: nat, pos: seq<(int, int)>, base: int, y: int, x: int)
    requires Square(m, n) && |pos| == n * n && CheckInverse(m, n, pos, base, 0)
    requires 0 <= y < n && 0 <= x < n
    ensures base <= m[y][x] < base + n * n && pos[m[y][x] - base] == (y, x)
  {
    CheckInverseAll(m, n, pos, base, 0);
    Grid.RowMajor(x, y, n, n);
    assert InverseAt(m, n, pos, base, y * n + x);
  }

  lemma InverseOfValue(m: seq<seq<int>>, n: nat, pos: seq<(int, int)>, base: int, v: int)
    requires Square(m, n) && |pos| == n * n && CheckInverse(m, n, pos, base, 0)
    requires base <= v < base + n * n
    ensures Holds(m, n, v)
  {
    CheckInverseAll(m, n, pos, base, 0);
    assert InverseAt(m, n, pos, base, v - base);
    var c := pos[v - base];
    assert m[c.0][c.1] == v;
  }

  /** A square matrix with an inverse table that passes the check is a permutation. */
  lemma CheckInverseSound(m: seq<seq<int>>, n: nat, pos: seq<(int, int)>, base: int)
    requires Square(m, n) && |pos| == n * n && CheckInverse(m, n, pos, base, 0)
    ensures IsPermutationFrom(m, n, base)
  {
    forall y, x | 0 <= y < n && 0 <= x < n
      ensures base <= m[y][x] < base + n * n
    {
      InverseOfCell(m, n, pos, base, y, x);
    }
    forall v | base <= v < base + n * n
      ensures Holds(m, n, v)
    {
      InverseOfValue(m, n, pos, base, v);
    }
    forall y1, x1, y2, x2 | 0 <= y1 < n && 0 <= x1 < n && 0 <= y2 < n && 0 <= x2 < n && m[y1][x1] == m[y2][x2]
      ensures y1 == y2 && x1 == x2
    {
      InverseOfCell(m, n, pos, base, y1, x1);
      InverseOfCell(m, n, pos, base, y2, x2);
    }
  }

  /** Cell (y, x) of big is the doubled cell built from small. */
  predicate DoubledAt(big: seq<seq<int>>, small: seq<seq<int>>, n: nat, y: nat, x: nat)
    requires n > 0
  {
    && y < |big| && x < |big[y]| && y % n < |small| && x % n < |small[y % n]| && y / n < 2 && x / n < 2
    && big[y][x] == 4 * small[y % n][x % n] + Bayer2Index[y / n][x / n]
  }

  /** Checks DoubledAt along row y from column x on; evaluated on constant tables. */
  function RowDoubled(big: seq<seq<int>>, small: seq<seq<int>>, n: nat, y: nat, x: nat): bool
    requires n > 0
    decreases 2 * n - x
  {
    x >= 2 * n || (DoubledAt(big, small, n, y, x) && RowDoubled(big, small, n, y, x + 1))
  }

  /** Checks RowDoubled for rows y, y+1, ..., 2n-1. */
  function RowsDoubled(big: seq<seq<int>>, small: seq<seq<int>>, n: nat, y: nat): bool
    requires n > 0
    decreases 2 * n - y
  {
    y >= 2 * n || (RowDoubled(big, small, n, y, 0) && RowsDoubled(big, small, n, y + 1))
  }

  lemma {:induction false} RowDoubledAll(big: seq<seq<int>>, small: seq<seq<int>>, n: nat, y: nat, x: nat)
    requires n > 0 && RowDoubled(big, small, n, y, x)
    ensures forall k :: x <= k < 2 * n ==> DoubledAt(big, small, n, y, k)
    decreases 2 * n - x
  {
    if x < 2 * n {
      RowDoubledAll(big, small, n, y, x + 1);
    }
  }

  lemma {:induction false} RowsDoubledAll(big: seq<seq<int>>, small: seq<seq<int>>, n: nat, y: nat)
    requires n > 0 && RowsDoubled(big, small, n, y)
    ensures forall k, x :: y <= k < 2 * n && 0 <= x < 2 * n ==> DoubledAt(big, small, n, k, x)
    decreases 2 * n - y
  {
    if y < 2 * n {
      RowDoubledAll(big, small, n, y, 0);
      RowsDoubledAll(big, small, n, y + 1);
    }
  }

  /** A square matrix that passes the check is the doubled matrix. */
  lemma RowsDoubledSound(big: seq<seq<int>>, small: seq<seq<int>>, n: nat)
    requires n > 0 && Square(small, n) && Square(big, 2 * n) && RowsDoubled(big, small, n, 0)
    ensures big == Doubled(small, n)
  {
    RowsDoubledAll(big, small, n, 0);
    var d := Doubled(small, n);
    forall y | 0 <= y < 2 * n ensures big[y] == d[y] {
      forall x | 0 <= x < 2 * n ensures big[y][x] == d[y][x] {
        assert DoubledAt(big, small, n, y, x);
      }
    }
  }

  /** Where each value of the clustered matrix sits: KnollPositions[v - 1] holds v. */
  const KnollPositions: seq<(int, int)> := [
    (3, 3), (1, 3), (3, 2), (1, 1), (3, 0), (0, 0), (3, 1), (1, 0),
    (2, 2), (0, 2), (2, 0), (0, 1), (2, 3), (1, 2), (2, 1), (0, 3)]

  lemma Bayer2IsPermutation()
    ensures IsPermutationFrom(Bayer2Index, 2, 0)
  {
    assert CheckInverse(Bayer2Index, 2, [(0, 0), (1, 1), (0, 1), (1, 0)], 0, 0);
    CheckInverseSound(Bayer2Index, 2, [(0, 0), (1, 1), (0, 1), (1, 0)], 0);
  }

  lemma Bayer4IsDoubled2()
    ensures Bayer4Index == Doubled(Bayer2Index, 2)
  {
    RowsHaveLengthSound(Bayer4Index, 4, 0);
    assert RowsDoubled(Bayer4Index, Bayer2Index, 2, 0);
    RowsDoubledSound(Bayer4Index, Bayer2Index, 2);
  }

  lemma Bayer8IsDoubled4()
    ensures Bayer8Index == Doubled(Bayer4Index, 4)
  {
    RowsHaveLengthSound(Bayer4Index, 4, 0);
    RowsHaveLengthSound(Bayer8Index, 8, 0);
    assert RowDoubled(Bayer8Index, Bayer4Index, 4, 0, 0);
    assert RowDoubled(Bayer8Index, Bayer4Index, 4, 1, 0);
    assert RowDoubled(Bayer8Index, Bayer4Index, 4, 2, 0);
    assert RowDoubled(Bayer8Index, Bayer4Index, 4, 3, 0);
    assert RowDoubled(Bayer8Index, Bayer4Index, 4, 4, 0);
    assert RowDoubled(Bayer8Index, Bayer4Index, 4, 5, 0);
    assert RowDoubled(Bayer8Index, Bayer4Index, 4, 6, 0);
    assert RowDoubled(Bayer8Index, Bayer4Index, 4, 7, 0);
    assert RowsDoubled(Bayer8Index, Bayer4Index, 4, 0);
    RowsDoubledSound(Bayer8Index, Bayer4Index, 4);
  }

  lemma KnollIsPermutation()
    ensures IsPermutationFrom(KnollIndex, 4, 1)
  {
    RowsHaveLengthSound(KnollIndex, 4, 0);
    assert CheckInverse(KnollIndex, 4, KnollPositions, 1, 12);
    assert CheckInverse(KnollIndex, 4, KnollPositions, 1, 8);
    assert CheckInverse(KnollIndex, 4, KnollPositions, 1, 4);
    assert CheckInverse(KnollIndex, 4, KnollPositions, 1, 0);
    CheckInverseSound(KnollIndex, 4, KnollPositions, 1);
  }

  /** A coordinate of a 2n-wide matrix splits into a quadrant (0 or 1) and an offset in it. */
  lemma SplitCoord(y: int, n: int)
    requires n > 0 && 0 <= y < 2 * n
    ensures 0 <= y / n < 2 && 0 <= y % n < n && y == (y / n) * n + y % n
  {
    if y < n {
      Grid.DivModUnique(y, n, 0, y);
    } else {
      Grid.DivModUnique(y, n, 1, y - n);
    }
  }

  lemma DoubledRange(m: seq<seq<int>>, n: nat, y: int, x: int)
    requires n > 0 && IsPermutationFrom(m, n, 0) && 0 <= y < 2 * n && 0 <= x < 2 * n
    ensures 0 <= Doubled(m, n)[y][x] < (2 * n) * (2 * n)
  {
    SplitCoord(y, n);
    SplitCoord(x, n);
    Bayer2IsPermutation();
    assert (2 * n) * (2 * n) == 4 * (n * n);
  }

  lemma DoubledHolds(m: seq<seq<int>>, n: nat, v: int)
    requires n > 0 && IsPermutationFrom(m, n, 0) && 0 <= v < (2 * n) * (2 * n)
    ensures Holds(Doubled(m, n), 2 * n, v)
  {
    var a, b := v / 4, v % 4;
    assert 0 <= a < n * n by {
      assert (2 * n) * (2 * n) == 4 * (n * n);
    }
    assert Holds(m, n, a);
    var ya, xa :| 0 <= ya < n && 0 <= xa < n && m[ya][xa] == a;
    Bayer2IsPermutation();
    assert Holds(Bayer2Index, 2, b);
    var qy, qx :| 0 <= qy < 2 && 0 <= qx < 2 && Bayer2Index[qy][qx] == b;
    var y := if qy == 0 then ya else n + ya;
    var x := if qx == 0 then xa else n + xa;
    DoubledCellAt(m, n, qy, qx, ya, xa, y, x);
    assert Doubled(m, n)[y][x] == 4 * a + b;
  }

  lemma DoubledCellAt(m: seq<seq<int>>, n: nat, qy: int, qx: int, ya: int, xa: int, y: int, x: int)
    requires n > 0 && Square(m, n) && 0 <= qy < 2 && 0 <= qx < 2 && 0 <= ya < n && 0 <= xa < n
    requires y == (if qy == 0 then ya else n + ya) && x == (if qx == 0 then xa else n + xa)
    ensures 0 <= y < 2 * n && 0 <= x < 2 * n
    ensures Doubled(m, n)[y][x] == 4 * m[ya][xa] + Bayer2Index[qy][qx]
  {
    Grid.DivModUnique(y, n, qy, ya);
    Grid.DivModUnique(x, n, qx, xa);
  }

  lemma DoubledInjective(m: seq<seq<int>>, n: nat, y1: int, x1: int, y2: int, x2: int)
    requires n > 0 && IsPermutationFrom(m, n, 0)
    requires 0 <= y1 < 2 * n && 0 <= x1 < 2 * n && 0 <= y2 < 2 * n && 0 <= x2 < 2 * n
    requires Doubled(m, n)[y1][x1] == Doubled(m, n)[y2][x2]
    ensures y1 == y2 && x1 == x2
  {
    SplitCoord(y1, n);
    SplitCoord(x1, n);
    SplitCoord(y2, n);
    SplitCoord(x2, n);
    Bayer2IsPermutation();
    var a1, b1 := m[y1 % n][x1 % n], Bayer2Index[y1 / n][x1 / n];
    var a2, b2 := m[y2 % n][x2 % n], Bayer2Index[y2 / n][x2 / n];
    Grid.DivModUnique(4 * a1 + b1, 4, a1, b1);
    Grid.DivModUnique(4 * a2 + b2, 4, a2, b2);
    assert y1 % n == y2 % n && x1 % n == x2 % n;
    assert y1 / n == y2 / n && x1 / n == x2 / n;
  }

  /** The recursive construction preserves being a permutation: if m holds 0..n*n-1 once
      each, the doubled matrix holds 0..4n*n-1 once each. */
  lemma DoubledIsPermutation(m: seq<seq<int>>, n: nat)
    requires n > 0 && IsPermutationFrom(m, n, 0)
    ensures IsPermutationFrom(Doubled(m, n), 2 * n, 0)
  {
    var d := Doubled(m, n);
    forall y, x | 0 <= y < 2 * n && 0 <= x < 2 * n ensures 0 <= d[y][x] < (2 * n) * (2 * n) {
      DoubledRange(m, n, y, x);
    }
    forall v | 0 <= v < (2 * n) * (2 * n) ensures Holds(d, 2 * n, v) {
      DoubledHolds(m, n, v);
    }
    forall y1, x1, y2, x2 | 0 <= y1 < 2 * n && 0 <= x1 < 2 * n && 0 <= y2 < 2 * n && 0 <= x2 < 2 * n && d[y1][x1] == d[y2][x2]
      ensures y1 == y2 && x1 == x2
    {
      DoubledInjective(m, n, y1, x1, y2, x2);
    }
  }

  /** The 16x16 index matrix: four quadrants of 4*Bayer8Index offset by 0, 2, 3 and 1. */
  const Bayer16Index: seq<seq<int>> := Doubled(Bayer8Index, 8)

  /** The index table behind each supported Bayer size; other sizes have none. */
  function BayerIndex(size: int): seq<seq<int>> {
    if size == 2 then Bayer2Index
    else if size == 4 then Bayer4Index
    else if size == 8 then Bayer8Index
    else if size == 16 then Bayer16Index
    else [[0]]
  }

  /** The threshold matrix of an ordered style: the 2, 4 and 8 tables scaled by 64, 16 and
      4; the 16x16 matrix as its fill loop computes it; any other size a single 0. */
  function BayerMatrix(size: int): seq<seq<int>> {
    if size == 2 then Scaled(Bayer2Index, 64)
    else if size == 4 then Scaled(Bayer4Index, 16)
    else if size == 8 then Scaled(Bayer8Index, 4)
    else if size == 16 then Bayer16Index
    else [[0]]
  }

  /** The clustered-dot threshold matrix: the Knoll table scaled by 16. */
  function KnollMatrix(): seq<seq<int>> {
    Scaled(KnollIndex, 16)
  }

  lemma ScaledPermutation2()
    ensures IsPermutationFrom(BayerIndex(2), 2, 0) && BayerMatrix(2) == Scaled(BayerIndex(2), 256 / (2 * 2))
  {
    Bayer2IsPermutation();
  }

  lemma ScaledPermutation4()
    ensures IsPermutationFrom(BayerIndex(4), 4, 0) && BayerMatrix(4) == Scaled(BayerIndex(4), 256 / (4 * 4))
  {
    Bayer2IsPermutation();
    Bayer4IsDoubled2();
    DoubledIsPermutation(Bayer2Index, 2);
  }

  lemma ScaledPermutation8()
    ensures IsPermutationFrom(BayerIndex(8), 8, 0) && BayerMatrix(8) == Scaled(BayerIndex(8), 256 / (8 * 8))
  {
    ScaledPermutation4();
    Bayer8IsDoubled4();
    DoubledIsPermutation(Bayer4Index, 4);
  }

  lemma ScaledPermutation16()
    ensures IsPermutationFrom(BayerIndex(16), 16, 0) && BayerMatrix(16) == Scaled(BayerIndex(16), 256 / (16 * 16))
  {
    ScaledPermutation8();
    DoubledIsPermutation(Bayer8Index, 8);
    var s := Scaled(Bayer16Index, 1);
    forall y | 0 <= y < 16 ensures s[y] == Bayer16Index[y] {
    }
  }

  /** Each Bayer matrix of size n in {2, 4, 8, 16} is its index table, a permutation of
      0..n*n-1, scaled by 256/(n*n); any other size yields the one-cell matrix [[0]]. */
  lemma BayerMatrixIsScaledPermutation(size: int)
    ensures size in {2, 4, 8, 16} ==>
      && IsPermutationFrom(BayerIndex(size), size, 0)
      && BayerMatrix(size) == Scaled(BayerIndex(size), 256 / (size * size))
    ensures size !in {2, 4, 8, 16} ==> BayerMatrix(size) == [[0]]
  {
    if size == 2 {
      ScaledPermutation2();
    } else if size == 4 {
      ScaledPermutation4();
    } else if size == 8 {
      ScaledPermutation8();
    } else if size == 16 {
      ScaledPermutation16();
    }
  }

  lemma Bayer2Literal()
    ensures BayerMatrix(2) == [[0, 128], [192, 64]]
  {
    assert BayerMatrix(2)[0] == [0, 128];
    assert BayerMatrix(2)[1] == [192, 64];
  }

  /** The clustered matrix holds 16, 32, ..., 256 once each; 256 sits in row 0, column 3. */
  lemma KnollMatrixEntries()
    ensures IsPermutationFrom(KnollIndex, 4, 1) && KnollMatrix() == Scaled(KnollIndex, 16)
    ensures forall y, x :: 0 <= y < 4 && 0 <= x < 4 ==> 16 <= KnollMatrix()[y][x] <= 256
    ensures KnollMatrix()[0][3] == 256
  {
    KnollIsPermutation();
  }

  /** Cell (y, x) of the 16x16 index matrix, read off the 8x8 and 2x2 tables. */
  function Bayer16At(y: int, x: int): (v: int)
    requires 0 <= y < 16 && 0 <= x < 16
    ensures v == Bayer16Index[y][x]
  {
    RowsHaveLengthSound(Bayer8Index, 8, 0);
    SplitCoord(y, 8);
    SplitCoord(x, 8);
    4 * Bayer8Index[y % 8][x % 8] + Bayer2Index[y / 8][x / 8]
  }

  /** The fill loop of the 16x16 case: each cell is the 8x8 matrix cell of its offset plus
      the 8x8 cell of its quadrant divided by 64, computed on reals. */
  method FillBayer16() returns (m: array2<real>)
    ensures fresh(m) && m.Length0 == 16 && m.Length1 == 16
    ensures forall y, x :: 0 <= y < 16 && 0 <= x < 16 ==> m[y, x] == Bayer16At(y, x) as real
  {
    var m8 := BayerMatrix(8);
    m := new real[16, 16];
    for y := 0 to 16
      invariant forall i, j :: 0 <= i < y && 0 <= j < 16 ==> m[i, j] == Bayer16At(i, j) as real
    {
      FillBayer16Row(m, m8, y);
    }
  }

  /** The inner loop of the fill: row y, column by column. */
  method FillBayer16Row(m: array2<real>, m8: seq<seq<int>>, y: int)
    requires m.Length0 == 16 && m.Length1 == 16 && m8 == BayerMatrix(8) && 0 <= y < 16
    modifies m
    ensures forall j :: 0 <= j < 16 ==> m[y, j] == Bayer16At(y, j) as real
    ensures forall i, j :: 0 <= i < 16 && i != y && 0 <= j < 16 ==> m[i, j] == old(m[i, j])
  {
    for x := 0 to 16
      invariant forall j :: 0 <= j < x ==> m[y, j] == Bayer16At(y, j) as real
      invariant forall i, j :: 0 <= i < 16 && i != y && 0 <= j < 16 ==> m[i, j] == old(m[i, j])
    {
      Bayer16Cell(m8, y, x);
      m[y, x] := m8[y % 8][x % 8] as real + m8[y / 8][x / 8] as real / 64.0;
    }
  }

  lemma Bayer16Cell(m8: seq<seq<int>>, y: int, x: int)
    requires m8 == BayerMatrix(8) && 0 <= y < 16 && 0 <= x < 16
    ensures y % 8 < |m8| && x % 8 < |m8[y % 8]| && y / 8 < |m8| && x / 8 < |m8[y / 8]|
    ensures m8[y % 8][x % 8] as real + m8[y / 8][x / 8] as real / 64.0 == Bayer16At(y, x) as real
  {
    RowsHaveLengthSound(Bayer8Index, 8, 0);
    SplitCoord(y, 8);
    SplitCoord(x, 8);
    QuadrantOffset(y / 8, x / 8);
  }

  /** The top-left 2x2 corner of the scaled 8x8 matrix, divided by 64, is the 2x2 index table. */
  lemma QuadrantOffset(qy: int, qx: int)
    requires 0 <= qy < 2 && 0 <= qx < 2
    ensures BayerMatrix(8)[qy][qx] as real / 64.0 == Bayer2Index[qy][qx] as real
  {
  }
}
