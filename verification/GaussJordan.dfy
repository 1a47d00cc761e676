/**
 Matrix inversion over GF(256) by Gauss-Jordan elimination on the matrix
 augmented with the identity (internal/packet/fec.go, gfInvert).
 */
module GaussJordan {
  import opened Gf256
  import opened GfSum

  type Row = seq<Byte>
  type Matrix = seq<seq<Byte>>

  datatype Inverse = Inverted(inv: Matrix) | SingularMatrix

  ghost predicate IsMatrix(a: Matrix, rows: nat, cols: nat) {
    |a| == rows && forall r :: 0 <= r < rows ==> |a[r]| == cols
  }

  function At(s: Row, i: nat): (b: Byte) {
    if i < |s| then s[i] else 0
  }

  ghost function Dot(u: Row, v: Row): (r: Byte) {
    Sum(|u|, (i: nat) => Mul(At(u, i), At(v, i)))
  }

  // ----- row operations

  ghost function MulAddRow(dst: Row, src: Row, coef: Byte): (r: Row)
    requires |dst| == |src|
    ensures |r| == |dst|
  {
    seq(|dst|, i requires 0 <= i < |dst| => Add(dst[i], Mul(coef, src[i])))
  }

  ghost function DivRow(row: Row, pv: Byte): (r: Row)
    requires pv != 0
    ensures |r| == |row|
  {
    seq(|row|, i requires 0 <= i < |row| => Div(row[i], pv))
  }

  lemma DotMulAddRow(dst: Row, src: Row, coef: Byte, v: Row)
    requires |dst| == |src|
    ensures Dot(MulAddRow(dst, src, coef), v) == Add(Dot(dst, v), Mul(coef, Dot(src, v)))
  {
    hide Add, Mul;
    var n := |dst|;
    var out := MulAddRow(dst, src, coef);
    var d := (i: nat) => Mul(At(dst, i), At(v, i));
    var s := (i: nat) => Mul(At(src, i), At(v, i));
    var cs := (i: nat) => Mul(coef, s(i));
    var o := (i: nat) => Mul(At(out, i), At(v, i));
    SumScale(n, coef, s, cs);
    forall i: nat | i < n ensures o(i) == Add(d(i), cs(i)) {
      MulDistr(At(v, i), dst[i], Mul(coef, src[i]));
      MulAssoc(coef, src[i], At(v, i));
    }
    SumAdd(n, d, cs, o);
  }

  lemma DotDivRow(row: Row, pv: Byte, v: Row)
    requires pv != 0
    ensures Mul(pv, Dot(DivRow(row, pv), v)) == Dot(row, v)
  {
    hide Mul, Div;
    var n := |row|;
    var out := DivRow(row, pv);
    var o := (i: nat) => Mul(At(out, i), At(v, i));
    var d := (i: nat) => Mul(At(row, i), At(v, i));
    forall i: nat | i < n ensures d(i) == Mul(pv, o(i)) {
      MulDiv(row[i], pv);
      MulAssoc(pv, out[i], At(v, i));
    }
    SumScale(n, pv, o, d);
  }

  // ----- row equivalence: two matrices annihilate the same vectors

  ghost predicate Kills(a: Matrix, v: Row) {
    forall r :: 0 <= r < |a| ==> Dot(a[r], v) == 0
  }

  ghost predicate RowEquivalent(a: Matrix, b: Matrix) {
    forall v: Row :: Kills(a, v) <==> Kills(b, v)
  }

  function SwapRows(a: Matrix, i: nat, j: nat): (b: Matrix)
    requires i < |a| && j < |a|
  {
    a[i := a[j]][j := a[i]]
  }

  lemma SwapEquivalent(a: Matrix, i: nat, j: nat)
    requires i < |a| && j < |a|
    ensures RowEquivalent(a, SwapRows(a, i, j))
  {
    hide Dot;
    var b := SwapRows(a, i, j);
    assert a == SwapRows(b, i, j);
  }

  /** Scales the pivot row to a leading one and clears the column everywhere else. */
  ghost function Eliminate(a: Matrix, col: nat, w: nat): (b: Matrix)
    requires IsMatrix(a, |a|, w) && col < |a| && col < w && a[col][col] != 0
    ensures IsMatrix(b, |a|, w)
  {
    var pivot := DivRow(a[col], a[col][col]);
    seq(|a|, r requires 0 <= r < |a| => if r == col then pivot else MulAddRow(a[r], pivot, a[r][col]))
  }

  lemma EliminateEquivalent(a: Matrix, col: nat, w: nat)
    requires IsMatrix(a, |a|, w) && col < |a| && col < w && a[col][col] != 0
    ensures RowEquivalent(a, Eliminate(a, col, w))
  {
    hide Dot, Add, Mul, Div, MulAddRow, DivRow;
    var b := Eliminate(a, col, w);
    forall v: Row ensures Kills(a, v) <==> Kills(b, v) {
      var z := Dot(b[col], v);
      DotDivRow(a[col], a[col][col], v);
      MulNonzero(a[col][col], z);
      AddUnit(0);
      if z == 0 {
        forall r | 0 <= r < |a| && r != col ensures Dot(b[r], v) == Dot(a[r], v) {
          DotMulAddRow(a[r], b[col], a[r][col], v);
          MulNonzero(a[r][col], 0);
          AddUnit(Dot(a[r], v));
        }
      }
    }
  }

  // ----- the elimination loop

  ghost predicate UnitColumns(a: Matrix, k: nat) {
    forall r, j :: 0 <= r < |a| && 0 <= j < k && j < |a[r]| ==> a[r][j] == if r == j then 1 else 0
  }

  lemma EliminateUnit(a: Matrix, col: nat, w: nat)
    requires IsMatrix(a, |a|, w) && col < |a| && col < w && a[col][col] != 0
    requires UnitColumns(a, col)
    ensures UnitColumns(Eliminate(a, col, w), col + 1)
  {
    hide Add, Mul;
    var b := Eliminate(a, col, w);
    var pv := a[col][col];
    assert b[col][col] == 1 by {
      MulDiv(pv, pv);
      MulOne(pv);
      DivSelf(pv);
    }
    forall r, j | 0 <= r < |a| && 0 <= j < col + 1 ensures b[r][j] == if r == j then 1 else 0 {
      if j < col { assert b[col][j] == Div(0, pv) == 0; }
      if r != col {
        assert b[r][j] == Add(a[r][j], Mul(a[r][col], b[col][j]));
        MulOne(a[r][col]);
        MulNonzero(a[r][col], 0);
        AddUnit(a[r][j]);
      }
    }
  }

  lemma DivSelf(a: Byte)
    requires a != 0
    ensures Div(a, a) == 1
  {
    hide Exp;
    Order();
  }

  /** The first row at or below r whose entry in the column is nonzero, or |a|. */
  function PivotFrom(a: Matrix, col: nat, r: nat): (p: nat)
    requires r <= |a| && forall i :: 0 <= i < |a| ==> col < |a[i]|
    ensures r <= p <= |a|
    ensures p < |a| ==> a[p][col] != 0
    ensures forall i :: r <= i < p ==> a[i][col] == 0
    decreases |a| - r
  {
    if r == |a| || a[r][col] != 0 then r else PivotFrom(a, col, r + 1)
  }

  datatype Reduction = Reduced(a: Matrix) | Stuck(a: Matrix, col: nat)

  /** Clears columns col..n of an n by w matrix, or stops at the first column without a pivot. */
  ghost function Reduce(a: Matrix, col: nat, w: nat): (d: Reduction)
    requires IsMatrix(a, |a|, w) && col <= |a| <= w
    decreases |a| - col
  {
    if col == |a| then Reduced(a)
    else
      var p := PivotFrom(a, col, col);
      if p == |a| then Stuck(a, col)
      else Reduce(Eliminate(SwapRows(a, col, p), col, w), col + 1, w)
  }

  lemma {:induction false} ReduceKeeps(a: Matrix, col: nat, w: nat)
    requires IsMatrix(a, |a|, w) && col <= |a| <= w && UnitColumns(a, col)
    ensures var d := Reduce(a, col, w);
            && IsMatrix(d.a, |a|, w)
            && RowEquivalent(a, d.a)
            && (d.Reduced? ==> UnitColumns(d.a, |a|))
            && (d.Stuck? ==> d.col < |a| && UnitColumns(d.a, d.col)
                             && forall r :: d.col <= r < |a| ==> d.a[r][d.col] == 0)
    decreases |a| - col
  {
    hide Kills, Eliminate;
    if col < |a| {
      var p := PivotFrom(a, col, col);
      if p < |a| {
        var b := SwapRows(a, col, p);
        SwapEquivalent(a, col, p);
        EliminateEquivalent(b, col, w);
        EliminateUnit(b, col, w);
        ReduceKeeps(Eliminate(b, col, w), col + 1, w);
      }
    }
  }

  // ----- inversion

  function Unit(n: nat, k: nat): (u: Row)
    ensures |u| == n && forall i :: 0 <= i < n ==> u[i] == if i == k then 1 else 0
  {
    seq(n, i => if i == k then 1 else 0)
  }

  function Augment(m: Matrix): (a: Matrix)
    ensures |a| == |m| && forall r :: 0 <= r < |m| ==> a[r] == m[r] + Unit(|m|, r)
  {
    seq(|m|, r requires 0 <= r < |m| => m[r] + Unit(|m|, r))
  }

  /** What the elimination turned the appended identity into. */
  function RightHalf(a: Matrix): (b: Matrix)
    requires forall r :: 0 <= r < |a| ==> |a| <= |a[r]|
    ensures |b| == |a| && forall r :: 0 <= r < |a| ==> b[r] == a[r][|a|..]
  {
    seq(|a|, r requires 0 <= r < |a| => a[r][|a|..])
  }

  ghost function Invert(m: Matrix): (r: Inverse)
    requires IsMatrix(m, |m|, |m|)
  {
    var n := |m|;
    match Reduce(Augment(m), 0, 2 * n)
    case Reduced(a) =>
      ReduceKeeps(Augment(m), 0, 2 * n);
      Inverted(RightHalf(a))
    case Stuck(_, _) => SingularMatrix
  }

  function Column(m: Matrix, j: nat): (c: Row)
    requires forall r :: 0 <= r < |m| ==> j < |m[r]|
    ensures |c| == |m| && forall r :: 0 <= r < |m| ==> c[r] == m[r][j]
  {
    seq(|m|, r requires 0 <= r < |m| => m[r][j])
  }

  ghost predicate IsLeftInverse(inv: Matrix, m: Matrix) {
    && IsMatrix(m, |m|, |m|)
    && IsMatrix(inv, |m|, |m|)
    && forall r, j :: 0 <= r < |m| && 0 <= j < |m| ==> Dot(inv[r], Column(m, j)) == if r == j then 1 else 0
  }

  ghost predicate Singular(m: Matrix) {
    exists v: Row :: |v| == |m| && Kills(m, v) && exists i :: 0 <= i < |v| && v[i] != 0
  }

  lemma {:induction false} SumSplit(n: nat, m: nat, f: nat -> Byte)
    ensures Sum(n + m, f) == Add(Sum(n, f), Sum(m, (i: nat) => f(n + i)))
  {
    var g := (i: nat) => f(n + i);
    AddUnit(Sum(n, f));
    if m > 0 { AddAssoc(Sum(n, f), Sum(m - 1, g), g(m - 1)); }
    hide Add;
    if m > 0 {
      SumSplit(n, m - 1, f);
      assert f(n + m - 1) == g(m - 1);
    }
  }

  lemma DotAppend(u: Row, x: Row, v: Row, y: Row)
    requires |u| == |v|
    ensures Dot(u + x, v + y) == Add(Dot(u, v), Dot(x, y))
  {
    hide Add, Mul;
    var f := (i: nat) => Mul(At(u + x, i), At(v + y, i));
    SumSplit(|u|, |x|, f);
    SumExt(|u|, f, (i: nat) => Mul(At(u, i), At(v, i)));
    SumExt(|x|, (i: nat) => f(|u| + i), (i: nat) => Mul(At(x, i), At(y, i)));
  }

  lemma DotUnit(n: nat, k: nat, v: Row)
    requires k < n
    ensures Dot(Unit(n, k), v) == At(v, k) && (|v| == n ==> Dot(v, Unit(n, k)) == v[k])
  {
    hide Mul;
    var u := Unit(n, k);
    forall i: nat | i < n
      ensures Mul(At(u, i), At(v, i)) == if i == k then At(v, i) else 0
      ensures Mul(At(v, i), At(u, i)) == if i == k then At(v, i) else 0
    {
      MulOne(At(v, i));
      MulNonzero(0, At(v, i));
      MulNonzero(At(v, i), 0);
    }
    SumSingle(n, k, (i: nat) => Mul(At(u, i), At(v, i)));
    SumSingle(n, k, (i: nat) => Mul(At(v, i), At(u, i)));
  }

  lemma DotZero(u: Row, v: Row)
    requires forall i :: 0 <= i < |v| ==> v[i] == 0
    ensures Dot(u, v) == 0
  {
    hide Mul;
    forall i: nat | i < |u| ensures Mul(At(u, i), At(v, i)) == 0 { MulNonzero(At(u, i), 0); }
    SumSingle(|u|, |u|, (i: nat) => Mul(At(u, i), At(v, i)));
  }

  /** When the elimination finishes, the right half times the input is the identity. */
  lemma ReducedIsInverse(m: Matrix, a: Matrix)
    requires IsMatrix(m, |m|, |m|) && IsMatrix(a, |m|, 2 * |m|)
    requires RowEquivalent(Augment(m), a) && UnitColumns(a, |m|)
    ensures IsLeftInverse(RightHalf(a), m)
  {
    hide Dot, Add;
    var n := |m|;
    forall r, j | 0 <= r < n && 0 <= j < n
      ensures Dot(a[r][n..], Column(m, j)) == if r == j then 1 else 0
    {
      var v := Unit(n, j) + Column(m, j);
      forall i | 0 <= i < n ensures Dot(Augment(m)[i], v) == 0 {
        DotAppend(m[i], Unit(n, i), Unit(n, j), Column(m, j));
        DotUnit(n, j, m[i]);
        DotUnit(n, i, Column(m, j));
        AddUnit(m[i][j]);
      }
      assert Kills(Augment(m), v);
      assert Kills(a, v);
      assert a[r] == a[r][..n] + a[r][n..];
      DotAppend(a[r][..n], a[r][n..], Unit(n, j), Column(m, j));
      DotUnit(n, j, a[r][..n]);
      AddCancel(a[r][j], Dot(a[r][n..], Column(m, j)));
    }
  }

  /** When no pivot is left, the processed columns give a vector the input annihilates. */
  lemma StuckIsSingular(m: Matrix, a: Matrix, col: nat)
    requires IsMatrix(m, |m|, |m|) && IsMatrix(a, |m|, 2 * |m|) && col < |m|
    requires RowEquivalent(Augment(m), a) && UnitColumns(a, col)
    requires forall r :: col <= r < |m| ==> a[r][col] == 0
    ensures Singular(m)
  {
    hide Dot, Add, Mul;
    var n := |m|;
    var zeros := Unit(n, n);
    var v := seq(n, i requires 0 <= i < n => if i < col then a[i][col] else if i == col then 1 else 0);
    forall r | 0 <= r < n ensures Dot(a[r], v + zeros) == 0 {
      assert a[r] == a[r][..n] + a[r][n..];
      DotAppend(a[r][..n], a[r][n..], v, zeros);
      DotZero(a[r][n..], zeros);
      DotStuck(a[r][..n], v, r, col);
      AddUnit(0);
    }
    assert Kills(a, v + zeros);
    assert Kills(Augment(m), v + zeros);
    forall r | 0 <= r < n ensures Dot(m[r], v) == 0 {
      assert Dot(Augment(m)[r], v + zeros) == 0;
      DotAppend(m[r], Unit(n, r), v, zeros);
      DotZero(Unit(n, r), zeros);
      AddUnit(Dot(m[r], v));
    }
    assert v[col] != 0;
  }

  lemma DotStuck(row: Row, v: Row, r: nat, col: nat)
    requires |row| == |v| && col < |v| && r < |v|
    requires forall j :: 0 <= j < col ==> row[j] == if r == j then 1 else 0
    requires v[col] == 1 && forall j :: col < j < |v| ==> v[j] == 0
    requires if r < col then v[r] == row[col] else row[col] == 0
    ensures Dot(row, v) == 0
  {
    hide Add, Mul;
    var n := |v|;
    var f := (i: nat) => Mul(At(row, i), At(v, i));
    var g := (i: nat) => if i == r && r < col then row[col] else 0;
    var h := (i: nat) => if i == col then row[col] else 0;
    forall i: nat | i < n ensures f(i) == Add(g(i), h(i)) {
      MulOne(v[i]);
      MulOne(row[i]);
      MulNonzero(row[i], v[i]);
      AddUnit(f(i));
    }
    SumAdd(n, g, h, f);
    SumSingle(n, r, g);
    SumSingle(n, col, h);
    AddUnit(row[col]);
    AddUnit(0);
  }

  ghost function MatVec(m: Matrix, v: Row): (r: Row)
    ensures |r| == |m| && forall i :: 0 <= i < |m| ==> r[i] == Dot(m[i], v)
  {
    seq(|m|, i requires 0 <= i < |m| => Dot(m[i], v))
  }

  /** A left inverse recovers every vector from its image. */
  lemma LeftInverseRecovers(inv: Matrix, m: Matrix, v: Row)
    requires IsLeftInverse(inv, m) && |v| == |m|
    ensures MatVec(inv, MatVec(m, v)) == v
  {
    hide Add, Mul;
    var n := |m|;
    forall r | 0 <= r < n ensures Dot(inv[r], MatVec(m, v)) == v[r] {
      var f := (c: nat, j: nat) => if c < n && j < n then Mul(inv[r][c], Mul(m[c][j], v[j])) else 0;
      var rows := (c: nat) => Mul(At(inv[r], c), At(MatVec(m, v), c));
      var cols := (j: nat) => if j < n then Mul(v[j], Dot(inv[r], Column(m, j))) else 0;
      forall c: nat | c < n ensures rows(c) == Sum(n, (j: nat) => f(c, j)) {
        SumScale(n, inv[r][c], (j: nat) => Mul(At(m[c], j), At(v, j)), (j: nat) => f(c, j));
      }
      forall j: nat | j < n ensures cols(j) == Sum(n, (c: nat) => f(c, j)) {
        var d := (c: nat) => Mul(At(inv[r], c), At(Column(m, j), c));
        forall c: nat | c < n ensures f(c, j) == Mul(v[j], d(c)) {
          MulAssoc(inv[r][c], m[c][j], v[j]);
          MulComm(d(c), v[j]);
        }
        SumScale(n, v[j], d, (c: nat) => f(c, j));
      }
      SumSwap(n, n, f, rows, cols);
      forall j: nat | j < n ensures cols(j) == if j == r then v[r] else 0 {
        MulOne(v[j]);
        MulNonzero(v[j], 0);
      }
      SumSingle(n, r, cols);
    }
  }

  /** The elimination inverts every matrix that has an inverse and errs exactly on the singular ones. */
  lemma InvertCorrect(m: Matrix)
    requires IsMatrix(m, |m|, |m|)
    ensures match Invert(m)
            case Inverted(inv) => IsLeftInverse(inv, m) && !Singular(m)
            case SingularMatrix => Singular(m)
  {
    hide Dot, Reduce, Kills;
    var n := |m|;
    ReduceKeeps(Augment(m), 0, 2 * n);
    match Reduce(Augment(m), 0, 2 * n)
    case Reduced(a) =>
      ReducedIsInverse(m, a);
      var inv := Invert(m).inv;
      InverseNotSingular(inv, m);
    case Stuck(a, col) =>
      StuckIsSingular(m, a, col);
  }

  lemma InverseNotSingular(inv: Matrix, m: Matrix)
    requires IsLeftInverse(inv, m)
    ensures !Singular(m)
  {
    hide Dot;
    forall v: Row | |v| == |m| && Kills(m, v)
      ensures forall i :: 0 <= i < |v| ==> v[i] == 0
    {
      LeftInverseRecovers(inv, m, v);
      forall i | 0 <= i < |v| ensures v[i] == 0 {
        DotZero(inv[i], MatVec(m, v));
        assert v[i] == MatVec(inv, MatVec(m, v))[i];
      }
    }
  }
}
