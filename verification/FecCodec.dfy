/**
 The imperative codec of internal/packet/fec.go: the tables filled at start-up,
 in-place row updates, in-place inversion, Encode and Reconstruct. Each method
 is tied to the functions of the modules Gf256, GaussJordan and Generator.
 */
module FecCodec {
  import opened Gf256
  import opened GfSum
  import opened GaussJordan
  import opened Generator

  /** gfExp, gfLog and gfMul. The logarithms all fit a byte. */
  class Tables {
    const exp: array<Byte>
    const log: array<nat>
    const mul: array2<Byte>

    /** No table shares storage with the given row. */
    ghost predicate Apart(row: array<Byte>) {
      row != exp && row as object != log
    }

    ghost predicate Valid()
      reads exp, log, mul
    {
      && exp.Length == 512 && log.Length == 256 && mul.Length0 == 256 && mul.Length1 == 256
      && (forall i :: 0 <= i < 512 ==> exp[i] == Exp(i))
      && (forall a: Byte :: a != 0 ==> log[a as int] == Log(a))
      && (forall a: Byte, b: Byte :: mul[a as int, b as int] == Mul(a, b))
    }

    constructor ()
      ensures Valid() && fresh(exp) && fresh(log) && fresh(mul)
    {
      var e := new Byte[512](_ => 0);
      var l := new nat[256](_ => 0);
      var m := new Byte[256, 256]((_, _) => 0);
      FillExpLog(e, l);
      FillMul(e, l, m);
      exp, log, mul := e, l, m;
    }

    /** gdiv: division through the tables. */
    function Gdiv(a: Byte, b: Byte): (r: Byte)
      requires Valid() && b != 0
      reads exp, log, mul
      ensures r == Div(a, b)
    {
      assert log[b as int] == Log(b);
      if a == 0 then 0 else
      assert log[a as int] == Log(a);
      exp[log[a as int] + 255 - log[b as int]]
    }
  }

  /** The step of the table loop: shift, and reduce when bit 8 appears. */
  function WideStep(x: bv16): (y: bv16) {
    var s := x << 1;
    if s & 0x100 != 0 then s ^ 0x11d else s
  }

  function Wide(a: Byte): (x: bv16) { a as bv16 }

  function Narrow(x: bv16): (a: Byte)
    requires x < 0x100
  {
    x as Byte
  }

  lemma WideFacts(a: Byte)
    ensures Wide(a) < 0x100 && Narrow(Wide(a)) == a
    ensures WideStep(Wide(a)) == Wide(Xtime(a))
  {
  }

  /** The table index of x^i. */
  ghost function Slot(i: nat): (s: nat)
    ensures 0 < s < 256
  {
    ExpNonzero(i);
    Exp(i) as int
  }

  lemma SlotInjective(i: nat, j: nat)
    requires i < j < 255
    ensures Slot(i) != Slot(j)
  {
    ExpInjective(i, j);
  }

  method FillExpLog(e: array<Byte>, l: array<nat>)
    requires e.Length == 512 && l.Length == 256 && e as object != l
    modifies e, l
    ensures forall i :: 0 <= i < 512 ==> e[i] == Exp(i)
    ensures forall a: Byte :: a != 0 ==> l[a as int] == Log(a)
  {
    assert Exp(0) == 1 && Wide(1) == 1;
    hide Exp, Wide, Narrow, WideStep, Slot;
    var x: bv16 := 1;
    for i := 0 to 255
      invariant x == Wide(Exp(i))
      invariant forall j :: 0 <= j < i ==> e[j] == Exp(j)
      invariant forall j :: 0 <= j < i ==> l[Slot(j)] == j
    {
      WideFacts(Exp(i));
      ExpNext(i);
      e[i] := Narrow(x);
      forall j | 0 <= j < i ensures Slot(j) != Slot(i) { SlotInjective(j, i); }
      SetSlot(l, i, Narrow(x));
      x := WideStep(x);
    }
    LogsFilled(l);
    RepeatExp(e);
  }

  method SetSlot(l: array<nat>, i: nat, a: Byte)
    requires l.Length == 256 && a == Exp(i)
    modifies l
    ensures l[Slot(i)] == i && forall s :: 0 <= s < 256 && s != Slot(i) ==> l[s] == old(l[s])
  {
    l[a as int] := i;
  }

  lemma LogsFilled(l: array<nat>)
    requires l.Length == 256 && forall j :: 0 <= j < 255 ==> l[Slot(j)] == j
    ensures forall a: Byte :: a != 0 ==> l[a as int] == Log(a)
  {
    hide Exp;
    forall a: Byte | a != 0 ensures l[a as int] == Log(a) {
      assert l[Slot(Log(a))] == Log(a);
    }
  }

  method RepeatExp(e: array<Byte>)
    requires e.Length == 512 && forall i :: 0 <= i < 255 ==> e[i] == Exp(i)
    modifies e
    ensures forall i :: 0 <= i < 512 ==> e[i] == Exp(i)
  {
    hide Exp;
    for i := 255 to 512
      invariant forall j :: 0 <= j < i ==> e[j] == Exp(j)
    {
      ExpPeriodic(i - 255, 1);
      e[i] := e[i - 255];
    }
  }

  lemma ExpNext(i: nat)
    ensures Exp(i + 1) == Xtime(Exp(i))
  {
  }

  method FillMul(e: array<Byte>, l: array<nat>, m: array2<Byte>)
    requires e.Length == 512 && l.Length == 256 && m.Length0 == 256 && m.Length1 == 256
    requires forall i :: 0 <= i < 512 ==> e[i] == Exp(i)
    requires forall a: Byte :: a != 0 ==> l[a as int] == Log(a)
    requires m as object != e && m as object != l
    requires forall i, j :: 0 <= i < 256 && 0 <= j < 256 ==> m[i, j] == 0
    modifies m
    ensures forall a: Byte, b: Byte :: m[a as int, b as int] == Mul(a, b)
  {
    hide Exp;
    for i := 1 to 256
      invariant forall p, q :: 0 <= p < 256 && 0 <= q < 256 ==>
        m[p, q] == if p == 0 || q == 0 || p >= i then 0 else Exp(l[p] + l[q])
    {
      var la := l[i];
      LogBound(l, i);
      for j := 1 to 256
        invariant forall p, q :: 0 <= p < 256 && 0 <= q < 256 ==>
          m[p, q] == if p == 0 || q == 0 || p > i || (p == i && q >= j) then 0 else Exp(l[p] + l[q])
      {
        LogBound(l, j);
        m[i, j] := e[la + l[j]];
      }
    }
  }

  lemma LogBound(l: array<nat>, i: nat)
    requires l.Length == 256 && 0 < i < 256
    requires forall a: Byte :: a != 0 ==> l[a as int] == Log(a)
    ensures l[i] < 255
  {
    ByteValue(i);
    assert l[(i as Byte) as int] == Log(i as Byte);
  }

  /** gfMulAddRow: adds a multiple of a row into another, in place. */
  method AddMultiple(t: Tables, dst: array<Byte>, src: seq<Byte>, coef: Byte)
    requires t.Valid() && t.Apart(dst) && |src| >= dst.Length
    modifies dst
    ensures dst[..] == MulAddRow(old(dst[..]), src[..dst.Length], coef)
  {
    hide Mul;
    for i := 0 to dst.Length
      invariant forall j :: 0 <= j < i ==> dst[j] == Add(old(dst[j]), Mul(coef, src[j]))
      invariant forall j :: i <= j < dst.Length ==> dst[j] == old(dst[j])
    {
      dst[i] := dst[i] ^ t.mul[coef as int, src[i] as int];
    }
  }

  method Scale(t: Tables, row: array<Byte>, pv: Byte)
    requires t.Valid() && t.Apart(row) && pv != 0
    modifies row
    ensures row[..] == DivRow(old(row[..]), pv)
  {
    hide Div;
    for x := 0 to row.Length
      invariant forall j :: 0 <= j < x ==> row[j] == Div(old(row[j]), pv)
      invariant forall j :: x <= j < row.Length ==> row[j] == old(row[j])
    {
      row[x] := t.Gdiv(row[x], pv);
    }
  }

  // ----- in-place inversion

  ghost function View(a: seq<array<Byte>>): (m: Matrix)
    reads a
    ensures |m| == |a| && forall i :: 0 <= i < |a| ==> m[i] == a[i][..]
  {
    seq(|a|, i requires 0 <= i < |a| reads a => a[i][..])
  }

  /** The rows of the working matrix: separate buffers of one width, none of them a table. */
  ghost predicate Buffers(t: Tables, a: seq<array<Byte>>, w: nat) {
    && (forall i :: 0 <= i < |a| ==> a[i].Length == w && t.Apart(a[i]))
    && (forall i, j :: 0 <= i < j < |a| ==> a[i] != a[j])
  }

  method AugmentedRows(t: Tables, m: Matrix) returns (a: seq<array<Byte>>)
    requires IsMatrix(m, |m|, |m|)
    ensures Buffers(t, a, 2 * |m|) && (forall i :: 0 <= i < |a| ==> fresh(a[i]))
    ensures View(a) == Augment(m)
  {
    var n := |m|;
    a := [];
    for i := 0 to n
      invariant |a| == i && Buffers(t, a, 2 * n)
      invariant forall j :: 0 <= j < i ==> fresh(a[j]) && a[j][..] == Augment(m)[j]
    {
      var row := new Byte[2 * n](x => if 0 <= x < n && n == |m[i]| then m[i][x] else 0);
      row[n + i] := 1;
      assert row[..] == m[i] + Unit(n, i);
      a := a + [row];
    }
  }

  method PivotSearch(a: seq<array<Byte>>, col: nat, w: nat) returns (p: nat)
    requires col < |a| <= w && forall i :: 0 <= i < |a| ==> a[i].Length == w
    ensures p == PivotFrom(View(a), col, col)
  {
    p := col;
    while p < |a| && a[p][col] == 0
      invariant col <= p <= |a|
      invariant PivotFrom(View(a), col, col) == PivotFrom(View(a), col, p)
    {
      p := p + 1;
    }
  }

  /** One round: scale the pivot row, then clear its column in every other row. */
  method ClearColumn(t: Tables, a: seq<array<Byte>>, col: nat, w: nat)
    requires t.Valid() && Buffers(t, a, w) && col < |a| <= w && a[col][col] != 0
    modifies a
    ensures t.Valid() && View(a) == Eliminate(old(View(a)), col, w)
  {
    hide Mul, Add, Div;
    ghost var before := View(a);
    var pv := a[col][col];
    Scale(t, a[col], pv);
    ghost var pivot := a[col][..];
    for r := 0 to |a|
      invariant t.Valid() && a[col][..] == pivot
      invariant forall i :: r <= i < |a| && i != col ==> a[i][..] == before[i]
      invariant forall i :: 0 <= i < r && i != col ==> a[i][..] == MulAddRow(before[i], pivot, before[i][col])
    {
      if r != col && a[r][col] != 0 {
        AddMultiple(t, a[r], a[col][..], a[r][col]);
      } else if r != col {
        MulAddZero(before[r], pivot);
      }
    }
  }

  lemma MulAddZero(row: Row, pivot: Row)
    requires |row| == |pivot|
    ensures MulAddRow(row, pivot, 0) == row
  {
    hide Add;
    forall i | 0 <= i < |row| ensures Add(row[i], Mul(0, pivot[i])) == row[i] { AddUnit(row[i]); }
  }

  method CopyRight(a: seq<array<Byte>>) returns (inv: Matrix)
    requires forall i :: 0 <= i < |a| ==> a[i].Length == 2 * |a|
    ensures inv == RightHalf(View(a))
  {
    inv := [];
    for i := 0 to |a|
      invariant |inv| == i && forall j :: 0 <= j < i ==> inv[j] == View(a)[j][|a|..]
    {
      inv := inv + [a[i][|a|..]];
    }
  }

  /** One column: finds a pivot, swaps it up and clears the column, or reports that there is none. */
  method Round(t: Tables, a: seq<array<Byte>>, col: nat, w: nat) returns (found: bool, b: seq<array<Byte>>)
    requires t.Valid() && Buffers(t, a, w) && col < |a| <= w
    modifies a
    ensures t.Valid() && |b| == |a| && Buffers(t, b, w) && forall i :: 0 <= i < |b| ==> b[i] in a
    ensures var p := PivotFrom(old(View(a)), col, col);
            && found == (p < |a|)
            && (found ==> View(b) == Eliminate(SwapRows(old(View(a)), col, p), col, w))
  {
    hide Eliminate, PivotFrom, SwapRows, View;
    b := a;
    var sw := PivotSearch(a, col, w);
    found := sw < |a|;
    if found {
      SwapBuffers(t, a, col, sw, w);
      b := a[col := a[sw]][sw := a[col]];
      ClearColumn(t, b, col, w);
    }
  }

  /** gfInvert: rounds until the left half is the identity. */
  method GfInvert(t: Tables, m: Matrix) returns (r: Inverse)
    requires t.Valid() && IsMatrix(m, |m|, |m|)
    ensures r == Invert(m)
  {
    hide Eliminate, PivotFrom, Augment, Mul, SwapRows, View, Dot;
    var n := |m|;
    var a := AugmentedRows(t, m);
    ghost var start := View(a);
    var col := 0;
    while col < n
      invariant col <= n && |a| == n && Buffers(t, a, 2 * n) && t.Valid()
      invariant forall i :: 0 <= i < n ==> fresh(a[i])
      invariant Reduce(start, 0, 2 * n) == Reduce(View(a), col, 2 * n)
    {
      var found, b := Round(t, a, col, 2 * n);
      if !found { return SingularMatrix; }
      a, col := b, col + 1;
    }
    var inv := CopyRight(a);
    r := Inverted(inv);
  }

  lemma SwapBuffers(t: Tables, a: seq<array<Byte>>, i: nat, j: nat, w: nat)
    requires Buffers(t, a, w) && i <= j < |a|
    ensures var b := a[i := a[j]][j := a[i]];
            && Buffers(t, b, w)
            && View(b) == SwapRows(View(a), i, j)
  {
  }

  // ----- encoding and reconstruction

  /** A linear combination after its first c terms. */
  ghost function Partial(coefs: Row, rows: Matrix, w: nat, c: nat): (r: Row)
    requires IsMatrix(rows, |rows|, w)
    ensures |r| == w
  {
    seq(w, b requires 0 <= b < w => Sum(c, (j: nat) => Mul(At(coefs, j), At(Column(rows, b), j))))
  }

  lemma PartialStep(coefs: Row, rows: Matrix, w: nat, c: nat)
    requires IsMatrix(rows, |rows|, w) && |coefs| == |rows| && c < |rows|
    ensures Partial(coefs, rows, w, c + 1) == MulAddRow(Partial(coefs, rows, w, c), rows[c], coefs[c])
  {
    hide Add, Mul;
  }

  lemma PartialEnds(coefs: Row, rows: Matrix, w: nat)
    requires IsMatrix(rows, |rows|, w) && |coefs| == |rows|
    ensures Partial(coefs, rows, w, |rows|) == Combine(coefs, rows, w)
    ensures Partial(coefs, rows, w, 0) == seq(w, _ => 0)
  {
    hide Add, Mul;
    forall b | 0 <= b < w ensures Combine(coefs, rows, w)[b] == Partial(coefs, rows, w, |rows|)[b] {
      SumExt(|rows|, (j: nat) => Mul(At(coefs, j), At(Column(rows, b), j)),
        (j: nat) => Mul(At(coefs, j), At(Column(rows, b), j)));
    }
  }

  /** Accumulates a combination into a fresh row, skipping zero coefficients. */
  method CombineRows(t: Tables, coefs: Row, rows: Matrix, w: nat) returns (out: Row)
    requires t.Valid() && IsMatrix(rows, |rows|, w) && |coefs| == |rows|
    ensures out == Combine(coefs, rows, w)
  {
    hide Partial, MulAddRow, Combine;
    var row := new Byte[w](_ => 0);
    PartialEnds(coefs, rows, w);
    assert row[..] == seq(w, _ => 0);
    for j := 0 to |rows|
      invariant t.Valid() && row[..] == Partial(coefs, rows, w, j)
    {
      PartialStep(coefs, rows, w, j);
      if coefs[j] == 0 {
        MulAddZero(row[..], rows[j]);
      } else {
        AddMultiple(t, row, rows[j], coefs[j]);
        assert rows[j][..w] == rows[j];
      }
    }
    out := row[..];
  }

  class Codec {
    const t: Tables
    const n: nat
    const k: nat
    const parity: seq<Row>

    ghost predicate Valid()
      reads t.exp, t.log, t.mul
    {
      && t.Valid() && Shape(n, k)
      && |parity| == k && forall i :: 0 <= i < k ==> parity[i] == ParityRow(n, k, i)
    }

    /** newFECCodec: one Cauchy row per parity shard. */
    constructor (t: Tables, n: nat, k: nat)
      requires t.Valid() && Shape(n, k)
      ensures Valid() && this.n == n && this.k == k && this.t == t
    {
      hide Add, Div, ByteOf, ByteVal;
      var p: seq<Row> := [];
      for i := 0 to k
        invariant |p| == i && forall a :: 0 <= a < i ==> p[a] == ParityRow(n, k, a)
      {
        var row: Row := [];
        for j := 0 to n
          invariant |row| == j && forall b :: 0 <= b < j ==> row[b] == ParityRow(n, k, i)[b]
        {
          PointsApart(n + i, j);
          var entry := t.Gdiv(1, Add(ByteOf(n + i), ByteOf(j)));
          row := row + [entry];
        }
        p := p + [row];
      }
      this.t, this.n, this.k, parity := t, n, k, p;
    }

    /** The parity rows of a block of equally long shards. */
    method Encode(data: Matrix, ghost w: nat) returns (out: Matrix)
      requires Valid() && IsMatrix(data, n, w)
      ensures out == EncodeBlock(n, k, data, w)
    {
      hide Dot, ParityRow;
      var sz := |data[0]|;
      out := [];
      for i := 0 to k
        invariant |out| == i && forall a :: 0 <= a < i ==> out[a] == CodeShard(n, k, data, w, n + a)
      {
        var row := CombineRows(t, parity[i], data, sz);
        out := out + [row];
      }
    }

    /** Reconstruct: the data of a block of which enough shards survive. */
    method Rebuild(shards: seq<Shard>, ghost w: nat) returns (r: Rebuilt)
      requires Valid() && Usable(n, k, shards, w)
      ensures r == Reconstruct(n, k, shards, w)
      ensures r.Rebuilt? && IsMatrix(r.data, n, w)
    {
      hide Dot, GenRow, Invert, Combine, CountHere, Singular, Picks;
      ReconstructNeverFails(n, k, shards, w);
      PicksFull(n, k, shards, w);
      var haveAll, sz := Survey(shards, w);
      if haveAll {
        var all := [];
        for i := 0 to n
          invariant |all| == i && forall a :: 0 <= a < i ==> all[a] == shards[a].bytes
        {
          all := all + [shards[i].bytes];
        }
        return Rebuilt(all);
      }
      var rows, vals := SelectRows(shards, w);
      var inv := GfInvert(t, rows);
      if inv.SingularMatrix? { return NoInverse; }
      InvertCorrect(rows);
      var data := Solve(shards, inv.inv, vals, sz);
      r := Rebuilt(data);
    }

    method Survey(shards: seq<Shard>, ghost w: nat) returns (haveAll: bool, sz: nat)
      requires Valid() && Usable(n, k, shards, w)
      ensures haveAll == AllData(n, shards) && sz == w
    {
      hide CountHere;
      haveAll, sz := true, 0;
      for i := 0 to n + k
        invariant haveAll == forall a :: 0 <= a < i && a < n ==> shards[a].Here?
        invariant Picks(shards, n, i) == [] || sz == w
      {
        if shards[i].Here? { sz := |shards[i].bytes|; }
        if i < n && shards[i].Missing? { haveAll := false; }
      }
      PicksFull(n, k, shards, w);
    }

    method Solve(shards: seq<Shard>, inv: Matrix, vals: Matrix, sz: nat) returns (data: Matrix)
      requires Valid() && |shards| == n + k && IsMatrix(inv, n, n) && IsMatrix(vals, n, sz)
      ensures |data| == n
      ensures forall r :: 0 <= r < n ==>
        data[r] == if shards[r].Here? then shards[r].bytes else Combine(inv[r], vals, sz)
    {
      hide Combine;
      data := [];
      for i := 0 to n
        invariant |data| == i
        invariant forall r :: 0 <= r < i ==>
          data[r] == if shards[r].Here? then shards[r].bytes else Combine(inv[r], vals, sz)
      {
        if shards[i].Here? {
          data := data + [shards[i].bytes];
        } else {
          var row := CombineRows(t, inv[i], vals, sz);
          data := data + [row];
        }
      }
    }

    method SelectRows(shards: seq<Shard>, ghost w: nat) returns (rows: Matrix, vals: Matrix)
      requires Valid() && Usable(n, k, shards, w)
      ensures var picks := Picks(shards, n, n + k);
              && rows == Rows(n, k, picks) && vals == Values(shards, picks)
              && IsMatrix(vals, n, w) && IsMatrix(rows, n, n)
    {
      hide ParityRow, CountHere;
      PicksFull(n, k, shards, w);
      rows, vals := [], [];
      for i := 0 to n + k
        invariant rows == Rows(n, k, Picks(shards, n, i)) && vals == Values(shards, Picks(shards, n, i))
      {
        if |rows| < n && shards[i].Here? {
          var row := if i < n then Unit(n, i) else parity[i - n];
          rows, vals := rows + [row], vals + [shards[i].bytes];
        }
      }
    }
  }
}
