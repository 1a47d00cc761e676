/**
 The systematic Cauchy code of internal/packet/fec.go on values: the identity
 over the parity rows 1 / (x_i xor y_j), encoding, and reconstruction from the
 first n shards present.
 */
module Generator {
  import opened Counting
  import opened Gf256
  import opened GfSum
  import opened GaussJordan
  import opened Cauchy

  datatype Shard = Missing | Here(bytes: Row)
  datatype Rebuilt = Rebuilt(data: Matrix) | NoInverse

  /** What config.go guarantees of the shape of a code. */
  ghost predicate Shape(n: nat, k: nat) {
    n >= 1 && n + k <= 255
  }

  lemma PointsApart(i: nat, j: nat)
    requires i < 256 && j < 256 && i != j
    ensures Add(ByteOf(i), ByteOf(j)) != 0
  {
    hide Add, ByteOf, ByteVal;
    AddCancel(ByteOf(i), ByteOf(j));
  }

  ghost function ParityRow(n: nat, k: nat, i: nat): (row: Row)
    requires Shape(n, k) && i < k
    ensures |row| == n
  {
    seq(n, j requires 0 <= j < n =>
      PointsApart(n + i, j);
      Div(1, Add(ByteOf(n + i), ByteOf(j))))
  }

  /** Row i of the generator: the identity for the data, the Cauchy rows for the parity. */
  ghost function GenRow(n: nat, k: nat, i: nat): (row: Row)
    requires Shape(n, k) && i < n + k
    ensures |row| == n
  {
    if i < n then Unit(n, i) else ParityRow(n, k, i - n)
  }

  /** The linear combination of equally long rows, byte by byte. */
  ghost function Combine(coefs: Row, rows: Matrix, w: nat): (r: Row)
    requires IsMatrix(rows, |rows|, w)
    ensures |r| == w
  {
    seq(w, b requires 0 <= b < w => Dot(coefs, Column(rows, b)))
  }

  /** Shard i of the codeword of a block of n data rows. */
  ghost function CodeShard(n: nat, k: nat, data: Matrix, w: nat, i: nat): (s: Row)
    requires Shape(n, k) && IsMatrix(data, n, w) && i < n + k
    ensures |s| == w
  {
    Combine(GenRow(n, k, i), data, w)
  }

  ghost function EncodeBlock(n: nat, k: nat, data: Matrix, w: nat): (out: Matrix)
    requires Shape(n, k) && IsMatrix(data, n, w)
    ensures |out| == k && forall i :: 0 <= i < k ==> out[i] == CodeShard(n, k, data, w, n + i)
  {
    seq(k, i requires 0 <= i < k => CodeShard(n, k, data, w, n + i))
  }

  /** The code is systematic: the first n shards are the data. */
  lemma Systematic(n: nat, k: nat, data: Matrix, w: nat, i: nat)
    requires Shape(n, k) && IsMatrix(data, n, w) && i < n
    ensures CodeShard(n, k, data, w, i) == data[i]
  {
    hide Dot;
    forall b | 0 <= b < w ensures Dot(Unit(n, i), Column(data, b)) == data[i][b] {
      DotUnit(n, i, Column(data, b));
    }
  }

  // ----- any n rows of the generator are independent

  ghost predicate Ascending(picks: seq<nat>, bound: nat) {
    && (forall a :: 0 <= a < |picks| ==> picks[a] < bound)
    && (forall a, b :: 0 <= a < b < |picks| ==> picks[a] < picks[b])
  }

  ghost function Rows(n: nat, k: nat, picks: seq<nat>): (m: Matrix)
    requires Shape(n, k) && forall a :: 0 <= a < |picks| ==> picks[a] < n + k
    ensures IsMatrix(m, |picks|, n)
  {
    seq(|picks|, c requires 0 <= c < |picks| => GenRow(n, k, picks[c]))
  }

  function DataPicks(picks: seq<nat>, n: nat): (t: nat)
    ensures t <= |picks|
    ensures forall c :: 0 <= c < t ==> picks[c] < n
    ensures t < |picks| ==> picks[t] >= n
  {
    if picks == [] || picks[0] >= n then 0
    else
      var t := DataPicks(picks[1..], n);
      assert forall c :: 0 < c < 1 + t ==> picks[c] == picks[1..][c - 1];
      1 + t
  }

  ghost function Points(n: nat): (ys: Row)
    requires n <= 256
    ensures |ys| == n && Distinct(ys)
  {
    var ys := seq(n, j requires 0 <= j < n => ByteOf(j));
    assert forall i, j :: 0 <= i < j < n ==> ByteVal(ys[i]) != ByteVal(ys[j]);
    ys
  }

  lemma ParityDot(n: nat, k: nat, i: nat, v: Row)
    requires Shape(n, k) && i < k && |v| == n
    ensures Apart(ByteOf(n + i), Points(n))
    ensures CauchySum(ByteOf(n + i), Points(n), v) == Dot(ParityRow(n, k, i), v)
  {
    hide Add, Mul, Div, ByteOf, ByteVal;
    var x, ys := ByteOf(n + i), Points(n);
    forall j | 0 <= j < n ensures Add(x, ys[j]) != 0 { PointsApart(n + i, j); }
    forall j: nat | j < n
      ensures Mul(v[j], Recip(Add(x, ys[j]))) == Mul(At(ParityRow(n, k, i), j), At(v, j))
    {
      MulComm(v[j], Recip(Add(x, ys[j])));
    }
    SumExt(n, (j: nat) => if j < |v| then Mul(v[j], Recip(Add(x, ys[j]))) else 0,
      (j: nat) => Mul(At(ParityRow(n, k, i), j), At(v, j)));
  }

  lemma SupportAvoids(v: Row, picks: seq<nat>)
    requires Ascending(picks, |v|) && forall c :: 0 <= c < |picks| ==> v[picks[c]] == 0
    ensures |Support(v)| + |picks| <= |v|
  {
    var used := set p: int | p in picks;
    DistinctSize<int>(picks);
    assert Support(v) !! used;
    assert |Support(v) + used| == |Support(v)| + |used|;
    SubsetSize(Support(v) + used, Range(0, |v|));
  }

  /** Every square selection of rows from the identity over the Cauchy rows is nonsingular. */
  lemma AnyRowsIndependent(n: nat, k: nat, picks: seq<nat>)
    requires Shape(n, k) && |picks| == n && Ascending(picks, n + k)
    ensures !Singular(Rows(n, k, picks))
  {
    hide Kills, Support, Rows;
    forall v: Row | |v| == n && Kills(Rows(n, k, picks), v) ensures forall i :: 0 <= i < n ==> v[i] == 0 {
      OnlyZeroKilled(n, k, picks, v);
      SupportEmpty(v);
    }
    RowsSize(n, k, picks);
  }

  lemma RowsSize(n: nat, k: nat, picks: seq<nat>)
    requires Shape(n, k) && Ascending(picks, n + k)
    ensures |Rows(n, k, picks)| == |picks|
  {
  }

  lemma SupportEmpty(v: Row)
    requires Support(v) == {}
    ensures forall i :: 0 <= i < |v| ==> v[i] == 0
  {
    assert forall i :: 0 <= i < |v| && v[i] != 0 ==> i in Support(v);
  }

  lemma OnlyZeroKilled(n: nat, k: nat, picks: seq<nat>, v: Row)
    requires Shape(n, k) && |picks| == n && Ascending(picks, n + k) && |v| == n && Kills(Rows(n, k, picks), v)
    ensures Support(v) == {}
  {
    hide Dot, CauchySum, Apart, ByteOf, ByteVal;
    var rows := Rows(n, k, picks);
    var t := DataPicks(picks, n);
    forall c | 0 <= c < t ensures v[picks[c]] == 0 {
      assert Dot(rows[c], v) == 0;
      DotUnit(n, picks[c], v);
    }
    SupportAvoids(v, picks[..t]);
    var xs := seq(n - t, c requires 0 <= c < n - t => ByteOf(picks[t + c]));
    forall i, j | 0 <= i < j < |xs| ensures xs[i] != xs[j] {
      ByteOfInjective(picks[t + i], picks[t + j]);
    }
    forall i | 0 <= i < |xs| ensures Apart(xs[i], Points(n)) && CauchySum(xs[i], Points(n), v) == 0 {
      assert picks[t + i] >= n;
      assert Dot(rows[t + i], v) == 0;
      ParityDot(n, k, picks[t + i] - n, v);
    }
    CauchyInjective(xs, Points(n), v);
  }

  // ----- reconstruction

  /** The indices of the first n shards present among the first i. */
  function Picks(shards: seq<Shard>, n: nat, i: nat): (p: seq<nat>)
    requires i <= |shards|
    ensures |p| <= n
    ensures forall a :: 0 <= a < |p| ==> p[a] < i && shards[p[a]].Here?
    ensures forall a, b :: 0 <= a < b < |p| ==> p[a] < p[b]
  {
    if i == 0 then []
    else
      var p := Picks(shards, n, i - 1);
      if |p| < n && shards[i - 1].Here? then p + [i - 1] else p
  }

  function CountHere(shards: seq<Shard>): (c: nat)
    ensures c <= |shards|
  {
    if shards == [] then 0
    else CountHere(shards[..|shards| - 1]) + (if shards[|shards| - 1].Here? then 1 else 0)
  }

  lemma {:induction false} PicksEnough(shards: seq<Shard>, n: nat, i: nat)
    requires i <= |shards|
    ensures |Picks(shards, n, i)| == if CountHere(shards[..i]) < n then CountHere(shards[..i]) else n
  {
    if i > 0 {
      PicksEnough(shards, n, i - 1);
      assert shards[..i][..i - 1] == shards[..i - 1];
    }
  }

  /** The shards Reconstruct is called with: equally long, and at least n of them present. */
  ghost predicate Usable(n: nat, k: nat, shards: seq<Shard>, w: nat) {
    && Shape(n, k) && |shards| == n + k
    && (forall i :: 0 <= i < n + k && shards[i].Here? ==> |shards[i].bytes| == w)
    && CountHere(shards) >= n
  }

  ghost predicate AllData(n: nat, shards: seq<Shard>)
    requires n <= |shards|
  {
    forall i :: 0 <= i < n ==> shards[i].Here?
  }

  ghost function Values(shards: seq<Shard>, picks: seq<nat>): (vals: Matrix)
    requires forall a :: 0 <= a < |picks| ==> picks[a] < |shards| && shards[picks[a]].Here?
    ensures |vals| == |picks| && forall a :: 0 <= a < |picks| ==> vals[a] == shards[picks[a]].bytes
  {
    seq(|picks|, c requires 0 <= c < |picks| => shards[picks[c]].bytes)
  }

  lemma PicksFull(n: nat, k: nat, shards: seq<Shard>, w: nat)
    requires Usable(n, k, shards, w)
    ensures |Picks(shards, n, n + k)| == n
  {
    PicksEnough(shards, n, n + k);
    assert shards[..n + k] == shards;
  }

  ghost function Reconstruct(n: nat, k: nat, shards: seq<Shard>, w: nat): (r: Rebuilt)
    requires Usable(n, k, shards, w)
  {
    hide Dot, Invert, Singular, Kills, GenRow;
    if AllData(n, shards) then
      Rebuilt(seq(n, i requires 0 <= i < n => shards[i].bytes))
    else
      var picks := Picks(shards, n, n + k);
      PicksFull(n, k, shards, w);
      match Invert(Rows(n, k, picks))
      case SingularMatrix => NoInverse
      case Inverted(inv) =>
        InvertCorrect(Rows(n, k, picks));
        Rebuilt(seq(n, r requires 0 <= r < n =>
          if shards[r].Here? then shards[r].bytes else Combine(inv[r], Values(shards, picks), w)))
  }

  /** Whatever the shards hold, the selected rows are invertible, so decoding never fails. */
  lemma ReconstructNeverFails(n: nat, k: nat, shards: seq<Shard>, w: nat)
    requires Usable(n, k, shards, w)
    ensures var r := Reconstruct(n, k, shards, w); r.Rebuilt? && IsMatrix(r.data, n, w)
  {
    hide Dot, Invert, Singular, Kills, GenRow, Combine;
    PicksFull(n, k, shards, w);
    var picks := Picks(shards, n, n + k);
    AnyRowsIndependent(n, k, picks);
    InvertCorrect(Rows(n, k, picks));
  }

  ghost predicate Agrees(n: nat, k: nat, data: Matrix, w: nat, shards: seq<Shard>)
    requires Shape(n, k) && IsMatrix(data, n, w) && |shards| == n + k
  {
    forall i :: 0 <= i < n + k && shards[i].Here? ==> shards[i].bytes == CodeShard(n, k, data, w, i)
  }

  /** Column b of the selected shards is the image of column b of the data. */
  lemma ColumnsRecovered(n: nat, k: nat, data: Matrix, w: nat, picks: seq<nat>, vals: Matrix, inv: Matrix, r: nat)
    requires Shape(n, k) && IsMatrix(data, n, w) && |picks| == n && r < n
    requires forall c :: 0 <= c < n ==> picks[c] < n + k
    requires IsMatrix(vals, n, w) && forall c :: 0 <= c < n ==> vals[c] == CodeShard(n, k, data, w, picks[c])
    requires IsLeftInverse(inv, Rows(n, k, picks))
    ensures Combine(inv[r], vals, w) == data[r]
  {
    hide Dot, MatVec, GenRow;
    var rows := Rows(n, k, picks);
    forall b | 0 <= b < w ensures Dot(inv[r], Column(vals, b)) == data[r][b] {
      var column := Column(data, b);
      forall c | 0 <= c < n ensures Column(vals, b)[c] == Dot(rows[c], column) {
        assert vals[c][b] == Dot(GenRow(n, k, picks[c]), column);
      }
      assert Column(vals, b) == MatVec(rows, column);
      LeftInverseRecovers(inv, rows, column);
      assert MatVec(inv, MatVec(rows, column))[r] == column[r];
    }
  }

  /** Any n or more surviving shards of a codeword give the original data back. */
  lemma ReconstructRecovers(n: nat, k: nat, data: Matrix, w: nat, shards: seq<Shard>)
    requires Usable(n, k, shards, w) && IsMatrix(data, n, w) && Agrees(n, k, data, w, shards)
    ensures Reconstruct(n, k, shards, w) == Rebuilt(data)
  {
    hide CodeShard, Combine, Invert, IsLeftInverse, Singular, Rows, CountHere;
    PicksFull(n, k, shards, w);
    ReconstructNeverFails(n, k, shards, w);
    var picks := Picks(shards, n, n + k);
    InvertCorrect(Rows(n, k, picks));
    forall r | 0 <= r < n ensures Reconstruct(n, k, shards, w).data[r] == data[r] {
      if shards[r].Here? {
        Systematic(n, k, data, w, r);
      } else {
        ColumnsRecovered(n, k, data, w, picks, Values(shards, picks), Invert(Rows(n, k, picks)).inv, r);
      }
    }
  }

  /** Entry j of parity row i is the inverse of (n + i) xor j. */
  lemma ParityEntry(n: nat, k: nat, i: nat, j: nat)
    requires Shape(n, k) && i < k && j < n
    ensures Mul(ParityRow(n, k, i)[j], Add(ByteOf(n + i), ByteOf(j))) == 1
  {
    hide Mul, Div, Add, ByteOf, ByteVal;
    PointsApart(n + i, j);
    MulDiv(1, Add(ByteOf(n + i), ByteOf(j)));
  }
}
