/**
 Nonsingularity of Cauchy matrices over GF(256): a vector with at most as many
 nonzero entries as there are vanishing Cauchy sums is zero. One point is
 eliminated at a time, which is what makes any n rows of the systematic
 generator of internal/packet/fec.go independent.
 */
module Cauchy {
  import opened Counting
  import opened Gf256
  import opened GfSum
  import opened GaussJordan

  ghost function Recip(a: Byte): (r: Byte)
    requires a != 0
    ensures r != 0 && Mul(r, a) == 1 && Mul(a, r) == 1
  {
    MulDiv(1, a);
    MulNonzero(0, a);
    Div(1, a)
  }

  ghost predicate Apart(x: Byte, ys: Row) {
    forall j :: 0 <= j < |ys| ==> Add(x, ys[j]) != 0
  }

  /** The sum over j of v_j / (x + y_j). */
  ghost function CauchySum(x: Byte, ys: Row, v: Row): (r: Byte)
    requires |ys| == |v| && Apart(x, ys)
  {
    Sum(|v|, (j: nat) => if j < |v| then Mul(v[j], Recip(Add(x, ys[j]))) else 0)
  }

  ghost function Support(v: Row): (s: set<int>) {
    set j | 0 <= j < |v| && v[j] != 0
  }

  /** v with the point y_p eliminated against the equation of x. */
  ghost function Contract(x: Byte, ys: Row, v: Row, p: nat): (w: Row)
    requires |ys| == |v| && Apart(x, ys) && p < |ys|
    ensures |w| == |v|
  {
    seq(|v|, j requires 0 <= j < |v| => Mul(v[j], Mul(Add(ys[j], ys[p]), Recip(Add(x, ys[j])))))
  }

  /** (x+z)(y+q) / ((z+y)(x+y)) == (x+q)/(x+y) + (z+q)/(z+y), in characteristic two. */
  lemma PartialFractions(x: Byte, z: Byte, y: Byte, q: Byte)
    requires Add(x, y) != 0 && Add(z, y) != 0
    ensures var p, r := Recip(Add(x, y)), Recip(Add(z, y));
            Mul(Add(x, z), Mul(Mul(Add(y, q), r), p)) == Add(Mul(Add(x, q), p), Mul(Add(z, q), r))
  {
    hide Add, Mul, Recip;
    var p, r := Recip(Add(x, y)), Recip(Add(z, y));
    var yq := Add(y, q);
    OnePlus(x, y, q);
    OnePlus(z, y, q);
    AddSwap(1, Mul(yq, p), 1, Mul(yq, r));
    AddUnit(1);
    AddUnit(Add(Mul(yq, p), Mul(yq, r)));
    MulDistr(yq, p, r);
    assert Add(Mul(Add(x, q), p), Mul(Add(z, q), r)) == Mul(yq, Add(p, r));
    AddRecips(x, z, y);
    calc {
      Mul(Add(x, z), Mul(Mul(yq, r), p));
      { MulAssoc(yq, r, p); MulComm(Add(x, z), Mul(yq, Mul(r, p))); }
      Mul(Mul(yq, Mul(r, p)), Add(x, z));
      { MulAssoc(yq, Mul(r, p), Add(x, z)); }
      Mul(yq, Mul(Mul(r, p), Add(x, z)));
      Mul(yq, Add(p, r));
    }
  }

  lemma OnePlus(x: Byte, y: Byte, q: Byte)
    requires Add(x, y) != 0
    ensures Mul(Add(x, q), Recip(Add(x, y))) == Add(1, Mul(Add(y, q), Recip(Add(x, y))))
  {
    hide Add, Mul, Recip;
    AddSwap(x, y, y, q);
    AddAssoc(Add(x, y), y, q);
    AddCancel(x, y);
    assert Add(x, q) == Add(Add(x, y), Add(y, q));
    MulDistr(Recip(Add(x, y)), Add(x, y), Add(y, q));
  }

  lemma AddRecips(x: Byte, z: Byte, y: Byte)
    requires Add(x, y) != 0 && Add(z, y) != 0
    ensures var p, r := Recip(Add(x, y)), Recip(Add(z, y));
            Mul(Mul(r, p), Add(x, z)) == Add(p, r)
  {
    hide Add, Mul, Recip;
    var p, r := Recip(Add(x, y)), Recip(Add(z, y));
    AddSwap(x, y, z, y);
    AddUnit(y);
    AddUnit(Add(x, z));
    MulDistr(Mul(r, p), Add(x, y), Add(z, y));
    MulAssoc(r, p, Add(x, y));
    MulOne(r);
    MulComm(r, p);
    MulAssoc(p, r, Add(z, y));
    MulOne(p);
    AddComm(p, r);
  }

  lemma ContractSum(x: Byte, z: Byte, ys: Row, v: Row, p: nat)
    requires |ys| == |v| && Apart(x, ys) && Apart(z, ys) && p < |ys|
    ensures Mul(Add(x, z), CauchySum(x, ys, Contract(z, ys, v, p)))
         == Add(Mul(Add(x, ys[p]), CauchySum(x, ys, v)), Mul(Add(z, ys[p]), CauchySum(z, ys, v)))
  {
    hide Add, Mul, Recip;
    var n := |v|;
    var w := Contract(z, ys, v, p);
    var a, b := Add(x, ys[p]), Add(z, ys[p]);
    var fx := (j: nat) => if j < |v| then Mul(v[j], Recip(Add(x, ys[j]))) else 0;
    var fz := (j: nat) => if j < |v| then Mul(v[j], Recip(Add(z, ys[j]))) else 0;
    var fw := (j: nat) => if j < |w| then Mul(w[j], Recip(Add(x, ys[j]))) else 0;
    var lhs := (j: nat) => Mul(Add(x, z), fw(j));
    var ax := (j: nat) => Mul(a, fx(j));
    var bz := (j: nat) => Mul(b, fz(j));
    SumScale(n, Add(x, z), fw, lhs);
    SumScale(n, a, fx, ax);
    SumScale(n, b, fz, bz);
    forall j: nat | j < n ensures lhs(j) == Add(ax(j), bz(j)) {
      var px, rz := Recip(Add(x, ys[j])), Recip(Add(z, ys[j]));
      PartialFractions(x, z, ys[j], ys[p]);
      var k := Mul(Add(ys[j], ys[p]), rz);
      MulAssoc(v[j], k, px);
      Commute3(Add(x, z), v[j], Mul(k, px));
      MulDistr(v[j], Mul(a, px), Mul(b, rz));
      Commute3(a, v[j], px);
      Commute3(b, v[j], rz);
    }
    SumAdd(n, ax, bz, lhs);
  }

  lemma Commute3(a: Byte, b: Byte, c: Byte)
    ensures Mul(a, Mul(b, c)) == Mul(b, Mul(a, c))
  {
    hide Mul;
    MulAssoc(a, b, c);
    MulAssoc(b, a, c);
    MulComm(a, b);
  }

  lemma ContractSupport(x: Byte, ys: Row, v: Row, p: nat)
    requires |ys| == |v| && Apart(x, ys) && p < |ys| && Distinct(ys)
    ensures Support(Contract(x, ys, v, p)) == Support(v) - {p}
  {
    var w := Contract(x, ys, v, p);
    hide Add, Mul, Recip;
    forall j | 0 <= j < |v| ensures w[j] == 0 <==> v[j] == 0 || j == p {
      var k := Mul(Add(ys[j], ys[p]), Recip(Add(x, ys[j])));
      MulNonzero(v[j], k);
      MulNonzero(Add(ys[j], ys[p]), Recip(Add(x, ys[j])));
      AddCancel(ys[j], ys[p]);
    }
  }

  /** As many vanishing Cauchy sums as nonzero entries force every entry to vanish. */
  lemma {:induction false} CauchyInjective(xs: Row, ys: Row, v: Row)
    requires |ys| == |v| && Distinct(xs) && Distinct(ys)
    requires forall i :: 0 <= i < |xs| ==> Apart(xs[i], ys)
    requires forall i :: 0 <= i < |xs| ==> CauchySum(xs[i], ys, v) == 0
    requires |Support(v)| <= |xs|
    ensures Support(v) == {}
  {
    hide Add, Mul, Recip, CauchySum, Contract;
    if p :| p in Support(v) {
      var x, rest := xs[0], xs[1..];
      var w := Contract(x, ys, v, p);
      ContractSupport(x, ys, v, p);
      forall i | 0 <= i < |rest| ensures CauchySum(rest[i], ys, w) == 0 {
        var z := rest[i];
        assert z == xs[i + 1];
        ContractSum(z, x, ys, v, p);
        MulNonzero(Add(z, ys[p]), 0);
        MulNonzero(Add(x, ys[p]), 0);
        AddUnit(0);
        AddCancel(z, x);
        MulNonzero(Add(z, x), CauchySum(z, ys, w));
      }
      CauchyInjective(rest, ys, w);
      assert Support(v) == {p};
      SinglePoint(x, ys, v, p);
    }
  }

  lemma SinglePoint(x: Byte, ys: Row, v: Row, p: nat)
    requires |ys| == |v| && Apart(x, ys) && Support(v) == {p as int}
    ensures CauchySum(x, ys, v) != 0
  {
    assert p in Support(v);
    hide Add, Mul, Recip;
    var f := (j: nat) => if j < |v| then Mul(v[j], Recip(Add(x, ys[j]))) else 0;
    forall j: nat | j < |v| ensures f(j) == 0 <==> j != p {
      assert j in Support(v) <==> v[j] != 0;
      MulNonzero(v[j], Recip(Add(x, ys[j])));
    }
    SumSingle(|v|, p, f);
  }
}
