/** Finite sums over GF(256), written over an index function. */
module GfSum {
  import opened Gf256

  ghost function Sum(n: nat, f: nat -> Byte): (r: Byte) {
    if n == 0 then 0 else Add(Sum(n - 1, f), f(n - 1))
  }

  lemma {:induction false} SumExt(n: nat, f: nat -> Byte, g: nat -> Byte)
    requires forall i: nat :: i < n ==> f(i) == g(i)
    ensures Sum(n, f) == Sum(n, g)
  {
    hide Add;
    if n > 0 { SumExt(n - 1, f, g); }
  }

  lemma {:induction false} SumAdd(n: nat, f: nat -> Byte, g: nat -> Byte, h: nat -> Byte)
    requires forall i: nat :: i < n ==> h(i) == Add(f(i), g(i))
    ensures Sum(n, h) == Add(Sum(n, f), Sum(n, g))
  {
    AddUnit(0);
    hide Add;
    if n > 0 {
      SumAdd(n - 1, f, g, h);
      AddSwap(Sum(n - 1, f), Sum(n - 1, g), f(n - 1), g(n - 1));
    }
  }

  lemma {:induction false} SumScale(n: nat, c: Byte, f: nat -> Byte, h: nat -> Byte)
    requires forall i: nat :: i < n ==> h(i) == Mul(c, f(i))
    ensures Sum(n, h) == Mul(c, Sum(n, f))
  {
    hide Add, Exp;
    if n > 0 {
      SumScale(n - 1, c, f, h);
      MulDistr(c, Sum(n - 1, f), f(n - 1));
    }
  }

  /** A sum whose terms vanish except at one index. */
  lemma {:induction false} SumSingle(n: nat, k: nat, f: nat -> Byte)
    requires forall i: nat :: i < n && i != k ==> f(i) == 0
    ensures Sum(n, f) == if k < n then f(k) else 0
  {
    if n > 0 {
      SumSingle(n - 1, k, f);
      AddUnit(Sum(n - 1, f));
      AddUnit(f(n - 1));
    }
    hide Add;
  }

  /** Summing a table by rows or by columns gives the same result. */
  lemma {:induction false} SumSwap(n: nat, m: nat, f: (nat, nat) -> Byte, rows: nat -> Byte, cols: nat -> Byte)
    requires forall i: nat :: i < n ==> rows(i) == Sum(m, (j: nat) => f(i, j))
    requires forall j: nat :: j < m ==> cols(j) == Sum(n, (i: nat) => f(i, j))
    ensures Sum(n, rows) == Sum(m, cols)
  {
    hide Add;
    if n == 0 {
      SumSingle(m, m, cols);
    } else {
      var above := (j: nat) => Sum(n - 1, (i: nat) => f(i, j));
      var last := (j: nat) => f(n - 1, j);
      SumSwap(n - 1, m, f, rows, above);
      SumAdd(m, above, last, cols);
    }
  }
}
