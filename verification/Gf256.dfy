/**
 The field GF(256) of internal/packet/fec.go: polynomials over GF(2) modulo
 x^8+x^4+x^3+x^2+1 (0x11d), a byte holding the coefficients. The program
 multiplies through exponent and logarithm tables; the field laws are derived
 from the linear "times x" step.
 */
module Gf256 {
  import opened Counting

  type Byte = bv8

  function ByteVal(b: Byte): (v: nat)
    ensures v < 256
  {
    b as int
  }

  // ----- addition

  function Add(a: Byte, b: Byte): (r: Byte) {
    a ^ b
  }

  lemma AddComm(a: Byte, b: Byte)
    ensures Add(a, b) == Add(b, a)
  {
  }

  lemma AddAssoc(a: Byte, b: Byte, c: Byte)
    ensures Add(Add(a, b), c) == Add(a, Add(b, c))
  {
  }

  lemma AddUnit(a: Byte)
    ensures Add(a, 0) == a && Add(0, a) == a && Add(a, a) == 0
  {
  }

  lemma AddCancel(a: Byte, b: Byte)
    ensures Add(Add(a, b), b) == a && Add(b, Add(b, a)) == a
    ensures Add(a, b) == 0 <==> a == b
  {
    hide Add;
    AddAssoc(a, b, b);
    AddAssoc(b, b, a);
    AddUnit(a);
    AddUnit(b);
  }

  lemma AddSwap(a: Byte, b: Byte, c: Byte, d: Byte)
    ensures Add(Add(a, b), Add(c, d)) == Add(Add(a, c), Add(b, d))
  {
    hide Add;
    AddAssoc(Add(a, b), c, d);
    AddAssoc(a, b, c);
    AddComm(b, c);
    AddAssoc(a, c, b);
    AddAssoc(Add(a, c), b, d);
  }

  // ----- the "times x" step and its powers

  /** One multiplication by x, reduced modulo 0x11d. */
  function Xtime(a: Byte): (r: Byte) {
    var top := a >> 7;
    (a << 1) ^ top ^ (top << 2) ^ (top << 3) ^ (top << 4)
  }

  /** A shift, and a subtraction of the polynomial 0x11d when it carries. */
  lemma XtimeIs(a: Byte)
    ensures (a as bv16) << 1 == if a < 0x80 then Xtime(a) as bv16 else (Xtime(a) as bv16) ^ 0x11d
  {
  }

  function XtimeN(i: nat, a: Byte): (r: Byte) {
    if i == 0 then a else Xtime(XtimeN(i - 1, a))
  }

  /** x^i, which is what gfExp[i] holds. */
  function Exp(i: nat): (r: Byte) {
    XtimeN(i, 1)
  }

  lemma XtimeLinear(a: Byte, b: Byte)
    ensures Xtime(Add(a, b)) == Add(Xtime(a), Xtime(b))
  {
  }

  lemma {:induction false} XtimeNLinear(i: nat, a: Byte, b: Byte)
    ensures XtimeN(i, Add(a, b)) == Add(XtimeN(i, a), XtimeN(i, b))
  {
    hide Xtime, Add;
    if i > 0 { XtimeNLinear(i - 1, a, b); XtimeLinear(XtimeN(i - 1, a), XtimeN(i - 1, b)); }
  }

  lemma {:induction false} XtimeNAdd(i: nat, j: nat, a: Byte)
    ensures XtimeN(i + j, a) == XtimeN(i, XtimeN(j, a))
  {
    if i > 0 { XtimeNAdd(i - 1, j, a); }
  }

  lemma XtimeInjective(a: Byte, b: Byte)
    requires Xtime(a) == Xtime(b)
    ensures a == b
  {
  }

  lemma {:induction false} XtimeNInjective(i: nat, a: Byte, b: Byte)
    requires XtimeN(i, a) == XtimeN(i, b)
    ensures a == b
  {
    if i > 0 { XtimeInjective(XtimeN(i - 1, a), XtimeN(i - 1, b)); XtimeNInjective(i - 1, a, b); }
  }

  lemma {:induction false} XtimeNZero(i: nat)
    ensures XtimeN(i, 0) == 0
  {
    if i > 0 { XtimeNZero(i - 1); }
  }

  lemma ExpNonzero(i: nat)
    ensures Exp(i) != 0
  {
    XtimeNZero(i);
    if Exp(i) == 0 { XtimeNInjective(i, 0, 1); }
  }

  // ----- x has order 255

  function Xtime4(a: Byte): (r: Byte) { Xtime(Xtime(Xtime(Xtime(a)))) }

  predicate Misses1(a: Byte) {
    a != 1 && Xtime(a) != 1 && Xtime(Xtime(a)) != 1 && Xtime(Xtime(Xtime(a))) != 1
  }

  predicate Misses1For16(a: Byte) {
    Misses1(a) && Misses1(Xtime4(a)) && Misses1(Xtime4(Xtime4(a))) && Misses1(Xtime4(Xtime4(Xtime4(a))))
  }

  lemma FourSteps(i: nat)
    ensures Exp(i + 4) == Xtime4(Exp(i))
    ensures Misses1(Exp(i)) ==> forall d :: i <= d < i + 4 ==> Exp(d) != 1
  {
    assert Exp(i + 1) == Xtime(Exp(i));
    assert Exp(i + 2) == Xtime(Exp(i + 1));
    assert Exp(i + 3) == Xtime(Exp(i + 2));
  }

  lemma SixteenSteps(i: nat, a: Byte, next: Byte)
    requires Exp(i) == a && Misses1For16(a) && Xtime4(Xtime4(Xtime4(Xtime4(a)))) == next
    ensures Exp(i + 16) == next
    ensures forall d :: i <= d < i + 16 ==> Exp(d) != 1
  {
    hide Xtime, Xtime4, Misses1, XtimeN;
    FourSteps(i);
    FourSteps(i + 4);
    FourSteps(i + 8);
    FourSteps(i + 12);
  }

  lemma OrderQuarter1()
    ensures Exp(65) == 0xbe && forall d :: 0 < d < 65 ==> Exp(d) != 1
  {
    assert Exp(1) == Xtime(Exp(0));
    hide XtimeN;
    SixteenSteps(1, 0x02, 0x98);
    SixteenSteps(17, 0x98, 0x27);
    SixteenSteps(33, 0x27, 0x8c);
    SixteenSteps(49, 0x8c, 0xbe);
  }

  lemma OrderQuarter2()
    requires Exp(65) == 0xbe
    ensures Exp(129) == 0x17 && forall d :: 65 <= d < 129 ==> Exp(d) != 1
  {
    hide XtimeN;
    SixteenSteps(65, 0xbe, 0xe7);
    SixteenSteps(81, 0xe7, 0xaf);
    SixteenSteps(97, 0xaf, 0x1f);
    SixteenSteps(113, 0x1f, 0x17);
  }

  lemma OrderQuarter3()
    requires Exp(129) == 0x17
    ensures Exp(193) == 0x19 && forall d :: 129 <= d < 193 ==> Exp(d) != 1
  {
    hide XtimeN;
    SixteenSteps(129, 0x17, 0x4d);
    SixteenSteps(145, 0x4d, 0xd1);
    SixteenSteps(161, 0xd1, 0xdb);
    SixteenSteps(177, 0xdb, 0x19);
  }

  lemma OrderQuarter4()
    requires Exp(193) == 0x19
    ensures Exp(255) == 1 && forall d :: 193 <= d < 255 ==> Exp(d) != 1
  {
    assert Exp(254) == Xtime(Exp(253)) && Exp(255) == Xtime(Exp(254));
    hide XtimeN;
    SixteenSteps(193, 0x19, 0xa2);
    SixteenSteps(209, 0xa2, 0x24);
    SixteenSteps(225, 0x24, 0x58);
    FourSteps(241);
    FourSteps(245);
    FourSteps(249);
  }

  /** x generates the multiplicative group: its order is exactly 255. */
  lemma Order()
    ensures Exp(255) == 1
    ensures forall d :: 0 < d < 255 ==> Exp(d) != 1
  {
    hide Exp;
    OrderQuarter1();
    OrderQuarter2();
    OrderQuarter3();
    OrderQuarter4();
  }

  lemma {:induction false} ExpPeriodic(i: nat, q: nat)
    ensures Exp(i + 255 * q) == Exp(i)
  {
    hide XtimeN;
    if q > 0 {
      ExpPeriodic(i, q - 1);
      Order();
      XtimeNAdd(i + 255 * (q - 1), 255, 1);
    }
  }

  lemma ExpMod(i: nat)
    ensures Exp(i) == Exp(i % 255)
  {
    hide Exp;
    ExpPeriodic(i % 255, i / 255);
  }

  lemma ExpInjective(i: nat, j: nat)
    requires i < j < 255
    ensures Exp(i) != Exp(j)
  {
    hide XtimeN;
    Order();
    XtimeNAdd(i, j - i, 1);
    if Exp(i) == Exp(j) { XtimeNInjective(i, Exp(j - i), 1); }
  }

  lemma AsIntInjective(a: Byte, b: Byte)
    ensures a as int == b as int <==> a == b
  {
  }

  lemma AsIntRange(a: Byte)
    ensures 0 <= a as int < 256 && (a as int == 0 <==> a == 0)
  {
  }

  /** The 255 powers of x are 255 nonzero bytes, so they are all of them. */
  lemma PowersCover(v: int)
    requires 1 <= v < 256
    ensures exists i :: 0 <= i < 255 && Exp(i) as int == v
  {
    hide Exp;
    var s := seq(255, i requires 0 <= i < 255 => Exp(i) as int);
    forall i, j | 0 <= i < j < |s| ensures s[i] != s[j] {
      ExpInjective(i, j);
      AsIntInjective(Exp(i), Exp(j));
    }
    forall i | 0 <= i < |s| ensures 1 <= s[i] < 1 + |s| { ExpNonzero(i); AsIntRange(Exp(i)); }
    DistinctCoversRange(s, 1);
    assert v in s;
    var i :| 0 <= i < |s| && s[i] == v;
    assert Exp(i) as int == v;
  }

  /** Every nonzero byte is a power of x. */
  lemma ExpSurjective(a: Byte)
    requires a != 0
    ensures exists i :: 0 <= i < 255 && Exp(i) == a
  {
    hide Exp;
    AsIntRange(a);
    PowersCover(a as int);
    var i :| 0 <= i < 255 && Exp(i) as int == a as int;
    AsIntInjective(Exp(i), a);
  }

  lemma ByteValue(i: int)
    requires 0 <= i < 256
    ensures (i as Byte) as int == i
  {
    hide Exp;
    if i == 0 {
      AsIntRange(0);
    } else {
      PowersCover(i);
      var j :| 0 <= j < 255 && Exp(j) as int == i;
      BackAndForth(Exp(j));
    }
  }

  lemma BackAndForth(b: Byte)
    ensures (b as int) as Byte == b
  {
  }

  function ByteOf(i: nat): (b: Byte)
    requires i < 256
    ensures ByteVal(b) == i
  {
    ByteValue(i);
    i as Byte
  }

  lemma ByteOfInjective(i: nat, j: nat)
    requires i < 256 && j < 256 && i != j
    ensures ByteOf(i) != ByteOf(j)
  {
    hide ByteVal;
    assert ByteVal(ByteOf(i)) != ByteVal(ByteOf(j));
  }

  // ----- the operations of the program

  ghost function Log(a: Byte): (i: nat)
    requires a != 0
    ensures i < 255 && Exp(i) == a
  {
    ExpSurjective(a);
    var i :| 0 <= i < 255 && Exp(i) == a;
    i
  }

  ghost function Mul(a: Byte, b: Byte): (r: Byte) {
    if a == 0 || b == 0 then 0 else Exp(Log(a) + Log(b))
  }

  ghost function Div(a: Byte, b: Byte): (r: Byte)
    requires b != 0
  {
    if a == 0 then 0 else Exp(Log(a) - Log(b) + 255)
  }

  lemma LogExp(i: nat)
    ensures Exp(i) != 0 && Log(Exp(i)) == i % 255
  {
    hide XtimeN;
    ExpNonzero(i);
    ExpMod(i);
    var l := Log(Exp(i));
    if l < i % 255 { ExpInjective(l, i % 255); } else if i % 255 < l { ExpInjective(i % 255, l); }
  }

  lemma MulExp(i: nat, j: nat)
    ensures Mul(Exp(i), Exp(j)) == Exp(i + j)
  {
    hide Exp;
    LogExp(i);
    LogExp(j);
    ExpMod(i + j);
    ExpMod(i % 255 + j % 255);
    assert (i % 255 + j % 255) % 255 == (i + j) % 255;
  }

  // ----- the field laws

  lemma MulNonzero(a: Byte, b: Byte)
    ensures Mul(a, b) == 0 <==> a == 0 || b == 0
  {
    hide Exp;
    if a != 0 && b != 0 { ExpNonzero(Log(a) + Log(b)); }
  }

  lemma MulComm(a: Byte, b: Byte)
    ensures Mul(a, b) == Mul(b, a)
  {
    hide Exp;
  }

  lemma MulOne(a: Byte)
    ensures Mul(1, a) == a && Mul(a, 1) == a
  {
    assert Exp(0) == 1;
    hide Exp;
    LogExp(0);
  }

  lemma MulAssoc(a: Byte, b: Byte, c: Byte)
    ensures Mul(Mul(a, b), c) == Mul(a, Mul(b, c))
  {
    hide Exp;
    MulNonzero(a, b);
    MulNonzero(b, c);
    if a != 0 && b != 0 && c != 0 {
      MulExp(Log(a) + Log(b), Log(c));
      MulExp(Log(a), Log(b) + Log(c));
    }
  }

  lemma MulIsXtimeN(i: nat, b: Byte)
    ensures Mul(Exp(i), b) == XtimeN(i, b)
  {
    hide XtimeN;
    LogExp(i);
    if b == 0 {
      XtimeNZero(i);
    } else {
      MulExp(i, Log(b));
      XtimeNAdd(i, Log(b), 1);
    }
  }

  /** Multiplying by x^i is i linear steps, so the table product distributes over xor. */
  lemma MulDistr(a: Byte, b: Byte, c: Byte)
    ensures Mul(a, Add(b, c)) == Add(Mul(a, b), Mul(a, c))
    ensures Mul(Add(b, c), a) == Add(Mul(b, a), Mul(c, a))
  {
    AddUnit(0);
    hide XtimeN, Add;
    if a != 0 {
      MulIsXtimeN(Log(a), b);
      MulIsXtimeN(Log(a), c);
      MulIsXtimeN(Log(a), Add(b, c));
      XtimeNLinear(Log(a), b, c);
    }
    MulComm(a, b);
    MulComm(a, c);
    MulComm(a, Add(b, c));
  }

  /** Division undoes multiplication. */
  lemma MulDiv(a: Byte, b: Byte)
    requires b != 0
    ensures Mul(Div(a, b), b) == a && Mul(b, Div(a, b)) == a
  {
    hide Exp;
    if a != 0 {
      MulExp(Log(a) - Log(b) + 255, Log(b));
      ExpPeriodic(Log(a), 1);
      MulComm(Div(a, b), b);
    }
  }

  // ----- the table product is the product of polynomials

  /** Schoolbook multiplication of polynomials over GF(2), reduced at each shift. */
  function PolyMul(a: Byte, b: Byte): (r: Byte) {
    var s1 := Add(Term(a, 0x01, 0, b), Term(a, 0x02, 1, b));
    var s2 := Add(s1, Term(a, 0x04, 2, b));
    var s3 := Add(s2, Term(a, 0x08, 3, b));
    var s4 := Add(s3, Term(a, 0x10, 4, b));
    var s5 := Add(s4, Term(a, 0x20, 5, b));
    var s6 := Add(s5, Term(a, 0x40, 6, b));
    Add(s6, Term(a, 0x80, 7, b))
  }

  function Term(a: Byte, bit: Byte, i: nat, b: Byte): (r: Byte) {
    if a & bit != 0 then XtimeN(i, b) else 0
  }

  lemma MulTerm(a: Byte, low: Byte, bit: Byte, i: nat, b: Byte)
    requires Exp(i) == bit && (a & bit == 0 || a & bit == bit)
    ensures Mul(Add(low, a & bit), b) == Add(Mul(low, b), Term(a, bit, i, b))
  {
    hide XtimeN, Add;
    MulDistr(b, low, a & bit);
    MulIsXtimeN(i, b);
  }

  lemma MulIsPolyMul(a: Byte, b: Byte)
    ensures Mul(a, b) == PolyMul(a, b)
  {
    FirstPowers();
    Prefixes(a);
    AddUnit(Term(a, 0x01, 0, b));
    assert Mul(0, b) == 0;
    hide XtimeN, Add, Mul, Term;
    MulTerm(a, 0, 0x01, 0, b);
    MulTerm(a, a & 0x01, 0x02, 1, b);
    MulTerm(a, a & 0x03, 0x04, 2, b);
    MulTerm(a, a & 0x07, 0x08, 3, b);
    MulTerm(a, a & 0x0f, 0x10, 4, b);
    MulTerm(a, a & 0x1f, 0x20, 5, b);
    MulTerm(a, a & 0x3f, 0x40, 6, b);
    MulTerm(a, a & 0x7f, 0x80, 7, b);
  }

  lemma FirstPowers()
    ensures Exp(0) == 0x01 && Exp(1) == 0x02 && Exp(2) == 0x04 && Exp(3) == 0x08
    ensures Exp(4) == 0x10 && Exp(5) == 0x20 && Exp(6) == 0x40 && Exp(7) == 0x80
  {
    assert Exp(1) == Xtime(Exp(0));
    assert Exp(2) == Xtime(Exp(1));
    assert Exp(3) == Xtime(Exp(2));
    assert Exp(4) == Xtime(Exp(3));
    assert Exp(5) == Xtime(Exp(4));
    assert Exp(6) == Xtime(Exp(5));
    assert Exp(7) == Xtime(Exp(6));
  }

  lemma Prefixes(a: Byte)
    ensures Add(0, a & 0x01) == a & 0x01
    ensures Add(a & 0x01, a & 0x02) == a & 0x03 && Add(a & 0x03, a & 0x04) == a & 0x07
    ensures Add(a & 0x07, a & 0x08) == a & 0x0f && Add(a & 0x0f, a & 0x10) == a & 0x1f
    ensures Add(a & 0x1f, a & 0x20) == a & 0x3f && Add(a & 0x3f, a & 0x40) == a & 0x7f
    ensures Add(a & 0x7f, a & 0x80) == a
  {
  }
}
