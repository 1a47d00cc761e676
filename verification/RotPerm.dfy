/**
 The port permutation of internal/packet/rawprofile.go: a four round Feistel
 network over the smallest even-width domain that holds the span, walked until it
 lands inside the span again.
 */
module RotPerm {
  import opened Arith
  import opened Bits
  import opened Counting
  import opened Wire

  const W32: nat := 0x1_0000_0000

  /** rotRound on 32-bit words; the mask keeps the low half bits. */
  function RoundFn(v: nat, k: nat, half: nat): (r: nat)
    ensures r < Pow2(half)
  {
    var x1 := (v + k) % W32 * 0x9E3779B1 % W32;
    var x2 := Xor(x1, x1 / 0x8000);
    var x3 := x2 * 0x85EBCA6B % W32;
    var x4 := Xor(x3, x3 / 0x2000);
    x4 % Pow2(half)
  }

  // ----- the Feistel network

  /** The two halves of a value of the domain. */
  datatype Halves = Halves(l: nat, r: nat) {
    predicate Fit(half: nat) {
      l < Pow2(half) && r < Pow2(half)
    }
  }

  /** One round. */
  function Round(x: Halves, k: nat, half: nat): (y: Halves)
    requires x.Fit(half)
    ensures y.Fit(half)
  {
    XorBound(x.l, RoundFn(x.r, k, half), half);
    Halves(x.r, Xor(x.l, RoundFn(x.r, k, half)))
  }

  lemma RoundInjective(x: Halves, y: Halves, k: nat, half: nat)
    requires x.Fit(half) && y.Fit(half)
    requires Round(x, k, half) == Round(y, k, half)
    ensures x == y
  {
    hide RoundFn, Xor;
    XorCancel(x.l, RoundFn(x.r, k, half));
    XorCancel(y.l, RoundFn(y.r, k, half));
  }

  function Rounds(x: Halves, keys: seq<nat>, half: nat): (y: Halves)
    requires x.Fit(half)
    ensures y.Fit(half)
    decreases |keys|
  {
    hide Round, Halves.Fit;
    if keys == [] then x else
      RoundFits(x, keys[0], half);
      Rounds(Round(x, keys[0], half), keys[1..], half)
  }

  lemma RoundFits(x: Halves, k: nat, half: nat)
    requires x.Fit(half)
    ensures Round(x, k, half).Fit(half)
  {
  }

  lemma {:induction false} RoundsInjective(x: Halves, y: Halves, keys: seq<nat>, half: nat)
    requires x.Fit(half) && y.Fit(half)
    requires Rounds(x, keys, half) == Rounds(y, keys, half)
    ensures x == y
    decreases |keys|
  {
    hide Round, Halves.Fit;
    if keys != [] {
      RoundFits(x, keys[0], half);
      RoundFits(y, keys[0], half);
      RoundsInjective(Round(x, keys[0], half), Round(y, keys[0], half), keys[1..], half);
      RoundInjective(x, y, keys[0], half);
    }
  }

  /** The key schedule and the range: lo..lo+span, inside a domain of 2^(2*half) values. */
  datatype Perm = Perm(keys: seq<nat>, lo: nat, span: nat, half: nat) {

    ghost predicate Ok() {
      |keys| == 4 && 1 <= span && lo + span <= 0x1_0000 && half >= 1 && span <= Domain()
    }

    function Domain(): (d: nat) {
      Pow2(half) * Pow2(half)
    }
  }

  function Split(v: nat, half: nat): (x: Halves)
    requires v < Pow2(half) * Pow2(half)
    ensures x.Fit(half) && x.l * Pow2(half) + x.r == v
  {
    hide Pow2;
    QuotientBound(v, Pow2(half));
    Halves(v / Pow2(half), v % Pow2(half))
  }

  lemma QuotientBound(v: nat, h: nat)
    requires 0 < h && v < h * h
    ensures v / h < h && v % h < h && v / h * h + v % h == v
  {
    LessFactor(v / h, h, h);
  }

  function Join(x: Halves, half: nat): (v: nat)
    requires x.Fit(half)
    ensures v < Pow2(half) * Pow2(half)
  {
    JoinBound(Pow2(half), x.l, x.r);
    x.l * Pow2(half) + x.r
  }

  lemma JoinBound(h: nat, l: nat, r: nat)
    requires l < h && r < h
    ensures l * h + r < h * h
  {
    assert l * h <= (h - 1) * h;
  }

  lemma JoinInjective(x: Halves, y: Halves, half: nat)
    requires x.Fit(half) && y.Fit(half) && Join(x, half) == Join(y, half)
    ensures x == y
  {
    QuotientUnique(Pow2(half), x.l, x.r);
    QuotientUnique(Pow2(half), y.l, y.r);
  }

  /** The whole network on one value. */
  function Pi(p: Perm, v: nat): (w: nat)
    requires v < p.Domain()
    ensures w < p.Domain()
  {
    hide Rounds, Pow2, Split, Join;
    SplitFits(v, p.half);
    RoundsFit(Split(v, p.half), p.keys, p.half);
    JoinFits(Rounds(Split(v, p.half), p.keys, p.half), p.half);
    Join(Rounds(Split(v, p.half), p.keys, p.half), p.half)
  }

  lemma SplitFits(v: nat, half: nat)
    requires v < Pow2(half) * Pow2(half)
    ensures Split(v, half).Fit(half) && Split(v, half).l * Pow2(half) + Split(v, half).r == v
  {
  }

  lemma JoinFits(x: Halves, half: nat)
    requires x.Fit(half)
    ensures Join(x, half) < Pow2(half) * Pow2(half)
  {
  }

  lemma RoundsFit(x: Halves, keys: seq<nat>, half: nat)
    requires x.Fit(half)
    ensures Rounds(x, keys, half).Fit(half)
  {
  }

  /** The network is a permutation of its domain. */
  lemma PiInjective(p: Perm, v: nat, w: nat)
    requires v < p.Domain() && w < p.Domain() && Pi(p, v) == Pi(p, w)
    ensures v == w
  {
    hide Rounds, Pow2, Split, Join, Halves.Fit;
    SplitFits(v, p.half);
    SplitFits(w, p.half);
    var x, y := Split(v, p.half), Split(w, p.half);
    RoundsFit(x, p.keys, p.half);
    RoundsFit(y, p.keys, p.half);
    JoinInjective(Rounds(x, p.keys, p.half), Rounds(y, p.keys, p.half), p.half);
    RoundsInjective(x, y, p.keys, p.half);
  }

  // ----- the cycle walk

  ghost function Iter(p: Perm, v: nat, k: nat): (w: nat)
    requires v < p.Domain()
    ensures w < p.Domain()
  {
    if k == 0 then v else Pi(p, Iter(p, v, k - 1))
  }

  /** Equal ends mean that the shorter walk starts somewhere on the longer one. */
  lemma {:induction false} IterCancel(p: Perm, v: nat, a: nat, w: nat, b: nat)
    requires v < p.Domain() && w < p.Domain() && a <= b && Iter(p, v, a) == Iter(p, w, b)
    ensures v == Iter(p, w, b - a)
    decreases a
  {
    hide Pi;
    if a > 0 {
      PiInjective(p, Iter(p, v, a - 1), Iter(p, w, b - 1));
      IterCancel(p, v, a - 1, w, b - 1);
    }
  }

  /** The walk from any value comes back to that value. */
  lemma Recurs(p: Perm, v: nat) returns (k: nat)
    requires v < p.Domain()
    ensures k >= 1 && Iter(p, v, k) == v
  {
    hide Pi, Iter, Perm.Domain;
    var s: seq<int> := seq(p.Domain() + 1, i requires 0 <= i => Iter(p, v, i));
    forall i | 0 <= i < |s| ensures 0 <= s[i] < p.Domain() { IterBound(p, v, i); }
    Pigeonhole(s, 0, p.Domain());
    var i, j :| 0 <= i < j < |s| && s[i] == s[j];
    IterCancel(p, v, i, v, j);
    k := j - i;
  }

  lemma IterBound(p: Perm, v: nat, k: nat)
    requires v < p.Domain()
    ensures Iter(p, v, k) < p.Domain()
  {
  }

  /** The walk from v is back inside the span at step k, and not before. */
  ghost predicate FirstBack(p: Perm, v: nat, k: nat)
    requires v < p.Domain()
  {
    k >= 1 && Iter(p, v, k) < p.span && forall j :: 1 <= j < k ==> Iter(p, v, j) >= p.span
  }

  lemma {:induction false} FirstBackBy(p: Perm, v: nat, k: nat) returns (f: nat)
    requires v < p.Domain() && k >= 1 && Iter(p, v, k) < p.span
    ensures FirstBack(p, v, f)
    decreases k
  {
    hide Iter;
    if j :| 1 <= j < k && Iter(p, v, j) < p.span {
      f := FirstBackBy(p, v, j);
    } else {
      f := k;
    }
  }

  /** How many applications the walk takes: it always ends. */
  ghost function Steps(p: Perm, v: nat): (k: nat)
    requires p.Ok() && v < p.span
    ensures FirstBack(p, v, k)
  {
    WalkEnds(p, v);
    var k: nat :| FirstBack(p, v, k);
    k
  }

  lemma WalkEnds(p: Perm, v: nat)
    requires p.Ok() && v < p.span
    ensures exists k: nat :: FirstBack(p, v, k)
  {
    var k := Recurs(p, v);
    var f := FirstBackBy(p, v, k);
  }

  /** Where the walk from v lands. */
  ghost function Land(p: Perm, v: nat): (w: nat)
    requires p.Ok() && v < p.span
    ensures w < p.span
  {
    Iter(p, v, Steps(p, v))
  }

  /** Distinct starts land on distinct values. */
  lemma LandInjective(p: Perm, v: nat, w: nat)
    requires p.Ok() && v < p.span && w < p.span && Land(p, v) == Land(p, w)
    ensures v == w
  {
    var a, b := Steps(p, v), Steps(p, w);
    if a <= b {
      MeetOnce(p, v, a, w, b);
    } else {
      MeetOnce(p, w, b, v, a);
    }
  }

  lemma MeetOnce(p: Perm, v: nat, a: nat, w: nat, b: nat)
    requires p.Ok() && v < p.span && w < p.span && a <= b
    requires FirstBack(p, v, a) && FirstBack(p, w, b) && Iter(p, v, a) == Iter(p, w, b)
    ensures v == w
  {
    hide Pi, Perm.Domain;
    IterCancel(p, v, a, w, b);
    assert b - a == 0 || !(1 <= b - a < b);
  }

  /** Every value of the span is landed on. */
  lemma LandOnto(p: Perm, t: nat) returns (v: nat)
    requires p.Ok() && t < p.span
    ensures v < p.span && Land(p, v) == t
  {
    hide Land;
    var s: seq<int> := seq(p.span, i requires 0 <= i < p.span => Land(p, i));
    forall i | 0 <= i < |s| ensures 0 <= s[i] < p.span { LandBound(p, i); }
    forall i, j | 0 <= i < j < |s| ensures s[i] != s[j] {
      if s[i] == s[j] { LandInjective(p, i, j); }
    }
    DistinctCoversRange(s, 0);
    var i: int := t;
    assert i in s;
    v :| 0 <= v < |s| && s[v] == i;
  }

  lemma LandBound(p: Perm, v: nat)
    requires p.Ok() && v < p.span
    ensures Land(p, v) < p.span
  {
  }

  /** The port of an index. */
  ghost function PortOf(p: Perm, idx: nat): (port: nat)
    requires p.Ok()
    ensures p.lo <= port < p.lo + p.span
  {
    p.lo + Land(p, idx % p.span)
  }

  ghost predicate Served(p: Perm, port: nat)
    requires p.Ok()
  {
    exists i: nat :: i < p.span && PortOf(p, i) == port
  }

  /** Indices modulo the span and ports of the range correspond one to one. */
  lemma PortBijection(p: Perm)
    requires p.Ok()
    ensures forall i: nat, j: nat :: PortOf(p, i) == PortOf(p, j) <==> i % p.span == j % p.span
    ensures forall port: nat :: Served(p, port) <==> p.lo <= port < p.lo + p.span
  {
    hide Land, Perm.Domain;
    forall i: nat, j: nat ensures PortOf(p, i) == PortOf(p, j) <==> i % p.span == j % p.span {
      if PortOf(p, i) == PortOf(p, j) { LandInjective(p, i % p.span, j % p.span); }
    }
    forall port: nat ensures Served(p, port) <==> p.lo <= port < p.lo + p.span {
      ServedIff(p, port);
    }
  }

  lemma ServedIff(p: Perm, port: nat)
    requires p.Ok()
    ensures Served(p, port) <==> p.lo <= port < p.lo + p.span
  {
    hide PortOf, Perm.Ok, Land;
    if p.lo <= port < p.lo + p.span {
      var v := LandOnto(p, port - p.lo);
      PortOfSmall(p, v);
    }
    forall i: nat | i < p.span ensures p.lo <= PortOf(p, i) < p.lo + p.span {
      PortRange(p, i);
    }
  }

  lemma PortRange(p: Perm, i: nat)
    requires p.Ok()
    ensures p.lo <= PortOf(p, i) < p.lo + p.span
  {
  }

  lemma PortOfSmall(p: Perm, v: nat)
    requires p.Ok() && v < p.span
    ensures PortOf(p, v) == p.lo + Land(p, v)
  {
    hide Land, Perm.Ok;
    SmallMod(v, p.span);
  }

  lemma SmallMod(i: nat, n: nat)
    requires i < n
    ensures i % n == i
  {
  }

  // ----- the code

  /** One pass of the inner loop of rotPerm.at. */
  method Network(p: Perm, v: nat) returns (w: nat)
    requires v < p.Domain()
    ensures w == Pi(p, v)
  {
    hide Round, Pow2, Split, Join, Halves.Fit;
    SplitFits(v, p.half);
    var x := Split(v, p.half);
    ghost var start := x;
    for i := 0 to |p.keys|
      invariant x.Fit(p.half) && Rounds(x, p.keys[i..], p.half) == Rounds(start, p.keys, p.half)
    {
      RoundFits(x, p.keys[i], p.half);
      assert p.keys[i..][1..] == p.keys[i + 1..];
      x := Round(x, p.keys[i], p.half);
    }
    w := Join(x, p.half);
  }

  /** rotPerm.at terminates on every index and returns the port of that index. */
  method At(p: Perm, idx: nat) returns (port: nat)
    requires p.Ok()
    ensures port == PortOf(p, idx) && port < 0x1_0000
  {
    hide Pi, Perm.Domain;
    var v := idx % p.span;
    ghost var start, n, k := v, Steps(p, idx % p.span), 0;
    v := Network(p, v);
    while v >= p.span
      invariant 0 <= k < n && v == Iter(p, start, k + 1) < p.Domain()
      decreases n - k
    {
      assert Iter(p, start, n) < p.span;
      v := Network(p, v);
      k := k + 1;
    }
    assert k + 1 == n;
    port := p.lo + v;
  }

  lemma {:induction false} Pow2Square(h: nat)
    ensures Pow2(2 * h) == Pow2(h) * Pow2(h)
  {
    if h > 0 {
      Pow2Square(h - 1);
      assert Pow2(2 * h) == 2 * Pow2(2 * h - 1) == 4 * Pow2(2 * (h - 1));
      Quadruple(Pow2(h - 1));
    }
  }

  lemma Quadruple(a: nat)
    ensures 4 * (a * a) == (2 * a) * (2 * a)
  {
  }

  lemma Pow2Sixteen()
    ensures Pow2(16) == 0x1_0000
  {
    assert Pow2(4) == 16;
    Pow2Square(4);
    Pow2Square(8);
  }

  /** rotPermFrom: the hash supplies the round keys; the half width is the least that holds the span. */
  method RotPermFrom(hash: Bytes, lo: nat, span: nat) returns (p: Perm)
    requires |hash| == 32 && 1 <= span && lo + span <= 0x1_0000
    ensures p.Ok() && p.lo == lo && p.span == span && 1 <= p.half <= 8
    ensures p.half > 1 ==> Pow2(2 * (p.half - 1)) < span
    ensures forall i :: 0 <= i < 4 ==> p.keys[i] == Get32(hash, 4 * i)
  {
    hide Get32, Pow2;
    var keys := [];
    for i := 0 to 4
      invariant |keys| == i && forall j :: 0 <= j < i ==> keys[j] == Get32(hash, 4 * j)
    {
      keys := keys + [Get32(hash, 4 * i)];
    }
    var half := 1;
    Pow2Sixteen();
    while Pow2(2 * half) < span
      invariant 1 <= half <= 8
      invariant half > 1 ==> Pow2(2 * (half - 1)) < span
      decreases 8 - half
    {
      half := half + 1;
    }
    Pow2Square(half);
    p := Perm(keys, lo, span, half);
  }
}
