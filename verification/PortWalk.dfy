/**
 The walk over source and destination ports of a raw socket
 (internal/packet/raw_linux.go) and the destination set it draws on
 (internal/packet/rawprofile.go).
 */
module PortWalk {
  import opened Arith
  import opened Counting
  import opened RotPerm
  import opened Wire

  const POOL: seq<nat> := [443, 853, 2053, 2083, 2087, 2096, 3478, 3479,
                           5061, 5349, 8443, 8801, 8802, 19302, 19305, 19306]

  // ----- the destination set

  /** The shuffle from position i down to 1, driven by the hash. */
  function Shuffle(s: seq<nat>, hash: Bytes, i: nat): (r: seq<nat>)
    requires i < |s| && i < |hash|
    ensures |r| == |s|
    decreases i
  {
    if i == 0 then s else
      var j := hash[i] % (i + 1);
      Shuffle(s[i := s[j]][j := s[i]], hash, i - 1)
  }

  /** A shuffle repeats nothing and adds nothing. */
  lemma {:induction false} ShuffleKeeps(s: seq<nat>, hash: Bytes, i: nat)
    requires i < |s| && i < |hash| && Distinct(s)
    ensures Distinct(Shuffle(s, hash, i))
    ensures forall x :: x in Shuffle(s, hash, i) <==> x in s
    decreases i
  {
    if i > 0 {
      var j := hash[i] % (i + 1);
      SwapKeeps(s, i, j);
      ShuffleKeeps(s[i := s[j]][j := s[i]], hash, i - 1);
    }
  }

  /** Drawing without replacement, the last place first: the draw is taken out and the last of the rest moves up. */
  function Drawn(rest: seq<nat>, hash: Bytes): (r: seq<nat>)
    requires |rest| <= |hash|
    ensures |r| == |rest|
    decreases |rest|
  {
    if |rest| <= 1 then rest else
      var last := |rest| - 1;
      var j := hash[last] % (last + 1);
      Drawn(if j == last then rest[..last] else rest[..last][j := rest[last]], hash) + [rest[j]]
  }

  /** The swaps of the shuffle draw its result without replacement. */
  lemma {:induction false} ShuffleIsDrawn(s: seq<nat>, hash: Bytes, i: nat)
    requires i < |s| && i < |hash|
    ensures Shuffle(s, hash, i) == Drawn(s[..i + 1], hash) + s[i + 1..]
    decreases i
  {
    hide Shuffle, Drawn;
    if i == 0 {
      assert s == s[..1] + s[1..];
      DrawnOne(s[..1], hash);
      ShuffleOne(s, hash);
    } else {
      var j := ShuffleStep(s, hash, i);
      var t := s[i := s[j]][j := s[i]];
      ShuffleIsDrawn(t, hash, i - 1);
      SwapSplits(s, i, j);
      DrawnStep(s[..i + 1], hash, j);
      JoinThree(Drawn(t[..i], hash), [s[j]], s[i + 1..]);
    }
  }

  lemma ShuffleOne(s: seq<nat>, hash: Bytes)
    requires |s| >= 1 && |hash| >= 1
    ensures Shuffle(s, hash, 0) == s
  {
  }

  lemma DrawnOne(rest: seq<nat>, hash: Bytes)
    requires |rest| == 1 <= |hash|
    ensures Drawn(rest, hash) == rest
  {
  }

  lemma ShuffleStep(s: seq<nat>, hash: Bytes, i: nat) returns (j: nat)
    requires 0 < i < |s| && i < |hash|
    ensures j == hash[i] % (i + 1) && j <= i && Shuffle(s, hash, i) == Shuffle(s[i := s[j]][j := s[i]], hash, i - 1)
  {
    j := hash[i] % (i + 1);
  }

  lemma DrawnStep(rest: seq<nat>, hash: Bytes, j: nat)
    requires 2 <= |rest| <= |hash| && j == hash[|rest| - 1] % |rest| && j < |rest|
    ensures var last := |rest| - 1;
            Drawn(rest, hash) == Drawn(if j == last then rest[..last] else rest[..last][j := rest[last]], hash) + [rest[j]]
  {
  }

  lemma SwapSplits(s: seq<nat>, i: nat, j: nat)
    requires j <= i < |s|
    ensures var t, rest := s[i := s[j]][j := s[i]], s[..i + 1];
            && t[..i] == (if j == i then rest[..i] else rest[..i][j := rest[i]]) && rest[j] == s[j]
            && t[i..] == [s[j]] + s[i + 1..]
  {
  }

  lemma JoinThree(a: seq<nat>, b: seq<nat>, c: seq<nat>)
    ensures a + (b + c) == a + b + c
  {
  }

  lemma SwapKeeps(s: seq<nat>, i: nat, j: nat)
    requires i < |s| && j < |s| && Distinct(s)
    ensures Distinct(s[i := s[j]][j := s[i]])
    ensures forall x :: x in s[i := s[j]][j := s[i]] <==> x in s
  {
    var t := s[i := s[j]][j := s[i]];
    forall x | x in s ensures x in t {
      var k :| 0 <= k < |s| && s[k] == x;
      assert t[if k == i then j else if k == j then i else k] == x;
    }
  }

  /** At most m elements of s that differ from base, in order. */
  function Others(s: seq<nat>, base: nat, m: nat): (r: seq<nat>)
  {
    if s == [] || m == 0 then [] else
      if s[0] == base then Others(s[1..], base, m) else [s[0]] + Others(s[1..], base, m - 1)
  }

  /** The first m elements in order, without the base wherever it stands. */
  lemma {:induction false} OthersInOrder(a: seq<nat>, base: nat, b: seq<nat>, m: nat)
    requires base !in a && base !in b
    ensures var rest := a + b; Others(a + [base] + b, base, m) == rest[..if m < |rest| then m else |rest|]
    decreases |a| + |b|
  {
    var s, rest := a + [base] + b, a + b;
    if m > 0 {
      if a != [] {
        OthersInOrder(a[1..], base, b, m - 1);
        assert s[1..] == a[1..] + [base] + b && rest[1..] == a[1..] + b;
      } else {
        assert s[1..] == b == rest;
        OthersWithout(b, base, m);
      }
    }
  }

  lemma {:induction false} OthersWithout(b: seq<nat>, base: nat, m: nat)
    requires base !in b
    ensures Others(b, base, m) == b[..if m < |b| then m else |b|]
    decreases |b|
  {
    if b != [] && m > 0 { OthersWithout(b[1..], base, m - 1); }
  }

  lemma {:induction false} OthersFrom(s: seq<nat>, base: nat, m: nat)
    ensures forall x :: x in Others(s, base, m) ==> x in s && x != base
    ensures |Others(s, base, m)| <= m
    decreases |s|
  {
    if s != [] && m > 0 {
      if s[0] == base { OthersFrom(s[1..], base, m); } else { OthersFrom(s[1..], base, m - 1); }
    }
  }

  lemma {:induction false} OthersDistinct(s: seq<nat>, base: nat, m: nat)
    requires Distinct(s) && m < |s|
    ensures Distinct(Others(s, base, m)) && |Others(s, base, m)| == m
    decreases |s|
  {
    if m > 0 {
      var t := s[1..];
      assert Distinct(t);
      if s[0] == base {
        assert base !in t;
        OthersAll(t, base, m);
      } else {
        OthersFrom(t, base, m - 1);
        OthersDistinct(t, base, m - 1);
        ConsDistinct(s[0], Others(t, base, m - 1));
      }
    }
  }

  lemma ConsDistinct(x: nat, s: seq<nat>)
    requires x !in s && Distinct(s)
    ensures Distinct([x] + s)
  {
  }

  lemma {:induction false} OthersAll(s: seq<nat>, base: nat, m: nat)
    requires Distinct(s) && base !in s && m <= |s|
    ensures Others(s, base, m) == s[..m] && Distinct(s[..m])
    decreases |s|
  {
    if m > 0 {
      assert s[0] != base;
      OthersAll(s[1..], base, m - 1);
      assert [s[0]] + s[1..][..m - 1] == s[..m];
    }
  }

  function DportsOf(base: nat, n: int, hash: Bytes): (r: seq<nat>)
    requires |hash| == 32
  {
    if n < 2 then [base] else [base] + Others(Shuffle(POOL, hash, 15), base, n - 1)
  }

  /** n distinct ports that begin with the base, the rest from the pool. */
  lemma DportsDistinct(base: nat, n: int, hash: Bytes)
    requires |hash| == 32 && n <= 16
    ensures var r := DportsOf(base, n, hash);
            |r| == (if n < 2 then 1 else n) && r[0] == base && Distinct(r) &&
            forall k :: 1 <= k < |r| ==> r[k] in POOL
  {
    if n >= 2 {
      PoolDistinct();
      ShuffleKeeps(POOL, hash, 15);
      var s := Shuffle(POOL, hash, 15);
      OthersFrom(s, base, n - 1);
      OthersDistinct(s, base, n - 1);
      ConsDistinct(base, Others(s, base, n - 1));
    }
  }

  lemma PoolDistinct()
    ensures Distinct(POOL)
  {
    assert forall i, j :: 0 <= i < j < |POOL| ==> POOL[i] < POOL[j];
  }

  /** dportSet: shuffles a copy of the pool in place, then appends from it. */
  method DportSet(base: nat, n: int, hash: Bytes) returns (out: seq<nat>)
    requires |hash| == 32
    ensures out == DportsOf(base, n, hash)
  {
    hide Shuffle;
    out := [base];
    if n < 2 { return; }
    var order := new nat[16](i requires 0 <= i < 16 => POOL[i]);
    assert order[..] == POOL;
    ShuffleInPlace(order, hash);
    var rest := AppendOthers(order, base, n - 1);
    out := out + rest;
  }

  /** The appending loop, up to m ports. */
  method AppendOthers(order: array<nat>, base: nat, m: nat) returns (out: seq<nat>)
    ensures out == Others(order[..], base, m)
  {
    var k := 0;
    out := [];
    while k < order.Length && |out| != m
      invariant 0 <= k <= order.Length && |out| <= m
      invariant out + Others(order[k..], base, m - |out|) == Others(order[..], base, m)
    {
      var d := order[k];
      assert order[k..][0] == d && order[k..][1..] == order[k + 1..];
      if d != base { out := out + [d]; }
      k := k + 1;
    }
  }

  method ShuffleInPlace(order: array<nat>, hash: Bytes)
    requires 1 <= order.Length <= |hash|
    modifies order
    ensures order[..] == Shuffle(old(order[..]), hash, order.Length - 1)
  {
    var i := order.Length - 1;
    while i > 0
      invariant 0 <= i < order.Length
      invariant Shuffle(order[..], hash, i) == Shuffle(old(order[..]), hash, order.Length - 1)
    {
      var j := hash[i] % (i + 1);
      ghost var s := order[..];
      order[i], order[j] := order[j], order[i];
      assert order[..] == s[i := s[j]][j := s[i]];
      i := i - 1;
    }
  }

  // ----- the walk

  /** What fixes the ports of a rotating client. */
  datatype Walk = Walk(perm: Perm, dports: seq<nat>, port: nat, every: nat, start: nat) {

    ghost predicate Ok() {
      perm.Ok() && every > 0 && Distinct(dports)
    }

    /** The destinations in use: the one fixed port unless there are at least two. */
    function Dests(): (d: seq<nat>)
      ensures |d| >= 1
    {
      if |dports| < 2 then [port] else dports
    }

    /** The step that the packet number sent belongs to. */
    function StepAt(sent: nat): (w: nat)
      requires every > 0
    {
      start + sent / every
    }

    /** The source and destination port of a step. */
    ghost function PairAt(w: nat): (r: (nat, nat))
      requires Ok()
    {
      (PortOf(perm, w), Dests()[Slot(w, perm.span, |Dests()|)])
    }

    /** How many pairs there are. */
    function Cycle(): (n: nat) {
      perm.span * |Dests()|
    }
  }

  /** Which destination a step uses. */
  function Slot(w: nat, span: nat, n: nat): (k: nat)
    requires span > 0 && n > 0
    ensures k < n
  {
    w / span % n
  }

  /** Exactly every packets, and consecutive ones, are served by a step. */
  lemma StepServes(t: Walk, w: nat, sent: nat)
    requires t.every > 0 && w >= t.start
    ensures t.StepAt(sent) == w <==> (w - t.start) * t.every <= sent < (w - t.start) * t.every + t.every
  {
    var q := w - t.start;
    if q * t.every <= sent < q * t.every + t.every {
      QuotientUnique(t.every, q, sent - q * t.every);
    }
  }

  lemma SameRemainder(a: nat, b: nat, n: nat)
    requires n > 0 && a % n == b % n
    ensures a - b == (a / n - b / n) * n
  {
  }

  lemma Regroup(a: int, d: int, s: int)
    ensures (a * d) * s == a * (s * d)
  {
  }

  /** Steps that agree on both digits and are less than a whole cycle apart are equal. */
  lemma DigitsFix(v: nat, w: nat, s: nat, d: nat)
    requires s > 0 && d > 0 && v % s == w % s && Slot(v, s, d) == Slot(w, s, d)
    requires w - s * d < v < w + s * d
    ensures v == w
  {
    var a, b := v / s, w / s;
    SameRemainder(v, w, s);
    SameRemainder(a, b, d);
    var e := a / d - b / d;
    Regroup(e, d, s);
    SmallMultiple(e, s * d);
  }

  /** The digits of some step of the window that starts at from. */
  lemma InWindow(from: nat, s: nat, d: nat, k: nat, i: nat) returns (w: nat)
    requires k < d && i < s
    ensures from <= w < from + s * d && w % s == i && Slot(w, s, d) == k
  {
    DigitsBelow(k, d, i, s);
    var c: nat;
    w, c := Shifted(from, s * d, k * s + i);
    Regroup(c, d, s);
    Factor(c * d, k, s);
    QuotientUnique(s, c * d + k, i);
    QuotientUnique(d, c, k);
  }

  lemma DigitsBelow(k: nat, d: nat, i: nat, s: nat)
    requires k < d && i < s
    ensures 0 <= k * s + i < s * d
  {
    assert k * s <= (d - 1) * s;
  }

  lemma Factor(a: int, b: int, s: int)
    ensures a * s + b * s == (a + b) * s
  {
  }

  lemma Shifted(from: nat, n: nat, u: nat) returns (w: nat, c: nat)
    requires u < n
    ensures from <= w < from + n && w == u + c * n
  {
    w := from + (u - from) % n;
    var e: int := -((u - from) / n);
    Negated((u - from) / n, n);
    assert w == u + e * n;
    NotBelow(e, n, u);
    c := e;
  }

  lemma Negated(a: int, n: int)
    ensures -a * n == -(a * n)
  {
  }

  lemma NotBelow(c: int, n: int, u: int)
    requires 0 <= u < n && u + c * n >= 0
    ensures c >= 0
  {
    assert c <= -1 ==> c * n <= -1 * n;
  }

  /** A window of span * D steps meets no pair twice. */
  lemma PairOnce(t: Walk, from: nat, v: nat, w: nat)
    requires t.Ok() && from <= v < from + t.Cycle() && from <= w < from + t.Cycle()
    requires t.PairAt(v) == t.PairAt(w)
    ensures v == w
  {
    hide PortOf, Perm.Ok, Slot;
    OkSpan(t.perm);
    PortBijection(t.perm);
    assert v % t.perm.span == w % t.perm.span;
    SlotBound(v, t.perm.span, |t.Dests()|);
    SlotBound(w, t.perm.span, |t.Dests()|);
    DigitsFix(v, w, t.perm.span, |t.Dests()|);
  }

  lemma OkSpan(p: Perm)
    requires p.Ok()
    ensures p.span > 0
  {
  }

  lemma SlotBound(w: nat, s: nat, d: nat)
    requires s > 0 && d > 0
    ensures Slot(w, s, d) < d
  {
  }

  /** A window of span * D steps meets every pair of a port of the range and a destination. */
  lemma PairMet(t: Walk, from: nat, sport: nat, k: nat) returns (w: nat)
    requires t.Ok() && t.perm.lo <= sport < t.perm.lo + t.perm.span && k < |t.Dests()|
    ensures from <= w < from + t.Cycle() && t.PairAt(w) == (sport, t.Dests()[k])
  {
    hide PortOf, Perm.Ok, Slot;
    OkSpan(t.perm);
    var i := IndexOf(t.perm, sport);
    w := InWindow(from, t.perm.span, |t.Dests()|, k, i);
    SamePort(t.perm, i, w);
  }

  lemma IndexOf(p: Perm, port: nat) returns (i: nat)
    requires p.Ok() && p.lo <= port < p.lo + p.span
    ensures i < p.span && PortOf(p, i) == port
  {
    hide PortOf, Perm.Ok;
    ServedIff(p, port);
    i :| i < p.span && PortOf(p, i) == port;
  }

  lemma SamePort(p: Perm, i: nat, w: nat)
    requires p.Ok() && i < p.span && w % p.span == i
    ensures PortOf(p, i) == PortOf(p, w)
  {
    hide PortOf, Perm.Ok;
    SmallMod(i, p.span);
    PortBijection(p);
  }

  /** The part of the raw socket that picks ports. */
  class Raw {
    const perm: Perm
    const dports: seq<nat>
    const port: nat
    const sportEvery: nat
    const rotIdx: nat
    const isClient: bool
    var txCount: nat
    var portEpoch: nat

    constructor (perm: Perm, dports: seq<nat>, port: nat, sportEvery: nat, rotIdx: nat, isClient: bool)
      ensures this.perm == perm && this.dports == dports && this.port == port
      ensures this.sportEvery == sportEvery && this.rotIdx == rotIdx && this.isClient == isClient
      ensures txCount == 0 && portEpoch == 0
    {
      this.perm, this.dports, this.port := perm, dports, port;
      this.sportEvery, this.rotIdx, this.isClient := sportEvery, rotIdx, isClient;
      txCount, portEpoch := 0, 0;
    }

    function Shape(): (t: Walk) {
      Walk(perm, dports, port, sportEvery, rotIdx)
    }

    /** Takes the next packet number; only a rotating socket counts packets. */
    method PortStep() returns (w: nat)
      modifies this`txCount
      ensures sportEvery > 0 ==> w == Shape().StepAt(old(txCount)) && txCount == old(txCount) + 1
      ensures sportEvery == 0 ==> w == rotIdx + portEpoch && txCount == old(txCount)
    {
      if sportEvery == 0 {
        return rotIdx + portEpoch;
      }
      txCount := txCount + 1;
      w := rotIdx + (txCount - 1) / sportEvery;
    }

    /** The destination and source port of a client's step, the reverse on a server. */
    method PortsAt(w: nat, cport: nat) returns (a: nat, b: nat)
      requires perm.Ok() && Distinct(dports)
      ensures isClient && sportEvery > 0 ==> (b, a) == Shape().PairAt(w)
      ensures isClient && sportEvery == 0 ==> b == cport && a == Shape().Dests()[Slot(w, perm.span, |Shape().Dests()|)]
      ensures !isClient ==> a == PortOf(perm, w) && b == cport
    {
      hide PortOf;
      if !isClient {
        a := At(perm, w);
        return a, cport;
      }
      b := cport;
      if sportEvery > 0 { b := At(perm, w); }
      a := DportAt(w);
    }

    method DportAt(w: nat) returns (r: nat)
      requires perm.span > 0
      ensures r == Shape().Dests()[Slot(w, perm.span, |Shape().Dests()|)]
    {
      if |dports| < 2 { return port; }
      r := dports[w / perm.span % |dports|];
    }
  }
}
