/** The health records of a pool of addresses: internal/packet/health_set.go. */
module Health {
  import opened Arith

  type Addr = string

  /** Back-off steps of a suspect, the retest wait of a dead address, and the redraw budget. */
  datatype Tuning = Tuning(backoff: seq<int>, dead: int, tries: nat)

  datatype Rec = Rec(dead: bool, fails: nat, next: int, step: int)

  type Records = map<Addr, Rec>

  /** A suspect climbs the back-off steps and is dead once they run out. */
  function Backoff(t: Tuning, r: Rec, now: int): (r': Rec)
    requires |t.backoff| > 0
  {
    if r.dead then r.(next := now + t.dead, step := t.dead) else
      if r.fails + 1 >= |t.backoff| then Rec(true, r.fails + 1, now + t.dead, t.dead)
      else Rec(false, r.fails + 1, now + t.backoff[r.fails + 1], t.backoff[r.fails + 1])
  }

  predicate Due(h: Records, key: Addr, now: int) {
    key in h && h[key].next <= now
  }

  predicate Eligible(h: Records, key: Addr, now: int) {
    key !in h || Due(h, key, now)
  }

  /** Only an eligible address is condemned, and then it is not eligible until its wait ends. */
  function Burn(t: Tuning, h: Records, key: Addr, now: int): (h': Records)
    requires |t.backoff| > 0
    ensures key in h' && h'.Keys == h.Keys + {key}
    ensures !Eligible(h, key, now) ==> h' == h
  {
    if key !in h then h[key := Rec(false, 0, now + t.backoff[0], t.backoff[0])] else
      if Due(h, key, now) then h[key := Backoff(t, h[key], now)] else h
  }

  // ----- the climb of one address

  /** Burns of key at the given times. */
  function BurnRun(t: Tuning, h: Records, key: Addr, times: seq<int>): (h': Records)
    requires |t.backoff| > 0
  {
    if times == [] then h else Burn(t, BurnRun(t, h, key, times[..|times| - 1]), key, times[|times| - 1])
  }

  /** The times at which they condemned it. */
  function Condemned(t: Tuning, h: Records, key: Addr, times: seq<int>): (s: seq<int>)
    requires |t.backoff| > 0
  {
    if times == [] then [] else
      var n := |times| - 1;
      Condemned(t, h, key, times[..n]) + if Eligible(BurnRun(t, h, key, times[..n]), key, times[n]) then [times[n]] else []
  }

  /** How long the c-th condemnation keeps an address out. */
  function WaitOf(t: Tuning, c: nat): (w: int)
    requires 1 <= c
  {
    if c <= |t.backoff| then t.backoff[c - 1] else t.dead
  }

  /**
   Whatever the times, the c-th condemnation of a healthy address waits the c-th back-off step
   and, once the steps run out, leaves it dead; it is eligible again exactly when that wait is
   over, and no other address is touched.
   */
  lemma {:induction false} Climb(t: Tuning, h: Records, key: Addr, times: seq<int>)
    requires |t.backoff| > 0 && key !in h
    ensures var h', s := BurnRun(t, h, key, times), Condemned(t, h, key, times);
            && (times == [] <==> s == []) && (key in h' <==> s != [])
            && (s != [] ==>
                  var w := WaitOf(t, |s|);
                  && h'[key] == Rec(|s| > |t.backoff|, if |s| > |t.backoff| then |t.backoff| else |s| - 1, s[|s| - 1] + w, w)
                  && forall later :: Eligible(h', key, later) <==> later >= s[|s| - 1] + w)
            && forall k :: k != key ==> (k in h' <==> k in h) && (k in h ==> h'[k] == h[k])
    decreases |times|
  {
    if times != [] { Climb(t, h, key, times[..|times| - 1]); }
  }

  function Tier(h: Records, key: Addr): (r: (nat, int)) {
    if key !in h then (0, 0) else (if h[key].dead then 2 else 1, h[key].next)
  }

  predicate Better(a: (nat, int), b: (nat, int)) {
    a.0 < b.0 || (a.0 == b.0 && a.1 < b.1)
  }

  // ----- the ring of addresses

  /** Position k places after at on a ring of n. */
  function Pos(at: nat, k: nat, n: nat): (i: nat)
    requires at < n && k <= n
    ensures i < n
  {
    if at + k < n then at + k else at + k - n
  }

  lemma PosIsMod(at: nat, k: nat, n: nat)
    requires at < n && k <= n
    ensures (at + k) % n == Pos(at, k, n)
  {
    if at + k < n {
      QuotientUnique(n, 0, at + k);
    } else {
      QuotientUnique(n, 1, at + k - n);
    }
  }

  /** Where a position lies on the ring that starts at a. */
  function Place(a: nat, i: nat, n: nat): (k: nat)
    requires a < n && i < n
    ensures k < n && Pos(a, k, n) == i
  {
    if i >= a then i - a else i + n - a
  }

  /** The first k' >= k whose position is flagged, one past the ring when there is none. */
  function FirstStep(flags: seq<bool>, at: nat, k: nat): (r: nat)
    requires at < |flags| && 1 <= k <= |flags| + 1
    ensures k <= r <= |flags| + 1
    ensures forall j :: k <= j < r ==> !flags[Pos(at, j, |flags|)]
    ensures r <= |flags| ==> flags[Pos(at, r, |flags|)]
    decreases |flags| - k
  {
    if k > |flags| then k else if flags[Pos(at, k, |flags|)] then k else FirstStep(flags, at, k + 1)
  }

  /** The best tier from position i on, keeping the earlier one on a tie. */
  function BestFrom(h: Records, keys: seq<Addr>, at: nat, i: nat, best: nat): (r: nat)
    requires best < |keys| && i <= |keys|
    ensures r < |keys|
    decreases |keys| - i
  {
    if i == |keys| then best else
      BestFrom(h, keys, at, i + 1,
               if i != at && Better(Tier(h, keys[i]), Tier(h, keys[best])) then i else best)
  }

  function HealthyFlags(h: Records, keys: seq<Addr>): (f: seq<bool>)
    ensures |f| == |keys| && forall i :: 0 <= i < |f| ==> f[i] == (keys[i] !in h)
  {
    seq(|keys|, i requires 0 <= i < |keys| => keys[i] !in h)
  }

  function DueFlags(h: Records, keys: seq<Addr>, now: int): (f: seq<bool>)
    ensures |f| == |keys| && forall i :: 0 <= i < |f| ==> f[i] == Due(h, keys[i], now)
  {
    seq(|keys|, i requires 0 <= i < |keys| => Due(h, keys[i], now))
  }

  /** The next address after at: the first healthy one, else the first due one, else the best tier. */
  function NextFrom(h: Records, keys: seq<Addr>, at: nat, now: int): (r: nat)
    requires keys == [] || at < |keys|
    ensures keys != [] ==> r < |keys|
  {
    hide FirstStep, BestFrom;
    if keys == [] then at else
      FirstStepRange(HealthyFlags(h, keys), at);
      FirstStepRange(DueFlags(h, keys, now), at);
      var k := FirstStep(HealthyFlags(h, keys), at, 1);
      var d := FirstStep(DueFlags(h, keys, now), at, 1);
      if k <= |keys| then Pos(at, k, |keys|) else
        if d <= |keys| then Pos(at, d, |keys|) else
          BestStart(h, keys, at);
          BestFrom(h, keys, at, 0, at)
  }

  lemma FirstStepRange(flags: seq<bool>, at: nat)
    requires at < |flags|
    ensures 1 <= FirstStep(flags, at, 1) <= |flags| + 1
  {
  }

  lemma BestStart(h: Records, keys: seq<Addr>, at: nat)
    requires at < |keys|
    ensures BestFrom(h, keys, at, 0, at) < |keys|
  {
  }

  /** k is the number of steps to the first flagged position after at. */
  ghost predicate Nearest(flags: seq<bool>, at: nat, k: nat)
    requires at < |flags|
  {
    1 <= k <= |flags| && flags[Pos(at, k, |flags|)] && forall j :: 1 <= j < k ==> !flags[Pos(at, j, |flags|)]
  }

  /**
   With every address out of use: a suspect before a dead one, then the one whose retest comes
   first; on a tie the address at the cursor, else the one listed first.
   */
  ghost predicate LeastBad(h: Records, keys: seq<Addr>, at: nat, r: nat)
    requires at < |keys|
  {
    && r < |keys| && (forall j :: 0 <= j < |keys| ==> keys[j] in h)
    && (h[keys[r]].dead ==> forall j :: 0 <= j < |keys| ==> h[keys[j]].dead)
    && (forall j :: 0 <= j < |keys| && h[keys[j]].dead == h[keys[r]].dead ==> h[keys[r]].next <= h[keys[j]].next)
    && (r != at ==> forall j :: 0 <= j < |keys| && (j < r || j == at) && h[keys[j]].dead == h[keys[r]].dead ==>
                      h[keys[r]].next < h[keys[j]].next)
  }

  lemma BestSpelledOut(h: Records, keys: seq<Addr>, at: nat, r: nat)
    requires at < |keys| && r < |keys| && forall j :: 0 <= j < |keys| ==> keys[j] in h
    requires forall j :: 0 <= j < |keys| ==> !Better(Tier(h, keys[j]), Tier(h, keys[r]))
    requires r == at || forall j :: 0 <= j < |keys| && (j < r || j == at) ==> Better(Tier(h, keys[r]), Tier(h, keys[j]))
    ensures LeastBad(h, keys, at, r)
  {
    forall j | 0 <= j < |keys|
      ensures h[keys[r]].dead ==> h[keys[j]].dead
      ensures h[keys[j]].dead == h[keys[r]].dead ==> h[keys[r]].next <= h[keys[j]].next
      ensures r != at && (j < r || j == at) && h[keys[j]].dead == h[keys[r]].dead ==> h[keys[r]].next < h[keys[j]].next
    {
      assert !Better(Tier(h, keys[j]), Tier(h, keys[r]));
    }
  }

  /** The scan leaves the cursor, and later a better address, only for one that is strictly better. */
  lemma {:induction false} BestIsFirst(h: Records, keys: seq<Addr>, at: nat, i: nat, best: nat)
    requires at < |keys| && best < |keys| && i <= |keys| && (best == at || best < i)
    requires forall j :: 0 <= j < i || j == at ==> !Better(Tier(h, keys[j]), Tier(h, keys[best]))
    requires best == at || forall j :: 0 <= j < |keys| && (j < best || j == at) ==> Better(Tier(h, keys[best]), Tier(h, keys[j]))
    ensures var r := BestFrom(h, keys, at, i, best);
            r == at || forall j :: 0 <= j < |keys| && (j < r || j == at) ==> Better(Tier(h, keys[r]), Tier(h, keys[j]))
    decreases |keys| - i
  {
    hide Tier;
    if i < |keys| {
      var moves := i != at && Better(Tier(h, keys[i]), Tier(h, keys[best]));
      if moves {
        forall j | 0 <= j < |keys| && (j < i || j == at) ensures Better(Tier(h, keys[i]), Tier(h, keys[j])) {
          assert !Better(Tier(h, keys[j]), Tier(h, keys[best]));
        }
      }
      BestIsFirst(h, keys, at, i + 1, if moves then i else best);
    }
  }

  /** What NextFrom chooses, without the scan. */
  lemma NextFromIs(h: Records, keys: seq<Addr>, at: nat, now: int)
    requires at < |keys|
    ensures var r := NextFrom(h, keys, at, now);
            if exists i :: 0 <= i < |keys| && keys[i] !in h then
              exists k :: Nearest(HealthyFlags(h, keys), at, k) && r == Pos(at, k, |keys|)
            else if exists i :: 0 <= i < |keys| && Due(h, keys[i], now) then
              exists k :: Nearest(DueFlags(h, keys, now), at, k) && r == Pos(at, k, |keys|)
            else LeastBad(h, keys, at, r)
  {
    hide Tier, BestFrom, FirstStep, LeastBad;
    var f, g := HealthyFlags(h, keys), DueFlags(h, keys, now);
    var k, d := FirstStep(f, at, 1), FirstStep(g, at, 1);
    FirstStepNearest(f, at);
    FirstStepNearest(g, at);
    BestIsLeast(h, keys, at, 0, at);
    BestIsFirst(h, keys, at, 0, at);
    if i :| 0 <= i < |keys| && keys[i] !in h { assert f[i]; }
    if i :| 0 <= i < |keys| && Due(h, keys[i], now) { assert g[i]; }
    if k <= |keys| {
      assert f[Pos(at, k, |keys|)];
    } else if d <= |keys| {
      assert g[Pos(at, d, |keys|)];
    } else {
      forall j | 0 <= j < |keys| ensures keys[j] in h { assert !f[j]; }
      BestSpelledOut(h, keys, at, BestFrom(h, keys, at, 0, at));
    }
  }

  lemma FirstStepNearest(flags: seq<bool>, at: nat)
    requires at < |flags|
    ensures var k := FirstStep(flags, at, 1);
            if k <= |flags| then Nearest(flags, at, k) else k == |flags| + 1 && forall i :: 0 <= i < |flags| ==> !flags[i]
  {
    var k := FirstStep(flags, at, 1);
    if k > |flags| {
      forall i | 0 <= i < |flags| ensures !flags[i] {
        var j := Place(at, i, |flags|);
        assert !flags[Pos(at, if j == 0 then |flags| else j, |flags|)];
      }
    }
  }

  lemma {:induction false} BestIsLeast(h: Records, keys: seq<Addr>, at: nat, i: nat, best: nat)
    requires at < |keys| && best < |keys| && i <= |keys|
    requires forall j :: 0 <= j < i || j == at ==> !Better(Tier(h, keys[j]), Tier(h, keys[best]))
    ensures var r := BestFrom(h, keys, at, i, best);
            forall j :: 0 <= j < |keys| ==> !Better(Tier(h, keys[j]), Tier(h, keys[r]))
    decreases |keys| - i
  {
    hide Tier;
    if i < |keys| {
      BestIsLeast(h, keys, at, i + 1,
                  if i != at && Better(Tier(h, keys[i]), Tier(h, keys[best])) then i else best);
    }
  }

  /** A healthy neighbour is the next address. */
  lemma NextIsNeighbour(h: Records, keys: seq<Addr>, at: nat, now: int)
    requires at < |keys| && keys[Pos(at, 1, |keys|)] !in h
    ensures NextFrom(h, keys, at, now) == Pos(at, 1, |keys|)
  {
    hide BestFrom;
    assert HealthyFlags(h, keys)[Pos(at, 1, |keys|)];
  }

  /** With a healthy address about, the next address is healthy. */
  lemma NextIsHealthy(h: Records, keys: seq<Addr>, at: nat, now: int, i: nat)
    requires at < |keys| && i < |keys| && keys[i] !in h
    ensures keys[NextFrom(h, keys, at, now)] !in h
  {
    hide BestFrom, FirstStep;
    FirstStepNearest(HealthyFlags(h, keys), at);
    assert HealthyFlags(h, keys)[i];
  }

  function CountEligible(h: Records, keys: seq<Addr>, now: int): (n: nat)
    ensures n <= |keys|
  {
    if keys == [] then 0 else
      CountEligible(h, keys[..|keys| - 1], now) + if Eligible(h, keys[|keys| - 1], now) then 1 else 0
  }

  lemma {:induction false} AllEligible(h: Records, keys: seq<Addr>, now: int)
    ensures CountEligible(h, keys, now) == |keys| <==> forall k :: k in keys ==> Eligible(h, k, now)
  {
    if keys != [] {
      var n := |keys| - 1;
      AllEligible(h, keys[..n], now);
      assert forall k :: k in keys <==> k in keys[..n] || k == keys[n];
    }
  }
}
