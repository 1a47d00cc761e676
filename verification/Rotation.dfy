/** The mutable objects of the failure ladder, each proved against the functions of Ladder. */
module Rotation {
  import opened Health
  import opened Ladder
  import opened Options

  /** rung of internal/packet/portrung.go. */
  class RungCell {
    var armed: bool
    var spent: nat

    constructor (armed: bool)
      ensures Value() == Rung(armed, 0)
    {
      this.armed, spent := armed, 0;
    }

    function Value(): (r: Rung)
      reads this
    {
      Rung(armed, spent)
    }

    /** Spends before acting and gives the unit back when the action fails. */
    method Try(budget: nat, acts: bool) returns (ok: bool)
      modifies this`spent
      ensures ok == Climbs(old(Value()), budget, acts) && Value() == TryRung(old(Value()), budget, acts)
    {
      if !armed || spent >= budget {
        return false;
      }
      spent := spent + 1;
      if acts {
        return true;
      }
      spent := spent - 1;
      return false;
    }

    method Restart()
      modifies this`spent
      ensures spent == 0
    {
      spent := 0;
    }
  }

  /** The failure count of internal/packet/odometer.go. */
  class OdometerCell {
    var rot: nat
    var want: int

    constructor ()
      ensures Value() == Odometer(0, 0)
    {
      rot, want := 0, 0;
    }

    function Value(): (o: Odometer)
      reads this
    {
      Odometer(rot, want)
    }

    method Failed(eligible: nat) returns (lap: bool)
      modifies this
      ensures lap == Laps(old(Value()), eligible) && Value() == OdoFailed(old(Value()), eligible)
    {
      if rot == 0 { want := eligible; }
      rot := rot + 1;
      if rot >= want {
        rot := 0;
        return true;
      }
      return false;
    }
  }

  /** The cursor and the records of one axis: PeerPool of internal/packet/peer_pool.go. */
  class PeerPool {
    const addrs: seq<Addr>
    var recs: Records
    var cur: nat
    var burns: nat

    constructor (addrs: seq<Addr>)
      requires addrs != []
      ensures Value() == Pool(addrs, map[], 0, 0) && Value().Ok()
    {
      this.addrs := addrs;
      recs, cur, burns := map[], 0, 0;
    }

    function Value(): (p: Pool)
      reads this
    {
      Pool(addrs, recs, cur, burns)
    }

    /** Records a failure of key; true when that condemned it. */
    method BurnKey(t: Tuning, key: Addr, now: int) returns (condemned: bool)
      requires |t.backoff| > 0
      modifies this`recs
      ensures condemned == Eligible(old(recs), key, now) && recs == Burn(t, old(recs), key, now)
    {
      if key !in recs {
        recs := recs[key := Rec(false, 0, now + t.backoff[0], t.backoff[0])];
        return true;
      }
      if recs[key].next <= now {
        var r := Retest(t, recs[key], now);
        recs := recs[key := r];
        return true;
      }
      return false;
    }

    /** The three scans of nextFrom. */
    method Next(at: nat, now: int) returns (r: nat)
      requires at < |addrs|
      ensures r == NextFrom(recs, addrs, at, now)
    {
      hide FirstStep, BestFrom;
      var n := |addrs|;
      var k := Scan(HealthyFlags(recs, addrs), at);
      if k <= n {
        PosIsMod(at, k, n);
        return (at + k) % n;
      }
      k := Scan(DueFlags(recs, addrs, now), at);
      if k <= n {
        PosIsMod(at, k, n);
        return (at + k) % n;
      }
      r := Best(at);
    }

    method Best(at: nat) returns (best: nat)
      requires at < |addrs|
      ensures best == BestFrom(recs, addrs, at, 0, at)
    {
      hide Tier, Better;
      best := at;
      for i := 0 to |addrs|
        invariant best < |addrs| && BestFrom(recs, addrs, at, i, best) == BestFrom(recs, addrs, at, 0, at)
      {
        if i != at && Better(Tier(recs, addrs[i]), Tier(recs, addrs[best])) {
          best := i;
        }
      }
    }

    method EligibleCount(now: int) returns (n: nat)
      ensures n == CountEligible(recs, addrs, now)
    {
      n := 0;
      for i := 0 to |addrs|
        invariant n == CountEligible(recs, addrs[..i], now)
      {
        assert addrs[..i + 1][..i] == addrs[..i];
        if Eligible(recs, addrs[i], now) { n := n + 1; }
      }
      assert addrs[..|addrs|] == addrs;
    }

    /** Burns the current address, counts the burn, and moves the cursor. */
    method Fail(t: Tuning, now: int) returns (moved: bool)
      requires |t.backoff| > 0 && Value().Ok()
      modifies this
      ensures Value() == PoolFail(t, old(Value()), now) && Value().Ok() && moved == (cur != old(cur))
    {
      hide NextFrom, Burn;
      var prev := cur;
      var condemned := BurnKey(t, addrs[cur], now);
      if condemned { burns := burns + 1; }
      var idx := Next(cur, now);
      NextFromRange(recs, addrs, cur, now);
      if idx != cur { cur := idx; }
      moved := cur != prev;
    }

    method RestoreAll()
      modifies this`recs
      ensures recs == map[]
    {
      recs := map[];
    }
  }

  method Retest(t: Tuning, r: Rec, now: int) returns (r': Rec)
    requires |t.backoff| > 0
    ensures r' == Backoff(t, r, now)
  {
    if r.dead {
      return r.(next := now + t.dead, step := t.dead);
    }
    r' := r.(fails := r.fails + 1);
    if r'.fails >= |t.backoff| {
      return r'.(dead := true, next := now + t.dead, step := t.dead);
    }
    r' := r'.(next := now + t.backoff[r'.fails], step := t.backoff[r'.fails]);
  }

  /** Steps around the ring from at to the first flagged position. */
  method Scan(flags: seq<bool>, at: nat) returns (k: nat)
    requires at < |flags|
    ensures k == FirstStep(flags, at, 1)
  {
    k := 1;
    while k <= |flags|
      invariant 1 <= k <= |flags| + 1 && FirstStep(flags, at, k) == FirstStep(flags, at, 1)
    {
      PosIsMod(at, k, |flags|);
      if flags[(at + k) % |flags|] {
        return;
      }
      k := k + 1;
    }
  }

  /** The rotation controller: either axis may be absent. */
  class Controller {
    const tuning: Tuning
    const dst: PeerPool?
    const src: PeerPool?
    const od: OdometerCell
    const port: RungCell
    const session: RungCell

    constructor (tuning: Tuning, dst: PeerPool?, src: PeerPool?, portArmed: bool, sessionArmed: bool)
      requires |tuning.backoff| > 0 && (dst == null || dst != src)
      requires (dst != null ==> dst.Value().Ok()) && (src != null ==> src.Value().Ok())
      ensures Valid() && this.tuning == tuning && this.dst == dst && this.src == src
      ensures Value() == State(AxisOf(dst), AxisOf(src), Odometer(0, 0), Rung(portArmed, 0), Rung(sessionArmed, 0))
    {
      this.tuning, this.dst, this.src := tuning, dst, src;
      od := new OdometerCell();
      port := new RungCell(portArmed);
      session := new RungCell(sessionArmed);
    }

    function Repr(): (r: set<object>)
    {
      (if dst == null then {} else {dst}) + (if src == null then {} else {src}) + {od, port, session}
    }

    ghost predicate Valid()
      reads Repr()
    {
      |tuning.backoff| > 0 && (dst == null || dst != src) && port != session && Value().Ok()
    }

    ghost function Value(): (s: State)
      reads Repr()
    {
      State(AxisOf(dst), AxisOf(src), od.Value(), port.Value(), session.Value())
    }

    /** One failure verdict; dstBurned tells whether a destination was condemned. */
    method Fail(c: Call) returns (dstBurned: bool)
      requires Valid()
      modifies Repr()
      ensures Valid() && Value() == Ladder.Fail(tuning, old(Value()), c).state
      ensures dstBurned == BurnedIn(Ladder.Fail(tuning, old(Value()), c).ev)
    {
      hide Walk;
      var exhausted := SpendFreeRungs(c.portActs, c.sessionActs);
      if !exhausted {
        return false;
      }
      var stepped, burned := WalkAxes(c.now);
      if stepped || ((port.armed || session.armed) && c.revive) {
        port.Restart();
        session.Restart();
      }
      return burned;
    }

    /** Tries the port rung, then the session rung; true when neither climbed. */
    method SpendFreeRungs(portActs: bool, sessionActs: bool) returns (exhausted: bool)
      requires Valid()
      modifies port`spent, session`spent
      ensures Valid()
      ensures var p, q := old(port.Value()), old(session.Value());
              var first := Climbs(p, tuning.tries, portActs);
              Value() == old(Value()).(port := TryRung(p, tuning.tries, portActs),
                                       session := if first then q else TryRung(q, 1, sessionActs)) &&
              exhausted == (!first && !Climbs(q, 1, sessionActs))
    {
      var redrew := port.Try(tuning.tries, portActs);
      if redrew {
        return false;
      }
      var shook := session.Try(1, sessionActs);
      return !shook;
    }

    method WalkAxes(now: int) returns (stepped: bool, burned: bool)
      requires Valid()
      modifies Repr()
      ensures Valid() && Value() == Walk(tuning, old(Value()), now).state
      ensures port.Value() == old(port.Value()) && session.Value() == old(session.Value())
      ensures Walk(tuning, old(Value()), now).ev.Walked?
      ensures stepped == Walk(tuning, old(Value()), now).ev.stepped
      ensures burned == BurnedIn(Walk(tuning, old(Value()), now).ev)
    {
      hide PoolFail, CountEligible;
      if dst != null {
        var n := dst.EligibleCount(now);
        var lap := od.Failed(n);
        var before := dst.burns;
        BurnsWhenEligible(tuning, dst.Value(), now);
        stepped := dst.Fail(tuning, now);
        burned := dst.burns != before;
        if src != null && lap {
          var moved := src.Fail(tuning, now);
          if moved {
            dst.RestoreAll();
            stepped := true;
          }
        }
      } else if src != null {
        stepped := src.Fail(tuning, now);
        burned := false;
      } else {
        stepped, burned := false, false;
      }
    }
  }

  function AxisOf(p: PeerPool?): (r: Opt<Pool>)
    reads p
  {
    if p == null then None else Some(p.Value())
  }

  predicate BurnedIn(e: Event) {
    e.Walked? && e.burned != []
  }

  lemma BurnsWhenEligible(t: Tuning, p: Pool, now: int)
    requires |t.backoff| > 0 && p.Ok()
    ensures PoolFail(t, p, now).burns != p.burns <==> BurnedBy(t, p, now) != []
  {
  }
}
