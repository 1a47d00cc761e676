/**
 The failure ladder: two free rungs (a port redraw and a re-handshake) before each walk
 over destinations, and an odometer that advances the source once per lap
 (internal/packet/peer_pool.go, odometer.go, portrung.go).
 */
module Ladder {
  import opened Counting
  import opened Health
  import opened Options

  datatype Pool = Pool(addrs: seq<Addr>, recs: Records, cur: nat, burns: nat) {
    predicate Ok() {
      cur < |addrs|
    }
  }

  /** Burns the current address and moves to the next one. */
  function PoolFail(t: Tuning, p: Pool, now: int): (p': Pool)
    requires |t.backoff| > 0 && p.Ok()
    ensures p'.Ok() && p'.addrs == p.addrs
  {
    hide NextFrom, Burn;
    var recs := Burn(t, p.recs, p.addrs[p.cur], now);
    NextFromRange(recs, p.addrs, p.cur, now);
    Pool(p.addrs, recs, NextFrom(recs, p.addrs, p.cur, now),
         p.burns + if Eligible(p.recs, p.addrs[p.cur], now) then 1 else 0)
  }

  lemma NextFromRange(h: Records, keys: seq<Addr>, at: nat, now: int)
    requires at < |keys|
    ensures NextFrom(h, keys, at, now) < |keys|
  {
  }

  datatype Rung = Rung(armed: bool, spent: nat)

  /** One try of a rung: spends one unit of the budget exactly when its action succeeds. */
  function TryRung(r: Rung, budget: nat, acts: bool): (r': Rung) {
    if r.armed && r.spent < budget && acts then r.(spent := r.spent + 1) else r
  }

  predicate Climbs(r: Rung, budget: nat, acts: bool) {
    r.armed && r.spent < budget && acts
  }

  datatype Odometer = Odometer(rot: nat, want: int)

  predicate Laps(o: Odometer, eligible: nat) {
    o.rot + 1 >= if o.rot == 0 then eligible else o.want
  }

  /** Counts one failure; the number of failures in a lap is fixed when the lap starts. */
  function OdoFailed(o: Odometer, eligible: nat): (o': Odometer) {
    Odometer(if Laps(o, eligible) then 0 else o.rot + 1, if o.rot == 0 then eligible else o.want)
  }

  datatype State = State(dst: Opt<Pool>, src: Opt<Pool>, od: Odometer, port: Rung, session: Rung) {
    predicate Ok() {
      (dst.Some? ==> dst.v.Ok()) && (src.Some? ==> src.v.Ok())
    }
  }

  /** What one failure verdict led to. */
  datatype Event =
    | Redraw
    | Rehandshake
    | Walked(burned: seq<Addr>, stepped: bool, srcMoved: bool)

  datatype Out = Out(state: State, ev: Event)

  /** The time of a verdict, whether each rung's action would succeed, whether the revive clock fires. */
  datatype Call = Call(now: int, portActs: bool, sessionActs: bool, revive: bool)

  function BurnedBy(t: Tuning, p: Pool, now: int): (s: seq<Addr>)
    requires p.Ok()
  {
    if Eligible(p.recs, p.addrs[p.cur], now) then [p.addrs[p.cur]] else []
  }

  function Moved(p: Pool, p': Pool): (b: bool) {
    p.cur != p'.cur
  }

  function Walk(t: Tuning, s: State, now: int): (o: Out)
    requires |t.backoff| > 0 && s.Ok()
    ensures o.state.Ok()
  {
    hide PoolFail, CountEligible;
    if s.dst.Some? then
      PoolFailOk(t, s.dst.v, now);
      var n := CountEligible(s.dst.v.recs, s.dst.v.addrs, now);
      var d := PoolFail(t, s.dst.v, now);
      var od := OdoFailed(s.od, n);
      var burned := BurnedBy(t, s.dst.v, now);
      if s.src.Some? && Laps(s.od, n) then
        PoolFailOk(t, s.src.v, now);
        var h := PoolFail(t, s.src.v, now);
        var moved := Moved(s.src.v, h);
        Out(s.(dst := Some(if moved then d.(recs := map[]) else d), src := Some(h), od := od),
            Walked(burned, moved || Moved(s.dst.v, d), moved))
      else
        Out(s.(dst := Some(d), od := od), Walked(burned, Moved(s.dst.v, d), false))
    else if s.src.Some? then
      PoolFailOk(t, s.src.v, now);
      var h := PoolFail(t, s.src.v, now);
      Out(s.(src := Some(h)), Walked([], Moved(s.src.v, h), Moved(s.src.v, h)))
    else
      Out(s, Walked([], false, false))
  }

  lemma PoolFailOk(t: Tuning, p: Pool, now: int)
    requires |t.backoff| > 0 && p.Ok()
    ensures PoolFail(t, p, now).Ok() && PoolFail(t, p, now).addrs == p.addrs
  {
  }

  function Refill(s: State): (r: State) {
    s.(port := s.port.(spent := 0), session := s.session.(spent := 0))
  }

  /** One failure verdict: the port rung, then the session rung, then a walk. */
  function Fail(t: Tuning, s: State, c: Call): (o: Out)
    requires |t.backoff| > 0 && s.Ok()
    ensures o.state.Ok()
  {
    hide Walk;
    if Climbs(s.port, t.tries, c.portActs) then
      Out(s.(port := TryRung(s.port, t.tries, c.portActs)), Redraw)
    else if Climbs(s.session, 1, c.sessionActs) then
      Out(s.(session := TryRung(s.session, 1, c.sessionActs)), Rehandshake)
    else
      WalkOk(t, s, c.now);
      var o := Walk(t, s, c.now);
      var refill := o.ev.stepped || ((s.port.armed || s.session.armed) && c.revive);
      if refill then Out(Refill(o.state), o.ev) else o
  }

  lemma WalkOk(t: Tuning, s: State, now: int)
    requires |t.backoff| > 0 && s.Ok()
    ensures Walk(t, s, now).state.Ok() && Walk(t, s, now).ev.Walked?
  {
    hide PoolFail, CountEligible;
    if s.dst.Some? { PoolFailOk(t, s.dst.v, now); }
    if s.src.Some? { PoolFailOk(t, s.src.v, now); }
  }

  datatype Trace = Trace(state: State, evs: seq<Event>)

  function Run(t: Tuning, s: State, calls: seq<Call>): (r: Trace)
    requires |t.backoff| > 0 && s.Ok()
    ensures r.state.Ok()
    decreases |calls|
  {
    hide Fail;
    if calls == [] then Trace(s, []) else
      FailOk(t, s, calls[0]);
      var o := Fail(t, s, calls[0]);
      var rest := Run(t, o.state, calls[1..]);
      Trace(rest.state, [o.ev] + rest.evs)
  }

  lemma FailOk(t: Tuning, s: State, c: Call)
    requires |t.backoff| > 0 && s.Ok()
    ensures Fail(t, s, c).state.Ok()
  {
  }

  // ----- the schedule of a lap

  /** What the rungs do from the r-th verdict of a walk on: redraws, then one re-handshake. */
  function Rungs(tries: nat, r: nat): (s: seq<Event>)
    decreases tries + 1 - r
  {
    if r > tries then [] else [if r < tries then Redraw else Rehandshake] + Rungs(tries, r + 1)
  }

  lemma {:induction false} RungsAre(tries: nat, r: nat)
    requires r <= tries + 1
    ensures |Rungs(tries, r)| == tries + 1 - r
    ensures forall i :: 0 <= i < tries + 1 - r ==> Rungs(tries, r)[i] == if r + i < tries then Redraw else Rehandshake
    decreases tries + 1 - r
  {
    if r <= tries { RungsAre(tries, r + 1); }
  }

  /** Walks b, b+1, ... of a lap over addrs that starts at position a. */
  function Schedule(tries: nat, addrs: seq<Addr>, a: nat, b: nat): (s: seq<Event>)
    requires a < |addrs| && b <= |addrs|
    decreases |addrs| - b
  {
    if b == |addrs| then [] else
      Rungs(tries, 0) + [Walked([addrs[Pos(a, b, |addrs|)]], true, b + 1 == |addrs|)]
      + Schedule(tries, addrs, a, b + 1)
  }

  lemma {:induction false} ScheduleLength(tries: nat, addrs: seq<Addr>, a: nat, b: nat)
    requires a < |addrs| && b <= |addrs|
    ensures |Schedule(tries, addrs, a, b)| == (tries + 2) * (|addrs| - b)
    decreases |addrs| - b
  {
    if b < |addrs| {
      RungsAre(tries, 0);
      ScheduleLength(tries, addrs, a, b + 1);
      assert (tries + 2) * (|addrs| - b) == (tries + 2) * (|addrs| - (b + 1)) + (tries + 2);
    }
  }

  /** The addresses that a trace burns, in order. */
  function Burned(evs: seq<Event>): (s: seq<Addr>) {
    if evs == [] then [] else (if evs[0].Walked? then evs[0].burned else []) + Burned(evs[1..])
  }

  lemma {:induction false} BurnedAppend(x: seq<Event>, y: seq<Event>)
    ensures Burned(x + y) == Burned(x) + Burned(y)
    decreases |x|
  {
    if x == [] {
      assert x + y == y;
    } else {
      assert (x + y)[1..] == x[1..] + y;
      BurnedAppend(x[1..], y);
    }
  }

  lemma {:induction false} RungsBurnNothing(tries: nat, r: nat)
    ensures Burned(Rungs(tries, r)) == []
    decreases tries + 1 - r
  {
    if r <= tries {
      RungsBurnNothing(tries, r + 1);
      assert Rungs(tries, r)[1..] == Rungs(tries, r + 1);
    }
  }

  lemma {:induction false} ScheduleBurns(tries: nat, addrs: seq<Addr>, a: nat, b: nat)
    requires a < |addrs| && b <= |addrs|
    ensures |Burned(Schedule(tries, addrs, a, b))| == |addrs| - b
    ensures forall j :: b <= j < |addrs| ==> Burned(Schedule(tries, addrs, a, b))[j - b] == addrs[Pos(a, j, |addrs|)]
    decreases |addrs| - b
  {
    hide Pos, Rungs, Burned;
    if b < |addrs| {
      PosRange(a, b, |addrs|);
      var x := addrs[Pos(a, b, |addrs|)];
      var w := Walked([x], true, b + 1 == |addrs|);
      var rest := Schedule(tries, addrs, a, b + 1);
      BurnedAppend(Rungs(tries, 0) + [w], rest);
      BurnedAppend(Rungs(tries, 0), [w]);
      RungsBurnNothing(tries, 0);
      BurnedOne(w);
      ScheduleBurns(tries, addrs, a, b + 1);
      assert Burned(Schedule(tries, addrs, a, b)) == [x] + Burned(rest);
    } else {
      BurnedNone();
    }
  }

  lemma PosRange(a: nat, b: nat, n: nat)
    requires a < n && b <= n
    ensures Pos(a, b, n) < n
  {
  }

  lemma BurnedOne(e: Event)
    requires e.Walked?
    ensures Burned([e]) == e.burned
  {
    assert [e][1..] == [];
  }

  lemma BurnedNone()
    ensures Burned([]) == []
  {
  }

  /** A lap burns every destination exactly once. */
  lemma LapBurnsEachOnce(tries: nat, addrs: seq<Addr>, a: nat)
    requires a < |addrs| && Distinct(addrs)
    ensures var s := Burned(Schedule(tries, addrs, a, 0));
            |s| == |addrs| && Distinct(s) && forall x :: x in s <==> x in addrs
  {
    hide Schedule, Burned;
    ScheduleBurns(tries, addrs, a, 0);
    var s := Burned(Schedule(tries, addrs, a, 0));
    forall j | 0 <= j < |s| ensures s[j] == addrs[Pos(a, j, |addrs|)] {
      assert s[j - 0] == addrs[Pos(a, j, |addrs|)];
    }
    RotationCovers(s, addrs, a);
  }

  lemma RotationCovers(s: seq<Addr>, addrs: seq<Addr>, a: nat)
    requires a < |addrs| && Distinct(addrs) && |s| == |addrs|
    requires forall j :: 0 <= j < |s| ==> s[j] == addrs[Pos(a, j, |addrs|)]
    ensures Distinct(s) && forall x :: x in s <==> x in addrs
  {
    forall i, j | 0 <= i < j < |s| ensures s[i] != s[j] {
      assert Pos(a, i, |addrs|) != Pos(a, j, |addrs|);
    }
    forall x | x in addrs ensures x in s {
      var i :| 0 <= i < |addrs| && addrs[i] == x;
      assert s[Place(a, i, |addrs|)] == x;
    }
  }

  // ----- a lap

  ghost predicate Acting(calls: seq<Call>) {
    forall i :: 0 <= i < |calls| ==> calls[i].portActs && calls[i].sessionActs
  }

  /** Some source other than the current one is healthy. */
  ghost predicate Spare(p: Pool)
    requires p.Ok()
  {
    exists i :: 0 <= i < |p.addrs| && p.addrs[i] !in p.recs && p.addrs[i] != p.addrs[p.cur]
  }

  /** A fresh lap: every destination healthy, both rungs full. */
  ghost predicate Start(s: State) {
    s.Ok() && s.dst.Some? && s.src.Some? && Distinct(s.dst.v.addrs) &&
    (forall x :: x in s.dst.v.addrs ==> x !in s.dst.v.recs) &&
    s.od.rot == 0 && s.port == Rung(true, 0) && s.session == Rung(true, 0)
  }

  /** p: the pool at the start of the lap; q: the pool after b walks. */
  ghost predicate Lapping(p: Pool, q: Pool, b: nat)
    requires p.Ok()
  {
    q.addrs == p.addrs && b < |p.addrs| && q.cur == Pos(p.cur, b, |p.addrs|) && q.burns == p.burns + b &&
    forall j :: 0 <= j < |p.addrs| ==> (p.addrs[Pos(p.cur, j, |p.addrs|)] in q.recs <==> j < b)
  }

  /** b walks of the lap that began in s0 are over. */
  ghost predicate Walks(s0: State, s: State, b: nat)
    requires s0.Ok() && s0.dst.Some?
  {
    s.Ok() && s.dst.Some? && s.src == s0.src && Lapping(s0.dst.v, s.dst.v, b) &&
    s.od.rot == b && (b > 0 ==> s.od.want == |s0.dst.v.addrs|)
  }

  /** r rungs of the current walk are spent. */
  ghost predicate Spent(t: Tuning, s: State, r: nat) {
    r <= t.tries + 1 &&
    s.port == Rung(true, if r < t.tries then r else t.tries) && s.session == Rung(true, if r <= t.tries then 0 else 1)
  }

  lemma {:induction false} RunRungs(t: Tuning, s0: State, s: State, b: nat, r: nat, calls: seq<Call>)
    requires |t.backoff| > 0 && s0.Ok() && s0.dst.Some? && Walks(s0, s, b) && Spent(t, s, r)
    requires Acting(calls) && |calls| == t.tries + 1 - r
    ensures var e := Run(t, s, calls); Walks(s0, e.state, b) && Spent(t, e.state, t.tries + 1) && e.evs == Rungs(t.tries, r)
    decreases |calls|
  {
    hide Walk, Walks, State.Ok;
    WalksOk(s0, s, b);
    if r <= t.tries {
      RungStep(t, s0, s, b, r, calls[0]);
      var o := Fail(t, s, calls[0]);
      hide Fail;
      assert Acting(calls[1..]);
      RunRungs(t, s0, o.state, b, r + 1, calls[1..]);
    }
  }

  lemma WalksOk(s0: State, s: State, b: nat)
    requires s0.Ok() && s0.dst.Some? && Walks(s0, s, b)
    ensures s.Ok()
  {
  }

  lemma RungStep(t: Tuning, s0: State, s: State, b: nat, r: nat, c: Call)
    requires |t.backoff| > 0 && s0.Ok() && s0.dst.Some? && Walks(s0, s, b) && Spent(t, s, r)
    requires r <= t.tries && c.portActs && c.sessionActs && s.Ok()
    ensures var o := Fail(t, s, c);
            Walks(s0, o.state, b) && Spent(t, o.state, r + 1) && o.ev == if r < t.tries then Redraw else Rehandshake
  {
    hide Walk;
  }

  /** A walk that is not the last of the lap: burns its destination, moves to the neighbour. */
  lemma WalkOn(t: Tuning, s0: State, s: State, b: nat, c: Call)
    requires |t.backoff| > 0 && Start(s0) && Walks(s0, s, b) && Spent(t, s, t.tries + 1) && s.Ok()
    requires b + 1 < |s0.dst.v.addrs|
    ensures var o := Fail(t, s, c);
            Walks(s0, o.state, b + 1) && Spent(t, o.state, 0) &&
            o.ev == Walked([s0.dst.v.addrs[Pos(s0.dst.v.cur, b, |s0.dst.v.addrs|)]], true, false)
  {
    hide PoolFail, CountEligible;
    var p, q := s0.dst.v, s.dst.v;
    LapWant(s0, s, b, c.now);
    PoolSteps(t, p, q, b, c.now);
  }

  /** The odometer laps exactly on the last walk. */
  lemma LapWant(s0: State, s: State, b: nat, now: int)
    requires Start(s0) && Walks(s0, s, b)
    ensures var n := CountEligible(s.dst.v.recs, s.dst.v.addrs, now);
            (Laps(s.od, n) <==> b + 1 == |s0.dst.v.addrs|) &&
            OdoFailed(s.od, n) == Odometer(if b + 1 == |s0.dst.v.addrs| then 0 else b + 1, |s0.dst.v.addrs|)
  {
    var q := s.dst.v;
    if b == 0 {
      forall x | x in q.addrs ensures x !in q.recs {
        var i :| 0 <= i < |q.addrs| && q.addrs[i] == x;
        assert q.addrs[Pos(s0.dst.v.cur, Place(s0.dst.v.cur, i, |q.addrs|), |q.addrs|)] == x;
      }
      AllEligible(q.recs, q.addrs, now);
    }
  }

  lemma PoolSteps(t: Tuning, p: Pool, q: Pool, b: nat, now: int)
    requires |t.backoff| > 0 && p.Ok() && q.Ok() && Distinct(p.addrs) && Lapping(p, q, b)
    ensures BurnedBy(t, q, now) == [p.addrs[Pos(p.cur, b, |p.addrs|)]]
    ensures PoolFail(t, q, now).burns == p.burns + b + 1
    ensures b + 1 < |p.addrs| ==> Lapping(p, PoolFail(t, q, now), b + 1) && Moved(q, PoolFail(t, q, now))
  {
    hide NextFrom, Burn;
    BurnKeys(t, q.recs, q.addrs[q.cur], now);
    var recs, n := Burn(t, q.recs, q.addrs[q.cur], now), |p.addrs|;
    if b + 1 < n {
      assert Pos(q.cur, 1, n) == Pos(p.cur, b + 1, n);
      forall j | 0 <= j < n ensures p.addrs[Pos(p.cur, j, n)] in recs <==> j < b + 1 {
        assert j != b ==> Pos(p.cur, j, n) != Pos(p.cur, b, n);
      }
      NextIsNeighbour(recs, q.addrs, q.cur, now);
    }
  }

  lemma BurnKeys(t: Tuning, h: Records, key: Addr, now: int)
    requires |t.backoff| > 0
    ensures Burn(t, h, key, now).Keys == h.Keys + {key}
  {
  }

  /** The last walk: the source moves to a healthy one and every destination is restored. */
  lemma WalkLast(t: Tuning, s0: State, s: State, b: nat, c: Call)
    requires |t.backoff| > 0 && Start(s0) && Spare(s0.src.v) && Walks(s0, s, b) && Spent(t, s, t.tries + 1) && s.Ok()
    requires b + 1 == |s0.dst.v.addrs|
    ensures var o := Fail(t, s, c);
            o.ev == Walked([s0.dst.v.addrs[Pos(s0.dst.v.cur, b, |s0.dst.v.addrs|)]], true, true) &&
            LapEnd(t, s0, o.state, c.now)
  {
    hide PoolFail, CountEligible;
    LapWant(s0, s, b, c.now);
    PoolSteps(t, s0.dst.v, s.dst.v, b, c.now);
    SpareTaken(t, s0.src.v, c.now);
    PoolFailOk(t, s.dst.v, c.now);
  }

  /** A source other than the one just burned, healthy until now, takes over. */
  lemma SpareTaken(t: Tuning, p: Pool, now: int)
    requires |t.backoff| > 0 && p.Ok() && Spare(p)
    ensures TakesOver(p, PoolFail(t, p, now)) && Moved(p, PoolFail(t, p, now))
  {
    hide NextFrom, Burn;
    BurnKeys(t, p.recs, p.addrs[p.cur], now);
    var recs := Burn(t, p.recs, p.addrs[p.cur], now);
    var i :| 0 <= i < |p.addrs| && p.addrs[i] !in p.recs && p.addrs[i] != p.addrs[p.cur];
    NextIsHealthy(recs, p.addrs, p.cur, now, i);
    NextFromRange(recs, p.addrs, p.cur, now);
  }

  ghost predicate TakesOver(p: Pool, p': Pool)
    requires p.Ok()
  {
    p'.Ok() && p'.addrs == p.addrs && p'.recs.Keys == p.recs.Keys + {p.addrs[p.cur]} &&
    p'.addrs[p'.cur] !in p'.recs
  }

  /** How a lap leaves the ladder: a fresh lap on another source. */
  ghost predicate LapEnd(t: Tuning, s0: State, s: State, now: int)
    requires |t.backoff| > 0 && s0.Ok() && s0.dst.Some? && s0.src.Some?
  {
    Start(s) && s.dst.v.addrs == s0.dst.v.addrs && s.dst.v.recs == map[] &&
    s.dst.v.burns == s0.dst.v.burns + |s0.dst.v.addrs| &&
    s.src.v == PoolFail(t, s0.src.v, now) && TakesOver(s0.src.v, s.src.v)
  }

  lemma {:induction false} RunAppend(t: Tuning, s: State, x: seq<Call>, y: seq<Call>)
    requires |t.backoff| > 0 && s.Ok()
    ensures var e := Run(t, s, x); var f := Run(t, e.state, y);
            Run(t, s, x + y) == Trace(f.state, e.evs + f.evs)
    decreases |x|
  {
    hide Fail;
    if x == [] {
      assert x + y == y;
    } else {
      assert (x + y)[0] == x[0] && (x + y)[1..] == x[1..] + y;
      FailOk(t, s, x[0]);
      RunAppend(t, Fail(t, s, x[0]).state, x[1..], y);
    }
  }

  lemma RunOne(t: Tuning, s: State, c: Call)
    requires |t.backoff| > 0 && s.Ok()
    ensures Run(t, s, [c]) == Trace(Fail(t, s, c).state, [Fail(t, s, c).ev])
  {
    hide Fail;
    FailOk(t, s, c);
    assert [c][1..] == [];
  }

  /** The walks of a lap from the b-th on. */
  lemma {:induction false} LapFrom(t: Tuning, s0: State, s: State, b: nat, calls: seq<Call>)
    requires |t.backoff| > 0 && Start(s0) && Spare(s0.src.v) && Walks(s0, s, b) && Spent(t, s, 0) && s.Ok()
    requires Acting(calls) && |calls| == |Schedule(t.tries, s0.dst.v.addrs, s0.dst.v.cur, b)|
    ensures var e := Run(t, s, calls);
            e.evs == Schedule(t.tries, s0.dst.v.addrs, s0.dst.v.cur, b) && LapEnd(t, s0, e.state, calls[|calls| - 1].now)
    decreases |s0.dst.v.addrs| - b
  {
    hide Walks, Spent, Fail, Run, LapEnd, Rungs;
    var p := s0.dst.v;
    WalksBound(s0, s, b);
    RungsAre(t.tries, 0);
    var k := t.tries + 1;
    var head, c, rest := calls[..k], calls[k], calls[k + 1..];
    assert calls == (head + [c]) + rest;
    assert Acting(head) && Acting(rest);
    RunRungs(t, s0, s, b, 0, head);
    var m := Run(t, s, head);
    RunAppend(t, s, head, [c]);
    RunAppend(t, s, head + [c], rest);
    WalksOk(s0, m.state, b);
    RunOne(t, m.state, c);
    if b + 1 == |p.addrs| {
      WalkLast(t, s0, m.state, b, c);
      assert rest == [];
      RunNone(t, Run(t, s, head + [c]).state);
    } else {
      WalkOn(t, s0, m.state, b, c);
      WalksOk(s0, Fail(t, m.state, c).state, b + 1);
      LapFrom(t, s0, Fail(t, m.state, c).state, b + 1, rest);
    }
  }

  lemma WalksBound(s0: State, s: State, b: nat)
    requires s0.Ok() && s0.dst.Some? && Walks(s0, s, b)
    ensures b < |s0.dst.v.addrs|
  {
  }

  lemma RunNone(t: Tuning, s: State)
    requires |t.backoff| > 0 && s.Ok()
    ensures Run(t, s, []) == Trace(s, [])
  {
  }

  /**
   A whole lap: every walk is preceded by the full budget of redraws and one re-handshake, the
   walks burn the destinations in ring order, and the last one hands over to a healthy source.
   */
  lemma Lap(t: Tuning, s: State, calls: seq<Call>)
    requires |t.backoff| > 0 && Start(s) && Spare(s.src.v) && Acting(calls)
    requires |calls| == (t.tries + 2) * |s.dst.v.addrs| > 0
    ensures Run(t, s, calls).evs == Schedule(t.tries, s.dst.v.addrs, s.dst.v.cur, 0)
    ensures LapEnd(t, s, Run(t, s, calls).state, calls[|calls| - 1].now)
  {
    hide Run, Schedule, LapEnd;
    StartWalks(t, s);
    ScheduleLength(t.tries, s.dst.v.addrs, s.dst.v.cur, 0);
    LapFrom(t, s, s, 0, calls);
  }

  lemma StartWalks(t: Tuning, s: State)
    requires Start(s)
    ensures Walks(s, s, 0) && Spent(t, s, 0)
  {
    forall j | 0 <= j < |s.dst.v.addrs| ensures s.dst.v.addrs[Pos(s.dst.v.cur, j, |s.dst.v.addrs|)] !in s.dst.v.recs {
      assert s.dst.v.addrs[Pos(s.dst.v.cur, j, |s.dst.v.addrs|)] in s.dst.v.addrs;
    }
  }

  // ----- lap after lap

  /** The healthy sources in reserve. */
  ghost function Spares(p: Pool): (r: set<Addr>)
    requires p.Ok()
  {
    set x | x in p.addrs && x !in p.recs && x != p.addrs[p.cur]
  }

  lemma TakesOneSpare(p: Pool, p': Pool)
    requires p.Ok() && TakesOver(p, p')
    ensures p'.addrs[p'.cur] in Spares(p) && Spares(p') == Spares(p) - {p'.addrs[p'.cur]}
  {
  }

  ghost function AfterLaps(t: Tuning, s: State, laps: seq<seq<Call>>): (r: State)
    requires |t.backoff| > 0 && s.Ok()
    ensures r.Ok()
    decreases |laps|
  {
    if laps == [] then s else AfterLaps(t, Run(t, s, laps[0]).state, laps[1..])
  }

  /** Every lap uses up exactly one spare source, until none is left. */
  lemma {:induction false} LapAfterLap(t: Tuning, s: State, laps: seq<seq<Call>>)
    requires |t.backoff| > 0 && Start(s) && |laps| <= |Spares(s.src.v)|
    requires forall l :: l in laps ==> Acting(l) && |l| == (t.tries + 2) * |s.dst.v.addrs|
    ensures var e := AfterLaps(t, s, laps);
            Start(e) && Spares(e.src.v) <= Spares(s.src.v) && |Spares(e.src.v)| == |Spares(s.src.v)| - |laps|
    decreases |laps|
  {
    hide Run;
    if laps != [] {
      var l := laps[0];
      assert l in laps;
      SpareIff(s.src.v);
      OneLap(t, s, l);
      var n := Run(t, s, l).state;
      assert forall x :: x in laps[1..] ==> x in laps;
      LapAfterLap(t, n, laps[1..]);
    }
  }

  lemma SpareIff(p: Pool)
    requires p.Ok()
    ensures Spare(p) <==> Spares(p) != {}
  {
    if Spares(p) != {} {
      var x :| x in Spares(p);
      var i :| 0 <= i < |p.addrs| && p.addrs[i] == x;
    } else if i :| 0 <= i < |p.addrs| && p.addrs[i] !in p.recs && p.addrs[i] != p.addrs[p.cur] {
      assert p.addrs[i] in Spares(p);
    }
  }

  lemma OneLap(t: Tuning, s: State, l: seq<Call>)
    requires |t.backoff| > 0 && Start(s) && Spare(s.src.v) && Acting(l) && |l| == (t.tries + 2) * |s.dst.v.addrs|
    ensures var n := Run(t, s, l).state;
            Start(n) && n.dst.v.addrs == s.dst.v.addrs &&
            Spares(n.src.v) < Spares(s.src.v) && |Spares(n.src.v)| == |Spares(s.src.v)| - 1
  {
    hide Run, Schedule, Spares;
    Positive(t.tries, |s.dst.v.addrs|);
    Lap(t, s, l);
    var n := Run(t, s, l).state;
    TakesOneSpare(s.src.v, n.src.v);
  }

  lemma Positive(tries: nat, n: nat)
    requires n > 0
    ensures (tries + 2) * n > 0
  {
  }

  // ----- one axis, or none

  /** With destinations alone, a walk takes the current one out and goes to its healthy neighbour; no lap restores them. */
  lemma WalkDestinationOnly(t: Tuning, s: State, now: int)
    requires |t.backoff| > 0 && s.Ok() && s.dst.Some? && s.src.None?
    requires var p := s.dst.v; p.addrs[Pos(p.cur, 1, |p.addrs|)] !in p.recs.Keys + {p.addrs[p.cur]}
    ensures var o, p := Walk(t, s, now), s.dst.v;
            && o.state == s.(dst := o.state.dst, od := o.state.od) && o.state.dst.Some?
            && o.state.dst.v.addrs == p.addrs && o.state.dst.v.cur == Pos(p.cur, 1, |p.addrs|)
            && o.state.dst.v.recs.Keys == p.recs.Keys + {p.addrs[p.cur]}
            && o.ev == Walked(if Eligible(p.recs, p.addrs[p.cur], now) then [p.addrs[p.cur]] else [], true, false)
  {
    hide NextFrom, Burn, CountEligible, Eligible;
    var p := s.dst.v;
    BurnKeys(t, p.recs, p.addrs[p.cur], now);
    NextIsNeighbour(Burn(t, p.recs, p.addrs[p.cur], now), p.addrs, p.cur, now);
  }

  /** With sources alone, every walk burns the current one and hands over to a healthy one; the odometer stands still. */
  lemma WalkSourceOnly(t: Tuning, s: State, now: int)
    requires |t.backoff| > 0 && s.Ok() && s.dst.None? && s.src.Some? && Spare(s.src.v)
    ensures var o := Walk(t, s, now);
            && o.state == s.(src := o.state.src) && o.state.src.Some? && TakesOver(s.src.v, o.state.src.v)
            && o.ev == Walked([], true, true)
  {
    hide PoolFail;
    SpareTaken(t, s.src.v, now);
  }

  /** With neither there is nowhere to go. */
  lemma WalkNowhere(t: Tuning, s: State, now: int)
    requires |t.backoff| > 0 && s.Ok() && s.dst.None? && s.src.None?
    ensures Walk(t, s, now) == Out(s, Walked([], false, false))
  {
  }

  /** The rungs are refilled by a walk that moved, or when the revive clock fires; otherwise they stay spent. */
  lemma WalkRefills(t: Tuning, s: State, c: Call)
    requires |t.backoff| > 0 && s.Ok()
    ensures var o := Fail(t, s, c);
            if o.ev.Walked? && (o.ev.stepped || (c.revive && (s.port.armed || s.session.armed))) then
              o.state.port == s.port.(spent := 0) && o.state.session == s.session.(spent := 0)
            else if o.ev.Walked? then o.state.port == s.port && o.state.session == s.session
            else if o.ev.Redraw? then
              s.port.armed && s.port.spent < t.tries && o.state == s.(port := s.port.(spent := s.port.spent + 1))
            else s.session == Rung(true, 0) && o.state == s.(session := Rung(true, 1))
  {
    hide PoolFail, CountEligible;
    WalkOk(t, s, c.now);
  }

  function OdoAfter(o: Odometer, eligible: seq<nat>): (r: Odometer) {
    if eligible == [] then o else OdoFailed(OdoAfter(o, eligible[..|eligible| - 1]), eligible[|eligible| - 1])
  }

  /** A lap takes as many failures as addresses were eligible at its first one, however many are later. */
  lemma {:induction false} OdoRun(o: Odometer, eligible: seq<nat>)
    requires o.rot == 0 && 1 <= |eligible| <= (if eligible[0] == 0 then 1 else eligible[0])
    ensures var r := OdoAfter(o, eligible);
            r.want == eligible[0] && r.rot == if |eligible| >= eligible[0] then 0 else |eligible|
    decreases |eligible|
  {
    var n := |eligible| - 1;
    if n > 0 { OdoRun(o, eligible[..n]); }
  }

  /** A lap that finds no other source restores nothing. */
  lemma LapAlone(t: Tuning, s: State, now: int)
    requires |t.backoff| > 0 && s.Ok() && s.dst.Some? && s.src.Some? && |s.src.v.addrs| == 1
    ensures var o, p := Walk(t, s, now), s.dst.v;
            && !o.ev.srcMoved && o.state.dst.Some? && o.state.dst.v.recs.Keys == p.recs.Keys + {p.addrs[p.cur]}
            && o.state.src.Some? && o.state.src.v.cur == s.src.v.cur
  {
    hide NextFrom, Burn, CountEligible, Eligible;
    BurnKeys(t, s.dst.v.recs, s.dst.v.addrs[s.dst.v.cur], now);
    NextFromRange(Burn(t, s.src.v.recs, s.src.v.addrs[s.src.v.cur], now), s.src.v.addrs, s.src.v.cur, now);
  }
}
