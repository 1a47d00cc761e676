/**
 Whose rule a remover removes: over every run the removers held for an address came from
 attempts for that address, and the addresses in use have their rules in place.
 */
module AntiLeakRules {
  import opened AntiLeak
  import opened Counting
  import opened Options

  /** Attempt n was made for ip and put its rule in. */
  ghost predicate Installed(s: State, ans: Answers, n: nat, ip: IP) {
    n < |s.asks| && s.asks[n] == ip && ans(n).ok
  }

  /** The remover is that of a rule for ip; a rule that comes without a remover stays in for good. */
  ghost predicate RuleOf(s: State, ans: Answers, fn: Opt<nat>, ip: IP) {
    if fn.Some? then Installed(s, ans, fn.v, ip)
    else exists n: nat :: Installed(s, ans, n, ip) && !ans(n).handle
  }

  /** Every remover is held under the address whose rule it removes. */
  ghost predicate Addressed(s: State, ans: Answers) {
    && (s.cur.Some? ==> s.curIP.Some?)
    && (s.curIP.Some? ==> RuleOf(s, ans, s.cur, s.curIP.v))
    && (forall i :: 0 <= i < |s.pending| ==> LingerOf(s, ans, s.pending[i]))
    && (forall ip :: ip in s.fixed ==> RuleOf(s, ans, s.fixed[ip], ip))
  }

  ghost predicate LingerOf(s: State, ans: Answers, l: Linger) {
    l.ip.Some? && Installed(s, ans, l.remove, l.ip.v)
  }

  /** A rule for ip is in: an attempt for it succeeded, and its remover, if there is one, was not called. */
  ghost predicate InPlace(s: State, ans: Answers, ip: IP) {
    exists n: nat :: Installed(s, ans, n, ip) && (ans(n).handle ==> Times(s.called, n) == 0)
  }

  /** More attempts change nothing about those already made. */
  lemma RuleStays(s: State, t: State, ans: Answers, fn: Opt<nat>, ip: IP)
    requires RuleOf(s, ans, fn, ip) && |s.asks| <= |t.asks| && t.asks[..|s.asks|] == s.asks
    ensures RuleOf(t, ans, fn, ip)
  {
    assert forall n: nat :: n < |s.asks| ==> t.asks[n] == s.asks[n];
    if fn.None? {
      var n: nat :| Installed(s, ans, n, ip) && !ans(n).handle;
      assert Installed(t, ans, n, ip);
    }
  }

  /** Same rules, some of the lingering ones gone, perhaps more attempts. */
  lemma Fewer(s: State, t: State, ans: Answers)
    requires Addressed(s, ans) && |s.asks| <= |t.asks| && t.asks[..|s.asks|] == s.asks
    requires t.cur == s.cur && t.curIP == s.curIP && t.fixed == s.fixed
    requires forall l :: l in t.pending ==> l in s.pending
    ensures Addressed(t, ans)
  {
    if s.curIP.Some? { RuleStays(s, t, ans, s.cur, s.curIP.v); }
    forall i | 0 <= i < |t.pending| ensures LingerOf(t, ans, t.pending[i]) {
      assert t.pending[i] in s.pending;
      var j :| 0 <= j < |s.pending| && s.pending[j] == t.pending[i];
      assert LingerOf(s, ans, s.pending[j]);
      RuleStays(s, t, ans, Some(s.pending[j].remove), s.pending[j].ip.v);
    }
    forall ip | ip in t.fixed ensures RuleOf(t, ans, t.fixed[ip], ip) { RuleStays(s, t, ans, s.fixed[ip], ip); }
  }

  /** What a claim changes besides its result. */
  lemma ClaimShape(s: State, ans: Answers, ip: IP)
    ensures var t := Claim(s, ans, ip).s;
            && |s.asks| <= |t.asks| && t.asks[..|s.asks|] == s.asks
            && t.cur == s.cur && t.curIP == s.curIP && t.fixed == s.fixed && t.closed == s.closed && t.want == s.want
            && (forall l :: l in t.pending ==> l in s.pending)
  {
  }

  /** A claim that succeeds yields a rule of its address; one that fails has asked for it and arms the retry. */
  lemma ClaimRight(s: State, ans: Answers, ip: IP)
    requires Addressed(s, ans)
    ensures var c := Claim(s, ans, ip);
            && Addressed(c.s, ans) && (c.ok ==> RuleOf(c.s, ans, c.fn, ip))
            && (c.ok ==> c.s.retry == s.retry && c.s.called == s.called)
            && (!c.ok ==> c.s.asks == s.asks + [ip] && !ans(|s.asks|).ok && (s.closed || c.s.retry))
            && ((exists l :: l in s.pending && l.ip == Some(ip)) ==> c.ok && c.s.asks == s.asks)
  {
    var c := Claim(s, ans, ip);
    var i := Find(s.pending, ip);
    ClaimShape(s, ans, ip);
    Fewer(s, c.s, ans);
    if i < |s.pending| {
      assert LingerOf(s, ans, s.pending[i]);
    } else if c.ok {
      assert c.s.asks[|s.asks|] == ip;
      assert Installed(c.s, ans, |s.asks|, ip);
    }
  }

  /** Room is made by removing the oldest lingering rules, and no more of them than needed. */
  lemma {:induction false} ShedSome(s: State)
    ensures var t := Shed(s);
            var k := if |s.pending| < MAX_LINGER then 0 else |s.pending| - MAX_LINGER + 1;
            t == s.(pending := s.pending[k..], called := s.called + Removers(s.pending[..k]))
    decreases |s.pending|
  {
    hide Removers, Drop, Without;
    if |s.pending| >= MAX_LINGER {
      DropFirst(s, |s.pending| - MAX_LINGER + 1);
      ShedSome(Drop(s, 0));
    } else {
      NoneShed(s);
    }
  }

  lemma NoneShed(s: State)
    ensures s == s.(pending := s.pending[0..], called := s.called + Removers(s.pending[..0]))
  {
    assert s.pending[0..] == s.pending && Removers(s.pending[..0]) == [];
    assert s.called + [] == s.called;
  }

  lemma DropFirst(s: State, k: nat)
    requires 1 <= k <= |s.pending|
    ensures var d := Drop(s, 0);
            && d == s.(pending := s.pending[1..], called := d.called)
            && d.pending[k - 1..] == s.pending[k..]
            && d.called + Removers(d.pending[..k - 1]) == s.called + Removers(s.pending[..k])
  {
    hide Removers;
    var d, p := Drop(s, 0), s.pending[..k];
    assert d.pending == s.pending[1..];
    RemoversCons(p);
    assert p[1..] == d.pending[..k - 1] && p[0] == s.pending[0];
    var first, rest := [s.pending[0].remove], Removers(d.pending[..k - 1]);
    assert d.called == s.called + first;
    assert s.called + (first + rest) == s.called + first + rest;
  }

  function Removers(pending: seq<Linger>): (r: seq<nat>) {
    seq(|pending|, i requires 0 <= i < |pending| => pending[i].remove)
  }

  lemma RemoversCons(pending: seq<Linger>)
    ensures Removers(pending) == if pending == [] then [] else [pending[0].remove] + Removers(pending[1..])
  {
  }

  /** The replaced rule joins the end of the list; the oldest ones leave it when it is full. */
  lemma LingerRight(s: State, ans: Answers, ip: IP, remove: nat)
    requires Addressed(s, ans) && Installed(s, ans, remove, ip)
    ensures Addressed(LingerOn(s, Some(ip), remove), ans)
    ensures var t := LingerOn(s, Some(ip), remove);
            t.asks == s.asks && t.fixed == s.fixed && t.cur == s.cur && t.curIP == s.curIP && t.retry == s.retry && t.wait == s.wait
  {
    hide Shed, RuleOf;
    ShedSome(s);
    Fewer(s, Shed(s), ans);
    var u, t := Shed(s), LingerOn(s, Some(ip), remove);
    assert t.asks[..|u.asks|] == u.asks;
    forall i | 0 <= i < |t.pending| ensures LingerOf(t, ans, t.pending[i]) {
      if i < |u.pending| { assert LingerOf(u, ans, u.pending[i]); }
    }
    if t.curIP.Some? { RuleStays(u, t, ans, u.cur, u.curIP.v); }
    forall k | k in t.fixed ensures RuleOf(t, ans, t.fixed[k], k) { RuleStays(u, t, ans, u.fixed[k], k); }
  }

  // ----- every step keeps the addresses right

  lemma ApplyRight(s: State, ans: Answers)
    requires Addressed(s, ans)
    ensures Addressed(Apply(s, ans), ans)
  {
    hide Claim, LingerOn, RuleOf, LingerOf;
    if !(s.closed || s.want.None? || s.curIP == s.want || s.want.v in s.fixed) {
      ClaimRight(s, ans, s.want.v);
      ClaimShape(s, ans, s.want.v);
      var c := Claim(s, ans, s.want.v);
      if c.ok {
        var t := c.s.(wait := 0, cur := c.fn, curIP := s.want);
        Pointed(c.s, t, ans);
        if s.cur.Some? {
          Behind(c.s, t, ans);
          LingerRight(t, ans, s.curIP.v, s.cur.v);
        }
      }
    }
  }

  /** Another rule becomes the current one. */
  lemma Pointed(s: State, t: State, ans: Answers)
    requires Addressed(s, ans) && t == s.(wait := t.wait, cur := t.cur, curIP := t.curIP)
    requires t.curIP.Some? && RuleOf(s, ans, t.cur, t.curIP.v)
    ensures Addressed(t, ans)
  {
    assert t.asks[..|s.asks|] == s.asks;
    RuleStays(s, t, ans, t.cur, t.curIP.v);
    forall i | 0 <= i < |t.pending| ensures LingerOf(t, ans, t.pending[i]) { assert LingerOf(s, ans, s.pending[i]); }
    forall ip | ip in t.fixed ensures RuleOf(t, ans, t.fixed[ip], ip) { RuleStays(s, t, ans, s.fixed[ip], ip); }
  }

  lemma Behind(s: State, t: State, ans: Answers)
    requires Addressed(s, ans) && s.cur.Some? && t.asks == s.asks
    ensures s.curIP.Some? && Installed(t, ans, s.cur.v, s.curIP.v)
  {
  }

  /** The two invariants together. */
  ghost predicate Sound(s: State, ans: Answers) {
    Inv(s, ans) && Addressed(s, ans)
  }

  lemma InitSound(ans: Answers)
    ensures Sound(INIT, ans)
  {
    InitInv(ans);
    Emptied(INIT, ans);
  }

  lemma StepSound(s: State, ans: Answers, e: Event, t: State)
    requires Sound(s, ans) && Step(s, ans, e, t)
    ensures Sound(t, ans)
  {
    hide Inv, Addressed, Step;
    StepKeeps(s, ans, e, t);
    StepRight(s, ans, e, t);
  }

  lemma FixRight(s: State, ans: Answers, ip: IP)
    requires Addressed(s, ans)
    ensures Addressed(Fix(s, ans, ip), ans)
  {
    hide Claim, RuleOf, LingerOf;
    if ip !in s.fixed {
      ClaimRight(s, ans, ip);
      ClaimShape(s, ans, ip);
      var c := Claim(s, ans, ip);
      if c.ok { Kept(c.s, ans, ip, c.fn); }
    }
  }

  lemma Kept(s: State, ans: Answers, ip: IP, fn: Opt<nat>)
    requires Addressed(s, ans) && RuleOf(s, ans, fn, ip)
    ensures Addressed(s.(fixed := s.fixed[ip := fn]), ans)
  {
    var t := s.(fixed := s.fixed[ip := fn]);
    assert t.asks[..|s.asks|] == s.asks;
    if s.curIP.Some? { RuleStays(s, t, ans, s.cur, s.curIP.v); }
    forall i | 0 <= i < |t.pending| ensures LingerOf(t, ans, t.pending[i]) { assert LingerOf(s, ans, s.pending[i]); }
    forall k | k in t.fixed ensures RuleOf(t, ans, t.fixed[k], k) { RuleStays(s, t, ans, t.fixed[k], k); }
  }

  lemma {:induction false} FixAllRight(s: State, ans: Answers, ips: seq<IP>)
    requires Addressed(s, ans)
    ensures Addressed(FixAll(s, ans, ips), ans)
    decreases |ips|
  {
    hide Addressed, Fix;
    if ips != [] {
      FixRight(s, ans, ips[0]);
      FixAllRight(Fix(s, ans, ips[0]), ans, ips[1..]);
    }
  }

  lemma FixAllSound(s: State, ans: Answers, ips: seq<IP>)
    requires Sound(s, ans)
    ensures Sound(FixAll(s, ans, ips), ans)
  {
    hide Inv, Addressed;
    FixAllKeeps(s, ans, ips);
    FixAllRight(s, ans, ips);
  }

  /** Settings that hold no remover. */
  lemma SameRules(s: State, t: State, ans: Answers)
    requires Sound(s, ans) && t == s.(want := t.want, known := t.known, retry := t.retry, closed := t.closed)
    ensures Sound(t, ans)
  {
    hide Inv, Addressed;
    SameCounts(s, t, ans);
    Unmoved(s, t, ans);
  }

  lemma StepRight(s: State, ans: Answers, e: Event, t: State)
    requires Addressed(s, ans) && Step(s, ans, e, t)
    ensures Addressed(t, ans)
  {
    hide Addressed, Apply, FixAll, Held, Times;
    match e
    case Wants(ip) => Unmoved(s, t, ans);
    case Applies => ApplyRight(s, ans);
    case ScopesAll(ips) =>
      Unmoved(s, s.(known := ips), ans);
      FixAllRight(s.(known := ips), ans, ips);
    case Expires(i) => Expired(s, ans, i);
    case Retries =>
      Unmoved(s, s.(retry := false), ans);
      FixAllRight(s.(retry := false), ans, s.known);
    case Closes => Unmoved(s, t, ans);
    case TearsDown => Emptied(t, ans);
  }

  lemma Unmoved(s: State, t: State, ans: Answers)
    requires Addressed(s, ans) && t == s.(want := t.want, known := t.known, retry := t.retry, closed := t.closed)
    ensures Addressed(t, ans)
  {
    assert t.asks[..|s.asks|] == s.asks;
    Fewer(s, t, ans);
  }

  lemma Expired(s: State, ans: Answers, i: nat)
    requires Addressed(s, ans) && i < |s.pending|
    ensures Addressed(Drop(s, i), ans)
  {
    assert Drop(s, i).asks[..|s.asks|] == s.asks;
    Fewer(s, Drop(s, i), ans);
  }

  lemma Emptied(t: State, ans: Answers)
    requires t.cur.None? && t.curIP.None? && t.pending == [] && t.fixed == map[]
    ensures Addressed(t, ans)
  {
  }

  /** Over every run each remover held is one of a rule for the address it is held under. */
  lemma {:induction false} RunRight(trace: seq<State>, ans: Answers, events: seq<Event>, i: nat)
    requires Run(trace, ans, events) && i < |trace|
    ensures Addressed(trace[i], ans)
    decreases i
  {
    if i == 0 {
      Emptied(INIT, ans);
    } else {
      hide Addressed, Step;
      RunRight(trace, ans, events, i - 1);
      StepRight(trace[i - 1], ans, events[i - 1], trace[i - 1 + 1]);
    }
  }

  /** The addresses covered, by the current rule or by one kept until teardown, have their rules in place. */
  lemma CoveredInPlace(s: State, ans: Answers, ip: IP)
    requires Inv(s, ans) && Addressed(s, ans)
    requires s.curIP == Some(ip) || ip in s.fixed
    ensures InPlace(s, ans, ip)
  {
    hide Inv, Times, Waiting;
    var fn := if s.curIP == Some(ip) then s.cur else s.fixed[ip];
    assert RuleOf(s, ans, fn, ip);
    if fn.Some? {
      ExactlyOnePlace(s, ans, fn.v);
      if s.curIP != Some(ip) { assert ip in Homes(s.fixed, fn.v); }
      assert Held(s, fn.v) >= 1;
    }
  }

  lemma RunInPlace(trace: seq<State>, ans: Answers, events: seq<Event>, i: nat, ip: IP)
    requires Run(trace, ans, events) && i < |trace|
    requires trace[i].curIP == Some(ip) || ip in trace[i].fixed
    ensures InPlace(trace[i], ans, ip)
  {
    hide Run, Inv, Addressed, InPlace;
    RunKeeps(trace, ans, events, i);
    RunRight(trace, ans, events, i);
    CoveredInPlace(trace[i], ans, ip);
  }

  // ----- what an apply achieves

  /** The three ways an apply can go; of four rules that linger already, the oldest alone makes room. */
  lemma ApplyOutcome(s: State, ans: Answers)
    requires Inv(s, ans) && s.want.Some? && !s.closed
    ensures var t, c := Apply(s, ans), Claim(s, ans, s.want.v);
            if s.curIP == s.want || s.want.v in s.fixed then t == s
            else if !c.ok then t == c.s
            else
              var left := c.s.pending;
              var k := if |left| == 4 then 1 else 0;
              && t == c.s.(wait := 0, cur := c.fn, curIP := s.want, pending := t.pending, called := t.called)
              && (s.cur.None? ==> t.pending == left && t.called == c.s.called)
              && (s.cur.Some? ==>
                    && t.pending == left[k..] + [Linger(s.curIP, s.cur.v)]
                    && t.called == c.s.called + Removers(left[..k]))
  {
    hide Claim, Shed, Removers, Balanced;
    var c := Claim(s, ans, s.want.v);
    ClaimSame(s, ans, s.want.v);
    ShedSome(c.s.(wait := 0, cur := c.fn, curIP := s.want));
  }

  /**
   After an apply the wanted address has its rule in place, or an attempt for it failed, the rule
   in use is untouched and a retry is armed. A lingering rule of the address is taken back without
   asking again, and the replaced rule lingers under its own address.
   */
  lemma ApplyCovers(s: State, ans: Answers)
    requires Inv(s, ans) && Addressed(s, ans) && !s.closed && s.want.Some?
    ensures var t, ip := Apply(s, ans), s.want.v;
            && (if t.curIP == s.want || ip in t.fixed then InPlace(t, ans, ip)
                else t.asks == s.asks + [ip] && !ans(|s.asks|).ok && t.retry && t.cur == s.cur && t.curIP == s.curIP)
            && t.fixed == s.fixed
            && ((exists l :: l in s.pending && l.ip == s.want) ==> t.asks == s.asks && (t.curIP == s.want || ip in t.fixed))
            && (t.curIP != s.curIP ==> t.curIP == s.want && t.wait == 0 && t.retry == s.retry)
            && (t.curIP != s.curIP && s.cur.Some? ==> t.pending != [] && t.pending[|t.pending| - 1] == Linger(s.curIP, s.cur.v))
  {
    hide Inv, Addressed, InPlace, Claim, Apply;
    ApplyKeeps(s, ans);
    ApplyRight(s, ans);
    ClaimRight(s, ans, s.want.v);
    ClaimShape(s, ans, s.want.v);
    ApplyOutcome(s, ans);
    var t, c := Apply(s, ans), Claim(s, ans, s.want.v);
    if t.curIP == s.want || s.want.v in t.fixed { CoveredInPlace(t, ans, s.want.v); }
  }

  lemma AfterApply(s: State, ans: Answers)
    requires Sound(s, ans)
    ensures var t := Apply(s, ans);
            t.closed == s.closed && t.want == s.want &&
            (!t.closed && t.want.Some? ==>
               if t.curIP == t.want || t.want.v in t.fixed then InPlace(t, ans, t.want.v) else t.retry)
  {
    hide Inv, Addressed, InPlace, Claim;
    if !s.closed && s.want.Some? {
      ApplyCovers(s, ans);
      ClaimShape(s, ans, s.want.v);
      ApplyOutcome(s, ans);
    }
  }

  // ----- known addresses and the retry

  /** Every known address has a rule kept until teardown, or a retry is armed. */
  lemma {:induction false} KnownCovered(s: State, ans: Answers, ips: seq<IP>)
    requires !s.closed
    ensures var t := FixAll(s, ans, ips);
            && !t.closed && (s.retry ==> t.retry)
            && (forall ip :: ip in s.fixed ==> ip in t.fixed && t.fixed[ip] == s.fixed[ip])
            && forall ip :: ip in ips ==> ip in t.fixed || t.retry
    decreases |ips|
  {
    hide Fix;
    if ips != [] {
      FixCovers(s, ans, ips[0]);
      KnownCovered(Fix(s, ans, ips[0]), ans, ips[1..]);
      assert forall ip :: ip in ips ==> ip == ips[0] || ip in ips[1..];
    }
  }

  lemma FixCovers(s: State, ans: Answers, ip: IP)
    requires !s.closed
    ensures var t := Fix(s, ans, ip);
            && !t.closed && (s.retry ==> t.retry) && (ip in t.fixed || t.retry)
            && (forall k :: k in s.fixed ==> k in t.fixed && t.fixed[k] == s.fixed[k])
  {
  }

  /** The wait of the i-th retry in a row. */
  function WaitAfter(i: nat): (w: nat) {
    if i == 0 then 0 else Wait(WaitAfter(i - 1))
  }

  /** The waits double from two seconds up to a minute. */
  lemma {:induction false} WaitDoubles(i: nat)
    requires i >= 1
    ensures WaitAfter(i) == if i <= 5 then [2, 4, 8, 16, 32][i - 1] else 60
    decreases i
  {
    if i > 1 { WaitDoubles(i - 1); }
  }

  /** A failed claim arms the next retry of the row. */
  lemma FailureArms(s: State, ans: Answers, ip: IP, i: nat)
    requires !s.closed && !s.retry && s.wait == WaitAfter(i) && !Claim(s, ans, ip).ok
    ensures Claim(s, ans, ip).s.retry && Claim(s, ans, ip).s.wait == WaitAfter(i + 1)
  {
  }
}
