/** The object of internal/packet/antileak_linux.go, operation by operation. */
module AntiLeaker {
  import opened AntiLeak
  import opened AntiLeakRules
  import opened Counting
  import opened Options

  class Leaker {
    /** The answers of the installer. */
    const ans: Answers
    var cur: Opt<nat>
    var curIP: Opt<IP>
    var want: Opt<IP>
    var retry: bool
    var wait: nat
    var pending: seq<Linger>
    var known: seq<IP>
    var fixed: map<IP, Opt<nat>>
    var closed: bool
    var asks: seq<IP>
    var called: seq<nat>

    constructor (ans: Answers)
      ensures Value() == INIT && this.ans == ans && Sound(Value(), ans)
    {
      this.ans := ans;
      cur, curIP, want, retry, wait := None, None, None, false, 0;
      pending, known, fixed, closed, asks, called := [], [], map[], false, [], [];
      InitSound(ans);
    }

    function Value(): (s: State)
      reads this
    {
      State(cur, curIP, want, retry, wait, pending, known, fixed, closed, asks, called)
    }

    method CallRemover(n: nat)
      modifies this`called
      ensures called == old(called) + [n]
    {
      called := called + [n];
    }

    /** Asks the installer for a rule for ip; attempt n hands out remover n. */
    method Install(ip: IP) returns (fn: Opt<nat>, ok: bool)
      modifies this`asks
      ensures asks == old(asks) + [ip] && ok == ans(|old(asks)|).ok
      ensures fn == if ans(|old(asks)|).handle then Some(|old(asks)|) else None
    {
      var a := ans(|asks|);
      fn, ok := if a.handle then Some(|asks|) else None, a.ok;
      asks := asks + [ip];
    }

    /** Takes the first lingering rule for ip out of the list. */
    method TakeLingering(ip: IP) returns (fn: Opt<nat>, ok: bool)
      modifies this`pending
      ensures var i := Find(old(pending), ip);
              if i < |old(pending)| then ok && fn == Some(old(pending)[i].remove) && pending == Without(old(pending), i)
              else !ok && fn == None && pending == old(pending)
    {
      hide Find;
      var i := 0;
      FindStep(pending, 0, ip);
      while i < |pending|
        invariant 0 <= i <= |pending| && pending == old(pending)
        invariant Find(pending, ip) == i + Find(pending[i..], ip)
      {
        FindStep(pending, i, ip);
        if pending[i].ip == Some(ip) {
          fn := Some(pending[i].remove);
          pending := pending[..i] + pending[i + 1..];
          return fn, true;
        }
        i := i + 1;
      }
      FindStep(pending, i, ip);
      return None, false;
    }

    method DropLingering(i: nat)
      requires i < |pending|
      modifies this`pending, this`called
      ensures Value() == Drop(old(Value()), i)
    {
      var p := pending[i];
      pending := pending[..i] + pending[i + 1..];
      CallRemover(p.remove);
    }

    method ArmRetryTimer()
      modifies this`retry, this`wait
      ensures Value() == ArmRetry(old(Value()))
    {
      if retry || closed {
        return;
      }
      if wait == 0 {
        wait := RETRY_MIN;
      } else if wait < RETRY_MAX {
        wait := 2 * wait;
      }
      if wait > RETRY_MAX {
        wait := RETRY_MAX;
      }
      retry := true;
    }

    method ClaimRule(ip: IP) returns (fn: Opt<nat>, ok: bool)
      modifies this`pending, this`asks, this`called, this`retry, this`wait
      ensures Claimed(Value(), fn, ok) == Claim(old(Value()), ans, ip)
    {
      hide Find, Without, ArmRetry;
      fn, ok := TakeLingering(ip);
      if fn == None && !ok {
        fn, ok := Install(ip);
      }
      if !ok {
        if fn.Some? {
          CallRemover(fn.v);
        }
        ArmRetryTimer();
      }
    }

    method LingerRule(ip: Opt<IP>, remove: nat)
      modifies this`pending, this`called
      ensures Value() == LingerOn(old(Value()), ip, remove)
    {
      hide Drop;
      while |pending| >= MAX_LINGER
        invariant Value() == old(Value()).(pending := pending, called := called)
        invariant Shed(Value()) == Shed(old(Value()))
        decreases |pending|
      {
        DropShrinks(Value());
        DropLingering(0);
      }
      pending := pending + [Linger(ip, remove)];
    }

    /** Every operation keeps the balance of removers and each of them under its address; the wanted address gets its rule. */
    method ApplyWanted()
      requires Sound(Value(), ans)
      modifies this
      ensures Value() == Apply(old(Value()), ans) && Sound(Value(), ans)
      ensures !closed && want.Some? ==>
                if curIP == want || want.v in fixed then InPlace(Value(), ans, want.v) else retry
    {
      hide Sound, Claim, LingerOn;
      StepSound(Value(), ans, Applies, Apply(Value(), ans));
      AfterApply(Value(), ans);
      if closed || want == None || curIP == want || want.v in fixed {
        return;
      }
      var v4 := want.v;
      ghost var was := Value();
      var fn, ok := ClaimRule(v4);
      if !ok {
        return;
      }
      ClaimCur(was, ans, v4);
      wait := 0;
      var oldFn, oldIP := cur, curIP;
      cur, curIP := fn, Some(v4);
      if oldFn.Some? {
        LingerRule(oldIP, oldFn.v);
      }
    }

    /** Installs a rule for each known address that has none yet. */
    method ApplyKnownRules()
      requires Sound(Value(), ans)
      modifies this
      ensures Value() == ApplyKnown(old(Value()), ans) && Sound(Value(), ans)
    {
      hide Sound, Fix;
      if closed {
        return;
      }
      FixAllSound(Value(), ans, known);
      var ips := known;
      var i := 0;
      while i < |ips|
        invariant 0 <= i <= |ips|
        invariant FixAll(Value(), ans, ips[i..]) == FixAll(old(Value()), ans, ips)
      {
        assert ips[i..][1..] == ips[i + 1..];
        FixRule(ips[i]);
        i := i + 1;
      }
    }

    method FixRule(ip: IP)
      modifies this
      ensures Value() == Fix(old(Value()), ans, ip)
    {
      hide Claim;
      if ip in fixed {
        return;
      }
      ghost var was := Value();
      var fn, ok := ClaimRule(ip);
      if ok {
        ClaimCur(was, ans, ip);
        fixed := fixed[ip := fn];
      }
    }

    method ScopeAll(ips: seq<IP>)
      requires Sound(Value(), ans)
      modifies this
      ensures Step(old(Value()), ans, ScopesAll(ips), Value()) && Sound(Value(), ans)
    {
      hide Sound, ApplyKnown;
      SameRules(Value(), Value().(known := ips), ans);
      known := ips;
      ApplyKnownRules();
    }

    /** The retry timer fires. */
    method RetryFires()
      requires Sound(Value(), ans)
      modifies this
      ensures Step(old(Value()), ans, Retries, Value()) && Sound(Value(), ans)
    {
      hide Sound, ApplyKnown;
      SameRules(Value(), Value().(retry := false), ans);
      retry := false;
      ApplyKnownRules();
    }

    /** The linger timer of the i-th lingering rule fires. */
    method Expire(i: nat)
      requires Sound(Value(), ans) && i < |pending|
      modifies this
      ensures Step(old(Value()), ans, Expires(i), Value()) && Sound(Value(), ans)
    {
      hide Sound;
      StepSound(Value(), ans, Expires(i), Drop(Value(), i));
      DropLingering(i);
    }

    /** Calls every remover still held, exactly once, and holds nothing afterwards. */
    method Teardown()
      requires Sound(Value(), ans)
      modifies this
      ensures TornDown(old(Value()), Value()) && Sound(Value(), ans)
    {
      hide Sound, Held, Times, Drop, Moves;
      ghost var start := Value();
      retry := false;
      HeldSame(start, Value());
      DropAll(start);
      CallFixed(start);
      HeldSame(Value(), Value().(known := []));
      known := [];
      CallCurrent(start);
      NothingHeld(start, Value());
      StepSound(start, ans, TearsDown, Value());
    }

    /** The loop of teardown over the lingering rules. */
    method DropAll(ghost start: State)
      requires Moves(start, Value())
      modifies this`pending, this`called
      ensures Value() == old(Value()).(pending := [], called := called)
      ensures Moves(start, Value())
    {
      hide Held, Times, Drop, Moves;
      while |pending| > 0
        invariant Value() == old(Value()).(pending := pending, called := called)
        invariant Moves(start, Value())
        decreases |pending|
      {
        DropMoves(start, Value(), 0);
        DropShrinks(Value());
        DropLingering(0);
      }
    }

    method CallCurrent(ghost start: State)
      requires Moves(start, Value())
      modifies this`cur, this`curIP, this`called
      ensures Value() == old(Value()).(cur := None, curIP := None, called := called)
      ensures Moves(start, Value())
    {
      hide Held, Times, Moves;
      if cur.Some? {
        ghost var was := Value();
        CallRemover(cur.v);
        CurMoves(start, was, Value().(cur := None, curIP := None));
      } else {
        HeldSame(Value(), Value().(cur := None, curIP := None));
      }
      cur, curIP := None, None;
    }

    /** The loop of teardown over the rules of known addresses, in any order. */
    method CallFixed(ghost start: State)
      requires pending == [] && Moves(start, Value())
      modifies this`fixed, this`called
      ensures Value() == old(Value()).(fixed := map[], called := called)
      ensures Moves(start, Value())
    {
      hide Held, Times, Moves;
      while fixed != map[]
        invariant Value() == old(Value()).(fixed := fixed, called := called)
        invariant Moves(start, Value())
        decreases |fixed|
      {
        ghost var was := Value();
        var k := AnyKey(fixed);
        if fixed[k].Some? {
          CallRemover(fixed[k].v);
        }
        FixedMoves(start, was, k, Value().(fixed := fixed - {k}));
        SmallerMap(fixed, k);
        fixed := fixed - {k};
      }
    }
  }

  /** Between start and s removers only moved from being held to being called. */
  ghost predicate Moves(start: State, s: State) {
    forall n: nat :: Held(s, n) + Times(s.called, n) == Held(start, n) + Times(start.called, n)
  }

  lemma HeldSame(s: State, t: State)
    requires t.pending == s.pending && t.fixed == s.fixed && t.called == s.called && t.cur == s.cur
    ensures Moves(s, s) && Moves(s, t) && forall start :: Moves(start, s) ==> Moves(start, t)
  {
    hide Times;
    assert forall n: nat :: Held(t, n) == Held(s, n);
  }

  lemma DropMoves(start: State, s: State, i: nat)
    requires Moves(start, s) && i < |s.pending|
    ensures Moves(start, Drop(s, i))
  {
    forall n: nat ensures Held(Drop(s, i), n) + Times(Drop(s, i).called, n) == Held(start, n) + Times(start.called, n) {
      DropCounts(s, i, n);
    }
  }

  lemma DropCounts(s: State, i: nat, n: nat)
    requires i < |s.pending|
    ensures Held(Drop(s, i), n) + Times(Drop(s, i).called, n) == Held(s, n) + Times(s.called, n)
  {
    hide Waiting, Fixed, Times, Without;
    WithoutWaits(s.pending, i, n);
    TimesMore(s.called, s.pending[i].remove, n);
  }

  lemma FixedMoves(start: State, s: State, k: IP, t: State)
    requires Moves(start, s) && k in s.fixed && t == s.(fixed := s.fixed - {k}, called := t.called)
    requires t.called == if s.fixed[k].Some? then s.called + [s.fixed[k].v] else s.called
    ensures Moves(start, t)
  {
    forall n: nat ensures Held(t, n) + Times(t.called, n) == Held(start, n) + Times(start.called, n) {
      FixedCounts(s, k, t, n);
    }
  }

  lemma FixedCounts(s: State, k: IP, t: State, n: nat)
    requires k in s.fixed && t == s.(fixed := s.fixed - {k}, called := t.called)
    requires t.called == if s.fixed[k].Some? then s.called + [s.fixed[k].v] else s.called
    ensures Held(t, n) + Times(t.called, n) == Held(s, n) + Times(s.called, n)
  {
    hide Waiting, Fixed, Times;
    assert s.fixed == t.fixed[k := s.fixed[k]];
    FixedAdds(t.fixed, k, s.fixed[k], n);
    if s.fixed[k].Some? { TimesMore(s.called, s.fixed[k].v, n); }
  }

  lemma CurMoves(start: State, s: State, t: State)
    requires Moves(start, s) && s.cur.Some?
    requires t == s.(cur := None, curIP := None, called := s.called + [s.cur.v])
    ensures Moves(start, t)
  {
    forall n: nat ensures Held(t, n) + Times(t.called, n) == Held(start, n) + Times(start.called, n) {
      CurCounts(s, t, n);
    }
  }

  lemma CurCounts(s: State, t: State, n: nat)
    requires s.cur.Some? && t == s.(cur := None, curIP := None, called := s.called + [s.cur.v])
    ensures Held(t, n) + Times(t.called, n) == Held(s, n) + Times(s.called, n)
  {
    hide Waiting, Fixed, Times;
    TimesMore(s.called, s.cur.v, n);
  }

  lemma NothingHeld(start: State, t: State)
    requires Moves(start, t) && t.cur.None? && t.pending == [] && t.fixed == map[]
    ensures forall n: nat :: Times(t.called, n) == Times(start.called, n) + Held(start, n)
  {
    hide Times;
    forall n: nat ensures Times(t.called, n) == Times(start.called, n) + Held(start, n) {
      assert Homes(map[], n) == {};
      assert Held(t, n) == 0;
    }
  }

  lemma FindStep(pending: seq<Linger>, i: nat, ip: IP)
    requires i <= |pending|
    ensures pending[0..] == pending
    ensures i == |pending| ==> Find(pending[i..], ip) == 0
    ensures i < |pending| ==>
              Find(pending[i..], ip) == if pending[i].ip == Some(ip) then 0 else 1 + Find(pending[i + 1..], ip)
  {
    if i < |pending| { assert pending[i..][1..] == pending[i + 1..]; }
  }

  lemma DropShrinks(s: State)
    requires |s.pending| > 0
    ensures |Drop(s, 0).pending| < |s.pending|
    ensures Drop(s, 0) == s.(pending := Drop(s, 0).pending, called := Drop(s, 0).called)
    ensures |s.pending| >= MAX_LINGER ==> Shed(Drop(s, 0)) == Shed(s)
  {
  }

  lemma ClaimCur(s: State, ans: Answers, ip: IP)
    ensures var t := Claim(s, ans, ip).s;
            t.cur == s.cur && t.curIP == s.curIP && t.want == s.want && t.fixed == s.fixed
  {
  }

  method AnyKey(m: map<IP, Opt<nat>>) returns (k: IP)
    requires m != map[]
    ensures k in m
  {
    assert m.Keys == {} ==> m == map[];
    k :| k in m.Keys;
  }

  lemma SmallerMap(m: map<IP, Opt<nat>>, k: IP)
    requires k in m
    ensures |m - {k}| < |m|
  {
    assert (m - {k}).Keys == m.Keys - {k};
  }
}
