/**
 The lifetime of firewall rules in internal/packet/antileak_linux.go. Installing a rule may
 hand out a remover; each remover is kept in one place until it is called, once.
 */
module AntiLeak {
  import opened Counting
  import opened Options

  const MAX_LINGER: nat := 4
  const RETRY_MIN: nat := 2
  const RETRY_MAX: nat := 60

  type IP = nat

  /** What an attempt to install a rule returns: a remover or none, and whether the rule is in. */
  datatype Answer = Answer(handle: bool, ok: bool)

  /** The answer to every attempt, in order; the remover of attempt n is called n. */
  type Answers = nat -> Answer

  datatype Linger = Linger(ip: Opt<IP>, remove: nat)

  /** asks holds the addresses of the attempts, in order; called the removers called. */
  datatype State = State(
    cur: Opt<nat>, curIP: Opt<IP>, want: Opt<IP>, retry: bool, wait: nat,
    pending: seq<Linger>, known: seq<IP>, fixed: map<IP, Opt<nat>>,
    closed: bool, asks: seq<IP>, called: seq<nat>)

  const INIT: State := State(None, None, None, false, 0, [], [], map[], false, [], [])

  // ----- the operations

  /** The first lingering rule for ip, or the length when there is none. */
  function Find(pending: seq<Linger>, ip: IP): (i: nat)
    ensures i <= |pending| && (i < |pending| ==> pending[i].ip == Some(ip))
    ensures forall j :: 0 <= j < i ==> pending[j].ip != Some(ip)
  {
    if pending == [] then 0 else if pending[0].ip == Some(ip) then 0 else 1 + Find(pending[1..], ip)
  }

  function Without(pending: seq<Linger>, i: nat): (r: seq<Linger>)
    requires i < |pending|
    ensures |r| == |pending| - 1
  {
    pending[..i] + pending[i + 1..]
  }

  /** Removes the i-th lingering rule now. */
  function Drop(s: State, i: nat): (r: State)
    requires i < |s.pending|
  {
    s.(pending := Without(s.pending, i), called := s.called + [s.pending[i].remove])
  }

  function Wait(w: nat): (r: nat) {
    var d := if w == 0 then RETRY_MIN else if w < RETRY_MAX then 2 * w else w;
    if d > RETRY_MAX then RETRY_MAX else d
  }

  function ArmRetry(s: State): (r: State) {
    if s.retry || s.closed then s else s.(retry := true, wait := Wait(s.wait))
  }

  datatype Claimed = Claimed(s: State, fn: Opt<nat>, ok: bool)

  function Called(s: State, fn: Opt<nat>): (r: State) {
    if fn.Some? then s.(called := s.called + [fn.v]) else s
  }

  /** Takes over a lingering rule for ip, or installs one. */
  function Claim(s: State, ans: Answers, ip: IP): (c: Claimed) {
    var i := Find(s.pending, ip);
    if i < |s.pending| then Claimed(s.(pending := Without(s.pending, i)), Some(s.pending[i].remove), true) else
      var a := ans(|s.asks|);
      var fn: Opt<nat> := if a.handle then Some(|s.asks|) else None;
      var t := s.(asks := s.asks + [ip]);
      if a.ok then Claimed(t, fn, true) else Claimed(ArmRetry(Called(t, fn)), fn, false)
  }

  /** What a claim leaves its caller holding. */
  function InHand(c: Claimed): (fn: Opt<nat>) {
    if c.ok then c.fn else None
  }

  /** Makes room among the lingering rules. */
  function Shed(s: State): (r: State)
    ensures |r.pending| < MAX_LINGER
    decreases |s.pending|
  {
    if |s.pending| >= MAX_LINGER then Shed(Drop(s, 0)) else s
  }

  function LingerOn(s: State, ip: Opt<IP>, remove: nat): (r: State) {
    var t := Shed(s);
    t.(pending := t.pending + [Linger(ip, remove)])
  }

  /** Points the current rule at the wanted peer; the rule it replaces lingers. */
  function Apply(s: State, ans: Answers): (r: State) {
    if s.closed || s.want.None? || s.curIP == s.want || s.want.v in s.fixed then s else
      var c := Claim(s, ans, s.want.v);
      if !c.ok then c.s else
        var t := c.s.(wait := 0, cur := c.fn, curIP := s.want);
        if s.cur.Some? then LingerOn(t, s.curIP, s.cur.v) else t
  }

  /** One known address: its rule is kept until teardown. */
  function Fix(s: State, ans: Answers, ip: IP): (r: State) {
    if ip in s.fixed then s else
      var c := Claim(s, ans, ip);
      if c.ok then c.s.(fixed := c.s.fixed[ip := c.fn]) else c.s
  }

  function FixAll(s: State, ans: Answers, ips: seq<IP>): (r: State)
    decreases |ips|
  {
    if ips == [] then s else FixAll(Fix(s, ans, ips[0]), ans, ips[1..])
  }

  function ApplyKnown(s: State, ans: Answers): (r: State) {
    if s.closed then s else FixAll(s, ans, s.known)
  }

  // ----- where removers are

  function One(o: Opt<nat>, n: nat): (c: nat) {
    if o == Some(n) then 1 else 0
  }

  function Waiting(pending: seq<Linger>, n: nat): (c: nat) {
    if pending == [] then 0 else (if pending[0].remove == n then 1 else 0) + Waiting(pending[1..], n)
  }

  function Homes(fixed: map<IP, Opt<nat>>, n: nat): (r: set<IP>) {
    set ip | ip in fixed && fixed[ip] == Some(n)
  }

  function Fixed(fixed: map<IP, Opt<nat>>, n: nat): (c: nat) {
    |Homes(fixed, n)|
  }

  /** In how many places remover n is held. */
  function Held(s: State, n: nat): (c: nat) {
    One(s.cur, n) + Waiting(s.pending, n) + Fixed(s.fixed, n)
  }

  predicate Issued(s: State, ans: Answers, n: nat) {
    n < |s.asks| && ans(n).handle
  }

  /** Every remover handed out is in the hand, or held in one place and not called, or called once. */
  ghost predicate Balanced(s: State, ans: Answers, hand: Opt<nat>) {
    forall n: nat :: BalancedAt(s, ans, hand, n)
  }

  predicate BalancedAt(s: State, ans: Answers, hand: Opt<nat>, n: nat) {
    One(hand, n) + Held(s, n) + Times(s.called, n) == if Issued(s, ans, n) then 1 else 0
  }

  ghost predicate Inv(s: State, ans: Answers) {
    Balanced(s, ans, None) && |s.pending| <= MAX_LINGER && s.wait <= RETRY_MAX
  }

  lemma {:induction false} WaitingAppend(a: seq<Linger>, b: seq<Linger>, n: nat)
    ensures Waiting(a + b, n) == Waiting(a, n) + Waiting(b, n)
    decreases |a|
  {
    if a == [] {
      assert a + b == b;
    } else {
      assert (a + b)[0] == a[0] && (a + b)[1..] == a[1..] + b;
      WaitingAppend(a[1..], b, n);
    }
  }

  lemma WaitingOne(l: Linger, n: nat)
    ensures Waiting([l], n) == One(Some(l.remove), n)
  {
    assert [l][1..] == [];
    assert Waiting([], n) == 0;
  }

  lemma WithoutWaits(pending: seq<Linger>, i: nat, n: nat)
    requires i < |pending|
    ensures Waiting(pending, n) == Waiting(Without(pending, i), n) + One(Some(pending[i].remove), n)
  {
    hide Waiting;
    assert pending == pending[..i] + ([pending[i]] + pending[i + 1..]);
    WaitingAppend(pending[..i], [pending[i]] + pending[i + 1..], n);
    WaitingAppend([pending[i]], pending[i + 1..], n);
    WaitingAppend(pending[..i], pending[i + 1..], n);
    WaitingOne(pending[i], n);
  }

  lemma FixedAdds(fixed: map<IP, Opt<nat>>, ip: IP, fn: Opt<nat>, n: nat)
    requires ip !in fixed
    ensures Fixed(fixed[ip := fn], n) == Fixed(fixed, n) + One(fn, n)
  {
    assert Homes(fixed[ip := fn], n) == Homes(fixed, n) + (if fn == Some(n) then {ip} else {});
  }

  // ----- every operation keeps the balance

  lemma DropKeeps(s: State, ans: Answers, hand: Opt<nat>, i: nat)
    requires Balanced(s, ans, hand) && i < |s.pending|
    ensures Balanced(Drop(s, i), ans, hand)
  {
    forall n: nat ensures BalancedAt(Drop(s, i), ans, hand, n) {
      hide Waiting, Fixed, Times, Without;
      assert BalancedAt(s, ans, hand, n);
      WithoutWaits(s.pending, i, n);
      TimesMore(s.called, s.pending[i].remove, n);
    }
  }

  /** The rule claimed is in the hand; a failed claim leaves nothing there. */
  lemma ClaimKeeps(s: State, ans: Answers, ip: IP)
    requires Balanced(s, ans, None)
    ensures Balanced(Claim(s, ans, ip).s, ans, InHand(Claim(s, ans, ip)))
  {
    var c := Claim(s, ans, ip);
    var hand := InHand(c);
    forall n: nat ensures BalancedAt(c.s, ans, hand, n) {
      ClaimKeepsAt(s, ans, ip, n);
    }
  }

  lemma ClaimKeepsAt(s: State, ans: Answers, ip: IP, n: nat)
    requires Balanced(s, ans, None)
    ensures BalancedAt(Claim(s, ans, ip).s, ans, InHand(Claim(s, ans, ip)), n)
  {
    hide Waiting, Fixed, Times, Without;
    assert BalancedAt(s, ans, None, n);
    var i := Find(s.pending, ip);
    if i < |s.pending| {
      WithoutWaits(s.pending, i, n);
    } else {
      TimesMore<nat>(s.called, |s.asks|, n);
    }
  }

  lemma {:induction false} ShedKeeps(s: State, ans: Answers, hand: Opt<nat>)
    requires Balanced(s, ans, hand)
    ensures Balanced(Shed(s), ans, hand)
    decreases |s.pending|
  {
    hide Balanced;
    if |s.pending| >= MAX_LINGER {
      DropKeeps(s, ans, hand, 0);
      ShedKeeps(Drop(s, 0), ans, hand);
    }
  }

  /** A rule that lingers leaves the hand. */
  lemma LingerKeeps(s: State, ans: Answers, ip: Opt<IP>, remove: nat)
    requires Balanced(s, ans, Some(remove))
    ensures Balanced(LingerOn(s, ip, remove), ans, None) && |LingerOn(s, ip, remove).pending| <= MAX_LINGER
  {
    hide Shed;
    ShedKeeps(s, ans, Some(remove));
    ShedRoom(s);
    var t := Shed(s);
    forall n: nat ensures BalancedAt(LingerOn(s, ip, remove), ans, None, n) {
      hide Waiting, Fixed, Times;
      assert BalancedAt(t, ans, Some(remove), n);
      WaitingAppend(t.pending, [Linger(ip, remove)], n);
      WaitingOne(Linger(ip, remove), n);
    }
  }

  lemma ShedRoom(s: State)
    ensures |Shed(s).pending| < MAX_LINGER
  {
  }

  /** Exchanging the current rule puts the old one in the hand. */
  lemma SwapKeeps(s: State, t: State, ans: Answers, fn: Opt<nat>)
    requires Balanced(s, ans, fn)
    requires t == s.(wait := t.wait, cur := fn, curIP := t.curIP)
    ensures Balanced(t, ans, s.cur)
  {
    forall n: nat ensures BalancedAt(t, ans, s.cur, n) {
      assert BalancedAt(s, ans, fn, n);
    }
  }

  lemma ClaimSame(s: State, ans: Answers, ip: IP)
    requires s.wait <= RETRY_MAX
    ensures var c := Claim(s, ans, ip);
            c.s.cur == s.cur && c.s.curIP == s.curIP && c.s.fixed == s.fixed && c.s.known == s.known &&
            c.s.closed == s.closed && c.s.want == s.want &&
            |c.s.pending| <= |s.pending| && c.s.wait <= RETRY_MAX
  {
  }

  lemma ApplyKeeps(s: State, ans: Answers)
    requires Inv(s, ans)
    ensures Inv(Apply(s, ans), ans)
  {
    hide Balanced, Claim, LingerOn;
    if !(s.closed || s.want.None? || s.curIP == s.want || s.want.v in s.fixed) {
      ClaimKeeps(s, ans, s.want.v);
      ClaimSame(s, ans, s.want.v);
      var c := Claim(s, ans, s.want.v);
      if c.ok {
        var t := c.s.(wait := 0, cur := c.fn, curIP := s.want);
        SwapKeeps(c.s, t, ans, c.fn);
        if s.cur.Some? {
          LingerKeeps(t, ans, s.curIP, s.cur.v);
          LingerWait(t, s.curIP, s.cur.v);
        }
      }
    }
  }

  lemma {:induction false} ShedSame(s: State)
    ensures var t := Shed(s); t == s.(pending := t.pending, called := t.called)
    decreases |s.pending|
  {
    if |s.pending| >= MAX_LINGER { ShedSame(Drop(s, 0)); }
  }

  lemma LingerWait(s: State, ip: Opt<IP>, remove: nat)
    ensures LingerOn(s, ip, remove).wait == s.wait
  {
    ShedSame(s);
  }

  lemma FixKeeps(s: State, ans: Answers, ip: IP)
    requires Inv(s, ans)
    ensures Inv(Fix(s, ans, ip), ans)
  {
    hide Balanced, Claim;
    if ip !in s.fixed {
      ClaimKeeps(s, ans, ip);
      ClaimSame(s, ans, ip);
      var c := Claim(s, ans, ip);
      if c.ok { FixedKeeps(c.s, ans, ip, c.fn); }
    }
  }

  lemma FixedKeeps(s: State, ans: Answers, ip: IP, fn: Opt<nat>)
    requires Balanced(s, ans, fn) && ip !in s.fixed
    ensures Balanced(s.(fixed := s.fixed[ip := fn]), ans, None)
  {
    var t := s.(fixed := s.fixed[ip := fn]);
    forall n: nat ensures BalancedAt(t, ans, None, n) {
      hide Waiting, Fixed, Times;
      assert BalancedAt(s, ans, fn, n);
      FixedAdds(s.fixed, ip, fn, n);
    }
  }

  lemma {:induction false} FixAllKeeps(s: State, ans: Answers, ips: seq<IP>)
    requires Inv(s, ans)
    ensures Inv(FixAll(s, ans, ips), ans)
    decreases |ips|
  {
    hide Inv, Fix;
    if ips != [] {
      FixKeeps(s, ans, ips[0]);
      FixAllKeeps(Fix(s, ans, ips[0]), ans, ips[1..]);
    }
  }

  // ----- runs

  /** Everything held is called, in some order, and nothing is held or known afterwards. */
  ghost predicate TornDown(s: State, t: State) {
    t == s.(retry := false, pending := [], fixed := map[], known := [], cur := None, curIP := None, called := t.called) &&
    forall n: nat :: Times(t.called, n) == Times(s.called, n) + Held(s, n)
  }

  /** What can happen, under the lock or by a timer. */
  datatype Event =
    | Wants(ip: IP)
    | Applies
    | ScopesAll(ips: seq<IP>)
    | Expires(i: nat)
    | Retries
    | Closes
    | TearsDown

  ghost predicate Step(s: State, ans: Answers, e: Event, t: State) {
    match e
    case Wants(ip) => t == s.(want := Some(ip))
    case Applies => t == Apply(s, ans)
    case ScopesAll(ips) => t == ApplyKnown(s.(known := ips), ans)
    case Expires(i) => i < |s.pending| && t == Drop(s, i)
    case Retries => t == ApplyKnown(s.(retry := false), ans)
    case Closes => t == s.(closed := true)
    case TearsDown => TornDown(s, t)
  }

  ghost predicate Run(trace: seq<State>, ans: Answers, events: seq<Event>) {
    |trace| == |events| + 1 && trace[0] == INIT &&
    forall i :: 0 <= i < |events| ==> Step(trace[i], ans, events[i], trace[i + 1])
  }

  lemma SameCounts(s: State, t: State, ans: Answers)
    requires Inv(s, ans) && t == s.(want := t.want, known := t.known, retry := t.retry, closed := t.closed)
    ensures Inv(t, ans)
  {
    forall n: nat ensures BalancedAt(t, ans, None, n) {
      assert BalancedAt(s, ans, None, n);
    }
  }

  lemma TornDownKeeps(s: State, ans: Answers, t: State)
    requires Inv(s, ans) && TornDown(s, t)
    ensures Inv(t, ans)
  {
    forall n: nat ensures BalancedAt(t, ans, None, n) {
      hide Times;
      assert BalancedAt(s, ans, None, n);
      assert Homes(map[], n) == {};
    }
  }

  lemma StepKeeps(s: State, ans: Answers, e: Event, t: State)
    requires Inv(s, ans) && Step(s, ans, e, t)
    ensures Inv(t, ans)
  {
    hide Inv, Balanced, Apply, FixAll, TornDown;
    match e
    case Wants(ip) => SameCounts(s, t, ans);
    case Applies => ApplyKeeps(s, ans);
    case ScopesAll(ips) =>
      SameCounts(s, s.(known := ips), ans);
      FixAllKeeps(s.(known := ips), ans, ips);
    case Expires(i) => ExpireKeeps(s, ans, i);
    case Retries =>
      SameCounts(s, s.(retry := false), ans);
      FixAllKeeps(s.(retry := false), ans, s.known);
    case Closes => SameCounts(s, t, ans);
    case TearsDown => TornDownKeeps(s, ans, t);
  }

  lemma ExpireKeeps(s: State, ans: Answers, i: nat)
    requires Inv(s, ans) && i < |s.pending|
    ensures Inv(Drop(s, i), ans)
  {
    hide Balanced;
    DropKeeps(s, ans, None, i);
  }

  /** In every run every remover is held in exactly one place until it is called, exactly once. */
  lemma {:induction false} RunKeeps(trace: seq<State>, ans: Answers, events: seq<Event>, i: nat)
    requires Run(trace, ans, events) && i < |trace|
    ensures Inv(trace[i], ans)
    decreases i
  {
    if i == 0 {
      InitInv(ans);
    } else {
      hide Inv, Step;
      RunKeeps(trace, ans, events, i - 1);
      StepKeeps(trace[i - 1], ans, events[i - 1], trace[i - 1 + 1]);
    }
  }

  lemma InitInv(ans: Answers)
    ensures Inv(INIT, ans)
  {
    forall n: nat ensures BalancedAt(INIT, ans, None, n) {
      assert Homes(map[], n) == {};
    }
  }

  /** The reading of the invariant for one remover. */
  lemma ExactlyOnePlace(s: State, ans: Answers, n: nat)
    requires Inv(s, ans)
    ensures Issued(s, ans, n) ==> (Held(s, n) == 1 && Times(s.called, n) == 0) || (Held(s, n) == 0 && Times(s.called, n) == 1)
    ensures !Issued(s, ans, n) ==> Held(s, n) == 0 && Times(s.called, n) == 0
  {
    hide Held, Times, Issued;
    assert BalancedAt(s, ans, None, n);
  }

  ghost predicate Empty(s: State) {
    s.closed && s.cur.None? && s.pending == [] && s.fixed == map[]
  }

  /** Once closed and torn down, nothing is held again. */
  lemma {:induction false} StaysEmpty(trace: seq<State>, ans: Answers, events: seq<Event>, i: nat, j: nat)
    requires Run(trace, ans, events) && i < j < |trace| && trace[i].closed && events[i] == TearsDown
    ensures Empty(trace[j])
    decreases j
  {
    assert Step(trace[j - 1], ans, events[j - 1], trace[j - 1 + 1]);
    if j > i + 1 {
      StaysEmpty(trace, ans, events, i, j - 1);
      EmptyStep(trace[j - 1], ans, events[j - 1], trace[j]);
    }
  }

  lemma EmptyStep(s: State, ans: Answers, e: Event, t: State)
    requires Empty(s) && Step(s, ans, e, t)
    ensures Empty(t)
  {
    hide FixAll, Claim, Held, Times;
  }

  /** After that every remover ever handed out has been called exactly once. */
  lemma AllCalledOnce(trace: seq<State>, ans: Answers, events: seq<Event>, i: nat, j: nat, n: nat)
    requires Run(trace, ans, events) && i < j < |trace| && trace[i].closed && events[i] == TearsDown
    ensures Times(trace[j].called, n) == if Issued(trace[j], ans, n) then 1 else 0
  {
    hide Run, Inv, Times, Issued, Step;
    RunKeeps(trace, ans, events, j);
    StaysEmpty(trace, ans, events, i, j);
    ExactlyOnePlace(trace[j], ans, n);
    EmptyHolds(trace[j], n);
  }

  lemma EmptyHolds(s: State, n: nat)
    requires Empty(s)
    ensures Held(s, n) == 0
  {
    assert Homes(map[], n) == {};
  }
}
