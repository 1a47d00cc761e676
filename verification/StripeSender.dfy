/** The sender object of internal/packet/stripe.go, each operation as steps of the protocol. */
module StripeSender {
  import opened Wire
  import opened Sequences
  import opened StripeRecord
  import opened Stripe

  const WRITE_BYTES := 0x4_0000

  lemma ConcatTake(w: seq<Bytes>, first: Bytes, m: nat)
    requires m < |w|
    ensures first + Concat(w[..m]) + w[m] == first + Concat(w[..m + 1])
  {
    ConcatNext(w, m);
  }

  lemma ConcatFirst(w: seq<Bytes>, first: Bytes)
    ensures first + Concat(w[..0]) == first
  {
    assert w[..0] == [] && first + [] == first;
  }

  /** The same step m times. */
  function Repeat(e: Step, m: nat): (steps: seq<Step>)
    ensures |steps| == m
  {
    if m == 0 then [] else Repeat(e, m - 1) + [e]
  }

  lemma GathersOne(s: State, t: State, i: nat, m: nat, run: Bytes)
    requires Runs(s, Repeat(Gather(i), m), t)
    requires i < |t.links| && t.links[i].server == Holding(run) && t.work != []
    ensures Enabled(t, Gather(i))
    ensures var r := Apply(t, Gather(i));
            && Runs(s, Repeat(Gather(i), m + 1), r) && r.work == t.work[1..] && r.accepted == t.accepted
            && |r.links| == |t.links| && r.links[i].server == Holding(run + t.work[0])
  {
    hide Runs, Record, Nums, HeadStep, CutStep, BeginStep, EmitStep;
    RunsOne(t, Gather(i));
    RunsAppend(s, Repeat(Gather(i), m), t, [Gather(i)], Apply(t, Gather(i)));
  }

  /** stripeTx: the next number and the queue of runs waiting for a stream server. */
  class Sender {
    var seqNo: nat
    var work: seq<Bytes>

    constructor ()
      ensures seqNo == 0 && work == [] && Mirrors(INIT)
    {
      seqNo, work := 0, [];
    }

    /** The part of a protocol state that this object is. */
    ghost predicate Mirrors(s: State)
      reads this
    {
      s.work == work && |s.accepted| == seqNo
    }

    /** write: a number is used up only when the queue takes the record. */
    method Offer(p: Bytes, taken: bool, ghost s: State) returns (n: nat, ok: bool, ghost r: State)
      requires |p| < MAX_LENGTH && seqNo < W_SEQ && Mirrors(s)
      modifies this
      ensures ok == taken && n == (if ok then |p| else 0) && Mirrors(r)
      ensures if ok then Enabled(s, Write(p)) && r == Apply(s, Write(p)) else r == s
    {
      hide HeadStep, CutStep, BeginStep, EmitStep, Record;
      r := if taken then Apply(s, Write(p)) else s;
      var rec := Record(seqNo, p);
      ok := taken;
      if !ok { return 0, false, r; }
      work := work + [rec];
      seqNo := seqNo + 1;
      n := |p|;
    }

    /** A stream server takes the first run of the queue. */
    method TakeRun(ghost s: State, ghost i: nat) returns (run: Bytes, ghost r: State)
      requires Mirrors(s) && Enabled(s, Take(i))
      modifies this`work
      ensures r == Apply(s, Take(i)) && Mirrors(r) && r.links[i].server == Holding(run)
    {
      hide HeadStep, CutStep, BeginStep, EmitStep;
      r := Apply(s, Take(i));
      run := work[0];
      work := work[1..];
    }

    /** gather: appends queued runs, in order, until the batch is large enough or the queue is empty. */
    method Gather(first: Bytes, ghost s: State, ghost i: nat)
      returns (run: Bytes, single: bool, ghost m: nat, ghost r: State)
      requires Mirrors(s) && i < |s.links| && s.links[i].server == Holding(first)
      modifies this`work
      ensures Runs(s, Repeat(Step.Gather(i), m), r) && Mirrors(r) && i < |r.links| && r.links[i].server == Holding(run)
      ensures m <= |old(work)| && run == first + Concat(old(work)[..m]) && work == old(work)[m..]
      ensures single == (m == 0) && (m == 0 <==> old(work) == [])
      ensures m > 1 ==> |first + Concat(old(work)[..m - 1])| < WRITE_BYTES
      ensures work == [] || |run| >= WRITE_BYTES
    {
      hide Concat, Apply, Enabled;
      ConcatFirst(old(work), first);
      m, r := 0, s;
      assert Runs(s, Repeat(Step.Gather(i), 0), s);
      assert old(work)[0..] == old(work);
      if work == [] { return first, true, 0, s; }
      ConcatTake(old(work), first, 0);
      GathersOne(s, r, i, 0, first);
      r := Apply(r, Step.Gather(i));
      run, single := first + work[0], false;
      work := work[1..];
      m := 1;
      while work != [] && |run| < WRITE_BYTES
        invariant 1 <= m <= |old(work)| && work == old(work)[m..] && run == first + Concat(old(work)[..m])
        invariant m > 1 ==> |first + Concat(old(work)[..m - 1])| < WRITE_BYTES
        invariant Runs(s, Repeat(Step.Gather(i), m), r) && Mirrors(r)
        invariant i < |r.links| && r.links[i].server == Holding(run)
        decreases |work|
      {
        ConcatTake(old(work), first, m);
        GathersOne(s, r, i, m, run);
        r := Apply(r, Step.Gather(i));
        run := run + work[0];
        work := work[1..];
        m := m + 1;
      }
    }

    /** requeue: a run whose write failed goes to the back, whole, unless the sender is done. */
    method PutBack(run: Bytes, queued: bool, ghost s: State, ghost i: nat) returns (ghost r: State)
      requires Mirrors(s) && i < |s.links| && s.links[i].server == Requeueing(run) && (queued || s.done)
      modifies this`work
      ensures work == if queued then old(work) + [run] else old(work)
      ensures var e := if queued then Requeue(i) else Abandon(i); Enabled(s, e) && r == Apply(s, e) && Mirrors(r)
    {
      hide HeadStep, CutStep, BeginStep, EmitStep, Nums;
      r := Apply(s, if queued then Requeue(i) else Abandon(i));
      if queued { work := work + [run]; }
    }
  }
}
