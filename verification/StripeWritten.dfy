/**
 The striping protocol end to end: while no reader has returned, whatever a server wrote in
 full is stored or still in a stream, and the readers can bring all of it out.
 */
module StripeWritten {
  import opened Wire
  import opened Sequences
  import opened Reseq
  import opened StripeRecord
  import opened Stripe
  import opened StripePool
  import opened StripeComplete
  import opened StripeRead

  predicate InStream(l: Link, k: nat) {
    l.pos <= |l.bytes| && k in Nums(Unread(l))
  }

  ghost predicate Somewhere(s: State, k: nat) {
    k in s.stored || exists j :: 0 <= j < |s.links| && InStream(s.links[j], k)
  }

  ghost predicate AnyEnded(s: State) {
    exists j :: 0 <= j < |s.links| && s.links[j].reader.Ended?
  }

  /** What was written in full was stored, or waits in a stream, unless some reader has returned. */
  ghost predicate Reaches(s: State) {
    AnyEnded(s) || forall k :: k in s.written ==> Somewhere(s, k)
  }

  /** Steps that neither append to a stream nor move a reader along it. */
  predicate Still(e: Step) {
    !e.Sent? && !e.Failed? && !e.Keepalive? && !e.Head? && !e.Begin?
  }

  lemma StillFrame(s: State, e: Step)
    requires Enabled(s, e) && Still(e)
    ensures var r := Apply(s, e);
            && r.written == s.written && s.stored <= r.stored && |s.links| <= |r.links|
            && forall j :: 0 <= j < |s.links| ==> r.links[j].bytes == s.links[j].bytes && r.links[j].pos == s.links[j].pos
  {
    hide Nums, Record, HeadStep, BeginStep, PipeWrite, Popped;
  }

  lemma StillReaches(s: State, e: Step, k: nat)
    requires Enabled(s, e) && Still(e) && Somewhere(s, k)
    ensures Somewhere(Apply(s, e), k)
  {
    hide Enabled, Apply, Nums;
    StillFrame(s, e);
    if j :| 0 <= j < |s.links| && InStream(s.links[j], k) { assert InStream(Apply(s, e).links[j], k); }
  }

  /** More octets behind whole records take none of their numbers away. */
  lemma Appended(l: Link, m: Link, more: Bytes, accepted: seq<Bytes>)
    requires l.pos <= |l.bytes| && Genuine(Unread(l), accepted) && m.pos == l.pos && m.bytes == l.bytes + more
    ensures Nums(Unread(m)) == Nums(Unread(l)) + Nums(more)
  {
    hide Nums, Genuine;
    assert Unread(m) == Unread(l) + more;
    NumsAppend(Unread(l), more, accepted);
  }

  lemma WholeSoFar(l: Link, accepted: seq<Bytes>)
    requires LinkOk(l, accepted) && (l.server.Idle? || l.server.Holding?)
    ensures l.pos <= |l.bytes| && Genuine(Unread(l), accepted)
  {
    hide Genuine, ReaderOk;
    assert Unread(l) + [] == Unread(l);
  }

  lemma WriteFrame(s: State, e: Step)
    requires Enabled(s, e) && (e.Sent? || e.Failed? || e.Keepalive?)
    ensures var r := Apply(s, e);
            && r.stored == s.stored && |r.links| == |s.links| && (forall j :: 0 <= j < |s.links| && j != e.i ==> r.links[j] == s.links[j])
            && s.links[e.i].bytes <= r.links[e.i].bytes && r.links[e.i].pos == s.links[e.i].pos
            && (if e.Sent? then
                  && r.links[e.i].bytes == s.links[e.i].bytes + s.links[e.i].server.run
                  && r.written == s.written + Nums(s.links[e.i].server.run)
                else r.written == s.written)
            && (if e.Keepalive? then s.links[e.i].server.Idle? else s.links[e.i].server.Holding?)
  {
    hide Nums, Record, HeadStep, CutStep, BeginStep, EmitStep, Popped;
  }

  lemma WriteReaches(s: State, e: Step, k: nat)
    requires Inv(s) && Enabled(s, e) && (e.Sent? || e.Failed? || e.Keepalive?)
    requires Somewhere(s, k) || (e.Sent? && k in Nums(s.links[e.i].server.run))
    ensures Somewhere(Apply(s, e), k)
  {
    hide Apply, Nums, LinkOk, Genuine, QueueOk, LockOk;
    WriteFrame(s, e);
    var r, l := Apply(s, e), s.links[e.i];
    var m := r.links[e.i];
    WholeSoFar(l, s.accepted);
    Appended(l, m, m.bytes[|l.bytes|..], s.accepted);
    if k !in s.stored {
      if j :| 0 <= j < |s.links| && InStream(s.links[j], k) {
        assert InStream(r.links[j], k);
      } else {
        assert m.bytes[|l.bytes|..] == l.server.run;
        assert InStream(m, k);
      }
    }
  }

  lemma HeadReaches(s: State, e: Step, k: nat)
    requires Inv(s) && Enabled(s, e) && e.Head? && Somewhere(s, k)
    ensures Somewhere(Apply(s, e), k)
  {
    hide Get64, HeadLen, LinkOk, QueueOk, LockOk, BeginStep, EmitStep, CutStep;
    var r, l := Apply(s, e), s.links[e.i];
    assert AtHead(l);
    if HeadLen(Unread(l)) == 0 { assert Unread(r.links[e.i]) == Unread(l)[REC_HDR..]; }
    if j :| 0 <= j < |s.links| && InStream(s.links[j], k) { assert InStream(r.links[j], k); }
  }

  lemma BeginReaches(s: State, e: Step, k: nat)
    requires Good(s) && Enabled(s, e) && e.Begin? && Somewhere(s, k)
    ensures AnyEnded(Apply(s, e)) || Somewhere(Apply(s, e), k)
  {
    hide Get64, HeadLen, Balanced, Genuine, QueueOk, LockOk, PoolInv, HeadStep, EmitStep, CutStep, Stored;
    var r, l := Apply(s, e), s.links[e.i];
    assert ReaderOk(l);
    BeginKeeps(s, e);
    if !r.links[e.i].reader.Ended? {
      if j :| 0 <= j < |s.links| && InStream(s.links[j], k) {
        if j == e.i && k != l.reader.seqNo {
          assert Unread(r.links[j]) == Unread(l)[REC_HDR + l.reader.n..];
        }
        assert k in r.stored || InStream(r.links[j], k);
      }
    }
  }

  /** deliver puts the record in the queue or finds it was there before. */
  lemma BeginKeeps(s: State, e: Step)
    requires Kept(s) && Enabled(s, e) && e.Begin?
    ensures var r, l := Apply(s, e), s.links[e.i];
            && |r.links| == |s.links| && s.stored <= r.stored && r.written == s.written
            && (r.links[e.i].reader.Ended? || l.reader.seqNo in r.stored)
            && r.links[e.i].pos == l.pos + REC_HDR + l.reader.n && r.links[e.i].bytes == l.bytes
            && forall j :: 0 <= j < |s.links| && j != e.i ==> r.links[j] == s.links[j]
  {
    hide Get64, HeadLen, Balanced, HeadStep, EmitStep, CutStep, Stored;
  }

  lemma HeadWritten(s: State, e: Step)
    requires Enabled(s, e) && e.Head?
    ensures Apply(s, e).written == s.written
  {
    hide Get64, HeadLen, BeginStep, EmitStep, CutStep;
  }

  /** A reader that has returned does not come back. */
  lemma EndedStays(s: State, e: Step)
    requires Inv(s) && Enabled(s, e) && AnyEnded(s)
    ensures AnyEnded(Apply(s, e))
  {
    hide Inv, Enabled, Apply;
    var j :| 0 <= j < |s.links| && s.links[j].reader.Ended?;
    StepEnds(s, e, j);
    if e.Emit? || e.Unlock? {
      StepLocks(s, e);
      HolderDelivers(s);
    }
    assert Apply(s, e).links[j].reader.Ended?;
  }

  lemma StepLocks(s: State, e: Step)
    requires Enabled(s, e) && (e.Emit? || e.Unlock?)
    ensures s.lock.Held?
  {
  }

  lemma StepReaches(s: State, e: Step)
    requires Good(s) && Reaches(s) && Enabled(s, e)
    ensures Reaches(Apply(s, e))
  {
    hide Inv, PoolInv, Kept, Enabled, Apply, Somewhere, Nums;
    var r := Apply(s, e);
    if AnyEnded(s) {
      EndedStays(s, e);
    } else if !AnyEnded(r) {
      forall k | k in r.written ensures Somewhere(r, k) {
        if Still(e) {
          StillFrame(s, e);
          StillReaches(s, e, k);
        } else if e.Head? {
          HeadWritten(s, e);
          HeadReaches(s, e, k);
        } else if e.Begin? {
          BeginKeeps(s, e);
          BeginReaches(s, e, k);
        } else {
          WriteFrame(s, e);
          WriteReaches(s, e, k);
        }
      }
    }
  }

  lemma {:induction false} RunReaches(s: State, steps: seq<Step>, r: State)
    requires Good(s) && Drained(s) && Reaches(s) && Runs(s, steps, r)
    ensures Good(r) && Drained(r) && Reaches(r)
    decreases |steps|
  {
    hide Good, Drained, Reaches, Apply, Enabled;
    if steps != [] {
      var t := Apply(s, steps[0]);
      StepReaches(s, steps[0]);
      RunsOne(s, steps[0]);
      RunGood(s, [steps[0]], t);
      RunReaches(t, steps[1..], r);
    }
  }

  lemma InitReaches()
    ensures Good(INIT) && Drained(INIT) && Reaches(INIT)
  {
    InitPool();
  }

  /** Over every run: what was written in full was stored or waits in a stream, or some reader has returned. */
  lemma WrittenSomewhere(steps: seq<Step>, s: State, k: nat)
    requires Runs(INIT, steps, s) && k in s.written && forall j :: 0 <= j < |s.links| ==> !s.links[j].reader.Ended?
    ensures k in s.stored || exists j :: 0 <= j < |s.links| && InStream(s.links[j], k)
  {
    hide Good, Drained, Runs, Nums;
    InitReaches();
    RunReaches(INIT, steps, s);
  }

  /** Whole records of readable payloads are within the limit. */
  lemma {:induction false} GenuineSized(a: Bytes, rest: Bytes, accepted: seq<Bytes>)
    requires Genuine(a + rest, accepted) && forall k :: 0 <= k < |accepted| ==> Readable(accepted[k])
    ensures Sized(a)
    decreases |a|
  {
    hide Get64, HeadLen;
    if AtRecord(a) {
      HeadStays(a, rest);
      var m := REC_HDR + HeadLen(a);
      assert (a + rest)[m..] == a[m..] + rest;
      assert |(a + rest)[REC_HDR..m]| == HeadLen(a);
      GenuineSized(a[m..], rest, accepted);
    }
  }

  lemma ReadersSized(s: State)
    requires Inv(s) && forall k :: 0 <= k < |s.accepted| ==> Readable(s.accepted[k])
    requires forall j :: 0 <= j < |s.links| ==> !s.links[j].reader.Ended?
    ensures Readers(s)
  {
    hide Sized, Genuine, QueueOk, LockOk, ReaderOk, Readable;
    forall j | 0 <= j < |s.links| ensures s.links[j].pos <= |s.links[j].bytes| && Sized(Unread(s.links[j])) {
      assert LinkOk(s.links[j], s.accepted);
      GenuineSized(Unread(s.links[j]), s.links[j].lost, s.accepted);
    }
  }

  /**
   From any moment of any run at which no reader has returned, nobody is inside deliver and the
   pipe is open: when every accepted write is readable and was written in full to some stream, and
   the limits leave room, the readers can go on until all of it has come out, in order.
   */
  lemma AllWrittenComesOut(steps: seq<Step>, s: State, lim: Limits) returns (more: seq<Step>, r: State)
    requires Runs(INIT, steps, s) && s.lock.Free? && s.q.open
    requires forall j :: 0 <= j < |s.links| ==> !s.links[j].reader.Ended?
    requires forall k: nat :: k < |s.accepted| ==> Readable(s.accepted[k]) && k in s.written
    requires lim.Room(s.q, Backlog(s.links, 0))
    ensures Runs(INIT, steps + more, r) && r.accepted == s.accepted && r.q.out == Concat(s.accepted)
  {
    hide Good, Drained, Runs, Nums, Readable, Concat, Backlog;
    InitReaches();
    RunReaches(INIT, steps, s);
    GoodInv(s);
    ReadersSized(s);
    more, r := ReadAll(s, 0, lim);
    RunsAppend(INIT, steps, s, more, r);
    forall k: nat | k < |r.accepted| ensures k in r.stored {
      WrittenSomewhere(steps, s, k);
    }
    AllOut(steps + more, r);
  }

  lemma GoodInv(s: State)
    requires Good(s)
    ensures Inv(s)
  {
  }

  // ----- what waits is bounded

  ghost predicate Bounded(q: Queue, maxN: nat, max: nat) {
    Balanced(q) && |q.pend| <= maxN && q.n <= max
  }

  /** The limits deliver works with never exceed these. */
  predicate Limited(steps: seq<Step>, maxN: nat, max: nat) {
    forall e :: e in steps && e.Begin? ==> e.maxN <= maxN && e.max <= max
  }

  lemma StepBounded(s: State, e: Step, maxN: nat, max: nat)
    requires Enabled(s, e) && Bounded(s.q, maxN, max) && (e.Begin? ==> e.maxN <= maxN && e.max <= max)
    ensures Bounded(Apply(s, e).q, maxN, max)
  {
    hide PendBytes, Enabled, Apply;
    if e.Begin? { BeginBounded(s, e, maxN, max); }
    else if e.Pop? { PopBounded(s, e, maxN, max); }
    else { QueueSame(s, e); }
  }

  lemma BeginBounded(s: State, e: Step, maxN: nat, max: nat)
    requires Enabled(s, e) && e.Begin? && Bounded(s.q, maxN, max) && e.maxN <= maxN && e.max <= max
    ensures Bounded(Apply(s, e).q, maxN, max)
  {
    hide Balanced, HeadLen, Get64, HeadStep, CutStep, EmitStep, Stored;
    var v := s.links[e.i].reader;
    var c := Chunk(Unread(s.links[e.i])[REC_HDR..REC_HDR + v.n], v.own);
    if v.seqNo >= s.q.next { StoredSize(s.q, v.seqNo, c); }
  }

  lemma PopBounded(s: State, e: Step, maxN: nat, max: nat)
    requires Enabled(s, e) && e.Pop? && Bounded(s.q, maxN, max)
    ensures Bounded(Apply(s, e).q, maxN, max)
  {
    hide HeadStep, CutStep, BeginStep, EmitStep;
    PendCount(s.q, s.q.next);
  }

  lemma QueueSame(s: State, e: Step)
    requires Enabled(s, e) && !e.Begin? && !e.Pop?
    ensures Apply(s, e).q == s.q.(out := Apply(s, e).q.out, open := Apply(s, e).q.open)
  {
    hide Nums, Record, HeadLen, Get64, BeginStep, Popped;
  }

  /** Over every run, what waits out of order stays within the limits on records and on octets. */
  lemma {:induction false} PendingBounded(s: State, steps: seq<Step>, r: State, maxN: nat, max: nat)
    requires Runs(s, steps, r) && Bounded(s.q, maxN, max) && Limited(steps, maxN, max)
    ensures |r.q.pend| <= maxN && r.q.n <= max
    decreases |steps|
  {
    hide Apply, Enabled, Balanced;
    if steps != [] {
      assert steps[0] in steps;
      StepBounded(s, steps[0], maxN, max);
      assert forall e :: e in steps[1..] ==> e in steps;
      PendingBounded(Apply(s, steps[0]), steps[1..], r, maxN, max);
    }
  }
}
