/**
 The pooled buffers of the striping protocol. A reader takes one only for a record it
 found due, without the lock; these are the promises that hold over every run all the same.
 */
module StripePool {
  import opened Counting
  import opened Wire
  import opened Sequences
  import opened Reseq
  import opened StripeRecord
  import opened Stripe

  // ----- where buffers are

  function InHand(l: Link, id: nat): (c: nat) {
    if l.reader.Reading? && l.reader.own == Pooled(id) then 1 else 0
  }

  /** How many readers outside deliver have the buffer. */
  function Hands(links: seq<Link>, id: nat): (c: nat) {
    if links == [] then 0 else Hands(links[..|links| - 1], id) + InHand(links[|links| - 1], id)
  }

  /** Whether the reader inside deliver has it. */
  function InLock(lock: Lock, id: nat): (c: nat) {
    if lock.Held? && lock.own == Pooled(id) then 1 else 0
  }

  /** A buffer that was taken is in one reader's hands, or was given back once; no other is anywhere. */
  predicate BalancedAt(s: State, id: nat) {
    Hands(s.links, id) + InLock(s.lock, id) + Times(s.released, id) == if id < s.taken then 1 else 0
  }

  /** A record in a pooled buffer was due when its header was read, and next only grows. */
  ghost predicate FoundDue(s: State) {
    forall j :: 0 <= j < |s.links| && s.links[j].reader.Reading? && s.links[j].reader.own.Pooled? ==>
      s.links[j].reader.seqNo <= s.q.next
  }

  /** The one pooled buffer in the map is that of the holder of the lock, about to be taken out. */
  ghost predicate PendOk(s: State) {
    forall k :: k in s.q.pend && s.q.pend[k].own.Pooled? ==>
      s.lock.Held? && s.lock.phase.Popping? && k == s.lock.seqNo == s.q.next
  }

  ghost predicate HolderOk(s: State) {
    s.lock.Held? && s.lock.own.Pooled? ==>
      if Between(s) then s.lock.seqNo == s.q.next - 1 else s.lock.seqNo == s.q.next && s.q.next in s.q.pend
  }

  ghost predicate PoolInv(s: State) {
    FoundDue(s) && PendOk(s) && HolderOk(s) && forall id: nat :: BalancedAt(s, id)
  }

  lemma {:induction false} HandsUpdate(links: seq<Link>, i: nat, l: Link, id: nat)
    requires i < |links|
    ensures Hands(links[i := l], id) + InHand(links[i], id) == Hands(links, id) + InHand(l, id)
    decreases |links|
  {
    hide InHand;
    var n := |links| - 1;
    if i < n {
      HandsUpdate(links[..n], i, l, id);
      assert links[i := l][..n] == links[..n][i := l];
    } else {
      assert links[i := l][..n] == links[..n];
    }
  }

  lemma HandsAppend(links: seq<Link>, l: Link, id: nat)
    ensures Hands(links + [l], id) == Hands(links, id) + InHand(l, id)
  {
    assert (links + [l])[..|links|] == links;
  }

  // ----- every step keeps them

  /** Steps that leave readers, the lock and the resequencer as they are. */
  predicate Outside(e: Step) {
    OfSender(e) || e.Write? || e.ClosePipe? || e.Announce?
  }

  lemma OutsideKeeps(s: State, e: Step)
    requires PoolInv(s) && Enabled(s, e) && Outside(e)
    ensures PoolInv(Apply(s, e))
  {
    hide PoolInv, Hands, Times;
    var r := Apply(s, e);
    OutsideFrame(s, e);
    OutsideHands(s, e);
    PoolSame(s, r);
  }

  lemma PoolSame(s: State, r: State)
    requires PoolInv(s)
    requires r.q.next == s.q.next && r.q.pend == s.q.pend && r.taken == s.taken && r.released == s.released
    requires r.lock == s.lock || (s.lock.Held? && s.lock.phase.Announcing? && r.lock == s.lock.(phase := Emitting(s.lock.phase.d)))
    requires |s.links| <= |r.links| && forall j :: 0 <= j < |s.links| ==> r.links[j].reader == s.links[j].reader
    requires forall j :: |s.links| <= j < |r.links| ==> r.links[j].reader.Ready?
    requires forall id: nat :: Hands(r.links, id) == Hands(s.links, id)
    ensures PoolInv(r)
  {
    hide Hands, Times;
    forall id: nat ensures BalancedAt(r, id) { assert BalancedAt(s, id); }
  }

  lemma OutsideFrame(s: State, e: Step)
    requires Enabled(s, e) && Outside(e)
    ensures var r := Apply(s, e);
            && r.q.next == s.q.next && r.q.pend == s.q.pend && r.taken == s.taken && r.released == s.released
            && (r.lock == s.lock || (s.lock.Held? && s.lock.phase.Announcing? && r.lock == s.lock.(phase := Emitting(s.lock.phase.d))))
            && |s.links| <= |r.links| && (forall j :: 0 <= j < |s.links| ==> r.links[j].reader == s.links[j].reader)
            && forall j :: |s.links| <= j < |r.links| ==> r.links[j].reader.Ready?
  {
    hide Nums, Record, HeadStep, CutStep, BeginStep, EmitStep, Popped;
  }

  lemma OutsideHands(s: State, e: Step)
    requires Enabled(s, e) && Outside(e)
    ensures forall id: nat :: Hands(Apply(s, e).links, id) == Hands(s.links, id)
  {
    hide Nums, Record, Hands, HeadStep, CutStep, BeginStep, EmitStep, Popped;
    forall id: nat ensures Hands(Apply(s, e).links, id) == Hands(s.links, id) {
      if e.Open? {
        HandsAppend(s.links, Link(Idle, [], 0, [], Ready), id);
      } else if OfSender(e) && !e.Shutdown? {
        HandsUpdate(s.links, e.i, Apply(s, e).links[e.i], id);
      }
    }
  }

  lemma HeadKeeps(s: State, e: Step)
    requires Inv(s) && PoolInv(s) && Enabled(s, e) && (e.Head? || e.Cut?)
    ensures PoolInv(Apply(s, e))
  {
    hide Inv, Hands, Times, HeadLen, Get64, BeginStep, EmitStep, HolderOk, PendOk;
    NextDueBehind(s);
    var r := Apply(s, e);
    HoldersSame(s, r);
    forall id: nat ensures BalancedAt(r, id) {
      assert BalancedAt(s, id);
      HandsUpdate(s.links, e.i, r.links[e.i], id);
      if e.Cut? && s.links[e.i].reader.Reading? && s.links[e.i].reader.own.Pooled? {
        TimesMore(s.released, s.links[e.i].reader.own.id, id);
      }
    }
  }

  lemma HoldersSame(s: State, r: State)
    requires HolderOk(s) && PendOk(s) && r.q == s.q && r.lock == s.lock
    ensures HolderOk(r) && PendOk(r)
  {
  }

  lemma NextDueBehind(s: State)
    requires Inv(s)
    ensures s.nextDue <= s.q.next
  {
    hide Genuine, QueueOk, LinkOk;
  }

  lemma BeginKeeps(s: State, e: Step)
    requires Inv(s) && PoolInv(s) && Enabled(s, e) && e.Begin?
    ensures PoolInv(Apply(s, e))
  {
    hide Inv, Hands, Times, Balanced, HeadLen, Get64, HeadStep, CutStep, EmitStep, FoundDue, PendOk, HolderOk;
    var r := Apply(s, e);
    var v := s.links[e.i].reader;
    BeginPlaces(s, e);
    forall id: nat ensures BalancedAt(r, id) {
      assert BalancedAt(s, id);
      HandsUpdate(s.links, e.i, r.links[e.i], id);
      if v.own.Pooled? { TimesMore(s.released, v.own.id, id); }
    }
  }

  /** A pooled record that is stored is the one due next. */
  lemma BeginPlaces(s: State, e: Step)
    requires FoundDue(s) && PendOk(s) && HolderOk(s) && Enabled(s, e) && e.Begin?
    ensures var r := Apply(s, e); FoundDue(r) && PendOk(r) && HolderOk(r)
  {
    hide Balanced, HeadLen, Get64, HeadStep, CutStep, EmitStep;
  }

  lemma PopKeeps(s: State, e: Step)
    requires Inv(s) && PoolInv(s) && Enabled(s, e) && e.Pop?
    ensures PoolInv(Apply(s, e))
  {
    hide Inv, Hands, Times, Balanced, HeadStep, CutStep, BeginStep, EmitStep;
    var r := Apply(s, e);
    forall id: nat ensures BalancedAt(r, id) { assert BalancedAt(s, id); }
  }

  lemma EmitKeeps(s: State, e: Step)
    requires Inv(s) && PoolInv(s) && Enabled(s, e) && e.Emit?
    ensures PoolInv(Apply(s, e))
  {
    hide Inv, Hands, Times, WriteFails, PipeWrite, HeadStep, CutStep, BeginStep;
    HolderDelivers(s);
    PipeNext(s.q, s.lock.phase.d, e.limit);
    var r := Apply(s, e);
    forall id: nat ensures BalancedAt(r, id) {
      assert BalancedAt(s, id);
      HandsUpdate(s.links, s.lock.i, s.links[s.lock.i].(reader := Ended), id);
      if s.lock.own.Pooled? { TimesMore(s.released, s.lock.own.id, id); }
    }
  }

  lemma UnlockKeeps(s: State, e: Step)
    requires Inv(s) && PoolInv(s) && Enabled(s, e) && e.Unlock?
    ensures PoolInv(Apply(s, e))
  {
    hide Inv, Hands, Times, HeadStep, CutStep, BeginStep, EmitStep;
    HolderDelivers(s);
    var r := Apply(s, e);
    forall id: nat ensures BalancedAt(r, id) {
      assert BalancedAt(s, id);
      HandsUpdate(s.links, s.lock.i, r.links[s.lock.i], id);
    }
  }

  lemma HolderDelivers(s: State)
    requires Inv(s) && s.lock.Held?
    ensures s.lock.i < |s.links| && s.links[s.lock.i].reader.Delivering?
  {
    hide Genuine, QueueOk, LinkOk;
  }

  lemma StepKeepsPool(s: State, e: Step)
    requires Inv(s) && PoolInv(s) && Enabled(s, e)
    ensures PoolInv(Apply(s, e))
  {
    hide Inv, PoolInv, Apply, Enabled;
    if e.Head? || e.Cut? { HeadKeeps(s, e); }
    else if e.Begin? { BeginKeeps(s, e); }
    else if e.Pop? { PopKeeps(s, e); }
    else if e.Emit? { EmitKeeps(s, e); }
    else if e.Unlock? { UnlockKeeps(s, e); }
    else { OutsideKeeps(s, e); }
  }

  // ----- whole runs

  lemma {:induction false} RunKeepsPool(s: State, steps: seq<Step>, r: State)
    requires Inv(s) && PoolInv(s) && Runs(s, steps, r)
    ensures PoolInv(r)
    decreases |steps|
  {
    hide Inv, PoolInv, Apply, Enabled;
    if steps != [] {
      StepKeeps(s, steps[0]);
      StepKeepsPool(s, steps[0]);
      RunKeepsPool(Apply(s, steps[0]), steps[1..], r);
    }
  }

  lemma InitPool()
    ensures Inv(INIT) && PoolInv(INIT)
  {
    InitHolds();
  }

  /** Over every run: while the lock is free, no pending record is in a pooled buffer. */
  lemma NeverLeftPending(steps: seq<Step>, r: State)
    requires Runs(INIT, steps, r) && r.lock.Free?
    ensures NonePooled(r.q.pend)
  {
    hide Runs, Inv, Hands;
    InitPool();
    RunKeepsPool(INIT, steps, r);
  }

  /** Over every run: a pooled buffer ever taken is in exactly one reader's hands, or was given back exactly once. */
  lemma ReleasedOnce(steps: seq<Step>, r: State, id: nat)
    requires Runs(INIT, steps, r)
    ensures var hands := Hands(r.links, id) + InLock(r.lock, id);
            if id < r.taken then (hands == 1 && Times(r.released, id) == 0) || (hands == 0 && Times(r.released, id) == 1)
            else hands == 0 && Times(r.released, id) == 0
  {
    hide Runs, Inv, Hands, Times, FoundDue, PendOk, HolderOk;
    InitPool();
    RunKeepsPool(INIT, steps, r);
    assert BalancedAt(r, id);
  }

  /** Once every reader has returned, every pooled buffer was given back exactly once. */
  lemma AllReleased(steps: seq<Step>, r: State, id: nat)
    requires Runs(INIT, steps, r) && id < r.taken && forall j :: 0 <= j < |r.links| ==> r.links[j].reader.Ended?
    ensures Times(r.released, id) == 1
  {
    hide Runs, Times;
    ReleasedOnce(steps, r, id);
    NoHands(r.links, id);
    InitHolds();
    RunKeeps(INIT, steps, r);
    if r.lock.Held? { HolderDelivers(r); }
  }

  lemma {:induction false} NoHands(links: seq<Link>, id: nat)
    requires forall j :: 0 <= j < |links| ==> !links[j].reader.Reading?
    ensures Hands(links, id) == 0
  {
    if links != [] { NoHands(links[..|links| - 1], id); }
  }

  // ----- deliver as one call

  /** What the object of module Reseq asks of a caller holds whenever a reader is about to deliver. */
  lemma MayDeliver(steps: seq<Step>, r: State, i: nat)
    requires Runs(INIT, steps, r) && r.lock.Free? && i < |r.links| && r.links[i].reader.Reading?
    ensures Balanced(r.q) && r.nextDue == r.q.next && NonePooled(r.q.pend)
    ensures r.links[i].reader.own.Pooled? ==> r.links[i].reader.seqNo <= r.q.next
  {
    hide Runs, Genuine, Concat, Hands, PendBytes;
    InitPool();
    RunKeepsPool(INIT, steps, r);
    BooksBalance(steps, r);
  }

  /** Only reader i moved, its stream, the resequencer and what was stored with it. */
  ghost predicate OnlyReader(s: State, r: State, i: nat) {
    && i < |s.links| == |r.links|
    && r == s.(q := r.q, nextDue := r.nextDue, lock := r.lock, released := r.released, stored := r.stored, taken := r.taken,
               links := s.links[i := s.links[i].(reader := r.links[i].reader, pos := r.links[i].pos)])
  }

  lemma OnlyReaderOn(s: State, t: State, r: State, i: nat)
    requires OnlyReader(s, t, i) && OnlyReader(t, r, i)
    ensures OnlyReader(s, r, i)
  {
    var l := t.links[i].(reader := r.links[i].reader, pos := r.links[i].pos);
    assert t.links[i := l] == s.links[i := l];
  }

  /** The drain loop, run to its end by the holder of the lock, is the function Drain. */
  lemma {:induction false} DrainIsSteps(s: State, limit: nat) returns (steps: seq<Step>, r: State)
    requires Inv(s) && s.lock.Held? && s.lock.phase.Popping? && Balanced(s.q)
    requires s.lock.own.Pooled? ==> s.lock.seqNo == s.q.next && s.q.next in s.q.pend
    ensures Runs(s, steps, r) && r.lock.Free? && r.q == Drain(s.q, limit).0
    ensures |r.links| == |s.links| && s.lock.i < |s.links|
    ensures r.links[s.lock.i].reader == if Drain(s.q, limit).1 then Ready else Ended
    ensures r.released == GiveBack(s.released, s.lock.own) && r.taken == s.taken
    ensures OnlyReader(s, r, s.lock.i) && r.stored == s.stored && r.links[s.lock.i].pos == s.links[s.lock.i].pos
    decreases |s.q.pend|
  {
    hide Inv, Balanced, Popped, PipeWrite, Apply, Runs, HeadStep, CutStep, BeginStep, OnlyReader;
    HolderDelivers(s);
    if s.q.next !in s.q.pend {
      steps, r := [Unlock], Apply(s, Unlock);
      RunsOne(s, Unlock);
      UnlockIs(s);
    } else {
      var t := Round(s, limit);
      var d := s.q.pend[s.q.next].data;
      steps := [Pop, Announce, Emit(limit)];
      if WriteFails(s.q, d, limit) {
        r := t;
      } else {
        var more;
        more, r := DrainIsSteps(t, limit - |d|);
        RunsAppend(s, steps, t, more, r);
        OnlyReaderOn(s, t, r, s.lock.i);
        steps := steps + more;
      }
    }
  }

  lemma UnlockIs(s: State)
    requires Enabled(s, Unlock)
    ensures var r := Apply(s, Unlock);
            && r.q == s.q && r.lock.Free? && |r.links| == |s.links| && r.links[s.lock.i].reader.Ready?
            && r.released == s.released && r.taken == s.taken
            && OnlyReader(s, r, s.lock.i) && r.stored == s.stored && r.links[s.lock.i].pos == s.links[s.lock.i].pos
  {
  }

  /** One round of the drain loop. */
  lemma Round(s: State, limit: nat) returns (t: State)
    requires Inv(s) && s.lock.Held? && s.lock.phase.Popping? && Balanced(s.q) && s.q.next in s.q.pend
    requires s.lock.own.Pooled? ==> s.lock.seqNo == s.q.next
    ensures Inv(t) && Runs(s, [Pop, Announce, Emit(limit)], t)
    ensures s.lock.i < |s.links| == |t.links| && t.taken == s.taken
    ensures OnlyReader(s, t, s.lock.i) && t.stored == s.stored && t.links[s.lock.i].pos == s.links[s.lock.i].pos
    ensures var d := s.q.pend[s.q.next].data;
            && t.q == PipeWrite(Popped(s.q), d, limit) && Balanced(t.q) && |t.q.pend| < |s.q.pend|
            && (if WriteFails(s.q, d, limit) then
                  t.lock.Free? && t.links[s.lock.i].reader.Ended? && t.released == GiveBack(s.released, s.lock.own)
                else
                  && t.lock.Held? && t.lock.i == s.lock.i && t.lock.phase.Popping?
                  && t.lock.own.Unpooled?
                  && t.released == GiveBack(s.released, s.lock.own))
  {
    hide Inv, Balanced, PipeWrite, Apply, Enabled, Runs;
    HolderDelivers(s);
    TakesOut(s, limit);
    var a := Apply(s, Pop);
    StepKeeps(s, Pop);
    var b := Apply(a, Announce);
    StepKeeps(a, Announce);
    EmitIs(b, limit);
    t := Apply(b, Emit(limit));
    StepKeeps(b, Emit(limit));
    PipeKeeps(Popped(s.q), s.q.pend[s.q.next].data, limit);
    PipeNext(Popped(s.q), s.q.pend[s.q.next].data, limit);
    RunsThree(s, Pop, Announce, Emit(limit));
  }

  /** The first two accesses of a round. */
  lemma TakesOut(s: State, limit: nat)
    requires s.lock.Held? && s.lock.phase.Popping? && Balanced(s.q) && s.q.next in s.q.pend && s.lock.i < |s.links|
    ensures Enabled(s, Pop) && Enabled(Apply(s, Pop), Announce) && Enabled(Apply(Apply(s, Pop), Announce), Emit(limit))
    ensures Apply(Apply(s, Pop), Announce) ==
            s.(q := Popped(s.q), nextDue := s.q.next + 1, lock := s.lock.(phase := Emitting(s.q.pend[s.q.next].data)))
  {
    hide HeadStep, CutStep, BeginStep, EmitStep;
  }

  lemma RunsThree(s: State, x: Step, y: Step, z: Step)
    requires Enabled(s, x) && Enabled(Apply(s, x), y) && Enabled(Apply(Apply(s, x), y), z)
    ensures Runs(s, [x, y, z], Apply(Apply(Apply(s, x), y), z))
  {
    hide Apply, Enabled;
    RunsOne(Apply(Apply(s, x), y), z);
    assert [x, y, z][1..] == [y, z] && [y, z][1..] == [z];
  }

  /** deliver, run to its end without interruption, is the function Deliver, and releases the buffer it was given. */
  lemma DeliverIsSteps(s: State, i: nat, maxN: nat, max: nat, limit: nat) returns (steps: seq<Step>, r: State)
    requires Inv(s) && Enabled(s, Begin(i, maxN, max))
    requires s.links[i].reader.own.Pooled? ==> s.links[i].reader.seqNo <= s.q.next
    ensures Runs(s, steps, r) && r.lock.Free? && |r.links| == |s.links|
    ensures var v := s.links[i].reader;
            var d := Deliver(s.q, maxN, max, v.seqNo, Chunk(Unread(s.links[i])[REC_HDR..REC_HDR + v.n], v.own), limit);
            && r.q == d.0 && r.links[i].reader == (if d.1 then Ready else Ended)
            && r.released == GiveBack(s.released, v.own)
            && OnlyReader(s, r, i) && r.links[i].pos == s.links[i].pos + REC_HDR + v.n
            && (d.1 ==> r.stored == if v.seqNo < s.q.next then s.stored else s.stored + {v.seqNo})
  {
    hide Inv, Runs, Balanced, Drain, HeadLen, Get64, HeadStep, CutStep, EmitStep;
    var t := Apply(s, Begin(i, maxN, max));
    StepKeeps(s, Begin(i, maxN, max));
    RunsOne(s, Begin(i, maxN, max));
    if t.lock.Free? {
      steps, r := [Begin(i, maxN, max)], t;
    } else {
      var more;
      more, r := DrainIsSteps(t, limit);
      RunsAppend(s, [Begin(i, maxN, max)], t, more, r);
      OnlyReaderOn(s, t, r, i);
      steps := [Begin(i, maxN, max)] + more;
    }
  }
}
