/**
 The readers of the striping protocol go on: why one returns, and that what was written in
 full comes out as long as none did.
 */
module StripeRead {
  import opened Wire
  import opened Reseq
  import opened StripeRecord
  import opened Stripe
  import opened StripePool
  import opened StripeComplete

  // ----- why a reader returns

  /**
   The stream was cut, its next record is over the limit, deliver refused the record for want of
   room, or the pipe was closed under the record the reader was writing.
   */
  ghost predicate Reason(s: State, e: Step, i: nat)
    requires i < |s.links| && Enabled(s, e)
  {
    var l := s.links[i];
    || e == Cut(i)
    || (e == Head(i) && HeadLen(Unread(l)) > 0x10_0000)
    || (e.Begin? && e.i == i && l.reader.seqNo >= s.q.next && (|s.q.pend| >= e.maxN || s.q.n + l.reader.n > e.max))
    || (e.Emit? && s.lock.i == i && s.lock.phase.d != [] && (!s.q.open || |s.lock.phase.d| > e.limit))
  }

  /** A reader returns exactly for one of these reasons, and it does not come back. */
  lemma StepEnds(s: State, e: Step, i: nat)
    requires Enabled(s, e) && i < |s.links|
    ensures |Apply(s, e).links| >= |s.links|
    ensures s.links[i].reader.Ended? ==> Apply(s, e).links[i].reader.Ended? || ((e.Emit? || e.Unlock?) && s.lock.i == i)
    ensures !s.links[i].reader.Ended? ==> (Apply(s, e).links[i].reader.Ended? <==> Reason(s, e, i))
    ensures forall j :: |s.links| <= j < |Apply(s, e).links| ==> Apply(s, e).links[j].reader.Ready?
  {
    hide Apply;
    if e.Head? || e.Cut? { HeadEnds(s, e, i); }
    else if e.Begin? { BeginEnds(s, e, i); }
    else if e.Emit? { EmitEnds(s, e, i); }
    else { OtherEnds(s, e, i); }
  }

  lemma HeadEnds(s: State, e: Step, i: nat)
    requires Enabled(s, e) && i < |s.links| && (e.Head? || e.Cut?)
    ensures |Apply(s, e).links| == |s.links| && (s.links[i].reader.Ended? ==> Apply(s, e).links[i].reader.Ended?)
    ensures !s.links[i].reader.Ended? ==> (Apply(s, e).links[i].reader.Ended? <==> Reason(s, e, i))
  {
    hide HeadLen, Get64, BeginStep, EmitStep, Nums, Record, Popped;
  }

  lemma BeginEnds(s: State, e: Step, i: nat)
    requires Enabled(s, e) && i < |s.links| && e.Begin?
    ensures |Apply(s, e).links| == |s.links| && (s.links[i].reader.Ended? ==> Apply(s, e).links[i].reader.Ended?)
    ensures !s.links[i].reader.Ended? ==> (Apply(s, e).links[i].reader.Ended? <==> Reason(s, e, i))
  {
    hide HeadLen, Get64, HeadStep, CutStep, EmitStep, Balanced, Stored, Nums, Record, Popped;
  }

  lemma EmitEnds(s: State, e: Step, i: nat)
    requires Enabled(s, e) && i < |s.links| && e.Emit?
    ensures |Apply(s, e).links| == |s.links| && (s.links[i].reader.Ended? ==> Apply(s, e).links[i].reader.Ended?)
    ensures !s.links[i].reader.Ended? ==> (Apply(s, e).links[i].reader.Ended? <==> Reason(s, e, i))
  {
    hide HeadLen, Get64, HeadStep, CutStep, BeginStep, PipeWrite, Nums, Record, Popped;
  }

  lemma OtherEnds(s: State, e: Step, i: nat)
    requires Enabled(s, e) && i < |s.links| && !e.Head? && !e.Cut? && !e.Begin? && !e.Emit?
    ensures |Apply(s, e).links| >= |s.links|
    ensures s.links[i].reader.Ended? ==> Apply(s, e).links[i].reader.Ended? || (e.Unlock? && s.lock.i == i)
    ensures Apply(s, e).links[i].reader.Ended? ==> s.links[i].reader.Ended?
    ensures forall j :: |s.links| <= j < |Apply(s, e).links| ==> Apply(s, e).links[j].reader.Ready?
  {
    hide HeadLen, Get64, HeadStep, CutStep, BeginStep, EmitStep, Nums, Record, Popped;
  }

  /** Over every run, a reader that has returned did so at a step of the run, for a reason. */
  lemma {:induction false} RunEnds(s: State, steps: seq<Step>, r: State, i: nat) returns (k: nat, t: State)
    requires Runs(s, steps, r) && i < |r.links| && r.links[i].reader.Ended?
    requires i < |s.links| ==> !s.links[i].reader.Ended?
    ensures k < |steps| && Runs(s, steps[..k], t) && Enabled(t, steps[k]) && i < |t.links| && Reason(t, steps[k], i)
    decreases |steps|
  {
    hide Apply, Enabled, Reason;
    k, t := 0, s;
    if steps != [] {
      var e, u := steps[0], Apply(s, steps[0]);
      LinksNew(s, e);
      if i < |s.links| && u.links[i].reader.Ended? {
        StepEnds(s, e, i);
      } else {
        if i < |s.links| { StepEnds(s, e, i); }
        k, t := RunEnds(u, steps[1..], r, i);
        k := k + 1;
        assert steps[..k] == [e] + steps[1..][..k - 1];
        RunsOne(s, e);
        RunsAppend(s, [e], u, steps[1..][..k - 1], t);
      }
    }
  }

  lemma LinksNew(s: State, e: Step)
    requires Enabled(s, e)
    ensures |Apply(s, e).links| >= |s.links|
    ensures forall j :: |s.links| <= j < |Apply(s, e).links| ==> Apply(s, e).links[j].reader.Ready?
  {
    hide HeadLen, Get64, HeadStep, CutStep, BeginStep, EmitStep, Nums, Record, Popped;
    StepFrame(s, e);
  }

  // ----- a reader goes on

  /** A whole record or keepalive has arrived. */
  predicate AtRecord(b: Bytes) {
    |b| >= REC_HDR && |b| >= REC_HDR + HeadLen(b)
  }

  /** No whole record is over the limit. */
  predicate Sized(b: Bytes)
    decreases |b|
  {
    AtRecord(b) ==> HeadLen(b) <= MAX_RECORD && Sized(b[REC_HDR + HeadLen(b)..])
  }

  ghost predicate Good(s: State) {
    Inv(s) && PoolInv(s) && Kept(s)
  }

  /** Nobody is inside deliver and the pipe is open. */
  ghost predicate Calm(s: State) {
    Good(s) && s.lock.Free? && s.q.open
  }

  lemma {:induction false} RunGood(s: State, steps: seq<Step>, r: State)
    requires Good(s) && Drained(s) && Runs(s, steps, r)
    ensures Good(r) && Drained(r)
  {
    hide Inv, PoolInv, Kept, Drained, Runs;
    RunKeeps(s, steps, r);
    RunKeepsPool(s, steps, r);
    RunCompletes(s, steps, r);
  }

  /** With room in the pipe for all that is pending, the drain loop gets through. */
  lemma {:induction false} DrainFlows(q: Queue, limit: nat)
    requires Balanced(q) && q.open && limit >= q.n
    ensures var d := Drain(q, limit); d.1 && d.0.open && d.0.n <= q.n && |d.0.pend| <= |q.pend|
    decreases |q.pend|
  {
    hide PendBytes;
    if q.next in q.pend {
      var d := q.pend[q.next].data;
      PendCount(q, q.next);
      PipeKeeps(Popped(q), d, limit);
      DrainFlows(PipeWrite(Popped(q), d, limit), limit - |d|);
    }
  }

  lemma StoredSize(q: Queue, seqNo: nat, c: Chunk)
    requires Balanced(q) && seqNo >= q.next
    ensures var r := Stored(q, seqNo, c); Balanced(r) && r.open == q.open && r.n <= q.n + |c.data| && |r.pend| <= |q.pend| + 1
  {
    hide PendBytes;
    assert q.pend[seqNo := c].Keys == q.pend.Keys + {seqNo};
  }

  /** deliver, with room for the record. */
  lemma DeliverFlows(q: Queue, maxN: nat, max: nat, seqNo: nat, c: Chunk, limit: nat)
    requires Balanced(q) && q.open && |q.pend| < maxN && q.n + |c.data| <= max && q.n + |c.data| <= limit
    ensures var d := Deliver(q, maxN, max, seqNo, c, limit);
            d.1 && d.0.open && d.0.n <= q.n + |c.data| && |d.0.pend| <= |q.pend| + 1
  {
    hide Balanced, Stored, Drain;
    if seqNo >= q.next {
      StoredSize(q, seqNo, c);
      DrainFlows(Stored(q, seqNo, c), limit);
    }
  }

  /** Limits on what may be pending and on what the pipe still takes, with room for more octets. */
  datatype Limits = Limits(maxN: nat, max: nat, pipe: nat) {
    predicate Room(q: Queue, more: nat) {
      |q.pend| + more < maxN && q.n + more <= max && q.n + more <= pipe
    }
  }

  /** What reading does to everything around the reader. */
  ghost predicate Advances(s: State, r: State, i: nat, size: nat) {
    && Calm(r) && Drained(r) && OnlyReader(s, r, i) && r.links[i].reader.Ready?
    && r.links[i].pos == s.links[i].pos + size && s.stored <= r.stored
    && r.q.n <= s.q.n + size && |r.q.pend| <= |s.q.pend| + size
  }

  lemma AdvancesOn(s: State, t: State, r: State, i: nat, m: nat, k: nat)
    requires Advances(s, t, i, m) && Advances(t, r, i, k)
    ensures Advances(s, r, i, m + k)
  {
    hide Calm, OnlyReader, Drained;
    OnlyReaderOn(s, t, r, i);
  }

  /** A record whose header was read is delivered. */
  lemma FinishRecord(s: State, i: nat, lim: Limits) returns (steps: seq<Step>, r: State)
    requires Calm(s) && Drained(s) && i < |s.links| && s.links[i].reader.Reading?
    requires s.links[i].pos <= |s.links[i].bytes| && AtRecord(Unread(s.links[i])) && lim.Room(s.q, HeadLen(Unread(s.links[i])))
    ensures Runs(s, steps, r) && Advances(s, r, i, REC_HDR + HeadLen(Unread(s.links[i])))
    ensures Get64(Unread(s.links[i])) in r.stored
  {
    hide Runs, Genuine, QueueOk, HeadLen, Get64, Deliver, Drained, OnlyReader, Balanced;
    ReadingMay(s, i);
    var l := s.links[i];
    var v := l.reader;
    var c := Chunk(Unread(l)[REC_HDR..REC_HDR + v.n], v.own);
    DeliverFlows(s.q, lim.maxN, lim.max, v.seqNo, c, lim.pipe);
    steps, r := DeliverIsSteps(s, i, lim.maxN, lim.max, lim.pipe);
    RunGood(s, steps, r);
  }

  /** The reader stands at the header it has read, and may deliver its record. */
  lemma ReadingMay(s: State, i: nat)
    requires Good(s) && s.lock.Free? && i < |s.links| && s.links[i].reader.Reading?
    ensures var l := s.links[i];
            && l.pos <= |l.bytes| && AtHead(l) && l.reader.seqNo == Get64(Unread(l)) && l.reader.n == HeadLen(Unread(l))
            && Balanced(s.q) && (l.reader.own.Pooled? ==> l.reader.seqNo <= s.q.next)
            && (l.reader.seqNo < s.q.next ==> l.reader.seqNo in s.stored)
            && (AtRecord(Unread(l)) ==> forall maxN, max :: Enabled(s, Begin(i, maxN, max)))
  {
    hide Genuine, HeadLen, Get64, Hands, PendBytes;
  }

  /** A keepalive is skipped. */
  lemma SkipKeepalive(s: State, i: nat) returns (r: State)
    requires Calm(s) && Drained(s) && i < |s.links| && s.links[i].reader.Ready? && s.links[i].pos <= |s.links[i].bytes|
    requires AtRecord(Unread(s.links[i])) && HeadLen(Unread(s.links[i])) == 0
    ensures Runs(s, [Head(i)], r) && Advances(s, r, i, REC_HDR)
  {
    hide Runs, Good, Drained, HeadLen;
    r := Apply(s, Head(i));
    RunsOne(s, Head(i));
    RunGood(s, [Head(i)], r);
  }

  /** The header of a record is read, and a buffer chosen. */
  lemma ReadHead(s: State, i: nat) returns (r: State)
    requires Calm(s) && Drained(s) && i < |s.links| && s.links[i].reader.Ready? && s.links[i].pos <= |s.links[i].bytes|
    requires AtRecord(Unread(s.links[i])) && 0 < HeadLen(Unread(s.links[i])) <= MAX_RECORD
    ensures Runs(s, [Head(i)], r) && Calm(r) && Drained(r) && OnlyReader(s, r, i) && r.q == s.q && r.stored == s.stored
    ensures r.links[i].reader.Reading? && r.links[i].pos == s.links[i].pos && r.links[i].bytes == s.links[i].bytes
  {
    hide Runs, Good, Drained, HeadLen, Get64;
    r := Apply(s, Head(i));
    RunsOne(s, Head(i));
    RunGood(s, [Head(i)], r);
  }

  /** One whole record or keepalive. */
  lemma ReadOne(s: State, i: nat, lim: Limits) returns (steps: seq<Step>, r: State)
    requires Calm(s) && Drained(s) && i < |s.links| && s.links[i].reader.Ready? && s.links[i].pos <= |s.links[i].bytes|
    requires AtRecord(Unread(s.links[i])) && HeadLen(Unread(s.links[i])) <= MAX_RECORD
    requires lim.Room(s.q, HeadLen(Unread(s.links[i])))
    ensures Runs(s, steps, r) && Advances(s, r, i, REC_HDR + HeadLen(Unread(s.links[i])))
    ensures HeadLen(Unread(s.links[i])) == 0 || Get64(Unread(s.links[i])) in r.stored
  {
    hide Runs, Calm, Drained, HeadLen, Get64;
    if HeadLen(Unread(s.links[i])) == 0 {
      steps := [Head(i)];
      r := SkipKeepalive(s, i);
    } else {
      var t := ReadHead(s, i);
      var more;
      more, r := FinishRecord(t, i, lim);
      RunsAppend(s, [Head(i)], t, more, r);
      HeadThen(s, t, r, i, REC_HDR + HeadLen(Unread(s.links[i])));
      steps := [Head(i)] + more;
    }
  }

  lemma HeadThen(s: State, t: State, r: State, i: nat, size: nat)
    requires OnlyReader(s, t, i) && t.q == s.q && t.stored == s.stored && t.links[i].pos == s.links[i].pos
    requires Advances(t, r, i, size)
    ensures Advances(s, r, i, size)
  {
    hide Calm, OnlyReader, Drained;
    OnlyReaderOn(s, t, r, i);
  }

  /** A reader between records reads on until no whole record is left: every number it passes was stored. */
  lemma {:induction false} ReadOn(s: State, i: nat, lim: Limits) returns (steps: seq<Step>, r: State)
    requires Calm(s) && Drained(s) && i < |s.links| && s.links[i].reader.Ready? && s.links[i].pos <= |s.links[i].bytes|
    requires Sized(Unread(s.links[i])) && lim.Room(s.q, |Unread(s.links[i])|)
    ensures Runs(s, steps, r) && Calm(r) && Drained(r) && OnlyReader(s, r, i) && r.links[i].reader.Ready?
    ensures s.links[i].pos <= r.links[i].pos <= |r.links[i].bytes| == |s.links[i].bytes|
    ensures Advances(s, r, i, r.links[i].pos - s.links[i].pos)
    ensures Nums(Unread(s.links[i])) <= r.stored && !AtRecord(Unread(r.links[i]))
    decreases |s.links[i].bytes| - s.links[i].pos
  {
    hide Calm, Drained, HeadLen, Get64, OnlyReader, Runs;
    var b := Unread(s.links[i]);
    if !AtRecord(b) {
      steps, r := [], s;
      StandsStill(s, i);
    } else {
      var size := REC_HDR + HeadLen(b);
      var t, first, more;
      first, t := ReadOne(s, i, lim);
      SameStream(s, t, i);
      assert Unread(t.links[i]) == b[size..];
      more, r := ReadOn(t, i, lim);
      SameStream(t, r, i);
      RunsAppend(s, first, t, more, r);
      steps := first + more;
      AdvancesOn(s, t, r, i, size, r.links[i].pos - t.links[i].pos);
    }
  }

  lemma SameStream(s: State, r: State, i: nat)
    requires OnlyReader(s, r, i)
    ensures i < |s.links| == |r.links|
    ensures r.links[i].bytes == s.links[i].bytes && r.links[i].lost == s.links[i].lost && r.accepted == s.accepted
    ensures forall j :: 0 <= j < |s.links| && j != i ==> r.links[j] == s.links[j]
  {
  }

  lemma StandsStill(s: State, i: nat)
    requires Calm(s) && Drained(s) && i < |s.links| && s.links[i].reader.Ready?
    ensures Runs(s, [], s) && Advances(s, s, i, 0)
  {
    assert s.links[i := s.links[i]] == s.links;
  }

  /** A reader, wherever it stands, reads on until no whole record is left. */
  lemma ReadLink(s: State, i: nat, lim: Limits) returns (steps: seq<Step>, r: State)
    requires Calm(s) && Drained(s) && i < |s.links| && !s.links[i].reader.Ended? && s.links[i].pos <= |s.links[i].bytes|
    requires Sized(Unread(s.links[i])) && lim.Room(s.q, |Unread(s.links[i])|)
    ensures Runs(s, steps, r) && Calm(r) && Drained(r) && OnlyReader(s, r, i) && !r.links[i].reader.Ended?
    ensures s.links[i].pos <= r.links[i].pos <= |r.links[i].bytes| == |s.links[i].bytes|
    ensures s.stored <= r.stored && r.q.n <= s.q.n + |Unread(s.links[i])| && |r.q.pend| <= |s.q.pend| + |Unread(s.links[i])|
    ensures Nums(Unread(s.links[i])) <= r.stored && !AtRecord(Unread(r.links[i]))
  {
    hide Good, Drained, HeadLen, Get64, OnlyReader, Runs;
    var b := Unread(s.links[i]);
    NoneDelivering(s, i);
    if s.links[i].reader.Ready? {
      steps, r := ReadOn(s, i, lim);
      SameStream(s, r, i);
    } else if !AtRecord(b) {
      steps, r := [], s;
      OnlySelf(s, i);
    } else {
      var size := REC_HDR + HeadLen(b);
      ReadingMay(s, i);
      var t, first, more;
      first, t := FinishRecord(s, i, lim);
      SameStream(s, t, i);
      assert Unread(t.links[i]) == b[size..];
      more, r := ReadOn(t, i, lim);
      SameStream(t, r, i);
      RunsAppend(s, first, t, more, r);
      OnlyReaderOn(s, t, r, i);
      steps := first + more;
    }
  }

  lemma NoneDelivering(s: State, i: nat)
    requires Calm(s) && i < |s.links|
    ensures !s.links[i].reader.Delivering?
  {
    hide Genuine, QueueOk, LinkOk;
  }

  lemma OnlySelf(s: State, i: nat)
    requires i < |s.links|
    ensures OnlyReader(s, s, i) && Runs(s, [], s)
  {
    assert s.links[i := s.links[i]] == s.links;
  }

  /** A stream made of whole records and keepalives is read to its very end. */
  lemma ReadsToEnd(s: State, i: nat, lim: Limits) returns (steps: seq<Step>, r: State)
    requires Calm(s) && Drained(s) && i < |s.links| && !s.links[i].reader.Ended? && s.links[i].pos <= |s.links[i].bytes|
    requires s.links[i].lost == [] && Sized(Unread(s.links[i])) && lim.Room(s.q, |Unread(s.links[i])|)
    ensures Runs(s, steps, r) && OnlyReader(s, r, i)
    ensures r.links[i].pos == |s.links[i].bytes| && !r.links[i].reader.Ended?
    ensures Nums(Unread(s.links[i])) <= r.stored
  {
    hide Good, Drained, HeadLen, Get64, OnlyReader, Runs;
    steps, r := ReadLink(s, i, lim);
    SameStream(s, r, i);
    WholeToEnd(r, i);
  }

  lemma WholeToEnd(s: State, i: nat)
    requires Calm(s) && i < |s.links| && s.links[i].lost == []
    ensures s.links[i].pos <= |s.links[i].bytes| && (Unread(s.links[i]) == [] || AtRecord(Unread(s.links[i])))
  {
    hide QueueOk, LockOk, HeadLen, Get64, PoolInv;
    var b := Unread(s.links[i]);
    assert b + [] == b;
  }

  // ----- all streams

  function Rest(l: Link): (n: nat) {
    if l.pos <= |l.bytes| then |l.bytes| - l.pos else 0
  }

  /** The octets that the streams from j on still hold. */
  function Backlog(links: seq<Link>, j: nat): (n: nat)
    requires j <= |links|
    decreases |links| - j
  {
    if j == |links| then 0 else Rest(links[j]) + Backlog(links, j + 1)
  }

  lemma {:induction false} BacklogSame(a: seq<Link>, b: seq<Link>, j: nat)
    requires |a| == |b| && j <= |a| && forall k :: j <= k < |a| ==> a[k] == b[k]
    ensures Backlog(a, j) == Backlog(b, j)
    decreases |a| - j
  {
    if j < |a| { BacklogSame(a, b, j + 1); }
  }

  ghost predicate Readers(s: State) {
    forall j :: 0 <= j < |s.links| ==>
      !s.links[j].reader.Ended? && s.links[j].pos <= |s.links[j].bytes| && Sized(Unread(s.links[j]))
  }

  /** Every reader from j on reads all the whole records of its stream. */
  lemma {:induction false} ReadAll(s: State, j: nat, lim: Limits) returns (steps: seq<Step>, r: State)
    requires Calm(s) && Drained(s) && Readers(s) && j <= |s.links| && lim.Room(s.q, Backlog(s.links, j))
    ensures Runs(s, steps, r) && Calm(r) && Drained(r) && r.accepted == s.accepted && s.stored <= r.stored
    ensures forall k :: j <= k < |s.links| ==> Nums(Unread(s.links[k])) <= r.stored
    decreases |s.links| - j
  {
    hide Calm, Drained, HeadLen, Get64, OnlyReader, Runs, Sized;
    if j == |s.links| {
      steps, r := [], s;
      RunsNone(s);
    } else {
      var t, first, more;
      first, t := ReadLink(s, j, lim);
      SameStream(s, t, j);
      StillSized(s, t, j);
      BacklogSame(s.links, t.links, j + 1);
      more, r := ReadAll(t, j + 1, lim);
      RunsAppend(s, first, t, more, r);
      steps := first + more;
    }
  }

  lemma RunsNone(s: State)
    ensures Runs(s, [], s)
  {
  }

  lemma StillSized(s: State, t: State, j: nat)
    requires Readers(s) && j < |s.links| && OnlyReader(s, t, j) && !t.links[j].reader.Ended?
    requires s.links[j].pos <= t.links[j].pos <= |t.links[j].bytes| && !AtRecord(Unread(t.links[j]))
    ensures Readers(t)
  {
    hide HeadLen;
  }
}
