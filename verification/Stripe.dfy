/**
 The striping protocol of internal/packet/stripe.go: one sender numbers records,
 many stream servers gather, write and requeue them, readers parse their streams
 and feed one resequencer. A step is one access to shared state, and any step may
 come next: a reader looks at nextDue without the lock, reads its record, and takes
 the lock later; the drain under the lock is one step per access as well.
 */
module Stripe {
  import opened Wire
  import opened Sequences
  import opened Reseq
  import opened StripeRecord

  // ----- the resequencer against what was accepted

  /**
   Pending records are the accepted ones, they and those before next are readable, and the
   pipe has carried exactly the first done of them.
   */
  ghost predicate QueueOk(q: Queue, accepted: seq<Bytes>, done: nat) {
    && Balanced(q) && done <= q.next <= |accepted|
    && (forall k :: k in q.pend ==> k < |accepted| && q.pend[k].data == accepted[k] && Readable(accepted[k]))
    && (forall k :: 0 <= k < q.next ==> Readable(accepted[k]))
    && (q.open ==> q.out == Concat(accepted[..done]))
    && q.out <= Concat(accepted[..q.next])
  }

  lemma PopOk(q: Queue, accepted: seq<Bytes>)
    requires QueueOk(q, accepted, q.next) && q.next in q.pend
    ensures QueueOk(Popped(q), accepted, q.next) && q.pend[q.next].data == accepted[q.next]
  {
    hide Balanced, Concat;
    ConcatNext(accepted, q.next);
  }

  lemma EmitOk(q: Queue, accepted: seq<Bytes>, limit: nat)
    requires q.next > 0 && QueueOk(q, accepted, q.next - 1)
    ensures QueueOk(PipeWrite(q, accepted[q.next - 1], limit), accepted, q.next)
  {
    hide Balanced, Concat;
    PipeKeeps(q, accepted[q.next - 1], limit);
    ConcatNext(accepted, q.next - 1);
  }

  lemma StoreOk(q: Queue, accepted: seq<Bytes>, seqNo: nat, c: Chunk)
    requires QueueOk(q, accepted, q.next) && q.next <= seqNo < |accepted| && c.data == accepted[seqNo] && Readable(c.data)
    ensures QueueOk(Stored(q, seqNo, c), accepted, q.next) && Stored(q, seqNo, c).next == q.next
  {
    hide Balanced, Concat;
  }

  lemma QueueGrows(q: Queue, accepted: seq<Bytes>, p: Bytes, done: nat)
    requires QueueOk(q, accepted, done)
    ensures QueueOk(q, accepted + [p], done)
  {
    hide Balanced, Concat;
    assert (accepted + [p])[..q.next] == accepted[..q.next];
    assert (accepted + [p])[..done] == accepted[..done];
  }

  // ----- the protocol

  /** A stream server: waiting, holding a gathered run, putting a failed run back, or returned. */
  datatype Server = Idle | Holding(run: Bytes) | Requeueing(run: Bytes) | Gone

  /**
   A stream reader: between records, with a header read and a buffer of its own chosen,
   inside deliver with the lock held, or returned.
   */
  datatype Reader = Ready | Reading(seqNo: nat, n: nat, own: Own) | Delivering | Ended

  /**
   A stream: the octets that reached the far side, where the record its reader is at begins,
   and, after a failed write, the rest of that write, which never arrived.
   */
  datatype Link = Link(server: Server, bytes: Bytes, pos: nat, lost: Bytes, reader: Reader)

  /** How far the drain loop is with the record it took out, if any. */
  datatype Phase = Popping | Announcing(d: Bytes) | Emitting(d: Bytes)

  /** The lock of the resequencer; own is the buffer its holder has yet to give back. */
  datatype Lock = Free | Held(i: nat, seqNo: nat, own: Own, phase: Phase)

  /**
   accepted[i] is the payload numbered i; written holds the numbers of records some server
   wrote in full, dropped those of runs dropped at shutdown, stored those that deliver put in
   the queue. taken counts the pooled buffers taken so far, which name them; released lists
   those given back.
   */
  datatype State = State(
    accepted: seq<Bytes>, work: seq<Bytes>, links: seq<Link>, q: Queue, nextDue: nat, lock: Lock,
    taken: nat, released: seq<nat>, written: set<nat>, dropped: set<nat>, stored: set<nat>, done: bool)

  datatype Step =
    | Write(p: Bytes)
    | Open
    | Take(i: nat)
    | Gather(i: nat)
    | Sent(i: nat)
    | Failed(i: nat, k: nat)
    | Requeue(i: nat)
    | Abandon(i: nat)
    | Keepalive(i: nat, k: nat)
    | Return(i: nat)
    | Shutdown
    | Head(i: nat)
    | Cut(i: nat)
    | Begin(i: nat, maxN: nat, max: nat)
    | Pop
    | Announce
    | Emit(limit: nat)
    | Unlock
    | ClosePipe

  const INIT := State([], [], [], Queue(0, map[], 0, [], true), 0, Free, 0, [], {}, {}, {}, false)

  /** What remains for the reader of a stream. */
  function Unread(l: Link): (b: Bytes)
    requires l.pos <= |l.bytes|
  {
    l.bytes[l.pos..]
  }

  predicate AtHead(l: Link) {
    l.pos <= |l.bytes| && |l.bytes| - l.pos >= REC_HDR
  }

  ghost predicate Enabled(s: State, e: Step) {
    match e
    case Write(p) => |p| < MAX_LENGTH && |s.accepted| < W_SEQ
    case Open => true
    case Take(i) => i < |s.links| && s.links[i].server.Idle? && s.work != []
    case Gather(i) => i < |s.links| && s.links[i].server.Holding? && s.work != []
    case Sent(i) => i < |s.links| && s.links[i].server.Holding?
    case Failed(i, k) => i < |s.links| && s.links[i].server.Holding? && k <= |s.links[i].server.run|
    case Requeue(i) => i < |s.links| && s.links[i].server.Requeueing?
    case Abandon(i) => i < |s.links| && s.links[i].server.Requeueing? && s.done
    case Keepalive(i, k) => i < |s.links| && s.links[i].server.Idle? && k <= REC_HDR
    case Return(i) => i < |s.links| && s.links[i].server.Idle?
    case Shutdown => true
    case Head(i) => i < |s.links| && s.links[i].reader.Ready? && AtHead(s.links[i])
    case Cut(i) => i < |s.links| && (s.links[i].reader.Ready? || s.links[i].reader.Reading?)
    case Begin(i, _, _) =>
      && i < |s.links| && s.links[i].reader.Reading? && s.lock.Free? && Balanced(s.q)
      && AtHead(s.links[i]) && |Unread(s.links[i])| >= REC_HDR + s.links[i].reader.n
    case Pop => s.lock.Held? && s.lock.phase.Popping? && Balanced(s.q) && s.q.next in s.q.pend
    case Announce => s.lock.Held? && s.lock.phase.Announcing?
    case Emit(_) => s.lock.Held? && s.lock.phase.Emitting? && s.lock.i < |s.links| && s.q.next > 0
    case Unlock => s.lock.Held? && s.lock.phase.Popping? && s.q.next !in s.q.pend && s.lock.i < |s.links|
    case ClosePipe => true
  }

  function WithLink(s: State, i: nat, l: Link): (r: State)
    requires i < |s.links|
  {
    s.(links := s.links[i := l])
  }

  /** A header: a keepalive is skipped, an oversized record ends the reader, a due one gets a pooled buffer. */
  function HeadStep(s: State, i: nat): (r: State)
    requires Enabled(s, Head(i))
  {
    var l := s.links[i];
    var b := Unread(l);
    var n := HeadLen(b);
    if n == 0 then WithLink(s, i, l.(pos := l.pos + REC_HDR))
    else if n > MAX_RECORD then WithLink(s, i, l.(reader := Ended))
    else if Get64(b) == s.nextDue then
      WithLink(s, i, l.(reader := Reading(Get64(b), n, Pooled(s.taken)))).(taken := s.taken + 1)
    else WithLink(s, i, l.(reader := Reading(Get64(b), n, Unpooled)))
  }

  /** The stream ends in a header or in a record. */
  function CutStep(s: State, i: nat): (r: State)
    requires Enabled(s, Cut(i))
  {
    var l := s.links[i];
    var own := if l.reader.Reading? then l.reader.own else Unpooled;
    WithLink(s, i, l.(reader := Ended)).(released := GiveBack(s.released, own))
  }

  /** deliver up to its loop: a late record is dropped, an over-limit one refused, any other stored. */
  ghost function BeginStep(s: State, i: nat, maxN: nat, max: nat): (r: State)
    requires Enabled(s, Begin(i, maxN, max))
  {
    var l := s.links[i];
    var v := l.reader;
    var c := Chunk(Unread(l)[REC_HDR..REC_HDR + v.n], v.own);
    var m := l.(pos := l.pos + REC_HDR + v.n);
    if v.seqNo < s.q.next then
      WithLink(s, i, m.(reader := Ready)).(released := GiveBack(s.released, v.own))
    else if |s.q.pend| >= maxN || s.q.n + |c.data| > max then
      WithLink(s, i, m.(reader := Ended)).(released := GiveBack(s.released, v.own))
    else
      WithLink(s, i, m.(reader := Delivering))
        .(q := Stored(s.q, v.seqNo, c), lock := Held(i, v.seqNo, v.own, Popping), stored := s.stored + {v.seqNo})
  }

  /** The end of a round of the drain loop: the pipe write, and the buffer given back when it was its record. */
  function EmitStep(s: State, limit: nat): (r: State)
    requires Enabled(s, Emit(limit))
  {
    var d, h := s.lock.phase.d, s.lock;
    var mine := s.q.next - 1 == h.seqNo;
    var t := s.(q := PipeWrite(s.q, d, limit), released := if mine then GiveBack(s.released, h.own) else s.released);
    if WriteFails(s.q, d, limit) then WithLink(t, h.i, s.links[h.i].(reader := Ended)).(lock := Free)
    else t.(lock := Held(h.i, h.seqNo, if mine then Unpooled else h.own, Popping))
  }

  ghost function Apply(s: State, e: Step): (r: State)
    requires Enabled(s, e)
  {
    match e
    case Write(p) => s.(accepted := s.accepted + [p], work := s.work + [Record(|s.accepted|, p)])
    case Open => s.(links := s.links + [Link(Idle, [], 0, [], Ready)])
    case Take(i) => WithLink(s, i, s.links[i].(server := Holding(s.work[0]))).(work := s.work[1..])
    case Gather(i) => WithLink(s, i, s.links[i].(server := Holding(s.links[i].server.run + s.work[0]))).(work := s.work[1..])
    case Sent(i) =>
      var l := s.links[i];
      WithLink(s, i, l.(server := Idle, bytes := l.bytes + l.server.run)).(written := s.written + Nums(l.server.run))
    case Failed(i, k) =>
      var l := s.links[i];
      WithLink(s, i, l.(server := Requeueing(l.server.run), bytes := l.bytes + l.server.run[..k], lost := l.server.run[k..]))
    case Requeue(i) => WithLink(s, i, s.links[i].(server := Gone)).(work := s.work + [s.links[i].server.run])
    case Abandon(i) => WithLink(s, i, s.links[i].(server := Gone)).(dropped := s.dropped + Nums(s.links[i].server.run))
    case Keepalive(i, k) =>
      var l := s.links[i];
      if k == REC_HDR then WithLink(s, i, l.(bytes := l.bytes + KEEPALIVE))
      else WithLink(s, i, l.(server := Gone, bytes := l.bytes + KEEPALIVE[..k], lost := KEEPALIVE[k..]))
    case Return(i) => WithLink(s, i, s.links[i].(server := Gone))
    case Shutdown => s.(done := true)
    case Head(i) => HeadStep(s, i)
    case Cut(i) => CutStep(s, i)
    case Begin(i, maxN, max) => BeginStep(s, i, maxN, max)
    case Pop => s.(q := Popped(s.q), lock := s.lock.(phase := Announcing(s.q.pend[s.q.next].data)))
    case Announce => s.(nextDue := s.q.next, lock := s.lock.(phase := Emitting(s.lock.phase.d)))
    case Emit(limit) => EmitStep(s, limit)
    case Unlock => WithLink(s, s.lock.i, s.links[s.lock.i].(reader := Ready)).(lock := Free)
    case ClosePipe => s.(q := s.q.(open := false))
  }

  // ----- the invariant

  ghost predicate ServerOk(v: Server, accepted: seq<Bytes>) {
    v.Holding? || v.Requeueing? ==> Genuine(v.run, accepted)
  }

  /** The header a reader has read is the one it stands at. */
  ghost predicate ReaderOk(l: Link) {
    l.reader.Reading? ==>
      && AtHead(l) && l.reader.seqNo == Get64(Unread(l)) && l.reader.n == HeadLen(Unread(l))
      && 0 < l.reader.n <= MAX_RECORD
  }

  ghost predicate LinkOk(l: Link, accepted: seq<Bytes>) {
    && ServerOk(l.server, accepted) && l.pos <= |l.bytes| && ReaderOk(l)
    && Genuine(Unread(l) + l.lost, accepted)
    && (l.server.Idle? || l.server.Holding? ==> l.lost == [])
  }

  ghost predicate AcceptedOk(accepted: seq<Bytes>) {
    |accepted| <= W_SEQ && forall i :: 0 <= i < |accepted| ==> |accepted[i]| < MAX_LENGTH
  }

  /** Whether a record was taken out of the queue and is not yet in the pipe. */
  predicate Between(s: State) {
    s.lock.Held? && !s.lock.phase.Popping?
  }

  /** How many records the pipe has carried. */
  function Carried(s: State): (n: int) {
    if Between(s) then s.q.next - 1 else s.q.next
  }

  /** The lock has one holder, the reader inside deliver; nextDue lags only between the two stores. */
  ghost predicate LockOk(s: State) {
    && (s.lock.Held? ==> s.lock.i < |s.links|)
    && (forall j :: 0 <= j < |s.links| ==> (s.links[j].reader.Delivering? <==> s.lock.Held? && s.lock.i == j))
    && (Between(s) ==> 1 <= s.q.next <= |s.accepted| && s.lock.phase.d == s.accepted[s.q.next - 1])
    && s.nextDue == if s.lock.Held? && s.lock.phase.Announcing? then s.q.next - 1 else s.q.next
  }

  ghost predicate Inv(s: State) {
    && AcceptedOk(s.accepted)
    && (forall i :: 0 <= i < |s.work| ==> Genuine(s.work[i], s.accepted))
    && (forall i :: 0 <= i < |s.links| ==> LinkOk(s.links[i], s.accepted))
    && LockOk(s) && QueueOk(s.q, s.accepted, Carried(s))
  }

  /** An invariant of one stream survives the acceptance of another payload. */
  lemma LinkGrows(l: Link, accepted: seq<Bytes>, p: Bytes)
    requires LinkOk(l, accepted)
    ensures LinkOk(l, accepted + [p])
  {
    hide Genuine, ReaderOk;
    GenuineGrows(Unread(l) + l.lost, accepted, p);
    if l.server.Holding? || l.server.Requeueing? { GenuineGrows(l.server.run, accepted, p); }
  }

  /** A whole run written, or a prefix of it with the rest lost, keeps the stream genuine. */
  lemma LinkSent(l: Link, run: Bytes, k: nat, v: Server, accepted: seq<Bytes>)
    requires LinkOk(l, accepted) && l.lost == [] && Genuine(run, accepted) && k <= |run| && ServerOk(v, accepted)
    requires k == |run| || v.Requeueing? || v.Gone?
    ensures LinkOk(l.(server := v, bytes := l.bytes + run[..k], lost := run[k..]), accepted)
  {
    hide Genuine, ReaderOk;
    var m := l.(server := v, bytes := l.bytes + run[..k], lost := run[k..]);
    assert Unread(l) + [] == Unread(l);
    GenuineAppend(Unread(l), run, accepted);
    assert Unread(m) + m.lost == Unread(l) + run;
    ReaderStays(l, m, run[..k]);
  }

  lemma ReaderStays(l: Link, m: Link, more: Bytes)
    requires ReaderOk(l) && l.pos <= |l.bytes|
    requires m.reader == l.reader && m.pos == l.pos && m.bytes == l.bytes + more
    ensures ReaderOk(m)
  {
    hide Get64, HeadLen;
    if l.reader.Reading? {
      assert Unread(m) == Unread(l) + more;
      HeadStays(Unread(l), more);
    }
  }

  /** What a reader parses off a genuine stream is a keepalive or an accepted payload, and the rest is genuine. */
  lemma ReadGenuine(l: Link, accepted: seq<Bytes>, v: Reader)
    requires LinkOk(l, accepted) && AcceptedOk(accepted) && AtHead(l) && !v.Reading?
    ensures var b, n := Unread(l), HeadLen(Unread(l));
            && (|b| >= REC_HDR + n ==>
                 && (n > 0 ==> Get64(b) < |accepted| && b[REC_HDR..REC_HDR + n] == accepted[Get64(b)])
                 && LinkOk(l.(pos := l.pos + REC_HDR + n, reader := v), accepted))
  {
    hide Get64, HeadLen;
    var b := Unread(l);
    var n := HeadLen(b);
    HeadStays(b, l.lost);
    var all := b + l.lost;
    if |b| >= REC_HDR + n {
      assert all[REC_HDR..REC_HDR + n] == b[REC_HDR..REC_HDR + n];
      assert all[REC_HDR + n..] == b[REC_HDR + n..] + l.lost;
      assert l.bytes[l.pos + REC_HDR + n..] == b[REC_HDR + n..];
    }
  }

  // ----- every step keeps the invariant

  lemma KeepsAccept(s: State, e: Step)
    requires Inv(s) && Enabled(s, e) && e.Write?
    ensures Inv(Apply(s, e))
  {
    hide Genuine, LinkOk, Record, QueueOk;
    var r := Apply(s, e);
    forall i | 0 <= i < |s.links| ensures LinkOk(s.links[i], r.accepted) { LinkGrows(s.links[i], s.accepted, e.p); }
    forall i | 0 <= i < |s.work| ensures Genuine(s.work[i], r.accepted) { GenuineGrows(s.work[i], s.accepted, e.p); }
    RecordGenuine(r.accepted, |s.accepted|);
    CarriedNat(s);
    QueueGrows(s.q, s.accepted, e.p, Carried(s));
  }

  lemma CarriedNat(s: State)
    requires LockOk(s)
    ensures Carried(s) >= 0
  {
  }

  predicate OfSender(e: Step) {
    || e.Open? || e.Take? || e.Gather? || e.Sent? || e.Failed? || e.Requeue? || e.Abandon? || e.Keepalive? || e.Return?
    || e.Shutdown?
  }

  /** A server changes its stream and the queue of runs; readers and the resequencer are not touched. */
  lemma SenderFrame(s: State, i: nat, l: Link, work: seq<Bytes>, written: set<nat>, dropped: set<nat>)
    requires Inv(s) && i < |s.links| && l.reader == s.links[i].reader && LinkOk(l, s.accepted)
    requires forall j :: 0 <= j < |work| ==> Genuine(work[j], s.accepted)
    ensures Inv(WithLink(s, i, l).(work := work, written := written, dropped := dropped))
  {
    hide Genuine, AcceptedOk, QueueOk, LinkOk;
  }

  lemma KeepsSender(s: State, e: Step)
    requires Inv(s) && Enabled(s, e) && OfSender(e)
    ensures Inv(Apply(s, e))
  {
    hide Inv, LinkOk, HeadStep, CutStep, BeginStep, EmitStep;
    if e.Open? || e.Shutdown? {
      KeepsFrame(s, e);
    } else {
      var l := s.links[e.i];
      ServerMoves(s, e);
      WorkMoves(s, e);
      var r := Apply(s, e);
      SenderFrame(s, e.i, r.links[e.i], r.work, r.written, r.dropped);
    }
  }

  lemma KeepsFrame(s: State, e: Step)
    requires Inv(s) && (e.Open? || e.Shutdown?)
    ensures Enabled(s, e) && Inv(Apply(s, e))
  {
    hide Genuine, AcceptedOk, QueueOk, LinkOk;
    OpenOk(s.accepted);
  }

  lemma WorkMoves(s: State, e: Step)
    requires Inv(s) && Enabled(s, e) && OfSender(e)
    ensures forall j :: 0 <= j < |Apply(s, e).work| ==> Genuine(Apply(s, e).work[j], s.accepted)
  {
    hide Genuine, AcceptedOk, QueueOk, ReaderOk, LockOk, Nums, HeadStep, CutStep, BeginStep, EmitStep;
  }

  lemma ServerMoves(s: State, e: Step)
    requires Inv(s) && Enabled(s, e) && OfSender(e) && !e.Open? && !e.Shutdown?
    ensures e.i < |s.links| && |Apply(s, e).links| == |s.links|
    ensures Apply(s, e).links[e.i].reader == s.links[e.i].reader && LinkOk(Apply(s, e).links[e.i], s.accepted)
  {
    hide Genuine, AcceptedOk, QueueOk, Nums, ReaderOk, LockOk, HeadStep, CutStep, BeginStep, EmitStep;
    match e
    case Gather(i) =>
      GenuineAppend(s.links[i].server.run, s.work[0], s.accepted);
      ReaderSame(s.links[i], Holding(s.links[i].server.run + s.work[0]));
    case Sent(i) =>
      var l := s.links[i];
      LinkSent(l, l.server.run, |l.server.run|, Idle, s.accepted);
      assert l.server.run[..|l.server.run|] == l.server.run && l.server.run[|l.server.run|..] == [];
    case Failed(i, k) =>
      var l := s.links[i];
      LinkSent(l, l.server.run, k, Requeueing(l.server.run), s.accepted);
    case Keepalive(i, k) =>
      var l := s.links[i];
      KeepaliveGenuine(s.accepted);
      LinkSent(l, KEEPALIVE, k, if k == REC_HDR then Idle else Gone, s.accepted);
      assert KEEPALIVE[..REC_HDR] == KEEPALIVE && KEEPALIVE[REC_HDR..] == [];
    case Take(i) => ReaderSame(s.links[i], Holding(s.work[0]));
    case Requeue(i) => ReaderSame(s.links[i], Gone);
    case Abandon(i) => ReaderSame(s.links[i], Gone);
    case Return(i) => ReaderSame(s.links[i], Gone);
  }

  lemma OpenOk(accepted: seq<Bytes>)
    ensures LinkOk(Link(Idle, [], 0, [], Ready), accepted)
  {
    hide Genuine;
    GenuineEmpty(accepted);
    var l := Link(Idle, [], 0, [], Ready);
    assert Unread(l) + l.lost == [];
  }

  lemma ReaderSame(l: Link, v: Server)
    requires ReaderOk(l)
    ensures ReaderOk(l.(server := v))
  {
  }

  /** A reader moves along its stream without the lock. */
  lemma ReaderFrame(s: State, i: nat, l: Link, taken: nat, released: seq<nat>)
    requires Inv(s) && i < |s.links| && LinkOk(l, s.accepted) && !l.reader.Delivering? && !s.links[i].reader.Delivering?
    ensures Inv(WithLink(s, i, l).(taken := taken, released := released))
  {
    hide Genuine, AcceptedOk, QueueOk, LinkOk;
  }

  lemma KeepsHead(s: State, e: Step)
    requires Inv(s) && Enabled(s, e) && (e.Head? || e.Cut?)
    ensures Inv(Apply(s, e))
  {
    hide Inv, LinkOk;
    HeadMoves(s, e);
    var r := Apply(s, e);
    ReaderFrame(s, e.i, r.links[e.i], r.taken, r.released);
  }

  lemma HeadMoves(s: State, e: Step)
    requires Inv(s) && Enabled(s, e) && (e.Head? || e.Cut?)
    ensures |Apply(s, e).links| == |s.links| && LinkOk(Apply(s, e).links[e.i], s.accepted)
  {
    hide Genuine, Get64, HeadLen, AcceptedOk, QueueOk, LockOk, BeginStep, EmitStep;
    if e.Head? { ReadGenuine(s.links[e.i], s.accepted, Ready); }
  }

  lemma KeepsBegin(s: State, e: Step)
    requires Inv(s) && Enabled(s, e) && e.Begin?
    ensures Inv(Apply(s, e))
  {
    hide Inv, LinkOk, Stored, HeadLen, Get64;
    BeginParses(s, e.i);
    var l := s.links[e.i];
    var v := l.reader;
    var r := Apply(s, e);
    BeginMoves(s, e.i, r.links[e.i].reader);
    if r.lock.Free? {
      ReaderFrame(s, e.i, r.links[e.i], r.taken, r.released);
    } else {
      Locks(s, e.i, r.links[e.i], Chunk(Unread(l)[REC_HDR..REC_HDR + v.n], v.own));
    }
  }

  lemma BeginMoves(s: State, i: nat, v: Reader)
    requires Inv(s) && i < |s.links| && s.links[i].reader.Reading? && AtHead(s.links[i]) && !v.Reading?
    requires |Unread(s.links[i])| >= REC_HDR + s.links[i].reader.n
    ensures var l := s.links[i]; LinkOk(l.(pos := l.pos + REC_HDR + l.reader.n, reader := v), s.accepted)
  {
    hide Genuine, Get64, HeadLen, AcceptedOk, QueueOk, LockOk;
    ReadGenuine(s.links[i], s.accepted, v);
  }

  /** A reader takes the free lock and stores its record. */
  lemma Locks(s: State, i: nat, l: Link, c: Chunk)
    requires Inv(s) && s.lock.Free? && i < |s.links| && LinkOk(l, s.accepted) && l.reader.Delivering?
    requires s.links[i].reader.Reading?
    requires var seqNo := s.links[i].reader.seqNo;
             Balanced(s.q) && s.q.next <= seqNo < |s.accepted| && c.data == s.accepted[seqNo] && Readable(c.data)
    ensures var v := s.links[i].reader;
            Inv(WithLink(s, i, l)
                  .(q := Stored(s.q, v.seqNo, c), lock := Held(i, v.seqNo, v.own, Popping), stored := s.stored + {v.seqNo}))
  {
    hide Genuine, AcceptedOk, QueueOk, LinkOk, Stored;
    StoreOk(s.q, s.accepted, s.links[i].reader.seqNo, c);
  }

  /** The record a reader delivers is an accepted one. */
  lemma BeginParses(s: State, i: nat)
    requires Inv(s) && i < |s.links| && s.links[i].reader.Reading? && AtHead(s.links[i])
    requires |Unread(s.links[i])| >= REC_HDR + s.links[i].reader.n
    ensures var l := s.links[i];
            && 0 < l.reader.n <= MAX_RECORD && l.reader.n == HeadLen(Unread(l))
            && l.reader.seqNo < |s.accepted| && Unread(l)[REC_HDR..REC_HDR + l.reader.n] == s.accepted[l.reader.seqNo]
            && LinkOk(l, s.accepted)
  {
    hide Genuine, Get64, HeadLen, AcceptedOk, QueueOk;
    ReadGenuine(s.links[i], s.accepted, Ready);
  }

  lemma KeepsDrain(s: State, e: Step)
    requires Inv(s) && Enabled(s, e) && (e.Pop? || e.Announce? || e.ClosePipe?)
    ensures Inv(Apply(s, e))
  {
    hide Genuine, AcceptedOk, QueueOk, LinkOk, Popped, HeadStep, CutStep, BeginStep, EmitStep;
    match e
    case Pop =>
      PopOk(s.q, s.accepted);
      PoppedNext(s.q);
      NextBound(s.q, s.accepted, s.q.next);
      NextBound(Popped(s.q), s.accepted, s.q.next);
    case ClosePipe => CloseOk(s.q, s.accepted, Carried(s));
    case Announce =>
  }

  lemma KeepsEmit(s: State, e: Step)
    requires Inv(s) && Enabled(s, e) && e.Emit?
    ensures Inv(Apply(s, e))
  {
    hide Genuine, AcceptedOk, QueueOk, LinkOk, PipeWrite, WriteFails, Apply;
    EmitOk(s.q, s.accepted, e.limit);
    PipeNext(s.q, s.lock.phase.d, e.limit);
    ReaderEnds(s.links[s.lock.i], s.accepted, Ended);
    EmitIs(s, e.limit);
  }

  lemma EmitIs(s: State, limit: nat)
    requires Enabled(s, Emit(limit))
    ensures Apply(s, Emit(limit)) == EmitStep(s, limit)
  {
    hide HeadStep, CutStep, BeginStep, EmitStep;
  }

  lemma KeepsUnlock(s: State, e: Step)
    requires Inv(s) && Enabled(s, e) && e.Unlock?
    ensures Inv(Apply(s, e))
  {
    hide Genuine, AcceptedOk, QueueOk, LinkOk, HeadStep, CutStep, BeginStep, EmitStep;
    ReaderEnds(s.links[s.lock.i], s.accepted, Ready);
  }

  lemma PoppedNext(q: Queue)
    requires Balanced(q) && q.next in q.pend
    ensures Popped(q).next == q.next + 1
  {
  }

  lemma NextBound(q: Queue, accepted: seq<Bytes>, done: nat)
    requires QueueOk(q, accepted, done)
    ensures q.next <= |accepted|
  {
  }

  lemma PipeNext(q: Queue, d: Bytes, limit: nat)
    ensures PipeWrite(q, d, limit).next == q.next && PipeWrite(q, d, limit).pend == q.pend
  {
  }

  lemma ReaderEnds(l: Link, accepted: seq<Bytes>, v: Reader)
    requires LinkOk(l, accepted) && !v.Reading?
    ensures LinkOk(l.(reader := v), accepted)
  {
    hide Genuine;
  }

  lemma CloseOk(q: Queue, accepted: seq<Bytes>, done: nat)
    requires QueueOk(q, accepted, done)
    ensures QueueOk(q.(open := false), accepted, done)
  {
    hide PendBytes;
  }

  /** Every step of every participant keeps the invariant. */
  lemma StepKeeps(s: State, e: Step)
    requires Inv(s) && Enabled(s, e)
    ensures Inv(Apply(s, e))
  {
    hide Inv, Apply, Enabled;
    if e.Write? { KeepsAccept(s, e); }
    else if e.Head? || e.Cut? { KeepsHead(s, e); }
    else if e.Begin? { KeepsBegin(s, e); }
    else if e.Emit? { KeepsEmit(s, e); }
    else if e.Unlock? { KeepsUnlock(s, e); }
    else if OfSender(e) { KeepsSender(s, e); }
    else { KeepsDrain(s, e); }
  }

  // ----- whole runs

  ghost predicate Runs(s: State, steps: seq<Step>, r: State)
    decreases |steps|
  {
    if steps == [] then r == s
    else Enabled(s, steps[0]) && Runs(Apply(s, steps[0]), steps[1..], r)
  }

  lemma RunsOne(s: State, e: Step)
    requires Enabled(s, e)
    ensures Runs(s, [e], Apply(s, e))
  {
    hide Apply, Enabled;
    assert [e][1..] == [];
  }

  lemma {:induction false} RunsAppend(s: State, a: seq<Step>, t: State, b: seq<Step>, r: State)
    requires Runs(s, a, t) && Runs(t, b, r)
    ensures Runs(s, a + b, r)
    decreases |a|
  {
    hide Apply, Enabled;
    if a == [] {
      assert a + b == b;
    } else {
      assert (a + b)[0] == a[0] && (a + b)[1..] == a[1..] + b;
      RunsAppend(Apply(s, a[0]), a[1..], t, b, r);
    }
  }

  lemma InitHolds()
    ensures Inv(INIT)
  {
  }

  lemma {:induction false} RunKeeps(s: State, steps: seq<Step>, r: State)
    requires Inv(s) && Runs(s, steps, r)
    ensures Inv(r)
    decreases |steps|
  {
    hide Inv, Apply, Enabled;
    if steps != [] {
      StepKeeps(s, steps[0]);
      RunKeeps(Apply(s, steps[0]), steps[1..], r);
    }
  }

  /**
   Over every interleaving of servers, partial writes, requeues and readers, the pipe has
   carried a prefix of the concatenation of the accepted writes: nothing missing, repeated
   or out of order; while it is open, exactly the records before the one due next, but for
   one that the holder of the lock is about to write.
   */
  lemma OutputIsPrefix(steps: seq<Step>, r: State)
    requires Runs(INIT, steps, r)
    ensures r.q.out <= Concat(r.accepted)
    ensures 0 <= Carried(r) <= |r.accepted| && (r.q.open ==> r.q.out == Concat(r.accepted[..Carried(r)]))
    ensures r.lock.Free? ==> Carried(r) == r.q.next
  {
    hide Runs, Concat, Genuine;
    InitHolds();
    RunKeeps(INIT, steps, r);
    ConcatPrefix(r.accepted, r.q.next);
  }

  /** An empty or oversized write takes a number that no reader delivers: nothing from it on ever comes out. */
  lemma UnreadableStalls(steps: seq<Step>, r: State, i: nat)
    requires Runs(INIT, steps, r) && i < |r.accepted| && !Readable(r.accepted[i])
    ensures r.q.next <= i && r.q.out <= Concat(r.accepted[..i])
  {
    hide Runs, Concat, Genuine, Balanced, Readable;
    InitHolds();
    RunKeeps(INIT, steps, r);
    var head := r.accepted[..i];
    assert r.q.next <= i;
    assert head[..r.q.next] == r.accepted[..r.q.next];
    ConcatPrefix(head, r.q.next);
  }

  /** While the lock is free, nextDue is next and the byte count is what is pending. */
  lemma BooksBalance(steps: seq<Step>, r: State)
    requires Runs(INIT, steps, r)
    ensures r.lock.Free? ==> r.nextDue == r.q.next
    ensures r.q.n == PendBytes(r.q.pend) && forall k :: k in r.q.pend ==> k >= r.q.next
  {
    hide Runs, Genuine, Concat, PendBytes;
    InitHolds();
    RunKeeps(INIT, steps, r);
  }

  // ----- nothing is lost before it was written in full

  /** Record i is queued, held by a server, being put back, was written in full, or dropped at shutdown. */
  ghost predicate Located(s: State, i: nat) {
    || i in s.written
    || i in s.dropped
    || (exists j :: 0 <= j < |s.work| && i in Nums(s.work[j]))
    || (exists j :: 0 <= j < |s.links| && Carries(s.links[j].server, i))
  }

  predicate Carries(v: Server, i: nat) {
    (v.Holding? || v.Requeueing?) && i in Nums(v.run)
  }

  /** Nothing is dropped before the sender is done. */
  predicate DroppedLate(s: State) {
    s.dropped != {} ==> s.done
  }

  /** No step loses track of a record: a failed or partial write leaves it with its server until it is put back. */
  lemma StepLocates(s: State, e: Step, i: nat)
    requires Inv(s) && Enabled(s, e) && i < |Apply(s, e).accepted| && Apply(s, e).accepted[i] != []
    requires i < |s.accepted| ==> Located(s, i)
    ensures Located(Apply(s, e), i)
  {
    hide Genuine, Nums, Record, QueueOk, LockOk, ReaderOk, HeadStep, CutStep, BeginStep, EmitStep, Popped;
    StepFrame(s, e);
    var r := Apply(s, e);
    if i == |s.accepted| {
      RecordParses(i, e.p, []);
      RecordSize(i, e.p);
      assert Record(i, e.p) + [] == Record(i, e.p);
      NumsHead(Record(i, e.p));
      assert r.work[|s.work|] == Record(i, e.p);
    } else if i in s.written || i in s.dropped {
    } else if j :| 0 <= j < |s.work| && i in Nums(s.work[j]) {
      WorkKeeps(s, e, i, j);
    } else {
      var j :| 0 <= j < |s.links| && Carries(s.links[j].server, i);
      ServerKeeps(s, e, i, j);
    }
  }

  predicate ServersSame(s: State, r: State) {
    && r.accepted == s.accepted && r.work == s.work && r.written == s.written && r.dropped == s.dropped
    && r.done == s.done && |r.links| == |s.links|
    && forall j :: 0 <= j < |s.links| ==> r.links[j].server == s.links[j].server
  }

  /** What the steps of readers leave alone. */
  lemma StepFrame(s: State, e: Step)
    requires Enabled(s, e)
    ensures e.Head? || e.Cut? || e.Begin? || e.Emit? ==> ServersSame(s, Apply(s, e))
  {
    hide Apply;
    if e.Head? || e.Cut? { HeadFrame(s, e); } else if e.Begin? { BeginFrame(s, e); } else if e.Emit? { EmitFrame(s, e); }
  }

  lemma HeadFrame(s: State, e: Step)
    requires Enabled(s, e) && (e.Head? || e.Cut?)
    ensures ServersSame(s, Apply(s, e))
  {
    hide Nums, Record, HeadLen, Get64, BeginStep, EmitStep, Popped;
  }

  lemma BeginFrame(s: State, e: Step)
    requires Enabled(s, e) && e.Begin?
    ensures ServersSame(s, Apply(s, e))
  {
    hide Nums, Record, HeadLen, Get64, HeadStep, CutStep, EmitStep, Stored, Popped;
  }

  lemma EmitFrame(s: State, e: Step)
    requires Enabled(s, e) && e.Emit?
    ensures ServersSame(s, Apply(s, e))
  {
    hide Nums, Record, HeadLen, Get64, HeadStep, CutStep, BeginStep, PipeWrite, WriteFails, Popped;
  }

  lemma WorkKeeps(s: State, e: Step, i: nat, j: nat)
    requires Inv(s) && Enabled(s, e) && j < |s.work| && i in Nums(s.work[j])
    ensures Located(Apply(s, e), i)
  {
    hide Genuine, Nums, Record, QueueOk, LockOk, ReaderOk, HeadStep, CutStep, BeginStep, EmitStep, Popped;
    StepFrame(s, e);
    var r := Apply(s, e);
    if e.Take? && j == 0 { assert Carries(r.links[e.i].server, i); }
    else if e.Gather? {
      NumsAppend(s.links[e.i].server.run, s.work[0], s.accepted);
      if j == 0 { assert Carries(r.links[e.i].server, i); } else { assert r.work[j - 1] == s.work[j]; }
    }
    else if e.Take? { assert r.work[j - 1] == s.work[j]; }
    else { assert r.work[j] == s.work[j]; }
  }

  lemma ServerKeeps(s: State, e: Step, i: nat, j: nat)
    requires Inv(s) && Enabled(s, e) && j < |s.links| && Carries(s.links[j].server, i)
    ensures Located(Apply(s, e), i)
  {
    hide Genuine, Nums, Record, QueueOk, LockOk, ReaderOk, HeadStep, CutStep, BeginStep, EmitStep, Popped;
    StepFrame(s, e);
    var r := Apply(s, e);
    if e.Gather? && e.i == j {
      NumsAppend(s.links[j].server.run, s.work[0], s.accepted);
      assert Carries(r.links[j].server, i);
    } else if (e.Sent? || e.Abandon?) && e.i == j {
    } else if e.Requeue? && e.i == j {
      assert r.work[|s.work|] == s.links[j].server.run;
    } else {
      assert Carries(r.links[j].server, i);
    }
  }

  /**
   In every run, every accepted record that is not empty is still with the sender, was
   written in full to some stream, or was dropped, and nothing is dropped before shutdown.
   */
  lemma {:induction false} RunLocates(s: State, steps: seq<Step>, r: State)
    requires Inv(s) && Runs(s, steps, r) && DroppedLate(s)
    requires forall i: nat :: i < |s.accepted| && s.accepted[i] != [] ==> Located(s, i)
    ensures DroppedLate(r)
    ensures forall i: nat :: i < |r.accepted| && r.accepted[i] != [] ==> Located(r, i)
    decreases |steps|
  {
    hide Inv, Apply, Enabled, Located, DroppedLate;
    if steps != [] {
      var t := Apply(s, steps[0]);
      StepKeeps(s, steps[0]);
      StepDrops(s, steps[0]);
      forall i: nat | i < |t.accepted| && t.accepted[i] != [] ensures Located(t, i) {
        AcceptedStays(s, steps[0]);
        StepLocates(s, steps[0], i);
      }
      RunLocates(t, steps[1..], r);
    }
  }

  lemma StepDrops(s: State, e: Step)
    requires DroppedLate(s) && Enabled(s, e)
    ensures DroppedLate(Apply(s, e))
  {
    hide Nums, Record, HeadStep, CutStep, BeginStep, EmitStep, Popped;
    StepFrame(s, e);
  }

  lemma AcceptedStays(s: State, e: Step)
    requires Enabled(s, e)
    ensures s.accepted <= Apply(s, e).accepted
  {
    hide Nums, Record, HeadStep, CutStep, BeginStep, EmitStep, Popped;
    StepFrame(s, e);
  }
}
