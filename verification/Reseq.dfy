/**
 The resequencer of internal/packet/stripe.go: records that arrive in any order
 leave in order, buffered ones wait in a map, and pooled buffers are given back.
 */
module Reseq {
  import opened Counting
  import opened Wire

  /** A payload and, when it lives in a pooled buffer, the identity of that buffer. */
  datatype Own = Unpooled | Pooled(id: nat)
  datatype Chunk = Chunk(data: Bytes, own: Own)

  /** putChunk on the buffer of a reader, when it is a pooled one. */
  function GiveBack(released: seq<nat>, own: Own): (r: seq<nat>) {
    if own.Pooled? then released + [own.id] else released
  }

  /** The queue and the pipe it writes to; a pipe whose reader is gone stays closed. */
  datatype Queue = Queue(next: nat, pend: map<nat, Chunk>, n: nat, out: Bytes, open: bool)

  function DataSize(c: Chunk): (n: nat) {
    |c.data|
  }

  ghost function PendBytes(m: map<nat, Chunk>): (t: nat) {
    MapSum(m, DataSize)
  }

  /** What the books of the queue always say: the byte count, and that nothing due is still waiting. */
  ghost predicate Balanced(q: Queue) {
    q.n == PendBytes(q.pend) && forall k :: k in q.pend ==> k >= q.next
  }

  /** Takes the record due next out of the map. */
  ghost function Popped(q: Queue): (r: Queue)
    requires Balanced(q) && q.next in q.pend
    ensures Balanced(r) && |r.pend| < |q.pend|
  {
    hide MapSum;
    MapSumRemove(q.pend, DataSize, q.next);
    var rest := q.pend - {q.next};
    assert rest.Keys == q.pend.Keys - {q.next};
    q.(next := q.next + 1, pend := rest, n := q.n - |q.pend[q.next].data|)
  }

  /** A write into the pipe whose reader takes at most limit more octets before it goes away. */
  function PipeWrite(q: Queue, d: Bytes, limit: nat): (r: Queue) {
    if d == [] || !q.open then q
    else if |d| <= limit then q.(out := q.out + d)
    else q.(out := q.out + d[..limit], open := false)
  }

  predicate WriteFails(q: Queue, d: Bytes, limit: nat) {
    d != [] && (!q.open || |d| > limit)
  }

  lemma PipeKeeps(q: Queue, d: Bytes, limit: nat)
    requires Balanced(q)
    ensures Balanced(PipeWrite(q, d, limit))
  {
  }

  /** The drain loop of deliver. */
  ghost function Drain(q: Queue, limit: nat): (r: (Queue, bool))
    requires Balanced(q)
    ensures Balanced(r.0)
    decreases |q.pend|
  {
    if q.next !in q.pend then (q, true)
    else
      var d := q.pend[q.next].data;
      var p := PipeWrite(Popped(q), d, limit);
      if WriteFails(q, d, limit) then (p, false)
      else Drain(p, limit - |d|)
  }

  /** deliver: a late record is dropped, an over-limit one refused, any other stored and the queue drained. */
  ghost function Deliver(q: Queue, maxN: nat, max: nat, seqNo: nat, c: Chunk, limit: nat): (r: (Queue, bool))
    requires Balanced(q)
    ensures Balanced(r.0)
  {
    if seqNo < q.next then (q, true)
    else if |q.pend| >= maxN || q.n + |c.data| > max then (q, false)
    else Drain(Stored(q, seqNo, c), limit)
  }

  // ----- pooled buffers

  ghost predicate NonePooled(m: map<nat, Chunk>) {
    forall k :: k in m ==> m[k].own.Unpooled?
  }

  lemma {:induction false} DrainKeepsUnpooled(q: Queue, limit: nat)
    requires Balanced(q) && NonePooled(q.pend)
    ensures NonePooled(Drain(q, limit).0.pend)
    decreases |q.pend|
  {
    if q.next in q.pend {
      var d := q.pend[q.next].data;
      if !WriteFails(q, d, limit) {
        DrainKeepsUnpooled(PipeWrite(Popped(q), d, limit), limit - |d|);
      }
    }
  }

  /** The queue with a record stored, before it is drained. */
  ghost function Stored(q: Queue, seqNo: nat, c: Chunk): (r: Queue)
    requires Balanced(q) && seqNo >= q.next
    ensures Balanced(r)
  {
    MapSumPut(q.pend, DataSize, seqNo, c);
    var n := (if seqNo in q.pend then q.n - |q.pend[seqNo].data| else q.n) + |c.data|;
    q.(pend := q.pend[seqNo := c], n := n)
  }

  /** A pooled buffer is only taken for the record due next, so it never stays behind in the map. */
  lemma DeliverKeepsUnpooled(q: Queue, maxN: nat, max: nat, seqNo: nat, c: Chunk, limit: nat)
    requires Balanced(q) && NonePooled(q.pend) && (c.own.Pooled? ==> seqNo <= q.next)
    ensures NonePooled(Deliver(q, maxN, max, seqNo, c, limit).0.pend)
  {
    hide Balanced;
    if seqNo >= q.next && |q.pend| < maxN && q.n + |c.data| <= max {
      var s := Stored(q, seqNo, c);
      if c.own.Pooled? {
        var p := PipeWrite(Popped(s), c.data, limit);
        assert NonePooled(p.pend);
        PipeKeeps(Popped(s), c.data, limit);
        if !WriteFails(s, c.data, limit) { DrainKeepsUnpooled(p, limit - |c.data|); }
      } else {
        DrainKeepsUnpooled(s, limit);
      }
    }
  }

  lemma PendCount(q: Queue, k: nat)
    requires Balanced(q)
    ensures k in q.pend ==> |q.pend[k].data| <= q.n
  {
    if k in q.pend { MapSumRemove(q.pend, DataSize, k); }
  }

  // ----- the object

  const FLOOR_RECORDS := 1024

  class Resequencer {
    var next: nat
    var nextDue: nat
    var pend: map<nat, Chunk>
    var n: nat
    var max: nat
    var maxN: nat
    var out: Bytes
    var open: bool
    /** The pooled buffers given back, in order. */
    var released: seq<nat>

    ghost function Abstract(): (q: Queue)
      reads this
    {
      Queue(next, pend, n, out, open)
    }

    /** Whenever the lock is free. */
    ghost predicate Valid()
      reads this
    {
      Balanced(Abstract()) && nextDue == next && NonePooled(pend) && maxN >= FLOOR_RECORDS
    }

    constructor (limit: nat)
      ensures Valid() && Abstract() == Queue(0, map[], 0, [], true) && max == limit && released == []
      ensures maxN == if limit / 0x2000 < FLOOR_RECORDS then FLOOR_RECORDS else limit / 0x2000
    {
      next, nextDue, pend, n, out, open, released := 0, 0, map[], 0, [], true, [];
      max := limit;
      maxN := if limit / 0x2000 < FLOOR_RECORDS then FLOOR_RECORDS else limit / 0x2000;
    }

    /** setMax, as attach calls it. */
    method SetMax(limit: nat)
      requires Valid()
      modifies this`max, this`maxN
      ensures Valid() && max == limit
      ensures maxN == if limit / 0x2000 < FLOOR_RECORDS then FLOOR_RECORDS else limit / 0x2000
    {
      max := limit;
      maxN := limit / 0x2000;
      if maxN < FLOOR_RECORDS { maxN := FLOOR_RECORDS; }
    }

    /** Read without the lock: while another reader drains, nextDue may be one behind next. */
    method Due(seqNo: nat) returns (due: bool)
      ensures due == (seqNo == nextDue)
      ensures Valid() ==> due == (seqNo == next)
    {
      due := seqNo == nextDue;
    }

    method PutChunk(own: Own)
      modifies this`released
      ensures released == GiveBack(old(released), own)
    {
      if own.Pooled? { released := released + [own.id]; }
    }

    /**
     A record in a pooled buffer was found due, and next has not gone back since: over every
     run of the protocol a reader that is about to deliver meets this (StripePool.MayDeliver).
     */
    method DeliverRecord(seqNo: nat, data: Bytes, own: Own, limit: nat) returns (ok: bool)
      requires Valid() && (own.Pooled? ==> seqNo <= next)
      modifies this
      ensures Valid() && max == old(max) && maxN == old(maxN) && next >= old(next)
      ensures (Abstract(), ok) == Deliver(old(Abstract()), maxN, max, seqNo, Chunk(data, own), limit)
      ensures released == GiveBack(old(released), own)
    {
      hide Balanced, NonePooled, Drain, Stored, Popped, PipeWrite;
      if seqNo < next { PutChunk(own); return true; }
      if |pend| >= maxN || n + |data| > max { PutChunk(own); return false; }
      DeliverKeepsUnpooled(Abstract(), maxN, max, seqNo, Chunk(data, own), limit);
      StoreRecord(seqNo, data, own);
      ok := DrainLocked(seqNo, own, limit);
    }

    method StoreRecord(seqNo: nat, data: Bytes, own: Own)
      requires Balanced(Abstract()) && seqNo >= next
      modifies this`pend, this`n
      ensures Abstract() == Stored(old(Abstract()), seqNo, Chunk(data, own)) && Balanced(Abstract()) && seqNo in pend
    {
      hide Balanced;
      ghost var start := Stored(Abstract(), seqNo, Chunk(data, own));
      PendCount(Abstract(), seqNo);
      if seqNo in pend { n := n - |pend[seqNo].data|; }
      pend := pend[seqNo := Chunk(data, own)];
      n := n + |data|;
    }

    /** Writes out every record that is due, giving the buffer of seqNo back as it passes. */
    method DrainLocked(seqNo: nat, own: Own, limit: nat) returns (ok: bool)
      requires Balanced(Abstract()) && nextDue == next && seqNo in pend && (own.Pooled? ==> seqNo == next)
      modifies this`next, this`nextDue, this`pend, this`n, this`out, this`open, this`released
      ensures (Abstract(), ok) == Drain(old(Abstract()), limit)
      ensures nextDue == next && next >= old(next)
      ensures released == GiveBack(old(released), own)
    {
      hide Balanced, Popped, PipeWrite;
      var left: nat := limit;
      while next in pend
        invariant Balanced(Abstract()) && nextDue == next && next >= old(next)
        invariant Drain(Abstract(), left) == Drain(old(Abstract()), limit)
        invariant own.Pooled? ==> if next <= seqNo then next == seqNo && seqNo in pend && released == old(released)
                                  else released == old(released) + [own.id]
        invariant own.Unpooled? ==> released == old(released)
        decreases |pend|
      {
        var err, cur, d := DrainOne(left);
        if cur == seqNo { PutChunk(own); }
        if err { return false; }
        left := left - |d|;
      }
      ok := true;
    }

    method DrainOne(left: nat) returns (err: bool, cur: nat, d: Bytes)
      requires Balanced(Abstract()) && next in pend
      modifies this`next, this`nextDue, this`pend, this`n, this`out, this`open
      ensures cur == old(next) && d == old(pend[next].data) && next == cur + 1 && nextDue == next && |pend| < |old(pend)|
      ensures err == WriteFails(old(Abstract()), d, left) && Balanced(Abstract())
      ensures Abstract() == PipeWrite(Popped(old(Abstract())), d, left)
    {
      hide Balanced;
      ghost var popped := Popped(Abstract());
      PendCount(Abstract(), next);
      cur := next;
      d := pend[cur].data;
      PipeKeeps(popped, d, left);
      pend := pend - {cur};
      n := n - |d|;
      next := next + 1;
      nextDue := next;
      err := d != [] && (!open || |d| > left);
      if d != [] && open {
        if |d| <= left {
          out := out + d;
        } else {
          out, open := out + d[..left], false;
        }
      }
    }
  }
}
