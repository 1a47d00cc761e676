/**
 The encoder and decoder objects of internal/packet/fec_stream.go. The encoder
 keeps a ghost history that ties every emitted batch to the frames accepted; the
 decoder refines the state machine of module FecDecoder.
 */
module FecStream {
  import opened GaussJordan
  import opened Generator
  import opened FecCodec
  import opened FecHeader
  import opened FecDecoder
  import opened FecDelivery
  import opened Sequences

  /** Every batch is the flush of consecutive block numbers, modulo 2^32. */
  ghost predicate History(n: nat, k: nat, key: Mask, flushed: seq<seq<Row>>, sent: seq<seq<Row>>) {
    && |sent| == |flushed|
    && forall i :: 0 <= i < |flushed| ==>
         var f := Sent(n, k, key, i % 0x1_0000_0000, flushed[i]); f.Ok() && sent[i] == f.Emitted()
  }

  lemma HistoryGrows(n: nat, k: nat, key: Mask, flushed: seq<seq<Row>>, sent: seq<seq<Row>>, frames: seq<Row>)
    requires History(n, k, key, flushed, sent)
    requires Sent(n, k, key, |flushed| % 0x1_0000_0000, frames).Ok()
    ensures History(n, k, key, flushed + [frames], sent + [Sent(n, k, key, |flushed| % 0x1_0000_0000, frames).Emitted()])
    ensures Concat(flushed + [frames]) == Concat(flushed) + frames
  {
    hide Sent.Emitted, Sent.Ok;
    ConcatGrows(flushed, frames);
  }

  /** The queued shards are the queued frames behind their lengths. */
  ghost predicate Queue(shards: seq<Row>, queued: seq<Row>) {
    && |shards| == |queued|
    && forall i :: 0 <= i < |queued| ==> |queued[i]| <= MAX_FRAME && shards[i] == Framed(queued[i])
  }

  lemma QueueOk(f: Sent, shards: seq<Row>)
    requires Shape(f.n, f.k) && f.blk < 0x1_0000_0000 && Queue(shards, f.frames) && 1 <= |shards| <= f.n
    ensures f.Ok() && f.n < 256 && f.k < 256 && 2 <= f.Width() <= MAX_SHARD && f.KEff() <= f.k
    ensures forall i :: 0 <= i < |shards| ==> 2 <= |shards[i]| == 2 + |f.frames[i]| <= f.Width()
  {
    hide Framed;
    WidestBounds(f.frames);
    KEffBound(f.n, f.k, f.Count());
    forall i | 0 <= i < |shards| ensures |shards[i]| == 2 + |f.frames[i]| { FramedSize(f.frames[i]); }
  }

  lemma FramedSize(frame: Row)
    requires |frame| < 0x1_0000
    ensures |Framed(frame)| == 2 + |frame|
  {
  }

  /** The width of the widest queued shard. */
  method WidestShard(ghost f: Sent, shards: seq<Row>) returns (shardLen: nat)
    requires f.Ok() && Queue(shards, f.frames)
    ensures shardLen == f.Width()
  {
    hide Framed, Sent.Ok;
    shardLen := 0;
    for i := 0 to |shards|
      invariant shardLen == Widest(f.frames[..i])
    {
      assert f.frames[..i + 1][..i] == f.frames[..i];
      FramedSize(f.frames[i]);
      if |shards[i]| > shardLen { shardLen := |shards[i]|; }
    }
    assert f.frames[..|shards|] == f.frames;
  }

  /** The rows of the block: the queued shards padded to the widest, then zero rows. */
  method PadRows(ghost f: Sent, n: nat, shards: seq<Row>, shardLen: nat) returns (data: Matrix)
    requires f.Ok() && Queue(shards, f.frames) && n == f.n && shardLen == f.Width()
    ensures data == f.Rows()
  {
    hide Framed, Shape;
    QueueOk(f, shards);
    data := [];
    for i := 0 to n
      invariant |data| == i
      invariant forall j :: 0 <= j < i ==> data[j] == f.Rows()[j]
    {
      var row := if i < |shards| then Pad(shards[i], shardLen) else Zeros(shardLen);
      data := data + [row];
    }
  }

  /** The bodies behind the headers of their type, numbered from zero. */
  method Headed(ghost f: Sent, key: Mask, h: Header, bodies: seq<Row>, count: nat) returns (out: seq<Row>)
    requires Fits(h) && h == f.Hdr(h.typ, 0) && count <= |bodies| && count <= 256
    ensures |out| == count && forall i :: 0 <= i < count ==> Fits(f.Hdr(h.typ, i)) && out[i] == PutHdr(key, f.Hdr(h.typ, i), bodies[i])
  {
    hide PutHdr;
    out := [];
    for i := 0 to count
      invariant |out| == i && forall j :: 0 <= j < i ==> out[j] == PutHdr(key, h.(idx := j), bodies[j])
    {
      out := out + [PutHdr(key, h.(idx := i), bodies[i])];
    }
  }

  lemma EmittedIs(f: Sent, shards: seq<Row>, data: seq<Row>, parity: seq<Row>)
    requires f.Ok() && Queue(shards, f.frames) && |data| == f.Count() && |parity| == f.KEff() <= f.k && Fits(f.Hdr(0, 0))
    requires forall i :: 0 <= i < f.Count() ==> data[i] == PutHdr(f.key, f.Hdr(TYPE_DATA, i), shards[i])
    requires forall i :: 0 <= i < f.KEff() ==>
               parity[i] == PutHdr(f.key, f.Hdr(TYPE_PARITY, i), EncodeBlock(f.n, f.k, f.Rows(), f.Width())[i])
    ensures data + parity == f.Emitted()
  {
    hide PutHdr, Framed, EncodeBlock, Sent.Rows;
  }

  /** Pads, encodes and packs the queued shards; parity is scaled to how full the block is. */
  method BuildBatch(codec: Codec, key: Mask, blk: nat, shards: seq<Row>, ghost queued: seq<Row>) returns (out: seq<Row>)
    requires codec.Valid() && Queue(shards, queued) && 1 <= |queued| <= codec.n && blk < 0x1_0000_0000
    ensures var f := Sent(codec.n, codec.k, key, blk, queued);
            f.Ok() && out == f.Emitted()
    ensures LeastParity(codec.n, codec.k, |queued|, |out| - |queued|)
  {
    hide LeastParity, Sent.Emitted, Sent.Ok, EncodeBlock, Sent.Rows, Framed, PutHdr;
    ghost var f := Sent(codec.n, codec.k, key, blk, queued);
    QueueOk(f, shards);
    var count := |shards|;
    var shardLen := WidestShard(f, shards);
    var data := PadRows(f, codec.n, shards, shardLen);
    var parity := codec.Encode(data, shardLen);
    var kEff := (codec.k * count + codec.n - 1) / codec.n;
    var dataPackets := Headed(f, key, Header(TYPE_DATA, blk, 0, codec.n, codec.k, count, shardLen), shards, count);
    var parityPackets := Headed(f, key, Header(TYPE_PARITY, blk, 0, codec.n, codec.k, count, shardLen), parity, kEff);
    EmittedIs(f, shards, dataPackets, parityPackets);
    out := dataPackets + parityPackets;
    KEffLeast(codec.n, codec.k, count);
  }

  class Encoder {
    const codec: Codec
    const key: Mask
    var block: nat
    var shards: seq<Row>
    var timer: bool
    var closed: bool
    /** The batches handed to emit. */
    var sent: seq<seq<Row>>

    ghost var flushed: seq<seq<Row>>
    ghost var queued: seq<Row>
    ghost var accepted: seq<Row>

    /** What was accepted is either flushed, in order, or still queued. */
    ghost predicate Coherent()
      reads this, codec.t.exp, codec.t.log, codec.t.mul
    {
      && codec.Valid()
      && block == |flushed| % 0x1_0000_0000
      && History(codec.n, codec.k, key, flushed, sent)
      && Queue(shards, queued) && |queued| <= codec.n
      && accepted == Concat(flushed) + queued
    }

    /** Between calls the queue is short of a full block and, when it holds anything, the timer runs. */
    ghost predicate Valid()
      reads this, codec.t.exp, codec.t.log, codec.t.mul
    {
      Coherent() && |queued| < codec.n && (queued != [] && !closed ==> timer)
    }

    constructor (codec: Codec, key: Mask)
      requires codec.Valid()
      ensures Valid() && accepted == [] && sent == [] && !closed
    {
      this.codec, this.key := codec, key;
      block, shards, timer, closed, sent := 0, [], false, false, [];
      flushed, queued, accepted := [], [], [];
    }

    method Close()
      requires Valid()
      modifies this
      ensures Valid() && closed && !timer && sent == old(sent) && accepted == old(accepted)
    {
      hide History, Queue;
      closed, timer := true, false;
    }

    /** flushLocked, also what the timer calls. */
    method FlushLocked()
      requires Coherent() && (closed ==> |queued| < codec.n)
      modifies this
      ensures Valid() && !timer && accepted == old(accepted) && closed == old(closed)
      ensures if closed || old(queued) == [] then flushed == old(flushed) && queued == old(queued)
              else flushed == old(flushed) + [old(queued)] && queued == []
    {
      hide History, Queue, Sent.Emitted, Sent.Ok, EncodeBlock, Codec.Valid, Concat, Shape;
      CodecSize(codec);
      QueueLength(shards, queued);
      timer := false;
      if closed { return; }
      var count := |shards|;
      if count == 0 { return; }
      var blk := block;
      var out := BuildBatch(codec, key, blk, shards, queued);
      block := (block + 1) % 0x1_0000_0000;
      NextBlock(|flushed|);
      HistoryGrows(codec.n, codec.k, key, flushed, sent, queued);
      EmptyQueue();
      shards := [];
      sent := sent + [out];
      flushed, queued := flushed + [queued], [];
    }

    /** addData: queues a sealed frame; a full block leaves at once. */
    method AddData(sealed: Row)
      requires Valid() && |sealed| <= MAX_FRAME
      modifies this
      ensures Valid() && closed == old(closed)
      ensures closed ==> accepted == old(accepted) && sent == old(sent)
      ensures !closed ==> accepted == old(accepted) + [sealed]
      ensures !closed && |old(queued)| + 1 < codec.n ==> flushed == old(flushed) && queued == old(queued) + [sealed] && timer
      ensures !closed && |old(queued)| + 1 == codec.n ==> flushed == old(flushed) + [old(queued) + [sealed]] && queued == []
    {
      hide History, Queue, Framed;
      var sp := Framed(sealed);
      if closed { return; }
      QueueGrows(shards, queued, sealed);
      shards := shards + [sp];
      queued, accepted := queued + [sealed], accepted + [sealed];
      if |shards| >= codec.n {
        FlushLocked();
      } else if !timer {
        timer := true;
      }
    }
  }

  lemma NextBlock(i: nat)
    ensures (i % 0x1_0000_0000 + 1) % 0x1_0000_0000 == (i + 1) % 0x1_0000_0000
  {
  }

  lemma CodecSize(codec: Codec)
    requires codec.Valid()
    ensures Shape(codec.n, codec.k) && codec.n >= 1
  {
  }

  lemma QueueLength(shards: seq<Row>, queued: seq<Row>)
    requires Queue(shards, queued)
    ensures |shards| == |queued|
  {
  }

  lemma EmptyQueue()
    ensures Queue([], [])
  {
  }

  lemma QueueGrows(shards: seq<Row>, queued: seq<Row>, sealed: Row)
    requires Queue(shards, queued) && |sealed| <= MAX_FRAME
    ensures Queue(shards + [Framed(sealed)], queued + [sealed])
    ensures |shards + [Framed(sealed)]| == |queued| + 1
  {
    hide Framed;
  }

  // ----- the decoder object

  class Decoder {
    const codec: Codec
    const key: Mask
    var blocks: map<nat, Block>
    var seqNo: nat
    var bytes: nat
    var resetPending: bool
    /** Everything handed to deliver. */
    var delivered: seq<Row>

    ghost function Abstract(): (s: State)
      reads this
    {
      State(blocks, seqNo, bytes, resetPending)
    }

    ghost predicate Valid()
      reads this, codec.t.exp, codec.t.log, codec.t.mul
    {
      codec.Valid() && FecDecoder.Valid(codec.n, codec.k, Abstract())
    }

    constructor (codec: Codec, key: Mask)
      requires codec.Valid()
      ensures Valid() && Abstract() == START && delivered == []
    {
      StartValid(codec.n, codec.k);
      this.codec, this.key := codec, key;
      blocks, seqNo, bytes, resetPending, delivered := map[], 0, 0, false, [];
    }

    /** reset: the blocks are dropped by the next data or parity packet. */
    method RequestReset()
      requires Valid()
      modifies this`resetPending
      ensures Valid() && Abstract() == Step(codec.n, codec.k, key, old(Abstract()), Reset).0
    {
      ResetKeeps(codec.n, codec.k, Abstract());
      resetPending := true;
    }

    /** Drops the block that arrived first, found by walking the map in any order. */
    method EvictOldestLocked()
      requires codec.Valid() && Held(codec.n, codec.k, Abstract()) && blocks != map[]
      modifies this`blocks, this`bytes
      ensures Abstract() == EvictOldest(codec.n, codec.k, old(Abstract()))
    {
      hide Codec.Valid, BlockOk, SumBytes;
      var oldID := EarliestID();
      assert oldID == Oldest(blocks);
      RemoveKeeps(codec.n, codec.k, Abstract(), oldID);
      bytes := bytes - blocks[oldID].bytes;
      blocks := blocks - {oldID};
    }

    /** The search for the block that arrived first. */
    method EarliestID() returns (oldID: nat)
      requires blocks != map[]
      ensures oldID in blocks && forall j :: j in blocks ==> blocks[oldID].arrival <= blocks[j].arrival
    {
      oldID :| oldID in blocks;
      var rest := blocks.Keys - {oldID};
      while rest != {}
        invariant rest <= blocks.Keys && oldID in blocks
        invariant forall j :: j in blocks && j !in rest ==> blocks[oldID].arrival <= blocks[j].arrival
        decreases |rest|
      {
        var id :| id in rest;
        if blocks[id].arrival < blocks[oldID].arrival { oldID := id; }
        rest := rest - {id};
      }
    }

    method MakeRoom(need: nat)
      requires codec.Valid() && Held(codec.n, codec.k, Abstract())
      modifies this`blocks, this`bytes
      ensures Abstract() == EvictFor(codec.n, codec.k, old(Abstract()), need)
    {
      hide Held, Codec.Valid, EvictOldest;
      while bytes + need > MAX_BYTES && blocks != map[]
        invariant Held(codec.n, codec.k, Abstract())
        invariant EvictFor(codec.n, codec.k, Abstract(), need) == EvictFor(codec.n, codec.k, old(Abstract()), need)
        decreases |blocks|
      {
        EvictOldestLocked();
      }
    }

    method EvictLocked()
      requires codec.Valid() && Held(codec.n, codec.k, Abstract())
      modifies this`blocks, this`bytes
      ensures Abstract() == EvictExtra(codec.n, codec.k, old(Abstract()))
    {
      hide Held, Codec.Valid, EvictOldest;
      while |blocks| > KEEP_BLOCKS
        invariant Held(codec.n, codec.k, Abstract())
        invariant EvictExtra(codec.n, codec.k, Abstract()) == EvictExtra(codec.n, codec.k, old(Abstract()))
        decreases |blocks|
      {
        EvictOldestLocked();
      }
    }

    /** Creates the block of a shard; after making room the budget always suffices. */
    method CreateBlock(it: Input)
      requires Valid() && ItemOk(codec.n, codec.k, it) && it.blk !in blocks
      modifies this`blocks, this`bytes, this`seqNo
      ensures Abstract() == Create(codec.n, codec.k, old(Abstract()), it)
    {
      hide Held, Codec.Valid, EvictFor, EvictExtra, FreshBlock;
      var n, k := codec.n, codec.k;
      var padBytes := PadBytes(n, it.count, it.shardLen);
      MakeRoom(padBytes + it.shardLen);
      assert bytes + padBytes + it.shardLen <= MAX_BYTES;
      ghost var s1 := Abstract();
      var b := FreshBlock(n, k, it, seqNo);
      InsertKeeps(n, k, s1, it);
      FreshBytes(n, k, it, seqNo);
      bytes := bytes + padBytes;
      seqNo := seqNo + 1;
      blocks := blocks[it.blk := b];
      assert Abstract() == Insert(n, k, s1, it);
      EvictLocked();
    }

    method Deliver(frames: seq<Row>)
      modifies this`delivered
      ensures delivered == old(delivered) + frames
    {
      delivered := delivered + frames;
    }

    /** The frames a completed block still owes. */
    method DeliverRest(b: Block, data: Matrix)
      requires b.count <= |data| && b.count <= |b.shards|
      modifies this`delivered
      ensures delivered == old(delivered) + Leftover(b, data, 0)
    {
      hide Unframed;
      for i := 0 to b.count
        invariant old(delivered) + Leftover(b, data, 0) == delivered + Leftover(b, data, i)
      {
        if !b.shards[i].Here? && i !in b.gaveOut {
          Deliver(Unframed(data[i]));
        }
      }
    }

    /** Stores a shard in its block: eager delivery, and reconstruction once enough shards are held. */
    method StoreShard(b: Block, it: Input, over: bool) returns (c: Block)
      requires codec.Valid() && BlockOk(codec.n, codec.k, b) && ItemOk(codec.n, codec.k, it)
      requires b.count == it.count && b.shardLen == it.shardLen
      modifies this`delivered
      ensures var (c', out) := StoreIn(codec.n, codec.k, b, it, over);
              c == c' && delivered == old(delivered) + out
    {
      hide Codec.Valid, CountHere, Unframed, Leftover, Reconstruct;
      var n, k := codec.n, codec.k;
      if b.done || b.shards[it.slot].Here? { return b; }
      if over {
        if it.data {
          Deliver(Unframed(it.shard));
          return b.(gaveOut := b.gaveOut + {it.slot});
        }
        return b;
      }
      CodecSize(codec);
      var kept := Pad(it.shard, it.shardLen);
      c := Filled(b, it.slot, kept);
      FillKeeps(n, k, b, it.slot, kept);
      if it.data { Deliver(Unframed(it.shard)); }
      if c.present < n { return; }
      var r := codec.Rebuild(c.shards, c.shardLen);
      DeliverRest(c, r.data);
      c := c.(done := true);
    }

    /** input: one packet off the wire. */
    method Receive(pkt: Row)
      requires Valid()
      modifies this
      ensures Valid()
      ensures var (s, out) := Step(codec.n, codec.k, key, old(Abstract()), Packet(pkt));
              Abstract() == s && delivered == old(delivered) + out
    {
      hide Codec.Valid, Classify, Held, BlockOk, Create, StoreIn, Unframed, ItemOk;
      ghost var before := Abstract();
      ResetKeeps(codec.n, codec.k, before);
      var it := Classify(codec.n, codec.k, key, pkt);
      if it.Ignored? { return; }
      if it.Passed? { Deliver([it.frame]); return; }
      if resetPending {
        resetPending := false;
        blocks, bytes := map[], 0;
      }
      assert Abstract() == Cleared(before);
      if it.blk !in blocks {
        CreateBlock(it);
      } else if blocks[it.blk].count != it.count || blocks[it.blk].shardLen != it.shardLen {
        if it.data { Deliver(Unframed(it.shard)); }
        return;
      }
      StoreLocked(it);
    }

    method StoreLocked(it: Input)
      requires Valid() && ItemOk(codec.n, codec.k, it) && it.blk in blocks
      requires blocks[it.blk].count == it.count && blocks[it.blk].shardLen == it.shardLen
      modifies this`blocks, this`bytes, this`delivered
      ensures Valid()
      ensures var (s, out) := Store(codec.n, codec.k, old(Abstract()), it);
              Abstract() == s && delivered == old(delivered) + out
    {
      hide Codec.Valid, Held, BlockOk, StoreIn;
      ghost var before := Abstract();
      var b := blocks[it.blk];
      BlockFacts(codec.n, codec.k, before, it.blk);
      var c := StoreShard(b, it, bytes + it.shardLen > MAX_BYTES);
      PutKeeps(codec.n, codec.k, before, it.blk, c);
      bytes := bytes - b.bytes + c.bytes;
      blocks := blocks[it.blk := c];
      assert Abstract() == PutBlock(before, it.blk, c);
    }
  }

  lemma FreshBytes(n: nat, k: nat, it: Input, arrival: nat)
    requires ItemOk(n, k, it)
    ensures FreshBlock(n, k, it, arrival).bytes == PadBytes(n, it.count, it.shardLen)
  {
  }
}
