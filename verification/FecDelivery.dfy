/**
 End to end delivery of the erasure-coding layer of
 internal/packet/fec_stream.go: the packets a flush emits, and what a decoder
 that keeps their block hands out, whatever else it is fed in between.
 */
module FecDelivery {
  import opened Arith
  import opened Counting
  import opened Gf256
  import opened GaussJordan
  import opened Generator
  import opened FecHeader
  import opened FecDecoder

  const MAX_FRAME := 16382

  /** One flushed block: the frames queued, the code, the mask key and the block number. */
  datatype Sent = Sent(n: nat, k: nat, key: Mask, blk: nat, frames: seq<Row>) {

    ghost predicate Ok() {
      && Shape(n, k) && blk < 0x1_0000_0000 && 1 <= |frames| <= n
      && forall i :: 0 <= i < |frames| ==> |frames[i]| <= MAX_FRAME
    }

    function Count(): (c: nat) { |frames| }

    /** The longest framed shard. */
    function Width(): (w: nat) { Widest(frames) }

    ghost function Rows(): (m: Matrix)
      requires Ok()
      ensures IsMatrix(m, n, Width())
    {
      WidestBounds(frames);
      seq(n, i requires 0 <= i < n =>
        if i < |frames| then Pad(Framed(frames[i]), Width()) else Zeros(Width()))
    }

    /** Parity is scaled to how full the block is. */
    function KEff(): (e: nat)
      requires n > 0
    {
      (k * Count() + n - 1) / n
    }

    function Hdr(typ: nat, idx: nat): (h: Header) {
      Header(typ, blk, idx, n, k, Count(), Width())
    }

    ghost function Emitted(): (out: seq<Row>)
      requires Ok()
      ensures |out| == Count() + KEff()
    {
      seq(Count(), i requires 0 <= i < Count() => DataPacket(i)) + seq(KEff(), i requires 0 <= i < KEff() => ParityPacket(i))
    }

    ghost function DataPacket(i: nat): (pkt: Row)
      requires Ok() && i < Count()
    {
      WidestBounds(frames);
      PutHdr(key, Hdr(TYPE_DATA, i), Framed(frames[i]))
    }

    ghost function ParityPacket(i: nat): (pkt: Row)
      requires Ok() && i < KEff()
    {
      KEffBound(n, k, Count());
      WidestBounds(frames);
      PutHdr(key, Hdr(TYPE_PARITY, i), EncodeBlock(n, k, Rows(), Width())[i])
    }

    function SlotOf(p: nat): (s: nat) {
      if p < Count() then p else n + (p - Count())
    }
  }

  function Widest(frames: seq<Row>): (w: nat) {
    if frames == [] then 0
    else
      var rest := Widest(frames[..|frames| - 1]);
      var last := 2 + |frames[|frames| - 1]|;
      if last > rest then last else rest
  }

  lemma {:induction false} WidestBounds(frames: seq<Row>)
    ensures forall i :: 0 <= i < |frames| ==> 2 + |frames[i]| <= Widest(frames)
    ensures (forall i :: 0 <= i < |frames| ==> |frames[i]| <= MAX_FRAME) ==> Widest(frames) <= MAX_SHARD
    ensures |frames| > 0 ==> Widest(frames) >= 2
  {
    if frames != [] {
      var init := frames[..|frames| - 1];
      WidestBounds(init);
      forall i | 0 <= i < |frames| ensures 2 + |frames[i]| <= Widest(frames) {
        if i < |init| { assert frames[i] == init[i]; }
      }
      assert forall i :: 0 <= i < |init| ==> init[i] == frames[i];
    }
  }

  lemma KEffBound(n: nat, k: nat, count: nat)
    requires n > 0 && count <= n
    ensures (k * count + n - 1) / n <= k
  {
    assert k * count <= k * n;
    var e := (k * count + n - 1) / n;
    assert e * n <= k * count + n - 1 < (k + 1) * n;
  }

  /** Each emitted packet parses to its slot, and its padded body is that slot of the codeword. */
  lemma EmittedParses(f: Sent, p: nat)
    requires f.Ok() && p < |f.Emitted()|
    ensures f.SlotOf(p) < f.n + f.k
    ensures var it := Classify(f.n, f.k, f.key, f.Emitted()[p]);
            && it.Item? && it.blk == f.blk && it.slot == f.SlotOf(p)
            && it.count == f.Count() && it.shardLen == f.Width() && (it.data <==> p < f.Count())
            && Pad(it.shard, f.Width()) == CodeShard(f.n, f.k, f.Rows(), f.Width(), it.slot)
            && (it.data ==> it.shard == Framed(f.frames[p]))
  {
    hide PutHdr, ReadHdr, CodeShard, Framed;
    WidestBounds(f.frames);
    KEffBound(f.n, f.k, f.Count());
    if p < f.Count() {
      HeaderRoundTrip(f.key, f.Hdr(TYPE_DATA, p), Framed(f.frames[p]));
      Systematic(f.n, f.k, f.Rows(), f.Width(), p);
    } else {
      var i := p - f.Count();
      var parity := EncodeBlock(f.n, f.k, f.Rows(), f.Width())[i];
      HeaderRoundTrip(f.key, f.Hdr(TYPE_PARITY, i), parity);
      assert Pad(parity, f.Width()) == parity;
    }
  }

  // ----- what has been handed out, given the slots that arrived

  function One(y: Row, x: Row): (c: nat) {
    if y == x then 1 else 0
  }

  lemma TimesCons(y: Row, b: seq<Row>, x: Row)
    ensures Times([y] + b, x) == One(y, x) + Times(b, x) && Times([y], x) == One(y, x)
  {
    TimesAppend([y], b, x);
  }

  /** Occurrences of x among the first i frames whose slot arrived. */
  function GivenUpTo(frames: seq<Row>, got: set<nat>, i: nat, x: Row): (c: nat)
    requires i <= |frames|
  {
    if i == 0 then 0
    else GivenUpTo(frames, got, i - 1, x) + (if i - 1 in got then One(frames[i - 1], x) else 0)
  }

  /** The data frames of the slots that arrived, or all frames once enough slots did. */
  function Given(f: Sent, got: set<nat>, x: Row): (c: nat) {
    if |got| >= f.Count() then Times(f.frames, x) else GivenUpTo(f.frames, got, f.Count(), x)
  }

  lemma {:induction false} GivenAdd(frames: seq<Row>, got: set<nat>, slot: nat, i: nat, x: Row)
    requires i <= |frames| && slot !in got
    ensures GivenUpTo(frames, got + {slot}, i, x)
         == GivenUpTo(frames, got, i, x) + (if slot < i then One(frames[slot], x) else 0)
  {
    if i > 0 { GivenAdd(frames, got, slot, i - 1, x); }
  }

  lemma {:induction false} GivenWithin(frames: seq<Row>, got: set<nat>, i: nat, x: Row)
    requires i <= |frames|
    ensures GivenUpTo(frames, got, i, x) <= Times(frames[..i], x)
    ensures got == {} ==> GivenUpTo(frames, got, i, x) == 0
  {
    if i > 0 {
      GivenWithin(frames, got, i - 1, x);
      assert frames[..i] == frames[..i - 1] + [frames[i - 1]];
      TimesAppend(frames[..i - 1], [frames[i - 1]], x);
      TimesCons(frames[i - 1], [], x);
    }
  }

  // ----- the block inside the decoder

  /** Slot i of the block once the slots got have arrived. */
  ghost function SlotShard(f: Sent, got: set<nat>, i: nat): (s: Shard)
    requires f.Ok() && i < f.n + f.k
  {
    if i in got then Here(CodeShard(f.n, f.k, f.Rows(), f.Width(), i))
    else if f.Count() <= i < f.n then Here(Zeros(f.Width()))
    else Missing
  }

  ghost predicate ShardsMatch(f: Sent, shards: seq<Shard>, got: set<nat>)
    requires f.Ok()
  {
    |shards| == f.n + f.k && forall i: nat :: i < f.n + f.k ==> shards[i] == SlotShard(f, got, i)
  }

  ghost predicate BlockTracks(f: Sent, b: Block, got: set<nat>)
    requires f.Ok()
  {
    && b.count == f.Count() && b.shardLen == f.Width() && b.gaveOut == {} && |b.shards| == f.n + f.k
    && if |got| >= f.Count() then b.done
       else !b.done && b.present == f.n - f.Count() + |got| && ShardsMatch(f, b.shards, got)
  }

  ghost predicate Tracks(f: Sent, s: State, got: set<nat>)
    requires f.Ok()
  {
    && (forall i :: i in got ==> i < f.Count() || f.n <= i < f.n + f.k)
    && (got != {} ==> f.blk in s.blocks && BlockTracks(f, s.blocks[f.blk], got))
  }

  lemma RowFrame(f: Sent, i: nat)
    requires f.Ok() && i < f.Count()
    ensures Unframed(f.Rows()[i]) == [f.frames[i]] && Unframed(Framed(f.frames[i])) == [f.frames[i]]
  {
    WidestBounds(f.frames);
    PaddedFrame(f.frames[i], f.Width());
  }

  /** What the block still owes and what was handed out make up all its frames. */
  lemma {:induction false} LeftoverGiven(b: Block, rows: Matrix, frames: seq<Row>, got: set<nat>, i: nat, x: Row)
    requires b.count == |frames| <= |rows| && b.count <= |b.shards| && b.gaveOut == {} && i <= |frames|
    requires forall j: nat :: j < |frames| ==> (b.shards[j].Here? <==> j in got)
    requires forall j: nat :: j < |frames| ==> Unframed(rows[j]) == [frames[j]]
    ensures Times(Leftover(b, rows, i), x) + GivenUpTo(frames, got, |frames|, x)
         == Times(frames[i..], x) + GivenUpTo(frames, got, i, x)
    decreases |frames| - i
  {
    hide Unframed, Times, One;
    if i < |frames| {
      LeftoverGiven(b, rows, frames, got, i + 1, x);
      assert frames[i..] == [frames[i]] + frames[i + 1..];
      TimesCons(frames[i], frames[i + 1..], x);
      var rest := Leftover(b, rows, i + 1);
      TimesCons(frames[i], rest, x);
      assert [] + rest == rest;
    } else {
      TimesAppend([], [], x);
      assert frames[i..] == [] && Leftover(b, rows, i) == [];
    }
  }

  /** Padding beyond the frames counts as arrived; the rows agree with the codeword there too. */
  lemma TracksAgree(f: Sent, shards: seq<Shard>, got: set<nat>)
    requires f.Ok() && ShardsMatch(f, shards, got)
    ensures Agrees(f.n, f.k, f.Rows(), f.Width(), shards)
  {
    hide CodeShard;
    forall i: nat | f.Count() <= i < f.n
      ensures CodeShard(f.n, f.k, f.Rows(), f.Width(), i) == Zeros(f.Width())
    {
      Systematic(f.n, f.k, f.Rows(), f.Width(), i);
    }
  }

  /** The arrival of one more slot completes the block: the rest is handed out. */
  lemma CompleteTracks(f: Sent, c: Block, got: set<nat>, x: Row)
    requires f.Ok() && Usable(f.n, f.k, c.shards, c.shardLen) && ShardsMatch(f, c.shards, got)
    requires c.count == f.Count() && c.shardLen == f.Width() && c.gaveOut == {}
    ensures Finish(f.n, f.k, c).0 == c.(done := true)
    ensures Times(Finish(f.n, f.k, c).1, x) + GivenUpTo(f.frames, got, f.Count(), x) == Times(f.frames, x)
  {
    hide Usable, CodeShard, Reconstruct, CountHere, Agrees;
    TracksAgree(f, c.shards, got);
    ReconstructRecovers(f.n, f.k, f.Rows(), f.Width(), c.shards);
    assert forall j: nat :: j < f.Count() ==> (c.shards[j].Here? <==> j in got);
    forall i: nat | i < f.Count() ensures Unframed(f.Rows()[i]) == [f.frames[i]] { RowFrame(f, i); }
    LeftoverGiven(c, f.Rows(), f.frames, got, 0, x);
    assert f.frames[0..] == f.frames;
  }

  /** What the arriving packet itself hands out. */
  function EagerFrames(f: Sent, slot: nat): (d: seq<Row>) {
    if slot < f.Count() then [f.frames[slot]] else []
  }

  lemma FillTracks(f: Sent, b: Block, got: set<nat>, slot: nat)
    requires f.Ok() && ShardsMatch(f, b.shards, got) && slot < f.n + f.k
    ensures ShardsMatch(f, Filled(b, slot, CodeShard(f.n, f.k, f.Rows(), f.Width(), slot)).shards, got + {slot})
  {
    hide CodeShard;
  }

  /** What the packet of a slot carries, however it was parsed. */
  ghost predicate Carries(f: Sent, it: Input)
    requires f.Ok()
  {
    && ItemOk(f.n, f.k, it) && it.count == f.Count() && it.shardLen == f.Width()
    && (it.slot < f.Count() || f.n <= it.slot < f.n + f.k)
    && Pad(it.shard, f.Width()) == CodeShard(f.n, f.k, f.Rows(), f.Width(), it.slot)
    && (if it.data then Unframed(it.shard) else []) == EagerFrames(f, it.slot)
  }

  /** A slot that already arrived, or any slot of a finished block, changes nothing. */
  lemma StoreRepeat(f: Sent, b: Block, got: set<nat>, it: Input, x: Row)
    requires f.Ok() && BlockOk(f.n, f.k, b) && BlockTracks(f, b, got) && Carries(f, it)
    requires it.slot in got || b.done
    ensures var got2 := got + {it.slot};
            && StoreIn(f.n, f.k, b, it, false) == (b, [])
            && BlockTracks(f, b, got2) && Given(f, got2, x) == Given(f, got, x)
  {
    hide BlockOk, CodeShard, GivenUpTo, Times, One, CountHere;
    if it.slot in got {
      assert got + {it.slot} == got;
    } else {
      assert |got + {it.slot}| == |got| + 1;
    }
  }

  lemma StoreNew(f: Sent, b: Block, got: set<nat>, it: Input)
    requires f.Ok() && BlockOk(f.n, f.k, b) && BlockTracks(f, b, got) && Carries(f, it)
    requires it.slot !in got && !b.done
    ensures b.shards[it.slot].Missing?
    ensures var got2 := got + {it.slot};
            var c := Filled(b, it.slot, CodeShard(f.n, f.k, f.Rows(), f.Width(), it.slot));
            var eager := EagerFrames(f, it.slot);
            && |got2| == |got| + 1 && ShardsMatch(f, c.shards, got2)
            && (c.present < f.n <==> |got2| < f.Count())
            && (c.present < f.n ==> StoreIn(f.n, f.k, b, it, false) == (c, eager))
            && (c.present >= f.n ==> Usable(f.n, f.k, c.shards, c.shardLen))
            && (c.present >= f.n ==>
                  StoreIn(f.n, f.k, b, it, false) == (Finish(f.n, f.k, c).0, eager + Finish(f.n, f.k, c).1))
  {
    hide CodeShard, Unframed, CountHere, Finish;
    FillKeeps(f.n, f.k, b, it.slot, Pad(it.shard, f.Width()));
    FillTracks(f, b, got, it.slot);
    assert b.shards[it.slot] == SlotShard(f, got, it.slot);
  }

  /** A shard of the block arriving at its tracked block. */
  lemma StoreTracks(f: Sent, b: Block, got: set<nat>, it: Input, x: Row)
    requires f.Ok() && BlockOk(f.n, f.k, b) && BlockTracks(f, b, got) && Carries(f, it)
    ensures var (c, out) := StoreIn(f.n, f.k, b, it, false);
            && BlockTracks(f, c, got + {it.slot})
            && Times(out, x) + Given(f, got, x) == Given(f, got + {it.slot}, x)
  {
    hide BlockOk, CodeShard, GivenUpTo, Times, One, CountHere, StoreIn, Usable, ShardsMatch, Finish;
    TimesAppend([], [], x);
    if it.slot in got || b.done {
      StoreRepeat(f, b, got, it, x);
    } else {
      StoreNew(f, b, got, it);
      var got2 := got + {it.slot};
      var c := Filled(b, it.slot, CodeShard(f.n, f.k, f.Rows(), f.Width(), it.slot));
      GivenAdd(f.frames, got, it.slot, f.Count(), x);
      EagerTimes(f, it.slot, x);
      if c.present >= f.n {
        CompleteTracks(f, c, got2, x);
        TimesAppend(EagerFrames(f, it.slot), Finish(f.n, f.k, c).1, x);
      }
    }
  }

  lemma EagerTimes(f: Sent, slot: nat, x: Row)
    ensures Times(EagerFrames(f, slot), x) == if slot < f.Count() then One(f.frames[slot], x) else 0
  {
    TimesAppend([], [], x);
    if slot < f.Count() { TimesCons(f.frames[slot], [], x); }
  }

  // ----- one step of the decoder, seen from the block

  /** The event is a data or parity packet that claims the block number of f. */
  ghost predicate Ours(f: Sent, e: Event) {
    e.Packet? && var it := Classify(f.n, f.k, f.key, e.pkt); it.Item? && it.blk == f.blk
  }

  ghost function SlotIn(f: Sent, e: Event): (slot: nat)
    requires Ours(f, e)
  {
    Classify(f.n, f.k, f.key, e.pkt).slot
  }

  /** Only the sender of f uses its block number. */
  ghost predicate Genuine(f: Sent, e: Event)
    requires f.Ok()
  {
    Ours(f, e) ==> e.pkt in f.Emitted()
  }

  ghost function Next(f: Sent, s: State, e: Event): (r: (State, seq<Row>))
    requires Valid(f.n, f.k, s)
    ensures Valid(f.n, f.k, r.0)
  {
    Step(f.n, f.k, f.key, s, e)
  }

  lemma PacketFacts(f: Sent, e: Event)
    requires f.Ok() && Ours(f, e) && Genuine(f, e)
    ensures var it := Classify(f.n, f.k, f.key, e.pkt);
            && Carries(f, it)
            && exists p :: 0 <= p < |f.Emitted()| && e.pkt == f.Emitted()[p] && it.slot == f.SlotOf(p)
  {
    hide Classify, CodeShard, Framed, Unframed;
    var p :| 0 <= p < |f.Emitted()| && e.pkt == f.Emitted()[p];
    EmittedParses(f, p);
    if p < f.Count() { RowFrame(f, p); }
  }

  lemma FreshTracks(f: Sent, it: Input, arrival: nat)
    requires f.Ok() && Carries(f, it)
    ensures BlockTracks(f, FreshBlock(f.n, f.k, it, arrival), {})
  {
    hide CodeShard;
  }

  /** Storing at a tracked block of the state. */
  lemma StoreStep(f: Sent, s: State, got: set<nat>, it: Input, x: Row)
    requires f.Ok() && Valid(f.n, f.k, s) && Carries(f, it) && it.blk == f.blk && f.blk in s.blocks
    requires BlockTracks(f, s.blocks[f.blk], got) && s.bytes + f.Width() <= MAX_BYTES
    ensures s.blocks[it.blk].count == it.count && s.blocks[it.blk].shardLen == it.shardLen
    ensures var (r, out) := Store(f.n, f.k, s, it);
            && f.blk in r.blocks && BlockTracks(f, r.blocks[f.blk], got + {it.slot})
            && Times(out, x) + Given(f, got, x) == Given(f, got + {it.slot}, x)
  {
    hide BlockOk, Held, BlockTracks, Given, Times, StoreIn, Carries, ItemOk, Sent.Ok;
    var b := s.blocks[f.blk];
    CarriesShape(f, it);
    TracksShape(f, b, got);
    BlockFacts(f.n, f.k, s, f.blk);
    StoreTracks(f, b, got, it, x);
  }

  lemma CarriesShape(f: Sent, it: Input)
    requires f.Ok() && Carries(f, it)
    ensures ItemOk(f.n, f.k, it) && it.count == f.Count() && it.shardLen == f.Width()
    ensures it.slot < f.Count() || f.n <= it.slot < f.n + f.k
  {
  }

  /** A packet of the block advances the slots that arrived and hands out exactly what they newly determine. */
  lemma OurStep(f: Sent, s: State, got: set<nat>, e: Event, x: Row)
    requires f.Ok() && Valid(f.n, f.k, s) && Tracks(f, s, got) && Ours(f, e) && Genuine(f, e)
    requires if got == {} then f.blk !in Cleared(s).blocks else !s.resetPending && s.bytes + f.Width() <= MAX_BYTES
    ensures var (r, out) := Next(f, s, e);
            && Tracks(f, r, got + {SlotIn(f, e)})
            && Times(out, x) + Given(f, got, x) == Given(f, got + {SlotIn(f, e)}, x)
  {
    hide Classify, Valid, Carries, Tracks, StepItem, Given, Times, Sent.Ok, Cleared;
    PacketFacts(f, e);
    OurItem(f, s, got, Classify(f.n, f.k, f.key, e.pkt), x);
  }

  lemma OurItem(f: Sent, s: State, got: set<nat>, it: Input, x: Row)
    requires f.Ok() && Valid(f.n, f.k, s) && Tracks(f, s, got) && Carries(f, it) && it.blk == f.blk
    requires if got == {} then f.blk !in Cleared(s).blocks else !s.resetPending && s.bytes + f.Width() <= MAX_BYTES
    ensures ItemOk(f.n, f.k, it)
    ensures var (r, out) := StepItem(f.n, f.k, s, it);
            && Tracks(f, r, got + {it.slot})
            && Times(out, x) + Given(f, got, x) == Given(f, got + {it.slot}, x)
  {
    hide Valid, Given, Times, StepItem, ItemOk, BlockTracks, Carries, Sent.Ok, Cleared;
    CarriesShape(f, it);
    if got == {} {
      FirstItem(f, s, it, x);
      assert got + {it.slot} == {it.slot};
    } else {
      LaterItem(f, s, got, it, x);
    }
  }

  lemma FirstItem(f: Sent, s: State, it: Input, x: Row)
    requires f.Ok() && Valid(f.n, f.k, s) && Carries(f, it) && it.blk == f.blk && f.blk !in Cleared(s).blocks
    ensures ItemOk(f.n, f.k, it)
    ensures var (r, out) := StepItem(f.n, f.k, s, it);
            && f.blk in r.blocks && BlockTracks(f, r.blocks[f.blk], {it.slot})
            && Times(out, x) + Given(f, {}, x) == Given(f, {it.slot}, x)
  {
    hide Valid, Given, Times, Carries, Store, Create, ItemOk, BlockTracks, Sent.Ok, FreshBlock, PadBytes, Cleared;
    CarriesShape(f, it);
    ResetKeeps(f.n, f.k, s);
    var s0 := Create(f.n, f.k, Cleared(s), it);
    FreshTracks(f, it, Cleared(s).seqNo);
    StoreStep(f, s0, {}, it, x);
    assert {} + {it.slot} == {it.slot};
  }

  lemma LaterItem(f: Sent, s: State, got: set<nat>, it: Input, x: Row)
    requires f.Ok() && Valid(f.n, f.k, s) && Carries(f, it) && it.blk == f.blk && f.blk in s.blocks
    requires BlockTracks(f, s.blocks[f.blk], got) && !s.resetPending && s.bytes + f.Width() <= MAX_BYTES
    ensures ItemOk(f.n, f.k, it)
    ensures var (r, out) := StepItem(f.n, f.k, s, it);
            && f.blk in r.blocks && BlockTracks(f, r.blocks[f.blk], got + {it.slot})
            && Times(out, x) + Given(f, got, x) == Given(f, got + {it.slot}, x)
  {
    hide Valid, Given, Times, Carries, Store, ItemOk, BlockTracks, Sent.Ok;
    CarriesShape(f, it);
    assert Cleared(s) == s;
    StoreStep(f, s, got, it, x);
  }

  lemma TracksShape(f: Sent, b: Block, got: set<nat>)
    requires f.Ok() && BlockTracks(f, b, got)
    ensures b.count == f.Count() && b.shardLen == f.Width()
  {
  }

  /** Everything else leaves a held block alone. */
  lemma OtherStep(f: Sent, s: State, got: set<nat>, e: Event)
    requires f.Ok() && Valid(f.n, f.k, s) && Tracks(f, s, got) && !Ours(f, e)
    requires got != {} ==> !s.resetPending && f.blk in Next(f, s, e).0.blocks
    ensures Tracks(f, Next(f, s, e).0, got)
  {
    hide Classify, Held, BlockOk, StoreIn, BlockTracks, Unframed, PadBytes;
    ResetKeeps(f.n, f.k, s);
  }

  // ----- whole runs

  /**
   Along the run only the sender uses the block number, its first packet finds
   the number free, the block is never evicted or reset once started, and a shard
   of it always fits the byte budget.
   */
  ghost predicate Kept(f: Sent, s: State, events: seq<Event>, started: bool)
    requires f.Ok() && Valid(f.n, f.k, s)
    decreases |events|
  {
    && (started ==> f.blk in s.blocks && !s.resetPending)
    && (events == [] ||
        var e := events[0];
        && Genuine(f, e)
        && (Ours(f, e) ==> if started then s.bytes + f.Width() <= MAX_BYTES else f.blk !in Cleared(s).blocks)
        && Kept(f, Next(f, s, e).0, events[1..], started || Ours(f, e)))
  }

  /** Everything the run hands out on packets of the block. */
  ghost function OutFor(f: Sent, s: State, events: seq<Event>): (out: seq<Row>)
    requires Valid(f.n, f.k, s)
    decreases |events|
  {
    if events == [] then []
    else
      var (r, out) := Next(f, s, events[0]);
      (if Ours(f, events[0]) then out else []) + OutFor(f, r, events[1..])
  }

  ghost function SlotsIn(f: Sent, events: seq<Event>): (slots: set<nat>) {
    if events == [] then {}
    else (if Ours(f, events[0]) then {SlotIn(f, events[0])} else {}) + SlotsIn(f, events[1..])
  }

  lemma {:induction false} RunDelivers(f: Sent, s: State, events: seq<Event>, got: set<nat>, x: Row)
    requires f.Ok() && Valid(f.n, f.k, s) && Tracks(f, s, got) && Kept(f, s, events, got != {})
    ensures Times(OutFor(f, s, events), x) + Given(f, got, x) == Given(f, got + SlotsIn(f, events), x)
    decreases |events|
  {
    hide Next, Tracks, Given, Times, Ours, Valid, Genuine, SlotIn, Sent.Ok, Cleared;
    TimesAppend([], [], x);
    if events == [] {
      assert got + {} == got;
    } else {
      var e, rest := events[0], events[1..];
      var (r, out) := Next(f, s, e);
      if Ours(f, e) {
        var slot := SlotIn(f, e);
        OurStep(f, s, got, e, x);
        RunDelivers(f, r, rest, got + {slot}, x);
        TimesAppend(out, OutFor(f, r, rest), x);
        assert got + ({slot} + SlotsIn(f, rest)) == got + {slot} + SlotsIn(f, rest);
      } else {
        OtherStep(f, s, got, e);
        RunDelivers(f, r, rest, got, x);
        assert [] + OutFor(f, r, rest) == OutFor(f, r, rest);
        assert {} + SlotsIn(f, rest) == SlotsIn(f, rest);
      }
    }
  }

  // ----- distinct packets fill distinct slots

  ghost function PacketsIn(f: Sent, events: seq<Event>): (pkts: set<Row>) {
    if events == [] then {}
    else (if Ours(f, events[0]) then {events[0].pkt} else {}) + PacketsIn(f, events[1..])
  }

  ghost function PacketAt(f: Sent, slot: nat): (pkt: Row)
    requires f.Ok()
  {
    var p := if slot < f.Count() then slot else f.Count() + slot - f.n;
    if 0 <= p < |f.Emitted()| then f.Emitted()[p] else []
  }

  lemma {:induction false} PacketsFromSlots(f: Sent, events: seq<Event>)
    requires f.Ok() && forall e :: e in events ==> Genuine(f, e)
    ensures PacketsIn(f, events) == set slot | slot in SlotsIn(f, events) :: PacketAt(f, slot)
  {
    hide Sent.Ok, Sent.Emitted, Classify, Genuine, Ours, SlotIn, PacketAt;
    if events != [] {
      PacketsFromSlots(f, events[1..]);
      assert events[0] in events;
      if Ours(f, events[0]) { PacketBySlot(f, events[0]); }
    }
  }

  lemma PacketBySlot(f: Sent, e: Event)
    requires f.Ok() && Ours(f, e) && Genuine(f, e)
    ensures PacketAt(f, SlotIn(f, e)) == e.pkt
  {
    hide Sent.Emitted, Classify, Carries;
    PacketFacts(f, e);
  }

  lemma {:induction false} ImageSize(f: Sent, slots: set<nat>)
    requires f.Ok()
    ensures |set slot | slot in slots :: PacketAt(f, slot)| <= |slots|
  {
    hide Sent.Ok, PacketAt;
    if slots != {} {
      var s :| s in slots;
      var rest := slots - {s};
      ImageSize(f, rest);
      assert (set slot | slot in slots :: PacketAt(f, slot)) == (set slot | slot in rest :: PacketAt(f, slot)) + {PacketAt(f, s)};
    }
  }

  lemma {:induction false} KeptGenuine(f: Sent, s: State, events: seq<Event>, started: bool)
    requires f.Ok() && Valid(f.n, f.k, s) && Kept(f, s, events, started)
    ensures forall e :: e in events ==> Genuine(f, e)
    decreases |events|
  {
    hide Sent.Ok, Genuine, Ours, Valid, Next, Cleared;
    if events != [] {
      KeptGenuine(f, Next(f, s, events[0]).0, events[1..], started || Ours(f, events[0]));
    }
  }

  /**
   End to end: as soon as as many distinct packets of a flushed block arrived as it has
   frames, in any order, repeated and among any other traffic, every frame has been
   handed out exactly once; before that, none twice and nothing else.
   */
  lemma BlockDelivered(f: Sent, s: State, events: seq<Event>)
    requires f.Ok() && Valid(f.n, f.k, s) && Kept(f, s, events, false)
    ensures multiset(OutFor(f, s, events)) <= multiset(f.frames)
    ensures |PacketsIn(f, events)| >= f.Count() ==> multiset(OutFor(f, s, events)) == multiset(f.frames)
  {
    hide OutFor, Kept, Valid, SlotsIn, PacketsIn;
    KeptGenuine(f, s, events, false);
    PacketsFromSlots(f, events);
    var slots := SlotsIn(f, events);
    ImageSize(f, slots);
    var out := OutFor(f, s, events);
    forall x: Row
      ensures multiset(out)[x] <= multiset(f.frames)[x]
      ensures |slots| >= f.Count() ==> multiset(out)[x] == multiset(f.frames)[x]
    {
      RunDelivers(f, s, events, {}, x);
      GivenWithin(f.frames, {}, f.Count(), x);
      GivenWithin(f.frames, slots, f.Count(), x);
      assert {} + slots == slots;
      assert f.frames[..f.Count()] == f.frames;
    }
  }

  // ----- a bound under which no block is evicted

  /** What number blocks of n data shards can hold at most. */
  function Room(number: nat, n: nat): (t: nat) {
    number * (n * MAX_SHARD)
  }

  /** The block numbers that the packets of a run name. */
  ghost function Named(f: Sent, events: seq<Event>): (ids: set<nat>) {
    set e | e in events && e.Packet? && Classify(f.n, f.k, f.key, e.pkt).Item? :: Classify(f.n, f.k, f.key, e.pkt).blk
  }

  /** ids are few enough for all their blocks to be held at once, with a shard to spare. */
  predicate Roomy(f: Sent, ids: set<nat>) {
    |ids| <= KEEP_BLOCKS && Room(|ids|, f.n) + MAX_SHARD <= MAX_BYTES
  }

  /** Only blocks of ids are held, that of f from its first packet on. */
  ghost predicate Within(f: Sent, s: State, ids: set<nat>, started: bool) {
    && Valid(f.n, f.k, s) && !s.resetPending && s.blocks.Keys <= ids && f.blk in ids
    && (started <==> f.blk in s.blocks)
  }

  lemma HeldBytes(n: nat, k: nat, b: Block)
    requires Shape(n, k) && BlockOk(n, k, b)
    ensures b.bytes <= n * MAX_SHARD
  {
    hide CountHere, Zeros;
    Product(b.present - (n - b.count), b.shardLen, if b.count < n then n - 1 else n);
  }

  lemma Product(x: nat, y: nat, m: nat)
    requires x <= m && y <= MAX_SHARD
    ensures x * y <= m * MAX_SHARD
  {
    assert x * y <= m * y <= m * MAX_SHARD;
  }

  lemma WithinBytes(f: Sent, s: State, ids: set<nat>, started: bool)
    requires Within(f, s, ids, started)
    ensures s.bytes <= Room(|s.blocks|, f.n)
  {
    hide BlockOk, MapSum;
    forall id | id in s.blocks ensures BlockBytes(s.blocks[id]) <= f.n * MAX_SHARD {
      HeldBytes(f.n, f.k, s.blocks[id]);
    }
    MapSumBound(s.blocks, BlockBytes, f.n * MAX_SHARD);
  }

  lemma RoomGrows(a: nat, b: nat, n: nat)
    requires a <= b
    ensures Room(a, n) <= Room(b, n) && Room(a + 1, n) == Room(a, n) + n * MAX_SHARD
  {
    assert a * (n * MAX_SHARD) <= b * (n * MAX_SHARD);
    assert (a + 1) * (n * MAX_SHARD) == a * (n * MAX_SHARD) + n * MAX_SHARD;
  }

  /** A new block finds room without any eviction. */
  lemma CreateKeepsAll(f: Sent, s: State, ids: set<nat>, started: bool, it: Input)
    requires Within(f, s, ids, started) && Roomy(f, ids) && ItemOk(f.n, f.k, it) && it.blk in ids && it.blk !in s.blocks
    ensures Create(f.n, f.k, s, it).blocks.Keys == s.blocks.Keys + {it.blk}
  {
    hide Held, BlockOk, SumBytes, FreshBlock, Room, PadBytes, Within, Roomy;
    WithinFew(f, s, ids, started);
    RoomLeft(f, s, ids, started, it);
    OneMoreBlock(s.blocks, it.blk, FreshBlock(f.n, f.k, it, s.seqNo), ids);
  }

  lemma WithinFew(f: Sent, s: State, ids: set<nat>, started: bool)
    requires Within(f, s, ids, started) && Roomy(f, ids)
    ensures s.blocks.Keys <= ids && |ids| <= KEEP_BLOCKS
  {
  }

  /** The bytes of another block fit. */
  lemma RoomLeft(f: Sent, s: State, ids: set<nat>, started: bool, it: Input)
    requires Within(f, s, ids, started) && Roomy(f, ids) && ItemOk(f.n, f.k, it) && it.blk in ids && it.blk !in s.blocks
    ensures s.bytes + PadBytes(f.n, it.count, it.shardLen) + it.shardLen <= MAX_BYTES
  {
    hide Valid, Room;
    WithinBytes(f, s, ids, started);
    SubsetSize(s.blocks.Keys + {it.blk}, ids);
    RoomGrows(|s.blocks|, |ids|, f.n);
    RoomGrows(|s.blocks| + 1, |ids|, f.n);
    ShapeOf(f, s);
  }

  lemma ShapeOf(f: Sent, s: State)
    requires Valid(f.n, f.k, s)
    ensures f.n >= 1
  {
  }

  lemma OneMoreBlock(blocks: map<nat, Block>, id: nat, b: Block, ids: set<nat>)
    requires blocks.Keys <= ids && id in ids
    ensures blocks[id := b].Keys == blocks.Keys + {id} && |blocks[id := b]| <= |ids|
  {
    assert blocks[id := b].Keys == blocks.Keys + {id};
    SubsetSize(blocks[id := b].Keys, ids);
  }

  lemma ItemWithin(f: Sent, s: State, ids: set<nat>, started: bool, it: Input)
    requires Within(f, s, ids, started) && Roomy(f, ids) && it.Item? && ItemOk(f.n, f.k, it) && it.blk in ids
    ensures Within(f, StepItem(f.n, f.k, s, it).0, ids, started || it.blk == f.blk)
  {
    hide Held, BlockOk, StoreIn, PadBytes, FreshBlock, ItemOk, Create, Room;
    if it.blk !in s.blocks { CreateKeepsAll(f, s, ids, started, it); }
  }

  lemma StepWithin(f: Sent, s: State, ids: set<nat>, started: bool, e: Event)
    requires f.Ok() && Within(f, s, ids, started) && Roomy(f, ids) && e.Packet? && Named(f, [e]) <= ids
    ensures Within(f, Next(f, s, e).0, ids, started || Ours(f, e))
    ensures s.bytes + f.Width() <= MAX_BYTES
  {
    hide Classify, Valid, StepItem, Room;
    WithinBytes(f, s, ids, started);
    SubsetSize(s.blocks.Keys, ids);
    RoomGrows(|s.blocks|, |ids|, f.n);
    WidestBounds(f.frames);
    assert e in [e];
    var it := Classify(f.n, f.k, f.key, e.pkt);
    if it.Item? {
      ClassifyOk(f, e);
      assert it.blk in Named(f, [e]);
      ItemWithin(f, s, ids, started, it);
    }
  }

  lemma ClassifyOk(f: Sent, e: Event)
    requires e.Packet?
    ensures var it := Classify(f.n, f.k, f.key, e.pkt); it.Item? ==> ItemOk(f.n, f.k, it)
  {
  }

  /** A decoder whose packets name few enough blocks keeps every one of them. */
  lemma {:induction false} FewKept(f: Sent, s: State, ids: set<nat>, events: seq<Event>, started: bool)
    requires f.Ok() && Within(f, s, ids, started) && Roomy(f, ids) && Named(f, events) <= ids
    requires forall e :: e in events ==> e.Packet? && Genuine(f, e)
    ensures Kept(f, s, events, started)
    decreases |events|
  {
    hide Classify, Valid, Roomy, Sent.Emitted;
    if events != [] {
      var e := events[0];
      assert Named(f, [e]) <= Named(f, events) && Named(f, events[1..]) <= Named(f, events);
      StepWithin(f, s, ids, started, e);
      FewKept(f, Next(f, s, e).0, ids, events[1..], started || Ours(f, e));
    }
  }

  /**
   A fresh decoder, no reset, and packets, of this block and of others, that name few enough
   block numbers: count distinct packets of the block are all it takes.
   */
  lemma FewBlocksDelivered(f: Sent, events: seq<Event>)
    requires f.Ok() && forall e :: e in events ==> e.Packet? && Genuine(f, e)
    requires Roomy(f, Named(f, events) + {f.blk})
    ensures Valid(f.n, f.k, START)
    ensures |PacketsIn(f, events)| >= f.Count() ==> multiset(OutFor(f, START, events)) == multiset(f.frames)
  {
    hide OutFor, Kept, Sent.Emitted, Roomy, Named;
    StartValid(f.n, f.k);
    FewKept(f, START, Named(f, events) + {f.blk}, events, false);
    BlockDelivered(f, START, events);
  }

  /** Sixteen block numbers are always few enough. */
  lemma SixteenFit(f: Sent, ids: set<nat>)
    requires f.Ok() && |ids| <= 16
    ensures Roomy(f, ids)
  {
    assert f.n <= 255;
    RoomGrows(|ids|, 16, f.n);
  }

  /** With no other traffic the only thing left to ask for is enough distinct packets. */
  lemma LoneBlockDelivered(f: Sent, events: seq<Event>)
    requires f.Ok() && forall e :: e in events ==> e.Packet? && e.pkt in f.Emitted()
    ensures Valid(f.n, f.k, START)
    ensures |PacketsIn(f, events)| >= f.Count() ==> multiset(OutFor(f, START, events)) == multiset(f.frames)
  {
    hide OutFor, Kept, Sent.Emitted, Roomy, PacketsIn;
    forall e | e in events ensures Genuine(f, e) && Named(f, [e]) <= {f.blk} { EmittedNames(f, e); }
    NamedWithin(f, events, {f.blk});
    assert Named(f, events) + {f.blk} == {f.blk};
    SixteenFit(f, {f.blk});
    FewBlocksDelivered(f, events);
  }

  lemma EmittedNames(f: Sent, e: Event)
    requires f.Ok() && e.Packet? && e.pkt in f.Emitted()
    ensures Genuine(f, e) && Named(f, [e]) <= {f.blk}
  {
    hide Sent.Emitted, Classify;
    var p :| 0 <= p < |f.Emitted()| && e.pkt == f.Emitted()[p];
    EmittedParses(f, p);
  }

  lemma NamedWithin(f: Sent, events: seq<Event>, ids: set<nat>)
    requires forall e :: e in events ==> Named(f, [e]) <= ids
    ensures Named(f, events) <= ids
  {
    hide Classify;
    forall id | id in Named(f, events) ensures id in ids {
      var e :| e in events && e.Packet? && Classify(f.n, f.k, f.key, e.pkt).Item? && Classify(f.n, f.k, f.key, e.pkt).blk == id;
      assert e in [e];
      assert id in Named(f, [e]);
    }
  }

  // ----- how much loss a block survives

  /**
   e parity packets are the fewest that keep the ratio of the code, k for every n frames;
   in particular a code with parity sends at least one, and a full block gets all k.
   */
  predicate LeastParity(n: nat, k: nat, count: nat, e: int) {
    && e >= 0 && e * n >= k * count && (e >= 1 ==> (e - 1) * n < k * count)
    && (k >= 1 && count >= 1 ==> e >= 1) && (count == n ==> e == k)
  }

  lemma KEffLeast(n: nat, k: nat, count: nat)
    requires n >= 1
    ensures LeastParity(n, k, count, (k * count + n - 1) / n)
  {
    var e := (k * count + n - 1) / n;
    assert e * n <= k * count + n - 1 < e * n + n;
    assert (e - 1) * n == e * n - n;
    if e == 0 { assert e * n == 0; }
    if k >= 1 && count >= 1 { assert k * count >= 1; }
    if count == n { FullParity(n, k, e); }
  }

  lemma FullParity(n: nat, k: nat, e: nat)
    requires n >= 1 && e * n <= k * n + n - 1 < e * n + n
    ensures e == k
  {
    assert (k + 1) * n == k * n + n && (e + 1) * n == e * n + n;
    LessFactor(e, k + 1, n);
    LessFactor(k, e + 1, n);
  }

  /** Packets at different places of a batch differ. */
  lemma EmittedApart(f: Sent)
    requires f.Ok()
    ensures Distinct(f.Emitted())
  {
    hide Sent.Emitted, Classify, CodeShard;
    forall p, q | 0 <= p < q < |f.Emitted()| ensures f.Emitted()[p] != f.Emitted()[q] {
      EmittedParses(f, p);
      EmittedParses(f, q);
    }
  }

  /**
   A block the decoder keeps survives the loss of any k * count / n of its packets,
   rounded up: whichever they are, every frame is handed out exactly once.
   */
  lemma SurvivesLoss(f: Sent, s: State, events: seq<Event>, lost: set<Row>)
    requires f.Ok() && Valid(f.n, f.k, s) && Kept(f, s, events, false)
    requires (|lost| - 1) * f.n < f.k * f.Count()
    requires forall p :: p in f.Emitted() ==> p in lost || p in PacketsIn(f, events)
    ensures multiset(OutFor(f, s, events)) == multiset(f.frames)
  {
    hide Kept, OutFor, PacketsIn, Valid, Sent.Ok;
    EmittedApart(f);
    FewLost(f.Emitted(), PacketsIn(f, events), lost);
    ShapePositive(f);
    LossFits(f.n, f.k, f.Count(), |lost|);
    BlockDelivered(f, s, events);
  }

  lemma ShapePositive(f: Sent)
    requires f.Ok()
    ensures f.n >= 1
  {
  }

  lemma FewLost(all: seq<Row>, here: set<Row>, lost: set<Row>)
    requires Distinct(all) && forall p :: p in all ==> p in lost || p in here
    ensures |here| >= |all| - |lost|
  {
    DistinctSize(all);
    SubsetSize((set p | p in all), here + lost);
  }

  lemma LossFits(n: nat, k: nat, count: nat, lost: nat)
    requires n >= 1 && (lost - 1) * n < k * count
    ensures lost <= (k * count + n - 1) / n
  {
    var e := (k * count + n - 1) / n;
    KEffLeast(n, k, count);
    if lost >= 1 { LessFactor(lost - 1, e, n); }
  }

  /** The shards of a block are as wide as its longest frame needs. */
  lemma {:induction false} WidthAttained(frames: seq<Row>)
    requires frames != []
    ensures exists i :: 0 <= i < |frames| && Widest(frames) == 2 + |frames[i]|
  {
    var n := |frames| - 1;
    if n == 0 || 2 + |frames[n]| > Widest(frames[..n]) {
      assert Widest(frames) == 2 + |frames[n]|;
    } else {
      WidthAttained(frames[..n]);
      var i :| 0 <= i < n && Widest(frames[..n]) == 2 + |frames[..n][i]|;
      assert frames[..n][i] == frames[i];
    }
  }

  /** The header of a packet of the block, unmasked. */
  ghost predicate Headed(f: Sent, pkt: Row, typ: nat, idx: nat) {
    |pkt| >= 11 &&
    var h := Unmasked(f.key, pkt);
    && ByteVal(h[0]) == typ && Spells(h[1..5], f.blk, 4) && ByteVal(h[5]) == idx && ByteVal(h[6]) == f.n
    && ByteVal(h[7]) == f.k && ByteVal(h[8]) == |f.frames| && Spells(h[9..11], Widest(f.frames), 2)
  }

  /** What goes out for a block: its frames in order as type 1, then parity rows 0, 1 and so on as type 2. */
  lemma EmittedLayout(f: Sent, p: nat)
    requires f.Ok() && p < |f.Emitted()|
    ensures if p < |f.frames| then Headed(f, f.Emitted()[p], 1, p) && f.Emitted()[p][11..] == Framed(f.frames[p])
            else Headed(f, f.Emitted()[p], 2, p - |f.frames|)
  {
    hide Headed, Framed, Sent.DataPacket, Sent.ParityPacket, Sent.Ok;
    if p < f.Count() {
      DataLayout(f, p);
    } else {
      ParityLayout(f, p - f.Count());
    }
  }

  lemma DataLayout(f: Sent, i: nat)
    requires f.Ok() && i < f.Count()
    ensures Headed(f, f.DataPacket(i), 1, i) && f.DataPacket(i)[11..] == Framed(f.frames[i])
  {
    hide PutHdr, Unmasked, Framed, Spells;
    WidestBounds(f.frames);
    HeaderLayout(f.key, f.Hdr(TYPE_DATA, i), Framed(f.frames[i]));
  }

  lemma ParityLayout(f: Sent, i: nat)
    requires f.Ok() && i < f.KEff()
    ensures Headed(f, f.ParityPacket(i), 2, i)
  {
    hide PutHdr, Unmasked, Framed, Spells, Sent.KEff, EncodeBlock, Sent.Rows;
    WidestBounds(f.frames);
    KEffBound(f.n, f.k, f.Count());
    KEffIs(f);
    HeaderLayout(f.key, f.Hdr(TYPE_PARITY, i), EncodeBlock(f.n, f.k, f.Rows(), f.Width())[i]);
  }

  lemma KEffIs(f: Sent)
    requires f.Ok()
    ensures f.KEff() == (f.k * f.Count() + f.n - 1) / f.n
  {
  }
}
