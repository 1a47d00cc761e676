/**
 The block decoder of internal/packet/fec_stream.go as a state machine: packet
 classification, eager delivery, storing, reconstruction and eviction under a
 block count and a byte budget, with the accounting every step keeps.
 */
module FecDecoder {
  import opened Counting
  import opened GaussJordan
  import opened Generator
  import opened FecHeader

  const KEEP_BLOCKS := 64
  const MAX_BYTES := 0x400_0000
  const MAX_SHARD := 0x4000

  datatype Block = Block(count: nat, shardLen: nat, shards: seq<Shard>, present: nat, bytes: nat,
                         arrival: nat, done: bool, gaveOut: set<nat>)

  datatype State = State(blocks: map<nat, Block>, seqNo: nat, bytes: nat, resetPending: bool)

  datatype Input =
    | Ignored
    | Passed(frame: Row)
    | Item(data: bool, blk: nat, slot: nat, count: nat, shardLen: nat, shard: Row)

  datatype Event = Packet(pkt: Row) | Reset

  // ----- what a packet means

  predicate ItemOk(n: nat, k: nat, it: Input) {
    && it.Item?
    && 1 <= it.count <= n && 2 <= it.shardLen <= MAX_SHARD && it.slot < n + k
    && (if it.data then it.slot < it.count && 2 <= |it.shard| <= it.shardLen
        else n <= it.slot && |it.shard| == it.shardLen)
  }

  function Classify(n: nat, k: nat, key: Mask, pkt: Row): (r: Input)
    ensures r.Item? ==> ItemOk(n, k, r)
  {
    match ReadHdr(key, pkt)
    case Short => Ignored
    case Parsed(h, shard) =>
      if h.typ == TYPE_PASS then
        if h == Header(TYPE_PASS, 0, 0, 0, 0, 0, 0) && |shard| >= 1 then Passed(shard) else Ignored
      else if h.typ != TYPE_DATA && h.typ != TYPE_PARITY then Ignored
      else if h.n != n || h.k != k || h.count < 1 || h.count > n || h.shardLen < 2 || h.shardLen > MAX_SHARD then Ignored
      else if h.typ == TYPE_DATA && (|shard| < 2 || |shard| > h.shardLen) then Ignored
      else if h.typ == TYPE_PARITY && |shard| != h.shardLen then Ignored
      else
        var slot := if h.typ == TYPE_PARITY then n + h.idx else h.idx;
        if slot >= n + k || (h.typ == TYPE_DATA && h.idx >= h.count) then Ignored
        else Item(h.typ == TYPE_DATA, h.blk, slot, h.count, h.shardLen, shard)
  }

  // ----- accounting

  function BlockBytes(b: Block): (n: nat) {
    b.bytes
  }

  ghost function SumBytes(m: map<nat, Block>): (t: nat) {
    MapSum(m, BlockBytes)
  }

  function PadBytes(n: nat, count: nat, shardLen: nat): (p: nat) {
    if count < n then shardLen else 0
  }

  function Zeros(w: nat): (z: Row)
    ensures |z| == w
  {
    seq(w, _ => 0)
  }

  ghost predicate BlockOk(n: nat, k: nat, b: Block) {
    && 1 <= b.count <= n && 2 <= b.shardLen <= MAX_SHARD && |b.shards| == n + k
    && (forall i :: 0 <= i < n + k && b.shards[i].Here? ==> |b.shards[i].bytes| == b.shardLen)
    && (forall i :: b.count <= i < n ==> b.shards[i] == Here(Zeros(b.shardLen)))
    && b.present == CountHere(b.shards) && n - b.count <= b.present <= n
    && b.bytes == PadBytes(n, b.count, b.shardLen) + (b.present - (n - b.count)) * b.shardLen
    && (b.done <==> b.present == n)
  }

  /** The books balance: the byte counter is the sum over the blocks held, each of which is consistent. */
  ghost predicate Held(n: nat, k: nat, s: State) {
    && Shape(n, k)
    && s.bytes == SumBytes(s.blocks)
    && (forall id :: id in s.blocks ==> BlockOk(n, k, s.blocks[id]) && s.blocks[id].arrival < s.seqNo)
    && (forall i, j :: i in s.blocks && j in s.blocks && i != j ==> s.blocks[i].arrival != s.blocks[j].arrival)
  }

  ghost predicate Valid(n: nat, k: nat, s: State) {
    Held(n, k, s) && s.bytes <= MAX_BYTES && |s.blocks| <= KEEP_BLOCKS
  }

  // ----- eviction

  ghost predicate IsOldest(blocks: map<nat, Block>, id: nat) {
    id in blocks && forall j :: j in blocks ==> blocks[id].arrival <= blocks[j].arrival
  }

  lemma {:induction false} OldestExists(blocks: map<nat, Block>) returns (id: nat)
    requires blocks != map[]
    ensures IsOldest(blocks, id)
    decreases |blocks|
  {
    var p :| p in blocks;
    if blocks - {p} == map[] {
      id := p;
      assert blocks.Keys - {p} == (blocks - {p}).Keys == {};
      assert blocks.Keys == {p};
    } else {
      var q := OldestExists(blocks - {p});
      id := if blocks[p].arrival < blocks[q].arrival then p else q;
      forall j | j in blocks ensures blocks[id].arrival <= blocks[j].arrival {
        if j != p { assert j in blocks - {p}; }
      }
    }
  }

  ghost function Oldest(blocks: map<nat, Block>): (id: nat)
    requires blocks != map[]
    ensures IsOldest(blocks, id)
  {
    assert exists id :: IsOldest(blocks, id) by { var id := OldestExists(blocks); }
    var id :| IsOldest(blocks, id);
    id
  }

  lemma RemoveKeeps(n: nat, k: nat, s: State, id: nat)
    requires Held(n, k, s) && id in s.blocks
    ensures s.bytes >= s.blocks[id].bytes
    ensures Held(n, k, s.(blocks := s.blocks - {id}, bytes := s.bytes - s.blocks[id].bytes))
    ensures |s.blocks - {id}| == |s.blocks| - 1
  {
    hide BlockOk;
    MapSumRemove(s.blocks, BlockBytes, id);
    var rest := s.blocks - {id};
    assert rest.Keys == s.blocks.Keys - {id};
  }

  lemma OldestIn(blocks: map<nat, Block>)
    requires blocks != map[]
    ensures Oldest(blocks) in blocks
  {
  }

  ghost function EvictOldest(n: nat, k: nat, s: State): (r: State)
    requires Held(n, k, s) && s.blocks != map[]
    ensures Held(n, k, r) && |r.blocks| == |s.blocks| - 1
    ensures r.bytes <= s.bytes && r.seqNo == s.seqNo && r.resetPending == s.resetPending
  {
    hide Held, SumBytes, IsOldest;
    var id := Oldest(s.blocks);
    OldestIn(s.blocks);
    RemoveKeeps(n, k, s, id);
    s.(blocks := s.blocks - {id}, bytes := s.bytes - s.blocks[id].bytes)
  }

  ghost function EvictFor(n: nat, k: nat, s: State, need: nat): (r: State)
    requires Held(n, k, s)
    ensures Held(n, k, r) && r.blocks.Keys <= s.blocks.Keys && |r.blocks| <= |s.blocks|
    ensures forall id :: id in r.blocks ==> r.blocks[id] == s.blocks[id]
    ensures r.seqNo == s.seqNo && r.resetPending == s.resetPending
    ensures need <= MAX_BYTES ==> r.bytes + need <= MAX_BYTES
    decreases |s.blocks|
  {
    hide BlockOk;
    if s.bytes + need > MAX_BYTES && s.blocks != map[] then EvictFor(n, k, EvictOldest(n, k, s), need) else s
  }

  ghost function EvictExtra(n: nat, k: nat, s: State): (r: State)
    requires Held(n, k, s)
    ensures Held(n, k, r) && r.blocks.Keys <= s.blocks.Keys
    ensures forall id :: id in r.blocks ==> r.blocks[id] == s.blocks[id]
    ensures |r.blocks| <= KEEP_BLOCKS && r.bytes <= s.bytes
    ensures r.seqNo == s.seqNo && r.resetPending == s.resetPending
    decreases |s.blocks|
  {
    hide BlockOk;
    if |s.blocks| > KEEP_BLOCKS then EvictExtra(n, k, EvictOldest(n, k, s)) else s
  }

  /** r is s without some blocks, all of them older than any block left. */
  ghost predicate OlderGone(s: State, r: State) {
    && r.blocks.Keys <= s.blocks.Keys
    && forall i, j :: i in s.blocks && i !in r.blocks && j in r.blocks ==> s.blocks[i].arrival < s.blocks[j].arrival
  }

  lemma OldestGone(n: nat, k: nat, s: State)
    requires Held(n, k, s) && s.blocks != map[]
    ensures var r := EvictOldest(n, k, s);
            && OlderGone(s, r) && (forall id :: id in r.blocks ==> r.blocks[id] == s.blocks[id])
            && exists id :: id in s.blocks && id !in r.blocks && r.bytes + s.blocks[id].bytes == s.bytes
  {
    hide Held, SumBytes;
    OldestIn(s.blocks);
    var id := Oldest(s.blocks);
    RemoveKeeps(n, k, s, id);
    assert IsOldest(s.blocks, id);
    ArrivalsApart(n, k, s);
  }

  lemma ArrivalsApart(n: nat, k: nat, s: State)
    requires Held(n, k, s)
    ensures forall i, j :: i in s.blocks && j in s.blocks && i != j ==> s.blocks[i].arrival != s.blocks[j].arrival
  {
    hide BlockOk, SumBytes;
  }

  /** Only the oldest blocks go to make room, and the last of them only because it was needed. */
  lemma {:induction false} EvictsLeast(n: nat, k: nat, s: State, need: nat)
    requires Held(n, k, s)
    ensures var r := EvictFor(n, k, s, need);
            && OlderGone(s, r)
            && (r == s || exists id :: id in s.blocks && id !in r.blocks && r.bytes + s.blocks[id].bytes + need > 0x400_0000)
    decreases |s.blocks|
  {
    hide Held, BlockOk, SumBytes, EvictOldest;
    if s.bytes + need > MAX_BYTES && s.blocks != map[] {
      OldestGone(n, k, s);
      EvictsLeast(n, k, EvictOldest(n, k, s), need);
    }
  }

  /** Evicting down to the limit never takes the newest block. */
  lemma {:induction false} NewestSurvives(n: nat, k: nat, s: State, id: nat)
    requires Held(n, k, s) && id in s.blocks
    requires forall j :: j in s.blocks && j != id ==> s.blocks[j].arrival < s.blocks[id].arrival
    ensures id in EvictExtra(n, k, s).blocks
    decreases |s.blocks|
  {
    hide Held, BlockOk, SumBytes;
    if |s.blocks| > KEEP_BLOCKS {
      var oldest := Oldest(s.blocks);
      if oldest == id {
        forall j | j in s.blocks ensures j == id { assert s.blocks[id].arrival <= s.blocks[j].arrival; }
      }
      NewestSurvives(n, k, EvictOldest(n, k, s), id);
    }
  }

  // ----- storing a shard

  /** The frames a finished block still owes: the data shards that never arrived. */
  ghost function Leftover(b: Block, data: Matrix, i: nat): (d: seq<Row>)
    requires b.count <= |data| && b.count <= |b.shards|
    decreases b.count - i
  {
    if i >= b.count then []
    else (if b.shards[i].Here? || i in b.gaveOut then [] else Unframed(data[i])) + Leftover(b, data, i + 1)
  }

  lemma {:induction false} CountSet(shards: seq<Shard>, i: nat, row: Row)
    requires i < |shards| && shards[i].Missing?
    ensures CountHere(shards[i := Here(row)]) == CountHere(shards) + 1
  {
    var m := |shards| - 1;
    var after := shards[i := Here(row)];
    if i == m {
      assert after[..m] == shards[..m];
    } else {
      assert after[..m] == shards[..m][i := Here(row)];
      CountSet(shards[..m], i, row);
    }
  }

  /** The block after its shard in the given slot arrived. */
  function Filled(b: Block, slot: nat, kept: Row): (r: Block)
    requires slot < |b.shards|
  {
    b.(shards := b.shards[slot := Here(kept)], present := b.present + 1, bytes := b.bytes + b.shardLen)
  }

  ghost function Finish(n: nat, k: nat, b: Block): (r: (Block, seq<Row>))
    requires Usable(n, k, b.shards, b.shardLen) && b.count <= n
  {
    ReconstructNeverFails(n, k, b.shards, b.shardLen);
    (b.(done := true), Leftover(b, Reconstruct(n, k, b.shards, b.shardLen).data, 0))
  }

  lemma FillKeeps(n: nat, k: nat, b: Block, slot: nat, kept: Row)
    requires Shape(n, k) && BlockOk(n, k, b) && !b.done && slot < n + k && b.shards[slot].Missing?
    requires |kept| == b.shardLen
    ensures var f := Filled(b, slot, kept);
            if f.present < n then BlockOk(n, k, f)
            else Usable(n, k, f.shards, f.shardLen) && BlockOk(n, k, f.(done := true))
  {
    hide CountHere, Zeros;
    CountSet(b.shards, slot, kept);
    Distributes(b.present - (n - b.count), b.shardLen);
  }

  lemma Distributes(x: nat, y: nat)
    ensures (x + 1) * y == x * y + y
  {
  }

  /** The effect of a shard on its block: the block after it and the frames handed out. */
  ghost function StoreIn(n: nat, k: nat, b: Block, it: Input, over: bool): (r: (Block, seq<Row>))
    requires Shape(n, k) && BlockOk(n, k, b) && ItemOk(n, k, it)
    requires b.count == it.count && b.shardLen == it.shardLen
    ensures BlockOk(n, k, r.0) && r.0.arrival == b.arrival && r.0.count == b.count && r.0.shardLen == b.shardLen
    ensures r.0.bytes == b.bytes || (!over && r.0.bytes == b.bytes + it.shardLen)
  {
    hide CountHere;
    var eager := if it.data then Unframed(it.shard) else [];
    if b.done || b.shards[it.slot].Here? then (b, [])
    else if over then
      if it.data then (b.(gaveOut := b.gaveOut + {it.slot}), eager) else (b, [])
    else
      var kept := Pad(it.shard, it.shardLen);
      var f := Filled(b, it.slot, kept);
      FillKeeps(n, k, b, it.slot, kept);
      if f.present < n then (f, eager)
      else
        var (g, rest) := Finish(n, k, f);
        (g, eager + rest)
  }

  ghost function PutBlock(s: State, id: nat, b: Block): (r: State)
    requires id in s.blocks && s.bytes + b.bytes >= s.blocks[id].bytes
  {
    s.(blocks := s.blocks[id := b], bytes := s.bytes - s.blocks[id].bytes + b.bytes)
  }

  lemma PutKeeps(n: nat, k: nat, s: State, id: nat, b: Block)
    requires Held(n, k, s) && id in s.blocks && BlockOk(n, k, b) && b.arrival == s.blocks[id].arrival
    ensures s.bytes >= s.blocks[id].bytes
    ensures Held(n, k, PutBlock(s, id, b))
  {
    hide BlockOk, MapSum;
    MapSumRemove(s.blocks, BlockBytes, id);
    MapSumPut(s.blocks, BlockBytes, id, b);
  }

  lemma PutSize(s: State, id: nat, b: Block)
    requires id in s.blocks
    ensures s.blocks[id := b].Keys == s.blocks.Keys && |s.blocks[id := b]| == |s.blocks|
  {
    var m := s.blocks[id := b];
    assert m.Keys == s.blocks.Keys;
    assert |m| == |m.Keys| && |s.blocks| == |s.blocks.Keys|;
  }

  /** The rest of the step once the block of the shard is known and matches it. */
  ghost function Store(n: nat, k: nat, s: State, it: Input): (r: (State, seq<Row>))
    requires Valid(n, k, s) && ItemOk(n, k, it) && it.blk in s.blocks
    requires s.blocks[it.blk].count == it.count && s.blocks[it.blk].shardLen == it.shardLen
    ensures Valid(n, k, r.0) && r.0.blocks.Keys == s.blocks.Keys
  {
    hide BlockOk, Held, StoreIn;
    BlockFacts(n, k, s, it.blk);
    var (b, out) := StoreIn(n, k, s.blocks[it.blk], it, s.bytes + it.shardLen > MAX_BYTES);
    PutKeeps(n, k, s, it.blk, b);
    PutSize(s, it.blk, b);
    (PutBlock(s, it.blk, b), out)
  }

  lemma BlockFacts(n: nat, k: nat, s: State, id: nat)
    requires Held(n, k, s) && id in s.blocks
    ensures Shape(n, k) && BlockOk(n, k, s.blocks[id])
  {
  }

  // ----- creating a block

  function FreshShards(n: nat, k: nat, count: nat, shardLen: nat): (s: seq<Shard>)
    ensures |s| == n + k
    ensures forall i :: 0 <= i < n + k ==> s[i] == if count <= i < n then Here(Zeros(shardLen)) else Missing
  {
    seq(n + k, i => if count <= i < n then Here(Zeros(shardLen)) else Missing)
  }

  function FreshBlock(n: nat, k: nat, it: Input, arrival: nat): (b: Block)
    requires ItemOk(n, k, it)
  {
    Block(it.count, it.shardLen, FreshShards(n, k, it.count, it.shardLen), n - it.count,
      PadBytes(n, it.count, it.shardLen), arrival, false, {})
  }

  lemma {:induction false} CountFresh(n: nat, k: nat, count: nat, shardLen: nat, i: nat)
    requires count <= n && i <= n + k
    ensures CountHere(FreshShards(n, k, count, shardLen)[..i]) == if i <= count then 0 else if i <= n then i - count else n - count
  {
    var s := FreshShards(n, k, count, shardLen);
    if i > 0 {
      CountFresh(n, k, count, shardLen, i - 1);
      assert s[..i][..i - 1] == s[..i - 1];
    }
  }

  ghost function Insert(n: nat, k: nat, s: State, it: Input): (r: State)
    requires ItemOk(n, k, it) && it.blk !in s.blocks
  {
    var b := FreshBlock(n, k, it, s.seqNo);
    s.(blocks := s.blocks[it.blk := b], bytes := s.bytes + b.bytes, seqNo := s.seqNo + 1)
  }

  lemma FreshOk(n: nat, k: nat, it: Input, arrival: nat)
    requires Shape(n, k) && ItemOk(n, k, it)
    ensures BlockOk(n, k, FreshBlock(n, k, it, arrival))
  {
    hide CountHere, Zeros;
    FreshCount(n, k, it.count, it.shardLen);
    var b := FreshBlock(n, k, it, arrival);
    assert (b.present - (n - b.count)) * b.shardLen == 0;
  }

  lemma FreshCount(n: nat, k: nat, count: nat, shardLen: nat)
    requires count <= n
    ensures CountHere(FreshShards(n, k, count, shardLen)) == n - count
  {
    var s := FreshShards(n, k, count, shardLen);
    CountFresh(n, k, count, shardLen, n + k);
    assert s[..n + k] == s;
  }

  lemma InsertKeeps(n: nat, k: nat, s: State, it: Input)
    requires Held(n, k, s) && ItemOk(n, k, it) && it.blk !in s.blocks
    ensures Held(n, k, Insert(n, k, s, it))
    ensures it.blk in EvictExtra(n, k, Insert(n, k, s, it)).blocks
  {
    hide BlockOk, EvictExtra, MapSum;
    FreshOk(n, k, it, s.seqNo);
    var r := Insert(n, k, s, it);
    assert s.blocks - {it.blk} == s.blocks;
    MapSumPut(s.blocks, BlockBytes, it.blk, r.blocks[it.blk]);
    NewestSurvives(n, k, r, it.blk);
  }

  // ----- the step

  ghost function Create(n: nat, k: nat, s: State, it: Input): (r: State)
    requires Valid(n, k, s) && ItemOk(n, k, it) && it.blk !in s.blocks
    ensures Valid(n, k, r) && it.blk in r.blocks
    ensures r.blocks[it.blk] == FreshBlock(n, k, it, s.seqNo) && r.seqNo == s.seqNo + 1
    ensures r.bytes + it.shardLen <= MAX_BYTES
    ensures r.blocks.Keys <= s.blocks.Keys + {it.blk} && r.resetPending == s.resetPending
    ensures forall id :: id in r.blocks && id != it.blk ==> r.blocks[id] == s.blocks[id]
  {
    hide Held, BlockOk, SumBytes;
    var s1 := EvictFor(n, k, s, PadBytes(n, it.count, it.shardLen) + it.shardLen);
    InsertKeeps(n, k, s1, it);
    EvictExtra(n, k, Insert(n, k, s1, it))
  }

  ghost function Cleared(s: State): (r: State) {
    if s.resetPending then s.(blocks := map[], bytes := 0, resetPending := false) else s
  }

  /** A data or parity packet, after any pending reset took effect. */
  ghost function StepItem(n: nat, k: nat, s: State, it: Input): (r: (State, seq<Row>))
    requires Valid(n, k, s) && ItemOk(n, k, it)
    ensures Valid(n, k, r.0)
  {
    hide Held, BlockOk;
    ResetKeeps(n, k, s);
    var s0 := Cleared(s);
    if it.blk !in s0.blocks then Store(n, k, Create(n, k, s0, it), it)
    else if s0.blocks[it.blk].count != it.count || s0.blocks[it.blk].shardLen != it.shardLen then
      (s0, if it.data then Unframed(it.shard) else [])
    else Store(n, k, s0, it)
  }

  /** One call of input, or of reset: the new state and the frames handed out. */
  ghost function Step(n: nat, k: nat, key: Mask, s: State, e: Event): (r: (State, seq<Row>))
    requires Valid(n, k, s)
    ensures Valid(n, k, r.0)
  {
    hide Held, BlockOk, Classify;
    ResetKeeps(n, k, s);
    match e
    case Reset => (s.(resetPending := true), [])
    case Packet(pkt) =>
      var it := Classify(n, k, key, pkt);
      if it.Item? then StepItem(n, k, s, it) else (s, if it.Passed? then [it.frame] else [])
  }

  lemma ResetKeeps(n: nat, k: nat, s: State)
    requires Valid(n, k, s)
    ensures Valid(n, k, Cleared(s)) && Valid(n, k, s.(resetPending := true))
  {
  }

  // ----- over every run

  ghost function Run(n: nat, k: nat, key: Mask, s: State, events: seq<Event>): (r: State)
    requires Valid(n, k, s)
    decreases |events|
  {
    if events == [] then s else Run(n, k, key, Step(n, k, key, s, events[0]).0, events[1..])
  }

  /** The state newFecDecoder starts from. */
  const START := State(map[], 0, 0, false)

  lemma StartValid(n: nat, k: nat)
    requires Shape(n, k)
    ensures Valid(n, k, START)
  {
  }

  /**
   After every sequence of packets and resets the byte counter is the sum over the
   held blocks and within the budget, at most 64 blocks are held, and each block's
   present counter is its number of filled slots.
   */
  lemma {:induction false} RunAccounts(n: nat, k: nat, key: Mask, s: State, events: seq<Event>)
    requires Valid(n, k, s)
    ensures var r := Run(n, k, key, s, events);
            && r.bytes == SumBytes(r.blocks) && r.bytes <= 0x400_0000 && |r.blocks| <= 64
            && forall id :: id in r.blocks ==>
                 r.blocks[id].present == CountHere(r.blocks[id].shards) && (r.blocks[id].done <==> r.blocks[id].present == n)
    decreases |events|
  {
    hide Step;
    if events != [] {
      RunAccounts(n, k, key, Step(n, k, key, s, events[0]).0, events[1..]);
    }
  }

  /** A packet of an unknown block creates it, is itself stored, and that block is not the one evicted. */
  lemma NewBlockStored(n: nat, k: nat, key: Mask, s: State, pkt: Row)
    requires Valid(n, k, s) && Classify(n, k, key, pkt).Item?
    requires Classify(n, k, key, pkt).blk !in Cleared(s).blocks
    ensures var it := Classify(n, k, key, pkt);
            var r := Step(n, k, key, s, Packet(pkt)).0;
            && it.blk in r.blocks
            && r.blocks[it.blk].present == n - it.count + 1
            && r.blocks[it.blk].shards[it.slot] == Here(Pad(it.shard, it.shardLen))
  {
    hide Held, BlockOk, CountHere, Usable, Classify, ItemOk, StoreIn, Create, FreshBlock;
    ResetKeeps(n, k, s);
    var it := Classify(n, k, key, pkt);
    ItemFacts(n, k, key, s, pkt);
    FreshStores(n, k, it, Cleared(s).seqNo);
  }

  lemma ItemFacts(n: nat, k: nat, key: Mask, s: State, pkt: Row)
    requires Valid(n, k, s) && Classify(n, k, key, pkt).Item?
    ensures Shape(n, k) && ItemOk(n, k, Classify(n, k, key, pkt))
  {
  }

  /** The first shard of a block is stored beside its padding. */
  lemma FreshStores(n: nat, k: nat, it: Input, arrival: nat)
    requires Shape(n, k) && ItemOk(n, k, it)
    ensures var b := FreshBlock(n, k, it, arrival);
            && BlockOk(n, k, b) && b.count == it.count && b.shardLen == it.shardLen
            && var r := StoreIn(n, k, b, it, false).0;
               r.present == n - it.count + 1 && r.shards[it.slot] == Here(Pad(it.shard, it.shardLen))
  {
    hide BlockOk, CountHere, Usable;
    FreshOk(n, k, it, arrival);
    BlockSize(n, k, FreshBlock(n, k, it, arrival));
  }

  lemma BlockSize(n: nat, k: nat, b: Block)
    requires BlockOk(n, k, b)
    ensures |b.shards| == n + k
  {
  }

  // ----- which packets count

  /** What a header and a body have to agree on to be a data or parity packet of the code. */
  predicate Acceptable(n: nat, k: nat, h: Header, size: nat) {
    && h.n == n && h.k == k && 1 <= h.count <= n && 2 <= h.shardLen <= 16384
    && (if h.typ == 1 then h.idx < h.count && 2 <= size <= h.shardLen else h.typ == 2 && h.idx < k && size == h.shardLen)
  }

  /** Exactly those are taken, each for its slot; parity slots follow the n data slots. */
  lemma ClassifyIs(n: nat, k: nat, key: Mask, h: Header, body: Row)
    requires Shape(n, k) && Fits(h)
    ensures var it := Classify(n, k, key, PutHdr(key, h, body));
            if Acceptable(n, k, h, |body|) then
              it == Item(h.typ == 1, h.blk, if h.typ == 1 then h.idx else n + h.idx, h.count, h.shardLen, body)
            else if h == PASS_HEADER && body != [] then it == Passed(body)
            else it == Ignored
  {
    hide PutHdr, ReadHdr, Fits;
    HeaderRoundTrip(key, h, body);
  }

  // ----- the less common branches

  /** A frame sent on without coding: every header field is zero. */
  const PASS_HEADER := Header(0, 0, 0, 0, 0, 0, 0)

  /** It is handed out as it is, and a pass header with any other field set is ignored. */
  lemma PassThrough(n: nat, k: nat, key: Mask, s: State, h: Header, frame: Row)
    requires Valid(n, k, s) && Fits(h) && h.typ == 0
    ensures Step(n, k, key, s, Packet(PutHdr(key, h, frame))) == (s, if h == PASS_HEADER && frame != [] then [frame] else [])
  {
    hide PutHdr, ReadHdr, Held, Fits;
    HeaderRoundTrip(key, h, frame);
  }

  /** A reset takes effect with the next data or parity packet: the decoder then holds that packet's block alone. */
  lemma ResetForgets(n: nat, k: nat, key: Mask, s: State, pkt: Row)
    requires Valid(n, k, s) && Classify(n, k, key, pkt).Item?
    ensures var it := Classify(n, k, key, pkt);
            var r := Step(n, k, key, Step(n, k, key, s, Reset).0, Packet(pkt)).0;
            && r.blocks.Keys == {it.blk} && !r.resetPending
            && r.blocks[it.blk].present == n - it.count + 1
            && r.blocks[it.blk].shards[it.slot] == Here(Pad(it.shard, it.shardLen))
            && r.bytes == r.blocks[it.blk].bytes
  {
    hide Held, BlockOk, CountHere, Usable, Classify, ItemOk, StoreIn, Create, FreshBlock, Store;
    var it, t := Classify(n, k, key, pkt), Step(n, k, key, s, Reset).0;
    assert Cleared(t).blocks == map[];
    NewBlockStored(n, k, key, t, pkt);
    var r := Step(n, k, key, t, Packet(pkt)).0;
    ItemFacts(n, k, key, t, pkt);
    ResetKeeps(n, k, t);
    FreshShape(n, k, it, Cleared(t).seqNo);
    StoreFlags(n, k, Create(n, k, Cleared(t), it), it);
    OneBlockBytes(n, k, r, it.blk);
  }

  lemma FreshShape(n: nat, k: nat, it: Input, arrival: nat)
    requires ItemOk(n, k, it)
    ensures FreshBlock(n, k, it, arrival).count == it.count && FreshBlock(n, k, it, arrival).shardLen == it.shardLen
  {
  }

  lemma StoreFlags(n: nat, k: nat, s: State, it: Input)
    requires Valid(n, k, s) && ItemOk(n, k, it) && it.blk in s.blocks
    requires s.blocks[it.blk].count == it.count && s.blocks[it.blk].shardLen == it.shardLen
    ensures Store(n, k, s, it).0.resetPending == s.resetPending
  {
    hide BlockOk, Held, StoreIn;
  }

  lemma OneBlockBytes(n: nat, k: nat, s: State, id: nat)
    requires Valid(n, k, s) && s.blocks.Keys == {id}
    ensures s.bytes == s.blocks[id].bytes
  {
    hide BlockOk;
    MapSumRemove(s.blocks, BlockBytes, id);
    assert (s.blocks - {id}).Keys == {};
    assert s.blocks - {id} == map[];
  }

  /** A shard that contradicts its block changes nothing; its frame, if it is data, is handed out at once. */
  lemma MismatchDelivers(n: nat, k: nat, s: State, it: Input)
    requires Valid(n, k, s) && ItemOk(n, k, it) && !s.resetPending && it.blk in s.blocks
    requires s.blocks[it.blk].count != it.count || s.blocks[it.blk].shardLen != it.shardLen
    ensures StepItem(n, k, s, it) == (s, if it.data then Unframed(it.shard) else [])
  {
    hide Held, BlockOk;
  }

  /**
   A missing shard of an unfinished block for which the byte budget has no room is not kept. The
   frame of a data shard is handed out, and not again when the block completes.
   */
  lemma OverBudget(n: nat, k: nat, s: State, it: Input)
    requires Valid(n, k, s) && ItemOk(n, k, it) && !s.resetPending && it.blk in s.blocks
    requires s.blocks[it.blk].count == it.count && s.blocks[it.blk].shardLen == it.shardLen
    requires s.bytes + it.shardLen > 0x400_0000
    requires !s.blocks[it.blk].done && it.slot < |s.blocks[it.blk].shards| && s.blocks[it.blk].shards[it.slot].Missing?
    ensures var (r, out) := StepItem(n, k, s, it);
            var b := s.blocks[it.blk];
            && out == (if it.data then Unframed(it.shard) else []) && r.bytes == s.bytes
            && r.blocks == s.blocks[it.blk := if it.data then b.(gaveOut := b.gaveOut + {it.slot}) else b]
  {
    hide Held, BlockOk, CountHere;
    BlockFacts(n, k, s, it.blk);
  }

  /** So a data packet that comes again while there is still no room hands its frame out again. */
  lemma OverBudgetRepeats(n: nat, k: nat, s: State, it: Input)
    requires Valid(n, k, s) && ItemOk(n, k, it) && it.data && !s.resetPending && it.blk in s.blocks
    requires s.blocks[it.blk].count == it.count && s.blocks[it.blk].shardLen == it.shardLen
    requires s.bytes + it.shardLen > 0x400_0000
    requires !s.blocks[it.blk].done && it.slot < |s.blocks[it.blk].shards| && s.blocks[it.blk].shards[it.slot].Missing?
    ensures var (t, first) := StepItem(n, k, s, it);
            first == Unframed(it.shard) == StepItem(n, k, t, it).1
  {
    hide Valid, StepItem, ItemOk, Unframed;
    OverBudget(n, k, s, it);
    StepFlags(n, k, s, it);
    OverBudget(n, k, StepItem(n, k, s, it).0, it);
  }

  lemma StepFlags(n: nat, k: nat, s: State, it: Input)
    requires Valid(n, k, s) && ItemOk(n, k, it) && !s.resetPending && it.blk in s.blocks
    requires s.blocks[it.blk].count == it.count && s.blocks[it.blk].shardLen == it.shardLen
    ensures !StepItem(n, k, s, it).0.resetPending
  {
    hide Held, BlockOk, Store;
    StoreFlags(n, k, s, it);
  }

  /** A frame given out early is exactly what the finished block then leaves out. */
  lemma {:induction false} LeftoverLess(b: Block, data: Matrix, i: nat, j: nat, x: Row)
    requires b.count <= |data| && b.count <= |b.shards| && i <= b.count
    requires j < b.count && b.shards[j].Missing? && j !in b.gaveOut
    ensures var c := b.(gaveOut := b.gaveOut + {j});
            Times(Leftover(b, data, i), x) == Times(Leftover(c, data, i), x) + if i <= j then Times(Unframed(data[j]), x) else 0
    decreases b.count - i
  {
    hide Unframed, Times;
    if i < b.count {
      var c := b.(gaveOut := b.gaveOut + {j});
      LeftoverLess(b, data, i + 1, j, x);
      var own, theirs := Leftover(b, data, i + 1), Leftover(c, data, i + 1);
      TimesAppend(Unframed(data[i]), own, x);
      TimesAppend(Unframed(data[i]), theirs, x);
      assert [] + own == own && [] + theirs == theirs;
    }
  }
}
