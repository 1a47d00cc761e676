/**
 The wire form of the erasure-coding layer of internal/packet/fec_stream.go: an
 eleven byte header masked by a keyed function of the first sixteen body bytes,
 and the two byte length that prefixes a frame inside its shard.
 */
module FecHeader {
  import opened Gf256
  import opened GaussJordan
  import opened Octets
  import opened Wire

  const HDR_LEN := 11
  const TYPE_PASS := 0
  const TYPE_DATA := 1
  const TYPE_PARITY := 2

  /** The block cipher of the header mask: any function of a sixteen byte block. */
  type Mask = Row -> Row

  datatype Header = Header(typ: nat, blk: nat, idx: nat, n: nat, k: nat, count: nat, shardLen: nat)
  datatype Parsed = Short | Parsed(h: Header, body: Row)

  predicate Fits(h: Header) {
    h.typ < 256 && h.blk < 0x1_0000_0000 && h.idx < 256 && h.n < 256 && h.k < 256 && h.count < 256
    && h.shardLen < 0x1_0000
  }

  // ----- bytes and octets

  /** The octets of module Wire as bytes of the field. */
  function ToBytes(o: Bytes): (r: Row)
    ensures |r| == |o|
  {
    seq(|o|, i requires 0 <= i < |o| => ByteOf(o[i]))
  }

  function ToOctets(r: Row): (o: Bytes)
    ensures |o| == |r|
  {
    seq(|r|, i requires 0 <= i < |r| => ByteVal(r[i]))
  }

  lemma OctetsBack(o: Bytes)
    ensures ToOctets(ToBytes(o)) == o
  {
    hide ByteVal, ByteOf;
    forall i | 0 <= i < |o| ensures ToOctets(ToBytes(o))[i] == o[i] { Value(o[i]); }
  }

  lemma Value(x: nat)
    requires x < 256
    ensures ByteVal(ByteOf(x)) == x
  {
  }

  /** An unsigned field of n big-endian bytes. */
  function PutField(x: nat, n: nat): (r: Row)
    ensures |r| == n
  {
    ToBytes(PutBe(x, n))
  }

  function GetField(r: Row): (x: nat) {
    GetBe(ToOctets(r))
  }

  lemma FieldBack(x: nat, n: nat)
    requires FitsBe(x, n)
    ensures |PutField(x, n)| == n && GetField(PutField(x, n)) == x
  {
    hide PutBe, GetBe, FitsBe, ToBytes, ToOctets;
    OctetsBack(PutBe(x, n));
    BeRoundTrip(x, n);
  }

  lemma FieldBelow(r: Row)
    ensures |r| == 2 ==> GetField(r) < 0x1_0000
    ensures |r| == 4 ==> GetField(r) < 0x1_0000_0000
  {
    hide ToOctets, ByteVal;
    OctetsSize(r);
    if |r| == 4 { FourOctets(ToOctets(r)); }
    if |r| == 2 { TwoOctets(ToOctets(r)); }
  }

  lemma OctetsSize(r: Row)
    ensures |ToOctets(r)| == |r|
  {
  }

  // ----- the header

  function Plain(h: Header): (p: Row)
    requires Fits(h)
    ensures |p| == HDR_LEN
  {
    [ByteOf(h.typ)] + PutField(h.blk, 4) + [ByteOf(h.idx), ByteOf(h.n), ByteOf(h.k), ByteOf(h.count)] + PutField(h.shardLen, 2)
  }

  function Fields(p: Row): (h: Header)
    requires |p| == HDR_LEN
    ensures Fits(h)
  {
    FieldBelow(p[1..5]);
    FieldBelow(p[9..11]);
    Header(ByteVal(p[0]), GetField(p[1..5]),
           ByteVal(p[5]), ByteVal(p[6]), ByteVal(p[7]), ByteVal(p[8]), GetField(p[9..11]))
  }

  lemma FieldsOfPlain(h: Header)
    requires Fits(h)
    ensures Fields(Plain(h)) == h
  {
    hide ByteVal, ByteOf, PutField, GetField, FitsBe;
    FitsFour(h.blk);
    FieldBack(h.blk, 4);
    FitsTwo(h.shardLen);
    FieldBack(h.shardLen, 2);
    Value(h.typ);
    Value(h.idx);
    Value(h.n);
    Value(h.k);
    Value(h.count);
    var p := Plain(h);
    assert p[1..5] == PutField(h.blk, 4) && p[9..11] == PutField(h.shardLen, 2);
  }

  /** The first sixteen body bytes, padded with zeros: what the mask is computed from. */
  function MaskBlock(body: Row): (b: Row)
    ensures |b| == 16
  {
    seq(16, i => if 0 <= i < |body| then body[i] else 0)
  }

  function ApplyMask(key: Mask, hdr: Row, body: Row): (r: Row)
    ensures |r| == |hdr|
  {
    seq(|hdr|, i requires 0 <= i < |hdr| => Add(hdr[i], At(key(MaskBlock(body)), i)))
  }

  function PutHdr(key: Mask, h: Header, body: Row): (pkt: Row)
    requires Fits(h)
    ensures |pkt| == HDR_LEN + |body|
  {
    ApplyMask(key, Plain(h), body) + body
  }

  function ReadHdr(key: Mask, pkt: Row): (r: Parsed)
    ensures r.Parsed? ==> Fits(r.h)
  {
    if |pkt| < HDR_LEN then Short
    else Parsed(Fields(ApplyMask(key, pkt[..HDR_LEN], pkt[HDR_LEN..])), pkt[HDR_LEN..])
  }

  /** Reading undoes writing, whatever the mask. */
  lemma HeaderRoundTrip(key: Mask, h: Header, body: Row)
    requires Fits(h)
    ensures ReadHdr(key, PutHdr(key, h, body)) == Parsed(h, body)
  {
    hide Plain, Fields, Add;
    var pkt := PutHdr(key, h, body);
    assert pkt[HDR_LEN..] == body;
    var masked := ApplyMask(key, Plain(h), body);
    assert pkt[..HDR_LEN] == masked;
    forall i | 0 <= i < HDR_LEN ensures ApplyMask(key, masked, body)[i] == Plain(h)[i] {
      AddCancel(Plain(h)[i], At(key(MaskBlock(body)), i));
    }
    assert ApplyMask(key, masked, body) == Plain(h);
    FieldsOfPlain(h);
  }

  // ----- frames inside shards

  /** A frame behind its two byte length, as addData stores it. */
  function Framed(frame: Row): (s: Row)
    requires |frame| < 0x1_0000
    ensures |s| == 2 + |frame|
  {
    PutField(|frame|, 2) + frame
  }

  /** What deliverShard hands out for a shard: at most one frame. */
  function Unframed(s: Row): (d: seq<Row>)
    ensures |d| <= 1
  {
    if |s| < 2 then []
    else
      var ln := GetField(s[..2]);
      if 2 + ln <= |s| then [s[2..2 + ln]] else []
  }

  function Pad(s: Row, w: nat): (r: Row)
    requires |s| <= w
    ensures |r| == w
  {
    s + seq(w - |s|, _ => 0)
  }

  /** Zero padding up to the shard length does not disturb the frame. */
  lemma PaddedFrame(frame: Row, w: nat)
    requires |frame| + 2 <= w && |frame| < 0x1_0000
    ensures Unframed(Framed(frame)) == [frame]
    ensures Unframed(Pad(Framed(frame), w)) == [frame]
  {
    hide PutField, GetField, FitsBe;
    FitsTwo(|frame|);
    FieldBack(|frame|, 2);
    var s := Pad(Framed(frame), w);
    assert s[..2] == PutField(|frame|, 2) == Framed(frame)[..2];
    assert s[2..2 + |frame|] == frame;
    assert Framed(frame)[2..2 + |frame|] == frame;
  }

  // ----- the octets on the wire

  /** A number as its n big-endian bytes. */
  predicate Spells(r: Row, x: nat, n: nat) {
    |r| == n && GetField(r) == x
  }

  /** The cipher's answer to the first sixteen body bytes, or to the body and zeros, added to the header bytes. */
  function Unmasked(key: Mask, pkt: Row): (p: Row)
    requires |pkt| >= 11
    ensures |p| == 11
  {
    var body := pkt[11..];
    var block := if |body| >= 16 then body[..16] else body + seq(16 - |body|, _ => 0);
    seq(11, i requires 0 <= i < 11 => Add(pkt[i], At(key(block), i)))
  }

  /** Unmasked, the header is type, block, index, n, k, count and shard length; then the body follows. */
  lemma HeaderLayout(key: Mask, h: Header, body: Row)
    requires Fits(h)
    ensures var pkt := PutHdr(key, h, body);
            && |pkt| == 11 + |body| && pkt[11..] == body
            && var p := Unmasked(key, pkt);
               && ByteVal(p[0]) == h.typ && Spells(p[1..5], h.blk, 4) && ByteVal(p[5]) == h.idx && ByteVal(p[6]) == h.n
               && ByteVal(p[7]) == h.k && ByteVal(p[8]) == h.count && Spells(p[9..11], h.shardLen, 2)
  {
    hide PutField, GetField, Plain, Fields, Add, ByteVal;
    var pkt := PutHdr(key, h, body);
    assert pkt[11..] == body;
    var block := if |body| >= 16 then body[..16] else body + seq(16 - |body|, _ => 0);
    assert MaskBlock(body) == block;
    var p := Unmasked(key, pkt);
    forall i | 0 <= i < 11 ensures p[i] == Plain(h)[i] { AddCancel(Plain(h)[i], At(key(block), i)); }
    assert p == Plain(h);
    FieldsOfPlain(h);
    FieldsSpelled(p, h);
  }

  lemma FieldsSpelled(p: Row, h: Header)
    requires |p| == 11 && Fields(p) == h
    ensures ByteVal(p[0]) == h.typ && Spells(p[1..5], h.blk, 4) && ByteVal(p[5]) == h.idx && ByteVal(p[6]) == h.n
    ensures ByteVal(p[7]) == h.k && ByteVal(p[8]) == h.count && Spells(p[9..11], h.shardLen, 2)
  {
  }

  /** A frame in its shard: two length bytes, then the frame. */
  lemma FramedLayout(frame: Row)
    requires |frame| < 0x1_0000
    ensures var s := Framed(frame); |s| == 2 + |frame| && Spells(s[..2], |frame|, 2) && s[2..] == frame
  {
    hide PutField, GetField, FitsBe;
    FitsTwo(|frame|);
    FieldBack(|frame|, 2);
    var s := Framed(frame);
    assert s[..2] == PutField(|frame|, 2) && s[2..] == frame;
  }
}
