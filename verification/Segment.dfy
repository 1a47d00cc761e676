/**
 Cutting a super-packet into segments, as internal/tun/offload_linux.go does
 it: what load decides, what each call of next writes, and what the segments
 together conserve.
 */
module Segment {
  import opened Arith
  import opened Csum
  import opened Octets
  import opened Wire

  const TCP := 6
  const UDP := 17

  datatype L4 = NoL4 | L4(off: nat, proto: nat)

  /** Walks the IPv6 extension headers from off on. */
  function V6Walk(pkt: Bytes, next: nat, off: nat): (r: L4)
    ensures r.L4? ==> off <= r.off <= |pkt|
    decreases |pkt| - off
  {
    if next == 0 || next == 43 || next == 60 then
      if off + 2 > |pkt| then NoL4 else V6Walk(pkt, pkt[off], off + (pkt[off + 1] as int + 1) * 8)
    else if next == 44 then
      if off + 8 > |pkt| then NoL4 else V6Walk(pkt, pkt[off], off + 8)
    else if off > |pkt| then NoL4
    else L4(off, next)
  }

  /** ipv6L4Offset: where the transport header starts and which it is. */
  function V6L4(pkt: Bytes): (r: L4)
    ensures r.L4? ==> 40 <= r.off <= |pkt|
  {
    if |pkt| < 40 then NoL4 else V6Walk(pkt, pkt[6], 40)
  }

  /** The walk only reads the headers it passes over. */
  lemma {:induction false} V6WalkPrefix(a: Bytes, b: Bytes, next: nat, off: nat)
    requires V6Walk(a, next, off).L4? && V6Walk(a, next, off).off <= |b|
    requires forall k :: off <= k < V6Walk(a, next, off).off ==> a[k] == b[k]
    ensures V6Walk(b, next, off) == V6Walk(a, next, off)
    decreases |a| - off
  {
    if next == 0 || next == 43 || next == 60 {
      V6WalkPrefix(a, b, a[off], off + (a[off + 1] as int + 1) * 8);
    } else if next == 44 {
      V6WalkPrefix(a, b, a[off], off + 8);
    }
  }

  lemma V6L4Prefix(a: Bytes, b: Bytes)
    requires V6L4(a).L4? && V6L4(a).off <= |b|
    requires forall k :: 6 <= k < V6L4(a).off ==> a[k] == b[k]
    ensures V6L4(b) == V6L4(a)
  {
    V6WalkPrefix(a, b, a[6], 40);
  }

  // ----- load

  datatype Plan =
    | Whole
    | Plan(v6: bool, isTCP: bool, ipHdr: nat, l4Hdr: nat, gso: nat, baseSeq: nat, flags: Octet, baseID: nat)
  {
    function HdrLen(): (h: nat)
      requires Plan?
    {
      ipHdr + l4Hdr
    }

    function Proto(): (p: nat)
      requires Plan?
    {
      if isTCP then TCP else UDP
    }
  }

  function V6(pkt: Bytes): (v6: bool)
    requires |pkt| >= 1
  {
    pkt[0] / 16 == 6
  }

  /** plan: Whole when the packet cannot be cut. */
  function MakePlan(pkt: Bytes, isTCP: bool, gsoSize: int): (p: Plan)
    requires |pkt| >= 1
    ensures p.Plan? ==> p.HdrLen() < |pkt| && p.gso > 0 && p.ipHdr + 8 <= |pkt| && p.l4Hdr >= 8 && (isTCP ==> p.l4Hdr >= 20)
  {
    var v6 := V6(pkt);
    var l4 := V6L4(pkt);
    if v6 && (l4.NoL4? || l4.proto != (if isTCP then TCP else UDP)) then Whole
    else
      var ipHdr := if v6 then l4.off else (pkt[0] % 16) * 4;
      var minL4 := if isTCP then 20 else 8;
      if |pkt| < ipHdr + minL4 then Whole
      else
        var l4Hdr := if isTCP then (pkt[ipHdr + 12] / 16) * 4 else 8;
        if (isTCP && l4Hdr < 20) || |pkt| <= ipHdr + l4Hdr || gsoSize <= 0 then Whole
        else Plan(v6, isTCP, ipHdr, l4Hdr, gsoSize,
                  if isTCP then Get32(pkt, ipHdr + 4) else 0,
                  if isTCP then pkt[ipHdr + 13] else 0,
                  if v6 then 0 else Get16(pkt, 4))
  }

  const GSO_TCPV4 := 1
  const GSO_TCPV6 := 4
  const GSO_UDP := 5

  /** load: the GSO type, with the ECN bit cleared, decides the protocol. */
  function Load(pkt: Bytes, gsoSize: int, gsoType: nat): (p: Plan)
    requires |pkt| >= 1
  {
    var kind := if gsoType / 128 % 2 == 1 then gsoType - 128 else gsoType;
    if kind == GSO_TCPV4 || kind == GSO_TCPV6 then MakePlan(pkt, true, gsoSize)
    else if kind == GSO_UDP then MakePlan(pkt, false, gsoSize)
    else Whole
  }

  // ----- next

  /** A plan whose headers next can rewrite: an IPv4 header holds at least its fixed part. */
  predicate Cuttable(pkt: Bytes, p: Plan) {
    && p.Plan? && p.HdrLen() < |pkt| && p.gso > 0
    && (if p.v6 then p.ipHdr >= 40 else 20 <= p.ipHdr <= 60)
    && p.ipHdr % 4 == 0
    && (if p.isTCP then p.l4Hdr >= 20 else p.l4Hdr == 8)
    && p.baseSeq < 0x1_0000_0000 && p.baseID < 0x1_0000
  }

  function Payload(pkt: Bytes, p: Plan): (b: Bytes)
    requires Cuttable(pkt, p)
    ensures |b| == |pkt| - p.HdrLen() > 0
  {
    pkt[p.HdrLen()..]
  }

  /** The number of segments load announces for a payload of size octets. */
  function Segs(size: nat, gso: nat): (n: nat)
    requires gso > 0
  {
    (size + gso - 1) / gso
  }

  function End(pkt: Bytes, p: Plan, off: nat): (e: nat)
    requires Cuttable(pkt, p)
  {
    if off + p.gso > |Payload(pkt, p)| then |Payload(pkt, p)| else off + p.gso
  }

  /** f &^ 0x09: FIN and PSH cleared. */
  function ClearFinPsh(f: Octet): (r: Octet)
    ensures r % 2 == 0 && r / 8 % 2 == 0
  {
    f - f % 2 - 8 * (f / 8 % 2)
  }

  /** The IPv4 length and ID of a segment. */
  function IpFields(seg: Bytes, p: Plan, i: nat): (r: Bytes)
    requires p.Plan? && |seg| >= 20
    ensures |r| == |seg| && r[0] == seg[0]
  {
    Splice(Splice(seg, 2, Put16(|seg| % 0x1_0000)), 4, Put16((p.baseID + i) % 0x1_0000))
  }

  /** The IP header of a segment: length, ID and header checksum, or the IPv6 payload length. */
  function IpDone(seg: Bytes, p: Plan, i: nat, chunk: nat): (r: Bytes)
    requires p.Plan? && |seg| == p.HdrLen() + chunk && (if p.v6 then p.ipHdr >= 40 else p.ipHdr >= 20)
    ensures |r| == |seg|
  {
    if p.v6 then Splice(seg, 4, Put16((p.ipHdr - 40 + p.l4Hdr + chunk) % 0x1_0000))
    else
      var s := IpFields(seg, p, i);
      Sealed(s[..p.ipHdr], 10, 0, false) + s[p.ipHdr..]
  }

  function Addrs(seg: Bytes, v6: bool): (a: Bytes)
    requires |seg| >= if v6 then 40 else 20
  {
    if v6 then seg[8..40] else seg[12..20]
  }

  /** pseudoSum. */
  function PseudoSum(seg: Bytes, v6: bool, proto: nat, l4Len: nat): (s: nat)
    requires |seg| >= if v6 then 40 else 20
    ensures s < 0x1_0000
  {
    Sum16(Addrs(seg, v6), proto + l4Len)
  }

  function CsumOff(isTCP: bool): (o: nat) {
    if isTCP then 16 else 6
  }

  /** writeL4Csum: seals the transport checksum over the pseudo header; UDP never sends zero. */
  function L4Done(seg: Bytes, p: Plan): (r: Bytes)
    requires p.Plan? && p.ipHdr >= (if p.v6 then 40 else 20) && p.l4Hdr >= CsumOff(p.isTCP) + 2 && |seg| >= p.HdrLen()
    ensures |r| == |seg|
  {
    var l4 := seg[p.ipHdr..];
    seg[..p.ipHdr] + Sealed(l4, CsumOff(p.isTCP), PseudoSum(seg, p.v6, p.Proto(), |l4|), !p.isTCP)
  }

  /** The segment before its transport checksum is sealed. */
  function Unsealed(pkt: Bytes, p: Plan, off: nat, i: nat): (r: Bytes)
    requires Cuttable(pkt, p) && off < |Payload(pkt, p)|
    ensures |r| == p.HdrLen() + End(pkt, p, off) - off
  {
    var end := End(pkt, p, off);
    var s1 := IpDone(pkt[..p.HdrLen()] + Payload(pkt, p)[off..end], p, i, end - off);
    if p.isTCP then
      Splice(Splice(s1, p.ipHdr + 4, Put32((p.baseSeq + off) % 0x1_0000_0000)),
             p.ipHdr + 13, [if end == |Payload(pkt, p)| then p.flags else ClearFinPsh(p.flags)])
    else Splice(s1, p.ipHdr + 4, Put16((8 + end - off) % 0x1_0000))
  }

  /** The segment next writes for the payload from off on, the i-th of its packet. */
  function Seg(pkt: Bytes, p: Plan, off: nat, i: nat): (r: Bytes)
    requires Cuttable(pkt, p) && off < |Payload(pkt, p)|
    ensures |r| == p.HdrLen() + End(pkt, p, off) - off
  {
    L4Done(Unsealed(pkt, p, off, i), p)
  }

  /** Everything load accepts can be cut, given that an IPv4 header is at least twenty octets long. */
  lemma LoadedIsCuttable(pkt: Bytes, isTCP: bool, gsoSize: int)
    requires |pkt| >= 1 && MakePlan(pkt, isTCP, gsoSize).Plan? && (!V6(pkt) ==> pkt[0] % 16 >= 5)
    ensures Cuttable(pkt, MakePlan(pkt, isTCP, gsoSize))
  {
    hide V6L4, MakePlan;
    PlanIs(pkt, isTCP, gsoSize);
    if V6(pkt) { V6Placed(pkt); } else { HeaderLength(pkt[0] % 16); }
  }

  /** The fields of a plan. */
  lemma PlanIs(pkt: Bytes, isTCP: bool, gsoSize: int)
    requires |pkt| >= 1 && MakePlan(pkt, isTCP, gsoSize).Plan?
    ensures var p := MakePlan(pkt, isTCP, gsoSize);
            && p.v6 == V6(pkt) && p.isTCP == isTCP && p.HdrLen() < |pkt| && p.gso > 0
            && (V6(pkt) ==> V6L4(pkt).L4?)
            && p.ipHdr == (if V6(pkt) then V6L4(pkt).off else (pkt[0] % 16) * 4)
            && (if isTCP then p.l4Hdr >= 20 else p.l4Hdr == 8)
            && p.baseSeq < 0x1_0000_0000 && p.baseID < 0x1_0000
  {
    hide V6L4, Get16, Get32;
    if |pkt| >= 6 { FieldRange(pkt, 4); }
    if isTCP { LongRange(pkt, MakePlan(pkt, isTCP, gsoSize).ipHdr + 4); }
  }

  lemma HeaderLength(ihl: nat)
    requires 5 <= ihl < 16
    ensures 20 <= ihl * 4 <= 60 && ihl * 4 % 4 == 0
  {
  }

  lemma V6Placed(pkt: Bytes)
    ensures V6L4(pkt).L4? ==> V6L4(pkt).off >= 40 && V6L4(pkt).off % 8 == 0
  {
    hide V6Walk;
    if |pkt| >= 40 {
      V6Aligned(pkt, pkt[6], 40);
      V6Beyond(pkt);
    }
  }

  lemma V6Beyond(pkt: Bytes)
    requires |pkt| >= 40
    ensures V6Walk(pkt, pkt[6], 40).L4? ==> V6Walk(pkt, pkt[6], 40).off >= 40
  {
  }

  lemma FieldRange(b: Bytes, o: nat)
    requires o + 2 <= |b|
    ensures Get16(b, o) < 0x1_0000
  {
  }

  lemma LongRange(b: Bytes, o: nat)
    requires o + 4 <= |b|
    ensures Get32(b, o) < 0x1_0000_0000
  {
  }

  lemma {:induction false} V6Aligned(pkt: Bytes, next: nat, off: nat)
    requires off % 8 == 0
    ensures V6Walk(pkt, next, off).L4? ==> V6Walk(pkt, next, off).off % 8 == 0
    decreases |pkt| - off
  {
    if next == 0 || next == 43 || next == 60 {
      if off + 2 <= |pkt| { V6Aligned(pkt, pkt[off], off + (pkt[off + 1] as int + 1) * 8); }
    } else if next == 44 {
      if off + 8 <= |pkt| { V6Aligned(pkt, pkt[off], off + 8); }
    }
  }

  // ----- what a segment holds

  /** The header octets next rewrites; all others are copied from the super-packet. */
  predicate Rewritten(p: Plan, k: nat)
    requires p.Plan?
  {
    || (if p.v6 then 4 <= k < 6 else 2 <= k < 6 || 10 <= k < 12)
    || (p.ipHdr + 4 <= k < p.ipHdr + 8)
    || (p.isTCP && (k == p.ipHdr + 13 || p.ipHdr + 16 <= k < p.ipHdr + 18))
  }

  lemma IpDoneKeeps(seg: Bytes, p: Plan, i: nat, chunk: nat)
    requires p.Plan? && |seg| == p.HdrLen() + chunk && (if p.v6 then p.ipHdr >= 40 else p.ipHdr >= 20)
    ensures var r := IpDone(seg, p, i, chunk);
            && (forall k :: 0 <= k < |seg| && !(if p.v6 then 4 <= k < 6 else 2 <= k < 6 || 10 <= k < 12) ==> r[k] == seg[k])
            && (if p.v6 then Get16(r, 4) == (p.ipHdr - 40 + p.l4Hdr + chunk) % 0x1_0000
                else Get16(r, 2) == |seg| % 0x1_0000 && Get16(r, 4) == (p.baseID + i) % 0x1_0000)
  {
  }

  lemma L4DoneKeeps(seg: Bytes, p: Plan)
    requires p.Plan? && p.ipHdr >= (if p.v6 then 40 else 20) && p.l4Hdr >= CsumOff(p.isTCP) + 2 && |seg| >= p.HdrLen()
    ensures var o := p.ipHdr + CsumOff(p.isTCP);
            forall k :: 0 <= k < |seg| && !(o <= k < o + 2) ==> L4Done(seg, p)[k] == seg[k]
  {
    hide Sealed, PseudoSum;
    var l4, o := seg[p.ipHdr..], CsumOff(p.isTCP);
    var acc := PseudoSum(seg, p.v6, p.Proto(), |l4|);
    SealedKeeps(l4, o, acc, !p.isTCP);
    var r := Sealed(l4, o, acc, !p.isTCP);
    forall k | p.ipHdr <= k < |seg| && !(p.ipHdr + o <= k < p.ipHdr + o + 2) ensures L4Done(seg, p)[k] == seg[k] {
      assert r[k - p.ipHdr] == l4[k - p.ipHdr];
    }
  }

  lemma SegSizes(pkt: Bytes, p: Plan, off: nat, i: nat)
    requires Cuttable(pkt, p) && off < |Payload(pkt, p)|
    ensures |Unsealed(pkt, p, off, i)| == |Seg(pkt, p, off, i)| == p.HdrLen() + End(pkt, p, off) - off
  {
  }

  /** The transport fields, written over a segment whose IP header is done. */
  lemma UnsealedKeeps(pkt: Bytes, p: Plan, off: nat, i: nat, s1: Bytes)
    requires Cuttable(pkt, p) && off < |Payload(pkt, p)|
    requires s1 == IpDone(pkt[..p.HdrLen()] + Payload(pkt, p)[off..End(pkt, p, off)], p, i, End(pkt, p, off) - off)
    ensures var u, end := Unsealed(pkt, p, off, i), End(pkt, p, off);
            && |u| == |s1|
            && (forall k :: 0 <= k < |u| && !(p.ipHdr + 4 <= k < p.ipHdr + 8) && !(p.isTCP && k == p.ipHdr + 13) ==> u[k] == s1[k])
            && (if p.isTCP then
                  && Get32(u, p.ipHdr + 4) == (p.baseSeq + off) % 0x1_0000_0000
                  && u[p.ipHdr + 13] == (if end == |Payload(pkt, p)| then p.flags else ClearFinPsh(p.flags))
                else Get16(u, p.ipHdr + 4) == (8 + end - off) % 0x1_0000)
  {
    hide IpDone, ClearFinPsh, Get32, Put32;
    var x := (p.baseSeq + off) % 0x1_0000_0000;
    if p.isTCP {
      Get32Splice(s1, p.ipHdr + 4, x);
      LongSame(Unsealed(pkt, p, off, i), Splice(s1, p.ipHdr + 4, Put32(x)), p.ipHdr + 4);
    }
  }

  /** A segment is its headers, rewritten only where they must be, and its share of the payload. */
  lemma SegContents(pkt: Bytes, p: Plan, off: nat, i: nat)
    requires Cuttable(pkt, p) && off < |Payload(pkt, p)|
    ensures var r, end := Seg(pkt, p, off, i), End(pkt, p, off);
            && r[p.HdrLen()..] == Payload(pkt, p)[off..end]
            && (forall k :: 0 <= k < p.HdrLen() && !Rewritten(p, k) ==> r[k] == pkt[k])
            && (if p.v6 then Get16(r, 4) == (p.ipHdr - 40 + p.l4Hdr + end - off) % 0x1_0000
                else Get16(r, 2) == |r| % 0x1_0000 && Get16(r, 4) == (p.baseID + i) % 0x1_0000)
            && (if p.isTCP then
                  && Get32(r, p.ipHdr + 4) == (p.baseSeq + off) % 0x1_0000_0000
                  && r[p.ipHdr + 13] == (if end == |Payload(pkt, p)| then p.flags else ClearFinPsh(p.flags))
                else Get16(r, p.ipHdr + 4) == (8 + end - off) % 0x1_0000)
  {
    hide IpDone, L4Done, Unsealed, Words, Norm, ClearFinPsh, Get32;
    var end := End(pkt, p, off);
    var s0 := pkt[..p.HdrLen()] + Payload(pkt, p)[off..end];
    IpDoneKeeps(s0, p, i, end - off);
    UnsealedKeeps(pkt, p, off, i, IpDone(s0, p, i, end - off));
    SegSizes(pkt, p, off, i);
    var u := Unsealed(pkt, p, off, i);
    L4DoneKeeps(u, p);
    var r := Seg(pkt, p, off, i);
    assert r == L4Done(u, p);
    if p.isTCP { LongSame(r, u, p.ipHdr + 4); }
    forall k | p.HdrLen() <= k < |r| ensures r[k] == s0[k] {}
    assert s0[p.HdrLen()..] == Payload(pkt, p)[off..end];
  }

  // ----- both checksums of a segment verify

  lemma {:induction false} WordsPositive(b: Bytes, k: nat)
    requires k < |b| && b[k] > 0
    ensures Words(b) > 0
  {
    WordsZero(b);
  }

  lemma SegChecksums(pkt: Bytes, p: Plan, off: nat, i: nat)
    requires Cuttable(pkt, p) && off < |Payload(pkt, p)| && (!p.v6 ==> pkt[0] > 0)
    ensures var r := Seg(pkt, p, off, i);
            && (!p.v6 ==> Sum16(r[..p.ipHdr], 0) == 0xffff)
            && Sum16(r[p.ipHdr..], PseudoSum(r, p.v6, p.Proto(), |r| - p.ipHdr)) == 0xffff
  {
    hide Words, Norm, Sealed;
    var end := End(pkt, p, off);
    var s0 := pkt[..p.HdrLen()] + Payload(pkt, p)[off..end];
    var u := Unsealed(pkt, p, off, i);
    var r := Seg(pkt, p, off, i);
    assert r == L4Done(u, p);
    if !p.v6 {
      var s := IpFields(s0, p, i);
      HeaderVerifies(s[..p.ipHdr]);
      SealedFront(s, p.ipHdr);
      assert r[..p.ipHdr] == u[..p.ipHdr] == IpDone(s0, p, i, end - off)[..p.ipHdr];
    }
    L4Checksum(u, p);
  }

  lemma SealedFront(s: Bytes, hdr: nat)
    requires 12 <= hdr <= |s|
    ensures (Sealed(s[..hdr], 10, 0, false) + s[hdr..])[..hdr] == Sealed(s[..hdr], 10, 0, false)
  {
    hide Words, Norm, Splice, Sum16;
  }

  lemma HeaderVerifies(h: Bytes)
    requires |h| >= 20 && h[0] > 0
    ensures Sum16(Sealed(h, 10, 0, false), 0) == 0xffff
  {
    hide Words, Norm, Sealed;
    assert Splice(h, 10, [0, 0])[0] > 0;
    WordsPositive(Splice(h, 10, [0, 0]), 0);
    SealedVerifies(h, 10, 0, false);
  }

  lemma L4Checksum(u: Bytes, p: Plan)
    requires p.Plan? && p.ipHdr >= (if p.v6 then 40 else 20) && p.l4Hdr >= CsumOff(p.isTCP) + 2 && |u| >= p.HdrLen()
    ensures var r := L4Done(u, p);
            Sum16(r[p.ipHdr..], PseudoSum(r, p.v6, p.Proto(), |r| - p.ipHdr)) == 0xffff
  {
    hide Words, Norm, Sealed;
    var r := L4Done(u, p);
    var l4 := u[p.ipHdr..];
    var acc := PseudoSum(u, p.v6, p.Proto(), |l4|);
    assert Addrs(r, p.v6) == Addrs(u, p.v6);
    assert acc > 0 by { NormPositive(Addrs(u, p.v6), p.Proto() + |l4|); }
    SealedVerifies(l4, CsumOff(p.isTCP), acc, !p.isTCP);
    assert r[p.ipHdr..] == Sealed(l4, CsumOff(p.isTCP), acc, !p.isTCP);
  }

  lemma NormPositive(b: Bytes, acc: nat)
    requires acc > 0
    ensures Sum16(b, acc) > 0
  {
  }

  // ----- all segments of a packet

  /** The segments from payload offset off on. */
  function Cut(pkt: Bytes, p: Plan, off: nat, i: nat): (segs: seq<Bytes>)
    requires Cuttable(pkt, p)
    decreases |pkt| - off
  {
    if off >= |Payload(pkt, p)| then []
    else [Seg(pkt, p, off, i)] + Cut(pkt, p, End(pkt, p, off), i + 1)
  }

  function Bodies(segs: seq<Bytes>, hdrLen: nat): (b: Bytes)
    requires forall s :: s in segs ==> hdrLen <= |s|
  {
    if segs == [] then [] else segs[0][hdrLen..] + Bodies(segs[1..], hdrLen)
  }

  lemma CutUnfolds(pkt: Bytes, p: Plan, off: nat, i: nat)
    requires Cuttable(pkt, p) && off < |Payload(pkt, p)|
    ensures Cut(pkt, p, off, i) == [Seg(pkt, p, off, i)] + Cut(pkt, p, End(pkt, p, off), i + 1)
    ensures Cut(pkt, p, off, i)[1..] == Cut(pkt, p, End(pkt, p, off), i + 1)
    ensures End(pkt, p, off) == |Payload(pkt, p)| ==> Cut(pkt, p, End(pkt, p, off), i + 1) == []
  {
  }

  lemma {:induction false} CutSizes(pkt: Bytes, p: Plan, off: nat, i: nat)
    requires Cuttable(pkt, p)
    ensures forall s :: s in Cut(pkt, p, off, i) ==> p.HdrLen() < |s| <= p.HdrLen() + p.gso
    decreases |pkt| - off
  {
    hide Seg;
    if off < |Payload(pkt, p)| { CutSizes(pkt, p, End(pkt, p, off), i + 1); }
  }

  /** The payloads of the segments concatenate to the payload of the packet. */
  lemma {:induction false} CutJoins(pkt: Bytes, p: Plan, off: nat, i: nat)
    requires Cuttable(pkt, p) && off <= |Payload(pkt, p)|
    ensures forall s :: s in Cut(pkt, p, off, i) ==> p.HdrLen() <= |s|
    ensures Bodies(Cut(pkt, p, off, i), p.HdrLen()) == Payload(pkt, p)[off..]
    decreases |pkt| - off
  {
    hide Seg, Cut, Bodies;
    CutSizes(pkt, p, off, i);
    if off < |Payload(pkt, p)| {
      var end := End(pkt, p, off);
      var rest := Cut(pkt, p, end, i + 1);
      CutJoins(pkt, p, end, i + 1);
      CutUnfolds(pkt, p, off, i);
      SegBody(pkt, p, off, i);
      BodiesCons(Seg(pkt, p, off, i), rest, p.HdrLen());
      assert Payload(pkt, p)[off..] == Payload(pkt, p)[off..end] + Payload(pkt, p)[end..];
    } else {
      CutEnds(pkt, p, off, i);
    }
  }

  lemma SegBody(pkt: Bytes, p: Plan, off: nat, i: nat)
    requires Cuttable(pkt, p) && off < |Payload(pkt, p)|
    ensures p.HdrLen() <= |Seg(pkt, p, off, i)|
    ensures Seg(pkt, p, off, i)[p.HdrLen()..] == Payload(pkt, p)[off..End(pkt, p, off)]
  {
    SegContents(pkt, p, off, i);
  }

  lemma BodiesCons(x: Bytes, rest: seq<Bytes>, hdr: nat)
    requires hdr <= |x| && forall s :: s in rest ==> hdr <= |s|
    ensures Bodies([x] + rest, hdr) == x[hdr..] + Bodies(rest, hdr)
  {
    assert ([x] + rest)[1..] == rest;
  }

  lemma CutEnds(pkt: Bytes, p: Plan, off: nat, i: nat)
    requires Cuttable(pkt, p) && off >= |Payload(pkt, p)|
    ensures Cut(pkt, p, off, i) == [] && Bodies([], p.HdrLen()) == []
  {
  }

  /** As many segments as load announces, the j-th starting at j times the segment size. */
  lemma {:induction false} CutCount(pkt: Bytes, p: Plan, off: nat, i: nat)
    requires Cuttable(pkt, p)
    ensures |Cut(pkt, p, off, i)| == if off < |Payload(pkt, p)| then Segs(|Payload(pkt, p)| - off, p.gso) else 0
    decreases |pkt| - off
  {
    hide Seg, Segs;
    if off < |Payload(pkt, p)| {
      CutCount(pkt, p, End(pkt, p, off), i + 1);
      var left := |Payload(pkt, p)| - off;
      if left > p.gso {
        CeilStep(left, p.gso);
      } else {
        CeilOne(left, p.gso);
      }
    }
  }

  lemma CeilStep(x: nat, g: nat)
    requires 0 < g < x
    ensures Segs(x, g) == 1 + Segs(x - g, g)
  {
    var y := x - 1;
    assert y + g == (y / g + 1) * g + y % g;
    QuotientUnique(g, y / g + 1, y % g);
  }

  lemma MulMono(a: nat, b: nat, g: nat)
    requires a <= b
    ensures a * g <= b * g
  {
  }

  lemma CeilOne(x: nat, g: nat)
    requires 0 < x <= g
    ensures Segs(x, g) == 1
  {
  }

  /** Where the i-th segment starts. */
  function Start(p: Plan, i: nat): (off: nat)
    requires p.Plan?
  {
    i * p.gso
  }

  lemma StartNext(p: Plan, i: nat)
    requires p.Plan?
    ensures Start(p, i + 1) == Start(p, i) + p.gso
  {
  }

  lemma {:induction false} CutAt(pkt: Bytes, p: Plan, i: nat, j: nat)
    requires Cuttable(pkt, p) && j < |Cut(pkt, p, Start(p, i), i)|
    ensures Start(p, i + j) < |Payload(pkt, p)|
    ensures Cut(pkt, p, Start(p, i), i)[j] == Seg(pkt, p, Start(p, i + j), i + j)
    decreases j
  {
    hide Seg, Start;
    if j > 0 {
      StartNext(p, i);
      CutAt(pkt, p, i + 1, j - 1);
    }
  }

  lemma LoadIsCuttable(pkt: Bytes, gsoSize: int, gsoType: nat)
    requires |pkt| >= 1 && Load(pkt, gsoSize, gsoType).Plan? && (!V6(pkt) ==> pkt[0] % 16 >= 5)
    ensures Cuttable(pkt, Load(pkt, gsoSize, gsoType)) && Load(pkt, gsoSize, gsoType).gso == gsoSize > 0
  {
    hide Cuttable;
    if MakePlan(pkt, true, gsoSize).Plan? { LoadedIsCuttable(pkt, true, gsoSize); }
    if MakePlan(pkt, false, gsoSize).Plan? { LoadedIsCuttable(pkt, false, gsoSize); }
  }

  // ----- writing a segment into a buffer

  method PutAt(buf: array<Octet>, size: nat, off: nat, s: Bytes)
    requires off + |s| <= size <= buf.Length
    modifies buf
    ensures buf[..size] == Splice(old(buf[..size]), off, s) && buf[size..] == old(buf[size..])
  {
    forall k | 0 <= k < |s| { buf[off + k] := s[k]; }
  }

  /** Zeroes the checksum field at off of buf[lo..hi], sums the range and writes the complement. */
  method SealAt(buf: array<Octet>, size: nat, lo: nat, hi: nat, off: nat, acc: nat, noZero: bool)
    requires lo <= hi <= size <= buf.Length && lo + off + 2 <= hi && acc < W64
    modifies buf
    ensures var v := old(buf[..size]); buf[..size] == v[..lo] + Sealed(v[lo..hi], off, acc, noZero) + v[hi..]
    ensures buf[size..] == old(buf[size..])
  {
    hide Words, Norm, Splice, Put16;
    ghost var v := buf[..size];
    SealInside(v, lo, hi, off, acc, noZero);
    PutAt(buf, size, lo + off, [0, 0]);
    var sum := Csum.Add(buf[..size][lo..hi], acc);
    var f := Fold(sum);
    var c := 0xffff - f;
    if noZero && c == 0 { c := 0xffff; }
    PutAt(buf, size, lo + off, Put16(c));
  }

  /** The IPv4 header checksum. */
  method SealFront(buf: array<Octet>, size: nat, hdr: nat)
    requires 12 <= hdr <= size <= buf.Length
    modifies buf
    ensures var v := old(buf[..size]); buf[..size] == Sealed(v[..hdr], 10, 0, false) + v[hdr..]
    ensures buf[size..] == old(buf[size..])
  {
    hide Words, Norm, Sealed, Splice, Put16;
    ghost var s := buf[..size];
    assert s[0..hdr] == s[..hdr] && s[..0] == [];
    SealAt(buf, size, 0, hdr, 10, 0, false);
  }

  method PseudoHeader(seg: Bytes, v6: bool, proto: nat, l4Len: nat) returns (s: nat)
    requires |seg| >= (if v6 then 40 else 20) && proto + l4Len < W64
    ensures s == PseudoSum(seg, v6, proto, l4Len)
  {
    var sum := Csum.Add(Addrs(seg, v6), proto + l4Len);
    s := Fold(sum);
  }

  method CopyIn(buf: array<Octet>, hdr: Bytes, chunk: Bytes)
    requires |hdr| + |chunk| <= buf.Length
    modifies buf
    ensures buf[..|hdr| + |chunk|] == hdr + chunk && buf[|hdr| + |chunk|..] == old(buf[|hdr| + |chunk|..])
  {
    PutAt(buf, |hdr| + |chunk|, 0, hdr);
    PutAt(buf, |hdr| + |chunk|, |hdr|, chunk);
  }

  // ----- the cursor

  /** segCursor: the packet being cut, the plan load made for it, and how far next has come. */
  class Cursor {
    var pkt: Bytes
    var live: bool
    var plan: Plan
    var off: nat
    var i: nat

    constructor ()
      ensures !live
    {
      pkt, live, plan, off, i := [], false, Whole, 0, 0;
    }

    ghost predicate Valid()
      reads this
    {
      live && plan.Plan? ==> Cuttable(pkt, plan) && off < |Payload(pkt, plan)|
    }

    /** The segments still to come. */
    ghost function Remaining(): (segs: seq<Bytes>)
      requires Valid()
      reads this
    {
      if !live then [] else if plan.Whole? then [pkt] else Cut(pkt, plan, off, i)
    }

    /** load: an IPv4 packet handed in with a segmentation offload has a full header. */
    method LoadPacket(packet: Bytes, gsoSize: int, gsoType: nat) returns (split: bool, segs: nat)
      requires |packet| >= 1 && (!V6(packet) ==> packet[0] % 16 >= 5)
      modifies this
      ensures Valid() && split == Load(packet, gsoSize, gsoType).Plan?
      ensures split ==> Cuttable(packet, Load(packet, gsoSize, gsoType)) && Load(packet, gsoSize, gsoType).gso == gsoSize
      ensures Remaining() == if split then Cut(packet, Load(packet, gsoSize, gsoType), 0, 0) else [packet]
      ensures segs == |Remaining()|
    {
      hide Cut, Seg, MakePlan, Cuttable, Load;
      pkt, live, off, i := packet, true, 0, 0;
      plan := Load(packet, gsoSize, gsoType);
      split, segs := plan.Plan?, 1;
      if split {
        LoadIsCuttable(packet, gsoSize, gsoType);
        CutCount(packet, plan, 0, 0);
        segs := Segs(|packet| - plan.HdrLen(), gsoSize);
      }
    }

    /** The header and payload rewriting of next, in the buffer. */
    method WriteSegment(buf: array<Octet>, size: nat, chunk: Bytes, at: nat, nth: nat, last: bool)
      requires Cuttable(pkt, plan) && at < |Payload(pkt, plan)|
      requires chunk == Payload(pkt, plan)[at..End(pkt, plan, at)] && last == (End(pkt, plan, at) == |Payload(pkt, plan)|)
      requires size == plan.HdrLen() + |chunk| <= buf.Length < W64 - 0x1_0000
      modifies buf
      ensures buf[..size] == Seg(pkt, plan, at, nth) && buf[size..] == old(buf[size..])
    {
      hide Words, Norm, Sealed, Splice, Put16, Put32, IpDone, L4Done;
      var p := plan;
      CopyIn(buf, pkt[..p.HdrLen()], chunk);
      ghost var s0 := pkt[..p.HdrLen()] + chunk;
      WriteIpHeader(buf, size, s0, nth, |chunk|);
      if p.isTCP {
        PutAt(buf, size, p.ipHdr + 4, Put32((p.baseSeq + at) % 0x1_0000_0000));
        PutAt(buf, size, p.ipHdr + 13, [if last then p.flags else ClearFinPsh(p.flags)]);
      } else {
        PutAt(buf, size, p.ipHdr + 4, Put16((8 + |chunk|) % 0x1_0000));
      }
      assert buf[..size] == Unsealed(pkt, p, at, nth);
      WriteL4Csum(buf, size);
    }

    method WriteIpHeader(buf: array<Octet>, size: nat, ghost s0: Bytes, nth: nat, chunk: nat)
      requires Cuttable(pkt, plan) && size == plan.HdrLen() + chunk <= buf.Length
      requires buf[..size] == s0
      modifies buf
      ensures buf[..size] == IpDone(s0, plan, nth, chunk) && buf[size..] == old(buf[size..])
    {
      hide Words, Norm, Sealed, Splice, Put16;
      var p := plan;
      if p.v6 {
        PutAt(buf, size, 4, Put16((p.ipHdr - 40 + p.l4Hdr + chunk) % 0x1_0000));
      } else {
        PutAt(buf, size, 2, Put16(size % 0x1_0000));
        PutAt(buf, size, 4, Put16((p.baseID + nth) % 0x1_0000));
        SealFront(buf, size, p.ipHdr);
      }
    }

    /** writeL4Csum. */
    method WriteL4Csum(buf: array<Octet>, size: nat)
      requires Cuttable(pkt, plan) && plan.HdrLen() <= size <= buf.Length < W64 - 0x1_0000
      modifies buf
      ensures buf[..size] == L4Done(old(buf[..size]), plan) && buf[size..] == old(buf[size..])
    {
      hide Words, Norm, Sealed;
      var p := plan;
      ghost var u := buf[..size];
      var acc := PseudoHeader(buf[..size], p.v6, p.Proto(), size - p.ipHdr);
      assert u[p.ipHdr..size] == u[p.ipHdr..] && u[size..] == [];
      SealAt(buf, size, p.ipHdr, size, CsumOff(p.isTCP), acc, !p.isTCP);
    }

    /** next: writes the next segment, or reports that it does not fit; either way it is consumed. */
    method Next(buf: array<Octet>) returns (n: nat, fits: bool)
      requires Valid() && live && buf.Length < W64 - 0x1_0000
      modifies this, buf
      ensures Valid() && old(Remaining()) != [] && Remaining() == old(Remaining())[1..]
      ensures fits == (|old(Remaining()[0])| <= buf.Length)
      ensures fits ==> n == |old(Remaining()[0])| && buf[..n] == old(Remaining()[0]) && buf[n..] == old(buf[n..])
      ensures !fits ==> n == 0 && buf[..] == old(buf[..])
    {
      hide Seg, Cuttable, Splice;
      ghost var before := Remaining();
      if live && plan.Plan? {
        CutUnfolds(pkt, plan, off, i);
      }
      if plan.Whole? {
        live := false;
        if |pkt| > buf.Length { return 0, false; }
        CopyIn(buf, pkt, []);
        assert pkt + [] == pkt;
        return |pkt|, true;
      }
      var at, nth := off, i;
      var end := End(pkt, plan, at);
      var chunk := Payload(pkt, plan)[at..end];
      var last := end == |Payload(pkt, plan)|;
      off, i := end, nth + 1;
      if last { live := false; }
      var size := plan.HdrLen() + |chunk|;
      if size > buf.Length { return 0, false; }
      WriteSegment(buf, size, chunk, at, nth, last);
      return size, true;
    }
  }
}
