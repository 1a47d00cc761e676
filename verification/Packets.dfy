/**
 IP packets put together from headers and payload, and where the readers of
 internal/tun find their seams: load of offload_linux.go and parseTCPSeg,
 parseUDPSeg of gro_linux.go; and which packets a run has to take.
 */
module Packets {
  import opened Octets
  import opened Wire
  import opened Segment
  import opened Gro

  // ----- IPv6 extension headers

  /** An extension header: its kind, and its octets after the next-header octet. */
  datatype Ext = Ext(kind: Octet, body: Bytes) {
    /** A fragment header has 8 octets; the others state theirs in units of 8, less one. */
    predicate Ok() {
      if kind == 44 then |body| == 7
      else kind in {0, 43, 60} && |body| >= 7 && |body| + 1 == (body[0] as int + 1) * 8
    }
  }

  function FirstKind(exts: seq<Ext>, proto: Octet): (k: Octet) {
    if exts == [] then proto else exts[0].kind
  }

  /** The headers chained by their next-header octets, the last one naming the transport protocol. */
  function Chain(exts: seq<Ext>, proto: Octet): (b: Bytes) {
    if exts == [] then [] else [FirstKind(exts[1..], proto)] + exts[0].body + Chain(exts[1..], proto)
  }

  /** The walk comes out behind the chain, at the transport protocol. */
  lemma {:induction false} ChainWalk(pre: Bytes, exts: seq<Ext>, proto: Octet, rest: Bytes)
    requires (forall e :: e in exts ==> e.Ok()) && proto !in {0, 43, 44, 60}
    ensures V6Walk(pre + Chain(exts, proto) + rest, FirstKind(exts, proto), |pre|) == L4(|pre| + |Chain(exts, proto)|, proto)
    decreases |exts|
  {
    if exts != [] {
      var e, next := exts[0], FirstKind(exts[1..], proto);
      assert e.Ok();
      ChainWalk(pre + ([next] + e.body), exts[1..], proto, rest);
      ChainFirst(pre, exts, proto, rest);
    }
  }

  lemma ChainFirst(pre: Bytes, exts: seq<Ext>, proto: Octet, rest: Bytes)
    requires exts != [] && exts[0].body != []
    ensures var pkt, e, next := pre + Chain(exts, proto) + rest, exts[0], FirstKind(exts[1..], proto);
            && pkt == pre + ([next] + e.body) + Chain(exts[1..], proto) + rest
            && |Chain(exts, proto)| == 1 + |e.body| + |Chain(exts[1..], proto)|
            && |pkt| >= |pre| + 1 + |e.body| && pkt[|pre|] == next && pkt[|pre| + 1] == e.body[0]
  {
    var e, next := exts[0], FirstKind(exts[1..], proto);
    var own, more := [next] + e.body, Chain(exts[1..], proto);
    assert pre + (own + more) + rest == pre + own + more + rest;
    assert own[0] == next && own[1] == e.body[0];
  }

  // ----- whole packets

  /** A packet as its sender builds it. */
  datatype Packet =
    | V4(base: Bytes, l4: Bytes, body: Bytes)
    | V6(base: Bytes, exts: seq<Ext>, l4: Bytes, body: Bytes)
  {
    function Proto(isTCP: bool): (p: Octet) {
      if isTCP then 6 else 17
    }

    function IpHeader(isTCP: bool): (h: Bytes) {
      if V4? then base else base + Chain(exts, Proto(isTCP))
    }

    function Octets(isTCP: bool): (b: Bytes) {
      IpHeader(isTCP) + l4 + body
    }

    /** The headers state their own lengths, and the IP header names the protocol. */
    predicate Ok(isTCP: bool) {
      && (match this
          case V4(base, _, _) => 20 <= |base| <= 60 && base[0] == 0x40 + |base| / 4 && |base| % 4 == 0
          case V6(base, exts, _, _) =>
            |base| == 40 && base[0] / 16 == 6 && base[6] == FirstKind(exts, Proto(isTCP)) && forall e :: e in exts ==> e.Ok())
      && (if isTCP then 20 <= |l4| <= 60 && |l4| % 4 == 0 && l4[12] / 16 == |l4| / 4 else |l4| == 8)
    }

    /** Sent whole, its length fields exact: what the readers of a batch ask for besides. */
    predicate Plain(isTCP: bool)
      requires Ok(isTCP)
    {
      var size := |Octets(isTCP)|;
      && (if V4? then
            && base[9] == Proto(isTCP) && base[6] % 0x40 == 0 && base[7] == 0
            && Get16(base, 2) == size
          else Get16(base, 4) == size - 40)
      && (!isTCP ==> Get16(l4, 4) == 8 + |body|)
    }
  }

  /** The parts of a packet inside it. */
  lemma Seams(k: Packet, isTCP: bool)
    requires k.Ok(isTCP)
    ensures var h, b := |k.IpHeader(isTCP)|, k.Octets(isTCP);
            && |b| == h + |k.l4| + |k.body| && h >= 20 && b[0] == k.base[0]
            && (forall i :: 0 <= i < |k.base| ==> b[i] == k.base[i])
            && (forall i :: 0 <= i < |k.l4| ==> b[h + i] == k.l4[i])
            && Segment.V6(b) == k.V6? && (k.V4? ==> h == b[0] % 16 * 4 && b[0] / 16 == 4)
            && (k.V6? ==> V6L4(b) == L4(h, k.Proto(isTCP)))
  {
    hide V6Walk;
    var h, b := k.IpHeader(isTCP), k.Octets(isTCP);
    assert forall i :: 0 <= i < |k.base| ==> h[i] == k.base[i];
    if k.V6? {
      ChainWalk(k.base, k.exts, k.Proto(isTCP), k.l4 + k.body);
      assert b == k.base + Chain(k.exts, k.Proto(isTCP)) + (k.l4 + k.body);
    }
  }

  /** load finds the seams of any packet of its protocol, and gives up exactly when there is nothing to cut. */
  lemma LoadSeams(k: Packet, isTCP: bool, gsoSize: int)
    requires k.Ok(isTCP)
    ensures |k.Octets(isTCP)| >= 1
    ensures MakePlan(k.Octets(isTCP), isTCP, gsoSize) ==
            if k.body == [] || gsoSize <= 0 then Whole
            else Plan(k.V6?, isTCP, |k.IpHeader(isTCP)|, |k.l4|, gsoSize,
                      if isTCP then Get32(k.l4, 4) else 0, if isTCP then k.l4[13] else 0,
                      if k.V6? then 0 else Get16(k.base, 4))
  {
    hide V6L4, Get32, Packet.Octets, Packet.IpHeader;
    Seams(k, isTCP);
    if isTCP { SameLongAt(k.Octets(isTCP), |k.IpHeader(isTCP)|, k.l4, 4); }
  }

  lemma SameLongAt(b: Bytes, h: nat, l4: Bytes, o: nat)
    requires h + |l4| <= |b| && o + 4 <= |l4| && forall i :: 0 <= i < |l4| ==> b[h + i] == l4[i]
    ensures Get32(b, h + o) == Get32(l4, o)
  {
    hide GetBe;
    assert b[h + o..h + o + 4] == l4[o..o + 4];
  }

  /** The GSO type of the device decides the protocol, whatever its ECN bit says. */
  lemma LoadDispatch(pkt: Bytes, gsoSize: int, gsoType: nat)
    requires |pkt| >= 1 && gsoType < 0x80
    ensures Load(pkt, gsoSize, gsoType + 0x80) == Load(pkt, gsoSize, gsoType)
    ensures Load(pkt, gsoSize, gsoType) == if gsoType in {1, 4} then MakePlan(pkt, true, gsoSize)
                                           else if gsoType == 5 then MakePlan(pkt, false, gsoSize)
                                           else Whole
  {
    hide MakePlan;
  }

  /** The readers of a batch find the same seams in a packet sent whole, and refuse one without payload. */
  lemma ParseSeams(k: Packet, isTCP: bool)
    requires k.Ok(isTCP) && k.Plain(isTCP)
    ensures Parse(k.Octets(isTCP), isTCP) ==
            if k.body == [] then NoFlow
            else Flow(k.V6?, |k.IpHeader(isTCP)|, |k.l4|, if isTCP then Get32(k.l4, 4) else 0, |k.body|,
                      if isTCP then k.l4[13] else 0)
  {
    hide V6L4, Get32, Packet.Octets, Packet.IpHeader;
    Seams(k, isTCP);
    if isTCP { SameLongAt(k.Octets(isTCP), |k.IpHeader(isTCP)|, k.l4, 4); }
  }

  // ----- which packets a run has to take

  /** A packet of the flow of a run of n full packets, next in sequence. */
  ghost predicate NextInFlow(pkts: seq<Bytes>, n: nat, isTCP: bool)
    requires 1 <= n < |pkts|
  {
    var f, s := Parse(pkts[0], isTCP), Parse(pkts[n], isTCP);
    && f.Flow? && s.Flow?
    && s == f.(payload := s.payload, flags := s.flags, seqNo := s.seqNo)
    && s.payload <= f.payload
    && (isTCP ==> s.seqNo == (f.seqNo + n * f.payload) % 0x1_0000_0000 && s.flags in {0x10, 0x18})
    && forall k :: 0 <= k < f.ipHdr + f.l4Hdr && !Exempt(f, isTCP, k) ==> pkts[n][k] == pkts[0][k]
  }

  /** All of the n packets are as long as the first, none has PSH set, and the next one fits as well. */
  ghost predicate FullSoFar(pkts: seq<Bytes>, n: nat, isTCP: bool)
    requires 1 <= n < |pkts|
  {
    var f, s := Parse(pkts[0], isTCP), Parse(pkts[n], isTCP);
    && f.Flow? && s.Flow?
    && (forall i :: 1 <= i < n ==>
          |pkts[i]| == |pkts[0]| && (isTCP ==> Parse(pkts[i], isTCP).Flow? && Parse(pkts[i], isTCP).flags == 0x10))
    && f.ipHdr + f.l4Hdr + n * f.payload + s.payload <= 60000
  }

  lemma NextSame(pkts: seq<Bytes>, n: nat, isTCP: bool)
    requires 1 <= n < |pkts| && NextInFlow(pkts, n, isTCP)
    ensures SameHeaders(pkts[0], pkts[n], Parse(pkts[0], isTCP), Parse(pkts[n], isTCP), isTCP)
  {
    hide Parse;
    FlowSizes(pkts[0], isTCP);
    FlowSizes(pkts[n], isTCP);
    SameBytes(pkts[0], pkts[n], Parse(pkts[0], isTCP), isTCP);
  }

  lemma SameBytes(a: Bytes, b: Bytes, f: Flow, isTCP: bool)
    requires f.Flow? && f.ipHdr >= (if f.v6 then 40 else 20) && f.l4Hdr >= (if isTCP then 20 else 8)
    requires |a| >= f.ipHdr + f.l4Hdr && |b| >= f.ipHdr + f.l4Hdr
    requires forall k :: 0 <= k < f.ipHdr + f.l4Hdr && !Exempt(f, isTCP, k) ==> b[k] == a[k]
    ensures if f.v6 then a[0..4] == b[0..4] && a[6..f.ipHdr] == b[6..f.ipHdr]
            else a[0..2] == b[0..2] && a[6..10] == b[6..10] && a[12..f.ipHdr] == b[12..f.ipHdr]
    ensures var x, y := a[f.ipHdr..], b[f.ipHdr..];
            && x[0..4] == y[0..4]
            && (isTCP ==> x[8..13] == y[8..13] && x[14..16] == y[14..16] && x[18..f.l4Hdr] == y[18..f.l4Hdr])
  {
    var x, y := a[f.ipHdr..], b[f.ipHdr..];
    assert a[0..] == a && b[0..] == b;
    if f.v6 {
      SameSlice(a, b, 0, 4, a, b, 0);
      SameSlice(a, b, 6, f.ipHdr, a, b, 0);
    } else {
      SameSlice(a, b, 0, 2, a, b, 0);
      SameSlice(a, b, 6, 10, a, b, 0);
      SameSlice(a, b, 12, f.ipHdr, a, b, 0);
    }
    SameSlice(x, y, 0, 4, a, b, f.ipHdr);
    if isTCP {
      SameSlice(x, y, 8, 13, a, b, f.ipHdr);
      SameSlice(x, y, 14, 16, a, b, f.ipHdr);
      SameSlice(x, y, 18, f.l4Hdr, a, b, f.ipHdr);
    }
  }

  lemma SameSlice(x: Bytes, y: Bytes, lo: nat, hi: nat, a: Bytes, b: Bytes, h: nat)
    requires lo <= hi && h + hi <= |a| && h + hi <= |b| && x == a[h..] && y == b[h..]
    requires forall k :: h + lo <= k < h + hi ==> b[k] == a[k]
    ensures x[lo..hi] == y[lo..hi]
  {
    assert x[lo..hi] == a[h + lo..h + hi] && y[lo..hi] == b[h + lo..h + hi];
  }

  lemma NextFollows(pkts: seq<Bytes>, n: nat, isTCP: bool)
    requires 1 <= n < |pkts| && NextInFlow(pkts, n, isTCP)
    ensures Parse(pkts[0], isTCP).Flow? && Follows(pkts[0], pkts[n], isTCP, SeqAt(pkts[0], isTCP, n))
  {
    hide Parse, SameHeaders;
    NextSame(pkts, n, isTCP);
  }

  /**
   A packet that is next in the flow joins a run of full packets, as long as the run
   is short of 64 packets and of 60000 octets: it is never left for a write of its own.
   */
  lemma MustJoin(pkts: seq<Bytes>, n: nat, isTCP: bool)
    requires 1 <= n < |pkts| && n < 64 && IsRun(pkts[..n], isTCP) && NextInFlow(pkts, n, isTCP) && FullSoFar(pkts, n, isTCP)
    ensures IsRun(pkts[..n + 1], isTCP)
  {
    hide Parse, IsRun, NextInFlow, Follows, TotalLen, Offset;
    NextFollows(pkts, n, isTCP);
    var run, f := pkts[..n], Parse(pkts[0], isTCP);
    var hdr := f.ipHdr + f.l4Hdr;
    RunSizes(run, isTCP);
    PayloadSizes(run, isTCP);
    FlowSizes(pkts[0], isTCP);
    TotalIs(run, isTCP, hdr, n);
    assert run[..n] == run;
    if n >= 2 { assert run[n - 1] == pkts[n - 1]; }
    FullOffset(run, hdr, f.payload);
    RunGrows(pkts, n, isTCP);
  }

  /** Any packet with payload can lead a run; a TCP one as long as ACK is its only flag. */
  lemma MustStart(pkt: Bytes, isTCP: bool)
    ensures IsRun([pkt], isTCP) <==> Parse(pkt, isTCP).Flow? && (isTCP ==> Parse(pkt, isTCP).flags == 0x10)
  {
    hide Parse;
    RunStarts(pkt, isTCP);
  }

  lemma FullOffset(run: seq<Bytes>, hdr: nat, seg: nat)
    requires run != [] && forall i :: 0 <= i < |run| ==> |run[i]| == hdr + seg
    ensures Offset(run, hdr, |run|) == |run| * seg
  {
    hide Offset;
    OffsetIs(run, hdr, seg, |run| - 1);
    OffsetNext(run, hdr, |run| - 1);
    assert |run| * seg == (|run| - 1) * seg + seg;
  }
}
