/** What a receiver checks of the segments of module Segment: their checksums and flags. */
module SegmentChecks {
  import opened Arith
  import opened Csum
  import opened Octets
  import opened Wire
  import opened Pseudo
  import opened Segment

  /** FIN is bit 0 and PSH bit 3; the other six flags stay as they are. */
  lemma FlagsCleared(f: Octet)
    ensures var r := ClearFinPsh(f); r % 2 == 0 && r / 2 % 4 == f / 2 % 4 && r / 8 % 2 == 0 && r / 16 == f / 16
  {
    var q, l := f / 2, f % 2;
    var high, low := q / 8, q % 4;
    var psh := q / 4 % 2;
    assert f == 2 * q + l && q == 8 * high + 4 * psh + low by {
      assert q == 4 * (q / 4) + low;
    }
    QuotientUnique(8, 2 * high + psh, 2 * low + l);
    QuotientUnique(2, high, psh);
    QuotientUnique(16, high, 8 * psh + 2 * low + l);
    FlagBits(high, low);
    assert ClearFinPsh(f) == high * 16 + low * 2;
  }

  lemma FlagBits(high: nat, low: nat)
    requires low < 4
    ensures var r := high * 16 + low * 2; r % 2 == 0 && r / 2 % 4 == low && r / 8 % 2 == 0 && r / 16 == high
  {
    QuotientUnique(2, 8 * high + low, 0);
    QuotientUnique(4, 2 * high, low);
    QuotientUnique(8, 2 * high, low * 2);
    QuotientUnique(2, high, 0);
    QuotientUnique(16, high, low * 2);
  }

  lemma PseudoSumIs(seg: Bytes, v6: bool, isTCP: bool, len: nat)
    requires |seg| >= if v6 then 40 else 20
    ensures PseudoSum(seg, v6, if isTCP then TCP else UDP, len) ==
            Sum16(if v6 then seg[8..40] else seg[12..20], ProtocolOctet(isTCP) + len)
  {
  }

  /**
   A receiver accepts every segment: the sum of RFC 1071 over the IPv4 header, and over
   pseudo header and transport segment, is all ones.
   */
  lemma SegVerifies(pkt: Bytes, p: Plan, off: nat, i: nat)
    requires Cuttable(pkt, p) && off < |Payload(pkt, p)| && (!p.v6 ==> pkt[0] > 0)
    requires PseudoFits(p.v6, p.l4Hdr + End(pkt, p, off) - off)
    ensures var r := Seg(pkt, p, off, i);
            && (!p.v6 ==> OnesSum(r[..p.ipHdr], 0) == 0xffff)
            && TransportVerifies(r, p.v6, p.isTCP, p.ipHdr)
            && (!p.isTCP ==> Get16(r, p.ipHdr + 6) != 0)
  {
    hide Words, Norm, PseudoSum, Sum16, Seg, OnesSum, PseudoOctets, Unsealed, L4Done;
    SegChecksums(pkt, p, off, i);
    var r := Seg(pkt, p, off, i);
    SegSizes(pkt, p, off, i);
    if !p.isTCP {
      UdpNonzero(Unsealed(pkt, p, off, i), p);
      SegIs(pkt, p, off, i);
    }
    PseudoSumIs(r, p.v6, p.isTCP, |r| - p.ipHdr);
    PseudoSums(r, p.v6, p.isTCP, |r| - p.ipHdr, r[p.ipHdr..]);
    if !p.v6 {
      OnesSumIsNorm(r[..p.ipHdr], 0);
      SumFromZero(r[..p.ipHdr]);
    }
  }

  lemma SegIs(pkt: Bytes, p: Plan, off: nat, i: nat)
    requires Cuttable(pkt, p) && off < |Payload(pkt, p)|
    ensures Seg(pkt, p, off, i) == L4Done(Unsealed(pkt, p, off, i), p)
  {
  }

  /** A UDP checksum of zero would say that there is none. */
  lemma UdpNonzero(u: Bytes, p: Plan)
    requires p.Plan? && !p.isTCP && p.ipHdr >= (if p.v6 then 40 else 20) && p.l4Hdr >= 8 && |u| >= p.HdrLen()
    ensures |L4Done(u, p)| == |u| && Get16(L4Done(u, p), p.ipHdr + 6) != 0
  {
    hide Words, Norm, Sum16, PseudoSum, Sealed;
    var l4, acc := u[p.ipHdr..], PseudoSum(u, p.v6, p.Proto(), |u| - p.ipHdr);
    SealedNonzero(l4, 6, acc);
    var z := Sealed(l4, 6, acc, true);
    assert L4Done(u, p)[p.ipHdr..] == z;
  }

  lemma SealedNonzero(b: Bytes, off: nat, acc: nat)
    requires off + 2 <= |b|
    ensures |Sealed(b, off, acc, true)| == |b| && Get16(Sealed(b, off, acc, true), off) != 0
  {
    hide Words, Norm, Sum16;
  }
}
