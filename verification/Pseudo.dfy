/**
 The pseudo header of section 3.1 of RFC 9293, of RFC 768 and of section 8.1 of
 RFC 8200, octet by octet: what a receiver sums ahead of a transport segment.
 */
module Pseudo {
  import opened Csum
  import opened Octets
  import opened Wire

  function ProtocolOctet(isTCP: bool): (o: Octet) {
    if isTCP then 6 else 17
  }

  /** A length that the pseudo header of its IP version can hold: four octets or two. */
  predicate PseudoFits(v6: bool, len: nat) {
    FitsBe(len, if v6 then 4 else 2)
  }

  lemma ShortFits(v6: bool, len: nat)
    requires len < 0x1_0000
    ensures PseudoFits(v6, len)
  {
    if v6 { FitsFour(len); } else { FitsTwo(len); }
  }

  /** Source, destination, zero, protocol and length of IPv4; source, destination, length, zeros and protocol of IPv6. */
  function PseudoOctets(ip: Bytes, v6: bool, isTCP: bool, len: nat): (b: Bytes)
    requires |ip| >= (if v6 then 40 else 20)
    ensures |b| == if v6 then 40 else 12
  {
    if v6 then ip[8..24] + ip[24..40] + PutBe(len, 4) + [0, 0, 0, ProtocolOctet(isTCP)]
    else ip[12..16] + ip[16..20] + [0, ProtocolOctet(isTCP)] + PutBe(len, 2)
  }

  /** What a receiver checks of the transport segment of a packet: the sum of RFC 1071 is all ones. */
  predicate TransportVerifies(pkt: Bytes, v6: bool, isTCP: bool, ipHdr: nat)
    requires |pkt| >= (if v6 then 40 else 20) && ipHdr <= |pkt|
  {
    OnesSum(PseudoOctets(pkt, v6, isTCP, |pkt| - ipHdr) + pkt[ipHdr..], 0) == 0xffff
  }

  /**
   What the device makes of a packet whose checksum field at start + off holds a seed: the
   complement of the sum of RFC 1071 from start on; a zero may be sent as all ones.
   */
  function Finished(pkt: Bytes, start: nat, off: nat, noZero: bool): (r: Bytes)
    requires start + off + 2 <= |pkt|
    ensures |r| == |pkt|
  {
    var c := 0xffff - OnesSum(pkt[start..], 0);
    Splice(pkt, start + off, Put16(if noZero && c == 0 then 0xffff else c))
  }

  /** Finishing a field that holds a seed seals it over that seed. */
  lemma FinishedSeals(pkt: Bytes, start: nat, off: nat, noZero: bool)
    requires start + off + 2 <= |pkt| && off % 2 == 0
    ensures var r, seed := Finished(pkt, start, off, noZero), Get16(pkt, start + off);
            && r[start..] == Sealed(pkt[start..], off, seed, noZero)
            && forall k :: 0 <= k < start ==> r[k] == pkt[k]
  {
    hide Words, Norm, OnesSum, Splice, Put16, Get16;
    var l4, seed := pkt[start..], Get16(pkt, start + off);
    FieldBehind(pkt, start, off);
    SameField(l4, off);
    WordsSplice(l4, off, seed);
    OnesSumIsNorm(l4, 0);
    var c := 0xffff - Norm(seed + Words(Splice(l4, off, [0, 0])));
    var f := Put16(if noZero && c == 0 then 0xffff else c);
    SpliceBehind(pkt, start, off, f);
    SpliceAgain(l4, off, f);
  }

  lemma FieldBehind(pkt: Bytes, start: nat, off: nat)
    requires start + off + 2 <= |pkt|
    ensures Get16(pkt[start..], off) == Get16(pkt, start + off)
  {
  }

  lemma SpliceBehind(pkt: Bytes, start: nat, off: nat, f: Bytes)
    requires start + off + |f| <= |pkt|
    ensures Splice(pkt, start + off, f)[start..] == Splice(pkt[start..], off, f)
    ensures forall k :: 0 <= k < start ==> Splice(pkt, start + off, f)[k] == pkt[k]
  {
    assert pkt[start..][..off] == pkt[start..start + off];
    assert pkt[start..][off + |f|..] == pkt[start + off + |f|..];
  }

  lemma SpliceAgain(b: Bytes, off: nat, f: Bytes)
    requires off + 2 <= |b| && |f| == 2
    ensures Splice(Splice(b, off, [0, 0]), off, f) == Splice(b, off, f)
  {
  }

  lemma SameField(b: Bytes, off: nat)
    requires off + 2 <= |b|
    ensures Splice(b, off, Put16(Get16(b, off))) == b
  {
    hide Put16;
    var p := Put16(Get16(b, off));
    SameDigits(p[0], p[1], b[off], b[off + 1]);
    assert p == [b[off], b[off + 1]];
  }

  /** Words of even prefixes add up. */
  lemma {:induction false} WordsConcat(a: Bytes, b: Bytes)
    requires |a| % 2 == 0
    ensures Words(a + b) == Words(a) + Words(b)
    decreases |a|
  {
    if a == [] {
      assert a + b == b;
    } else {
      WordsConcat(a[2..], b);
      assert (a + b)[2..] == a[2..] + b;
    }
  }

  lemma WordsTwo(a: Octet, b: Octet)
    ensures Words([a, b]) == Word(a, b)
  {
    assert [a, b][2..] == [];
  }

  lemma WordsLong(b: Bytes)
    requires |b| == 4
    ensures Words(b) == Word(b[0], b[1]) + Word(b[2], b[3])
  {
    assert b == [b[0], b[1]] + [b[2], b[3]];
    WordsConcat([b[0], b[1]], [b[2], b[3]]);
    WordsTwo(b[0], b[1]);
    WordsTwo(b[2], b[3]);
  }

  /** A 32-bit length in two words is congruent to the length. */
  lemma LengthWords(len: nat) returns (hi: nat)
    requires FitsBe(len, 4)
    ensures len == Words(PutBe(len, 4)) + 0xffff * hi
  {
    hide GetBe, PutBe, FitsBe, Words;
    var b := PutBe(len, 4);
    BeRoundTrip(len, 4);
    FourOctets(b);
    WordsLong(b);
    hi := Word(b[0], b[1]);
  }

  lemma PseudoWords4(ip: Bytes, isTCP: bool, len: nat)
    requires |ip| >= 20 && PseudoFits(false, len)
    ensures Words(PseudoOctets(ip, false, isTCP, len)) == Words(ip[12..20]) + ProtocolOctet(isTCP) + len
  {
    hide Words, GetBe, PutBe, FitsBe;
    var a, p, l := ip[12..20], [0, ProtocolOctet(isTCP)], PutBe(len, 2);
    BeRoundTrip(len, 2);
    TwoOctets(l);
    assert PseudoOctets(ip, false, isTCP, len) == a + (p + l);
    WordsConcat(a, p + l);
    WordsConcat(p, l);
    WordsTwo(0, ProtocolOctet(isTCP));
    WordsTwo(l[0], l[1]);
    assert l == [l[0], l[1]];
  }

  lemma PseudoWords6(ip: Bytes, isTCP: bool, len: nat)
    requires |ip| >= 40 && PseudoFits(true, len)
    ensures Words(PseudoOctets(ip, true, isTCP, len)) == Words(ip[8..40]) + Words(PutBe(len, 4)) + ProtocolOctet(isTCP)
  {
    hide Words, GetBe, PutBe;
    var a, l, p := ip[8..40], PutBe(len, 4), [0, 0, 0, ProtocolOctet(isTCP)];
    assert |p| == 4 && |l| == 4;
    assert PseudoOctets(ip, true, isTCP, len) == a + (l + p);
    WordsConcat(a, l + p);
    WordsConcat(l, p);
    WordsLong(p);
  }

  /** Over the pseudo header the sum of RFC 1071 is the residue of addresses, protocol and length. */
  lemma PseudoResidue(ip: Bytes, v6: bool, isTCP: bool, len: nat, y: nat)
    requires |ip| >= (if v6 then 40 else 20) && PseudoFits(v6, len)
    ensures var addrs := if v6 then ip[8..40] else ip[12..20];
            Norm(Words(PseudoOctets(ip, v6, isTCP, len)) + y) == Norm(ProtocolOctet(isTCP) + len + Words(addrs) + y)
  {
    hide Words, Norm, PseudoOctets;
    if v6 {
      PseudoWords6(ip, isTCP, len);
      var hi := LengthWords(len);
      NormShift(Words(ip[8..40]) + Words(PutBe(len, 4)) + ProtocolOctet(isTCP) + y, hi);
    } else {
      PseudoWords4(ip, isTCP, len);
    }
  }

  /** The sum over pseudo header and segment, from a sum that starts with addresses, protocol and length. */
  lemma PseudoSums(ip: Bytes, v6: bool, isTCP: bool, len: nat, l4: Bytes)
    requires |ip| >= (if v6 then 40 else 20) && PseudoFits(v6, len)
    ensures var addrs := if v6 then ip[8..40] else ip[12..20];
            OnesSum(PseudoOctets(ip, v6, isTCP, len) + l4, 0) == Sum16(l4, Sum16(addrs, ProtocolOctet(isTCP) + len))
  {
    hide Words, Norm, PseudoOctets, OnesSum;
    var ps := PseudoOctets(ip, v6, isTCP, len);
    var addrs := if v6 then ip[8..40] else ip[12..20];
    OnesSumIsNorm(ps + l4, 0);
    WordsConcat(ps, l4);
    PseudoResidue(ip, v6, isTCP, len, Words(l4));
    NormInner(ProtocolOctet(isTCP) + len + Words(addrs), Words(l4));
  }

  lemma SumFromZero(b: Bytes)
    ensures Sum16(b, 0) == Norm(Words(b))
  {
  }
}
