/**
 Coalescing runs of TCP and UDP packets into super-packets, as
 internal/tun/gro_linux.go does it, and the proof that segmentation undoes it.
 */
module Gro {
  import opened Arith
  import opened Csum
  import opened Octets
  import opened Wire
  import opened Pseudo
  import opened Segment

  const MAX_BYTES := 60000
  const MAX_SEGS := 64
  const ACK: Octet := 0x10

  datatype Flow = NoFlow | Flow(v6: bool, ipHdr: nat, l4Hdr: nat, seqNo: nat, payload: nat, flags: Octet)

  datatype Ip = NoIp | Ip(hdr: nat, v6: bool)

  /** ipShape: an unfragmented packet of the protocol whose length field is its length. */
  function IpShape(pkt: Bytes, proto: nat): (r: Ip)
    ensures r.Ip? ==> |pkt| >= 20 && V6(pkt) == r.v6 && (if r.v6 then 40 <= r.hdr <= |pkt| else 20 <= r.hdr <= 60)
  {
    if |pkt| < 20 then NoIp
    else if pkt[0] / 16 == 4 then
      if pkt[9] != proto || pkt[6] % 64 != 0 || pkt[7] != 0 then NoIp
      else if (pkt[0] % 16) * 4 < 20 || Get16(pkt, 2) != |pkt| then NoIp
      else Ip((pkt[0] % 16) * 4, false)
    else if pkt[0] / 16 == 6 then
      var l4 := V6L4(pkt);
      if l4.NoL4? || l4.proto != proto || 40 + Get16(pkt, 4) != |pkt| then NoIp else Ip(l4.off, true)
    else NoIp
  }

  /** parseTCPSeg and parseUDPSeg. */
  function Parse(pkt: Bytes, isTCP: bool): (f: Flow)
    ensures f.Flow? ==> |pkt| == f.ipHdr + f.l4Hdr + f.payload && f.payload > 0 && f.l4Hdr >= (if isTCP then 20 else 8)
    ensures f.Flow? ==> (if f.v6 then 40 <= f.ipHdr else 20 <= f.ipHdr <= 60) && f.seqNo < 0x1_0000_0000
  {
    var ip := IpShape(pkt, if isTCP then TCP else UDP);
    if ip.NoIp? || |pkt| < ip.hdr + (if isTCP then 20 else 8) then NoFlow
    else
      var l4Hdr := if isTCP then (pkt[ip.hdr + 12] / 16) * 4 else 8;
      if l4Hdr < (if isTCP then 20 else 8) || |pkt| <= ip.hdr + l4Hdr then NoFlow
      else if !isTCP && Get16(pkt, ip.hdr + 4) != |pkt| - ip.hdr then NoFlow
      else Flow(ip.v6, ip.hdr, l4Hdr, if isTCP then Get32(pkt, ip.hdr + 4) else 0, |pkt| - ip.hdr - l4Hdr,
                if isTCP then pkt[ip.hdr + 13] else 0)
  }

  /** sameHeaders and sameUDPHeaders. */
  predicate SameHeaders(a: Bytes, b: Bytes, fa: Flow, fb: Flow, isTCP: bool)
    requires fa == Parse(a, isTCP) && fb == Parse(b, isTCP) && fa.Flow? && fb.Flow?
  {
    && fa.v6 == fb.v6 && fa.ipHdr == fb.ipHdr && fa.l4Hdr == fb.l4Hdr
    && (if fa.v6 then a[0..4] == b[0..4] && a[6..fa.ipHdr] == b[6..fa.ipHdr]
        else a[0..2] == b[0..2] && a[6..10] == b[6..10] && a[12..fa.ipHdr] == b[12..fa.ipHdr])
    && var x, y := a[fa.ipHdr..], b[fa.ipHdr..];
       if isTCP then x[0..4] == y[0..4] && x[8..13] == y[8..13] && x[14..16] == y[14..16] && x[18..fa.l4Hdr] == y[18..fa.l4Hdr]
       else x[0..4] == y[0..4]
  }

  // ----- runs

  /** What the run checks of its i-th packet against the first; seq is the sequence number expected. */
  predicate Follows(lead: Bytes, pkt: Bytes, isTCP: bool, seqNo: nat)
    requires Parse(lead, isTCP).Flow?
  {
    var f, s := Parse(lead, isTCP), Parse(pkt, isTCP);
    && s.Flow? && s.payload <= f.payload
    && (isTCP ==> s.seqNo == seqNo && s.flags - 8 * (s.flags / 8 % 2) == ACK)
    && SameHeaders(lead, pkt, f, s, isTCP)
  }

  /** A packet after which the run stops: a short one, or one with PSH set. */
  predicate Stops(lead: Bytes, pkt: Bytes, isTCP: bool)
    requires Parse(lead, isTCP).Flow? && Parse(pkt, isTCP).Flow?
  {
    Parse(pkt, isTCP).payload < Parse(lead, isTCP).payload || (isTCP && Parse(pkt, isTCP).flags / 8 % 2 == 1)
  }

  predicate Leads(pkt: Bytes, isTCP: bool) {
    Parse(pkt, isTCP).Flow? && (isTCP ==> Parse(pkt, isTCP).flags == ACK)
  }

  /** The 32-bit sequence number i steps after base. */
  function Ahead(base: nat, step: nat, i: nat): (s: nat) {
    (base + i * step) % 0x1_0000_0000
  }

  function SeqAt(lead: Bytes, isTCP: bool, i: nat): (s: nat)
    requires Parse(lead, isTCP).Flow?
  {
    Ahead(Parse(lead, isTCP).seqNo, Parse(lead, isTCP).payload, i)
  }

  /** The first packet with the payloads of the others appended: the size of the super-packet. */
  function TotalLen(pkts: seq<Bytes>, isTCP: bool): (t: nat)
  {
    if pkts == [] then 0
    else if |pkts| == 1 then |pkts[0]|
    else TotalLen(pkts[..|pkts| - 1], isTCP) +
         (var s := Parse(pkts[|pkts| - 1], isTCP); if s.Flow? then s.payload else 0)
  }

  /** A run of packets that may leave as one. */
  predicate IsRun(pkts: seq<Bytes>, isTCP: bool) {
    && 1 <= |pkts| <= MAX_SEGS && Leads(pkts[0], isTCP)
    && (forall i :: 1 <= i < |pkts| ==> Follows(pkts[0], pkts[i], isTCP, SeqAt(pkts[0], isTCP, i)))
    && (forall i :: 1 <= i < |pkts| - 1 ==> !Stops(pkts[0], pkts[i], isTCP))
    && (|pkts| >= 2 ==> TotalLen(pkts, isTCP) <= MAX_BYTES)
  }

  lemma AheadNext(base: nat, step: nat, i: nat)
    ensures Ahead(base, step, i + 1) == (Ahead(base, step, i) + step) % 0x1_0000_0000
  {
    assert (i + 1) * step == i * step + step;
    ModAdd(base + i * step, step);
  }

  lemma ModAdd(a: nat, b: nat)
    ensures (a % 0x1_0000_0000 + b) % 0x1_0000_0000 == (a + b) % 0x1_0000_0000
  {
  }

  lemma AheadZero(base: nat, step: nat)
    requires base < 0x1_0000_0000
    ensures Ahead(base, step, 0) == base
  {
    assert 0 * step == 0;
  }

  lemma SeqBound(lead: Bytes, isTCP: bool)
    requires Parse(lead, isTCP).Flow?
    ensures Parse(lead, isTCP).seqNo < 0x1_0000_0000
  {
  }

  lemma FollowsParses(lead: Bytes, pkt: Bytes, isTCP: bool, seqNo: nat)
    requires Parse(lead, isTCP).Flow? && Follows(lead, pkt, isTCP, seqNo)
    ensures Parse(pkt, isTCP).Flow?
  {
  }

  lemma FullPayload(lead: Bytes, pkt: Bytes, isTCP: bool, seqNo: nat)
    requires Parse(lead, isTCP).Flow? && Follows(lead, pkt, isTCP, seqNo)
    ensures Stops(lead, pkt, isTCP) || Parse(pkt, isTCP).payload == Parse(lead, isTCP).payload
  {
    hide Parse;
  }

  lemma RunStarts(pkt: Bytes, isTCP: bool)
    ensures IsRun([pkt], isTCP) <==> Leads(pkt, isTCP)
    ensures TotalLen([pkt], isTCP) == |pkt|
  {
    hide Leads, Follows, Stops, SeqAt, Parse;
  }

  lemma RunLeads(pkts: seq<Bytes>, isTCP: bool)
    requires IsRun(pkts, isTCP)
    ensures |pkts| >= 1 && Leads(pkts[0], isTCP) && Parse(pkts[0], isTCP).Flow?
    ensures forall i :: 1 <= i < |pkts| ==> Parse(pkts[i], isTCP).Flow?
  {
  }

  lemma TotalGrows(pkts: seq<Bytes>, n: nat, isTCP: bool)
    requires 1 <= n < |pkts| && Parse(pkts[n], isTCP).Flow?
    ensures TotalLen(pkts[..n + 1], isTCP) == TotalLen(pkts[..n], isTCP) + Parse(pkts[n], isTCP).payload
  {
    hide Parse;
    assert pkts[..n + 1][..n] == pkts[..n];
  }

  /** When the next packet extends a run. */
  predicate Extends(pkts: seq<Bytes>, n: nat, isTCP: bool)
    requires 1 <= n < |pkts| && IsRun(pkts[..n], isTCP)
  {
    RunLeads(pkts[..n], isTCP);
    && n < MAX_SEGS
    && (n >= 2 ==> assert pkts[n - 1] == pkts[..n][n - 1]; !Stops(pkts[0], pkts[n - 1], isTCP))
    && Follows(pkts[0], pkts[n], isTCP, SeqAt(pkts[0], isTCP, n))
    && TotalLen(pkts[..n], isTCP) + Parse(pkts[n], isTCP).payload <= MAX_BYTES
  }

  lemma RunGrows(pkts: seq<Bytes>, n: nat, isTCP: bool)
    requires 1 <= n < |pkts| && IsRun(pkts[..n], isTCP)
    ensures IsRun(pkts[..n + 1], isTCP) <==> Extends(pkts, n, isTCP)
  {
    hide Stops, SeqAt, Follows, Leads, TotalLen, Parse;
    var a, b := pkts[..n], pkts[..n + 1];
    RunLeads(a, isTCP);
    assert forall i :: 0 <= i < n ==> b[i] == a[i];
    if Follows(pkts[0], pkts[n], isTCP, SeqAt(pkts[0], isTCP, n)) {
      FollowsParses(pkts[0], pkts[n], isTCP, SeqAt(pkts[0], isTCP, n));
      TotalGrows(pkts, n, isTCP);
    }
    if IsRun(b, isTCP) {
      assert Follows(b[0], b[n], isTCP, SeqAt(b[0], isTCP, n));
    }
    if Extends(pkts, n, isTCP) {
      forall i | 1 <= i < |b| ensures Follows(b[0], b[i], isTCP, SeqAt(b[0], isTCP, i)) {
        if i < n { assert Follows(a[0], a[i], isTCP, SeqAt(a[0], isTCP, i)); }
      }
      forall i | 1 <= i < |b| - 1 ensures Parse(b[i], isTCP).Flow? && !Stops(b[0], b[i], isTCP) {
        assert Parse(a[i], isTCP).Flow?;
        if i < n - 1 { assert !Stops(a[0], a[i], isTCP); }
      }
    }
  }

  /**
   groRun and udpRun: the length and segment size of the longest run at the front,
   or zero when not even two packets merge.
   */
  method FindRun(pkts: seq<Bytes>, isTCP: bool) returns (n: nat, segSize: nat)
    ensures n == 0 || 2 <= n <= |pkts|
    ensures n <= 64
    ensures n > 0 ==> IsRun(pkts[..n], isTCP) && segSize == Parse(pkts[0], isTCP).payload
    ensures n > 0 && n < |pkts| ==> !IsRun(pkts[..n + 1], isTCP)
    ensures n == 0 && |pkts| >= 2 ==> !IsRun(pkts[..2], isTCP)
  {
    hide Parse, Follows, Stops, IsRun, TotalLen, Ahead;
    n, segSize := 0, 0;
    if |pkts| < 2 { return; }
    var lead := Parse(pkts[0], isTCP);
    RunStarts(pkts[0], isTCP);
    assert pkts[..1] == [pkts[0]];
    if lead.NoFlow? || (isTCP && lead.flags != ACK) {
      if IsRun(pkts[..2], isTCP) { RunLeads(pkts[..2], isTCP); }
      return;
    }
    segSize := lead.payload;
    var total := |pkts[0]|;
    SeqBound(pkts[0], isTCP);
    AheadZero(lead.seqNo, lead.payload);
    AheadNext(lead.seqNo, lead.payload, 0);
    var nextSeq := (lead.seqNo + lead.payload) % 0x1_0000_0000;
    n := 1;
    var stopped := false;
    while n < |pkts| && n < MAX_SEGS && !stopped
      invariant 1 <= n <= |pkts| && n <= MAX_SEGS && IsRun(pkts[..n], isTCP) && total == TotalLen(pkts[..n], isTCP)
      invariant !stopped ==> n == 1 || (Parse(pkts[n - 1], isTCP).Flow? && !Stops(pkts[0], pkts[n - 1], isTCP))
      invariant !stopped ==> nextSeq == SeqAt(pkts[0], isTCP, n)
      invariant stopped && n < |pkts| ==> !Extends(pkts, n, isTCP)
      decreases |pkts| - n, !stopped
    {
      RunGrows(pkts, n, isTCP);
      var s := Parse(pkts[n], isTCP);
      if !Follows(pkts[0], pkts[n], isTCP, nextSeq) {
        stopped := true;
      } else {
        FollowsParses(pkts[0], pkts[n], isTCP, nextSeq);
        if total + s.payload > MAX_BYTES {
          stopped := true;
        } else {
          AheadNext(lead.seqNo, lead.payload, n);
          TotalGrows(pkts, n, isTCP);
          FullPayload(pkts[0], pkts[n], isTCP, nextSeq);
          stopped := Stops(pkts[0], pkts[n], isTCP);
          total, nextSeq, n := total + s.payload, (nextSeq + s.payload) % 0x1_0000_0000, n + 1;
        }
      }
    }
    if n < |pkts| { RunGrows(pkts, n, isTCP); }
    if n < 2 {
      n, segSize := 0, 0;
    }
  }

  // ----- the super-packet

  /** The flags of the super-packet: PSH is taken over from the last packet. */
  function OrPsh(f: Octet, last: Octet): (r: Octet) {
    if f / 8 % 2 == 0 && last / 8 % 2 == 1 then f + 8 else f
  }

  /** PSH is bit 3; the other seven flags stay those of the lead. */
  lemma PshTaken(f: Octet, last: Octet)
    ensures var r := OrPsh(f, last); r % 8 == f % 8 && r / 16 == f / 16 && (r / 8 % 2 == 1 <==> f / 8 % 2 == 1 || last / 8 % 2 == 1)
  {
    if f / 8 % 2 == 0 { SetPsh(f); }
  }

  lemma SetPsh(f: Octet)
    requires f / 8 % 2 == 0
    ensures f + 8 < 256 && (f + 8) % 8 == f % 8 && (f + 8) / 16 == f / 16 && (f + 8) / 8 % 2 == 1
  {
    var q, m := f / 8, f % 8;
    var h := q / 2;
    assert f == 8 * q + m && q == 2 * h;
    QuotientUnique(8, q + 1, m);
    QuotientUnique(2, h, 1);
    QuotientUnique(16, h, m + 8);
    QuotientUnique(16, h, m);
  }

  /** The IP header of the super-packet: its length and, for IPv4, its checksum. */
  function SuperIp(lead: Bytes, f: Flow, l4Len: nat): (r: Bytes)
    requires f.Flow? && f.ipHdr <= |lead| && (if f.v6 then 40 <= f.ipHdr else 20 <= f.ipHdr)
    ensures |r| == |lead|
  {
    if f.v6 then Splice(lead, 4, Put16((f.ipHdr - 40 + l4Len) % 0x1_0000))
    else
      var s := Splice(lead, 2, Put16((f.ipHdr + l4Len) % 0x1_0000));
      Sealed(s[..f.ipHdr], 10, 0, false) + s[f.ipHdr..]
  }

  lemma SuperIpKeeps(lead: Bytes, f: Flow, l4Len: nat)
    requires f.Flow? && f.ipHdr <= |lead| && (if f.v6 then 40 <= f.ipHdr else 20 <= f.ipHdr)
    ensures forall k :: 0 <= k < |lead| && !(if f.v6 then 4 <= k < 6 else 2 <= k < 6 || 10 <= k < 12) ==>
              SuperIp(lead, f, l4Len)[k] == lead[k]
  {
    hide Words, Norm, Put16;
  }

  /** The lead packet as writeSuper rewrites it, for a transport length of l4Len. */
  function SuperLead(lead: Bytes, f: Flow, isTCP: bool, l4Len: nat, lastFlags: Octet): (r: Bytes)
    requires f == Parse(lead, isTCP) && f.Flow?
    ensures |r| == |lead|
  {
    var a := SuperIp(lead, f, l4Len);
    var b := if isTCP then Splice(a, f.ipHdr + 13, [OrPsh(a[f.ipHdr + 13], lastFlags)])
             else Splice(a, f.ipHdr + 4, Put16(l4Len % 0x1_0000));
    Splice(b, f.ipHdr + CsumOff(isTCP), Put16(PseudoSum(b, f.v6, if isTCP then TCP else UDP, l4Len)))
  }

  /** What writeSuper hands to the device: the rewritten lead and the payloads of the others. */
  function Super(pkts: seq<Bytes>, isTCP: bool): (r: Bytes)
    requires IsRun(pkts, isTCP)
  {
    RunLeads(pkts, isTCP);
    RunSizes(pkts, isTCP);
    var f := Parse(pkts[0], isTCP);
    var hdr := f.ipHdr + f.l4Hdr;
    var body := Bodies(pkts, hdr);
    SuperLead(pkts[0], f, isTCP, f.l4Hdr + |body|, Parse(pkts[|pkts| - 1], isTCP).flags)
      + Bodies(pkts[1..], hdr)
  }

  lemma RunSizes(pkts: seq<Bytes>, isTCP: bool)
    requires IsRun(pkts, isTCP)
    ensures |pkts| >= 1
    ensures var f := Parse(pkts[0], isTCP);
            && f.Flow?
            && (forall s :: s in pkts ==> f.ipHdr + f.l4Hdr <= |s|)
            && (forall i :: 0 <= i < |pkts| ==> 0 < |pkts[i]| - (f.ipHdr + f.l4Hdr) <= f.payload)
            && (forall i :: 0 <= i < |pkts| - 1 ==> |pkts[i]| - (f.ipHdr + f.l4Hdr) == f.payload)
  {
    hide IpShape, SeqAt;
    var f := Parse(pkts[0], isTCP);
    forall i | 0 <= i < |pkts|
      ensures 0 < |pkts[i]| - (f.ipHdr + f.l4Hdr) <= f.payload
      ensures i < |pkts| - 1 ==> |pkts[i]| - (f.ipHdr + f.l4Hdr) == f.payload
    {
      if i > 0 {
        assert Follows(pkts[0], pkts[i], isTCP, SeqAt(pkts[0], isTCP, i));
        if i < |pkts| - 1 { assert !Stops(pkts[0], pkts[i], isTCP); }
      }
    }
  }

  /** The header octets both writeSuper and next may change; sameHeaders compares all others. */
  predicate Exempt(f: Flow, isTCP: bool, k: nat)
    requires f.Flow?
  {
    || (if f.v6 then 4 <= k < 6 else 2 <= k < 6 || 10 <= k < 12)
    || (f.ipHdr + 4 <= k < f.ipHdr + 8)
    || (isTCP && (k == f.ipHdr + 13 || f.ipHdr + 16 <= k < f.ipHdr + 18))
  }

  lemma SuperLeadKeeps(lead: Bytes, f: Flow, isTCP: bool, l4Len: nat, lastFlags: Octet)
    requires f == Parse(lead, isTCP) && f.Flow?
    ensures var r := SuperLead(lead, f, isTCP, l4Len, lastFlags);
            && (forall k :: 0 <= k < |lead| && !Exempt(f, isTCP, k) ==> r[k] == lead[k])
            && (isTCP ==> r[f.ipHdr + 13] == OrPsh(lead[f.ipHdr + 13], lastFlags)
                          && forall k :: f.ipHdr + 4 <= k < f.ipHdr + 8 ==> r[k] == lead[k])
  {
    hide Words, Norm, Parse, V6L4, SuperIp, Put16;
    FlowSizes(lead, isTCP);
    SuperIpKeeps(lead, f, l4Len);
  }

  lemma FlowSizes(pkt: Bytes, isTCP: bool)
    requires Parse(pkt, isTCP).Flow?
    ensures var f := Parse(pkt, isTCP);
            && |pkt| == f.ipHdr + f.l4Hdr + f.payload && f.payload > 0 && f.l4Hdr >= (if isTCP then 20 else 8)
            && (if f.v6 then 40 <= f.ipHdr else 20 <= f.ipHdr <= 60)
  {
  }

  lemma SameHeaderBytes(a: Bytes, b: Bytes, isTCP: bool, k: nat)
    requires Parse(a, isTCP).Flow? && Parse(b, isTCP).Flow?
    requires SameHeaders(a, b, Parse(a, isTCP), Parse(b, isTCP), isTCP)
    requires k < Parse(a, isTCP).ipHdr + Parse(a, isTCP).l4Hdr && !Exempt(Parse(a, isTCP), isTCP, k)
    ensures k < |a| && k < |b| && a[k] == b[k]
  {
    FlowSizes(a, isTCP);
    FlowSizes(b, isTCP);
    hide Parse;
    var f := Parse(a, isTCP);
    var x, y := a[f.ipHdr..], b[f.ipHdr..];
    if k >= f.ipHdr {
      var j := k - f.ipHdr;
      if j < 4 { assert x[0..4][j] == y[0..4][j]; }
      else if 8 <= j < 13 { assert x[8..13][j - 8] == y[8..13][j - 8]; }
      else if 14 <= j < 16 { assert x[14..16][j - 14] == y[14..16][j - 14]; }
      else { assert x[18..f.l4Hdr][j - 18] == y[18..f.l4Hdr][j - 18]; }
    } else if f.v6 {
      if k < 4 { assert a[0..4][k] == b[0..4][k]; } else { assert a[6..f.ipHdr][k - 6] == b[6..f.ipHdr][k - 6]; }
    } else {
      if k < 2 { assert a[0..2][k] == b[0..2][k]; }
      else if k < 10 { assert a[6..10][k - 6] == b[6..10][k - 6]; }
      else { assert a[12..f.ipHdr][k - 12] == b[12..f.ipHdr][k - 12]; }
    }
  }

  // ----- the payloads inside the super-packet

  /** Where the payload of packet i starts. */
  function Offset(pkts: seq<Bytes>, hdr: nat, i: nat): (o: nat)
    requires (forall s :: s in pkts ==> hdr <= |s|) && i <= |pkts|
  {
    if i == 0 then 0 else |pkts[0]| - hdr + Offset(pkts[1..], hdr, i - 1)
  }

  lemma {:induction false} BodiesAt(pkts: seq<Bytes>, hdr: nat, i: nat)
    requires (forall s :: s in pkts ==> hdr <= |s|) && i < |pkts|
    ensures Offset(pkts, hdr, i) + |pkts[i]| - hdr <= |Bodies(pkts, hdr)|
    ensures Bodies(pkts, hdr)[Offset(pkts, hdr, i)..Offset(pkts, hdr, i) + |pkts[i]| - hdr] == pkts[i][hdr..]
    ensures i == |pkts| - 1 ==> Offset(pkts, hdr, i) + |pkts[i]| - hdr == |Bodies(pkts, hdr)|
  {
    hide Bodies, Offset;
    BodiesUnfold(pkts, hdr);
    OffsetUnfold(pkts, hdr, i);
    var rest := pkts[1..];
    var b := Bodies(rest, hdr);
    var h := pkts[0][hdr..];
    if i > 0 {
      BodiesAt(rest, hdr, i - 1);
      var o, m := Offset(rest, hdr, i - 1), |pkts[i]| - hdr;
      SliceBehind(h, b, o, m);
    } else {
      SliceFront(h, b);
      BodiesEmpty(hdr);
    }
  }

  lemma OffsetUnfold(pkts: seq<Bytes>, hdr: nat, i: nat)
    requires (forall s :: s in pkts ==> hdr <= |s|) && i < |pkts|
    ensures Offset(pkts, hdr, i) == if i == 0 then 0 else |pkts[0]| - hdr + Offset(pkts[1..], hdr, i - 1)
  {
  }

  lemma SliceBehind(h: Bytes, b: Bytes, o: nat, m: nat)
    requires o + m <= |b|
    ensures (h + b)[|h| + o..|h| + o + m] == b[o..o + m]
  {
  }

  lemma SliceFront(h: Bytes, b: Bytes)
    ensures (h + b)[0..|h|] == h
  {
  }

  lemma {:induction false} OffsetIs(pkts: seq<Bytes>, hdr: nat, seg: nat, i: nat)
    requires (forall s :: s in pkts ==> hdr <= |s|) && i < |pkts|
    requires forall j :: 0 <= j < |pkts| - 1 ==> |pkts[j]| - hdr == seg
    ensures Offset(pkts, hdr, i) == i * seg
  {
    if i > 0 {
      OffsetIs(pkts[1..], hdr, seg, i - 1);
      assert i * seg == (i - 1) * seg + seg;
    }
  }

  // ----- coalescing then segmenting

  lemma SuperContents(pkts: seq<Bytes>, isTCP: bool)
    requires IsRun(pkts, isTCP)
    ensures |pkts| >= 1
    ensures var f := Parse(pkts[0], isTCP);
            var hdr, s := f.ipHdr + f.l4Hdr, Super(pkts, isTCP);
            && f.Flow? && hdr < |pkts[0]| && hdr <= |s| && (forall q :: q in pkts ==> hdr <= |q|)
            && s[hdr..] == Bodies(pkts, hdr)
            && (forall k :: 0 <= k < hdr && !Exempt(f, isTCP, k) ==> s[k] == pkts[0][k])
            && (isTCP ==> s[f.ipHdr + 13] == OrPsh(pkts[0][f.ipHdr + 13], Parse(pkts[|pkts| - 1], isTCP).flags)
                          && forall k :: f.ipHdr + 4 <= k < f.ipHdr + 8 ==> s[k] == pkts[0][k])
  {
    hide Parse, SuperLead, IsRun, Bodies;
    RunLeads(pkts, isTCP);
    RunSizes(pkts, isTCP);
    FlowSizes(pkts[0], isTCP);
    var f := Parse(pkts[0], isTCP);
    var hdr := f.ipHdr + f.l4Hdr;
    var l4Len := f.l4Hdr + |Bodies(pkts, hdr)|;
    var last := Parse(pkts[|pkts| - 1], isTCP).flags;
    SuperLeadKeeps(pkts[0], f, isTCP, l4Len, last);
    var lead := SuperLead(pkts[0], f, isTCP, l4Len, last);
    BodiesUnfold(pkts, hdr);
    Tailed(pkts[0], lead, Bodies(pkts[1..], hdr), hdr);
  }

  lemma BodiesUnfold(pkts: seq<Bytes>, hdr: nat)
    requires pkts != [] && forall s :: s in pkts ==> hdr <= |s|
    ensures Bodies(pkts, hdr) == pkts[0][hdr..] + Bodies(pkts[1..], hdr)
  {
  }

  lemma Tailed(lead: Bytes, changed: Bytes, tail: Bytes, hdr: nat)
    requires |changed| == |lead| && hdr <= |lead| && forall k :: hdr <= k < |lead| ==> changed[k] == lead[k]
    ensures (changed + tail)[hdr..] == lead[hdr..] + tail
    ensures forall k :: 0 <= k < |lead| ==> (changed + tail)[k] == changed[k]
  {
  }

  /** The plan load makes for a packet with the headers of the lead. */
  lemma PlanLikeLead(lead: Bytes, s: Bytes, isTCP: bool)
    requires Parse(lead, isTCP).Flow?
    requires var f := Parse(lead, isTCP);
             && f.ipHdr + f.l4Hdr < |s|
             && (forall k :: 0 <= k < f.ipHdr + f.l4Hdr && !Exempt(f, isTCP, k) ==> s[k] == lead[k])
             && (isTCP ==> forall k :: f.ipHdr + 4 <= k < f.ipHdr + 8 ==> s[k] == lead[k])
    ensures |s| >= 1
    ensures var f := Parse(lead, isTCP);
            var p := MakePlan(s, isTCP, f.payload);
            && p.Plan? && p.v6 == f.v6 && p.isTCP == isTCP && p.ipHdr == f.ipHdr && p.l4Hdr == f.l4Hdr && p.gso == f.payload
            && (isTCP ==> p.baseSeq == f.seqNo && p.flags == s[f.ipHdr + 13])
            && Cuttable(s, p) && V6(s) == f.v6
  {
    hide V6L4, Parse, Get16, Get32;
    FlowSizes(lead, isTCP);
    LengthFields(lead, isTCP);
    HeaderSizes(lead, isTCP);
    var f := Parse(lead, isTCP);
    LeadShape(lead, s, isTCP);
    FieldRange(s, 4);
    if isTCP {
      assert s[f.ipHdr + 12] == lead[f.ipHdr + 12];
      LongSame(s, lead, f.ipHdr + 4);
    }
  }

  lemma HeaderSizes(pkt: Bytes, isTCP: bool)
    requires Parse(pkt, isTCP).Flow?
    ensures var f := Parse(pkt, isTCP);
            && (!f.v6 ==> f.ipHdr == pkt[0] % 16 * 4)
            && (isTCP ==> f.l4Hdr == pkt[f.ipHdr + 12] / 16 * 4)
            && (!isTCP ==> f.l4Hdr == 8)
  {
    hide V6L4;
  }

  /** Same version, and for IPv6 the same walk over the extension headers. */
  lemma LeadShape(lead: Bytes, s: Bytes, isTCP: bool)
    requires Parse(lead, isTCP).Flow?
    requires var f := Parse(lead, isTCP);
             f.ipHdr < |s| && forall k :: 0 <= k < f.ipHdr && !(if f.v6 then 4 <= k < 6 else 2 <= k < 6 || 10 <= k < 12) ==> s[k] == lead[k]
    ensures var f := Parse(lead, isTCP);
            && s[0] == lead[0] && V6(s) == f.v6 && f.ipHdr % 4 == 0
            && (f.v6 ==> V6L4(s) == L4(f.ipHdr, if isTCP then TCP else UDP))
  {
    hide V6Walk, Get16, Get32;
    var f := Parse(lead, isTCP);
    if f.v6 {
      V6L4Prefix(lead, s);
      V6Aligned(s, s[6], 40);
    }
  }

  /** The octets that may differ after a round trip: the IPv4 ID and the checksums. */
  predicate Unkept(f: Flow, isTCP: bool, k: nat)
    requires f.Flow?
  {
    || (!f.v6 && (4 <= k < 6 || 10 <= k < 12))
    || (f.ipHdr + CsumOff(isTCP) <= k < f.ipHdr + CsumOff(isTCP) + 2)
  }

  predicate SamePacket(r: Bytes, pkt: Bytes, isTCP: bool)
    requires Parse(pkt, isTCP).Flow?
  {
    |r| == |pkt| && forall k :: 0 <= k < |pkt| && !Unkept(Parse(pkt, isTCP), isTCP, k) ==> r[k] == pkt[k]
  }

  lemma WordInjective(a: Octet, b: Octet, c: Octet, d: Octet)
    requires Word(a, b) == Word(c, d)
    ensures a == c && b == d
  {
  }

  /** A segment with the headers, fields and payload of a packet of the run is that packet. */
  lemma SameFields(r: Bytes, pkt: Bytes, isTCP: bool)
    requires Parse(pkt, isTCP).Flow? && |r| == |pkt|
    requires var f := Parse(pkt, isTCP);
             && (forall k :: 0 <= k < |pkt| && !Exempt(f, isTCP, k) ==> r[k] == pkt[k])
             && (if f.v6 then Get16(r, 4) == |pkt| - 40 else Get16(r, 2) == |pkt|)
             && (if isTCP then Get32(r, f.ipHdr + 4) == f.seqNo && r[f.ipHdr + 13] == f.flags
                 else Get16(r, f.ipHdr + 4) == |pkt| - f.ipHdr)
    ensures SamePacket(r, pkt, isTCP)
  {
    hide Parse, Get16, Get32;
    FlowSizes(pkt, isTCP);
    LengthFields(pkt, isTCP);
    var f := Parse(pkt, isTCP);
    if f.v6 { SameWord(r, pkt, 4); } else { SameWord(r, pkt, 2); }
    if isTCP { SameLong(r, pkt, f.ipHdr + 4); } else { SameWord(r, pkt, f.ipHdr + 4); }
  }

  lemma SameWord(r: Bytes, pkt: Bytes, o: nat)
    requires o + 2 <= |r| && o + 2 <= |pkt| && Get16(r, o) == Get16(pkt, o)
    ensures r[o] == pkt[o] && r[o + 1] == pkt[o + 1]
  {
    WordInjective(r[o], r[o + 1], pkt[o], pkt[o + 1]);
  }

  lemma SameLong(r: Bytes, pkt: Bytes, o: nat)
    requires o + 4 <= |r| && o + 4 <= |pkt| && Get32(r, o) == Get32(pkt, o)
    ensures forall k :: o <= k < o + 4 ==> r[k] == pkt[k]
  {
    GetBeInjective(r[o..o + 4], pkt[o..o + 4]);
    forall k | o <= k < o + 4 ensures r[k] == pkt[k] {
      assert r[k] == r[o..o + 4][k - o] == pkt[o..o + 4][k - o];
    }
  }

  lemma {:induction false} CutLength(s: Bytes, p: Plan, n: nat, last: nat, i: nat)
    requires Cuttable(s, p) && i < n && 0 < last <= p.gso && |Payload(s, p)| == Start(p, n - 1) + last
    ensures |Cut(s, p, Start(p, i), i)| == n - i && Start(p, i) < |Payload(s, p)|
    decreases n - i
  {
    hide Start, Cut, Seg;
    StartMono(p, i, n - 1);
    CutUnfolds(s, p, Start(p, i), i);
    if i < n - 1 {
      StartNext(p, i);
      StartMono(p, i + 1, n - 1);
      CutLength(s, p, n, last, i + 1);
    }
  }

  lemma StartMono(p: Plan, i: nat, j: nat)
    requires p.Plan? && i <= j
    ensures Start(p, i) <= Start(p, j)
  {
    MulMono(i, j, p.gso);
  }

  // ----- the round trip

  lemma RunMember(pkts: seq<Bytes>, isTCP: bool, i: nat)
    requires IsRun(pkts, isTCP) && i < |pkts|
    ensures var f, s := Parse(pkts[0], isTCP), Parse(pkts[i], isTCP);
            && f.Flow? && s.Flow? && s.v6 == f.v6 && s.ipHdr == f.ipHdr && s.l4Hdr == f.l4Hdr
            && SameHeaders(pkts[0], pkts[i], f, s, isTCP)
            && (isTCP ==> s.seqNo == SeqAt(pkts[0], isTCP, i) && s.flags == if s.flags / 8 % 2 == 1 then 24 else ACK)
            && (isTCP && i < |pkts| - 1 ==> s.flags == ACK)
            && (isTCP ==> f.flags == ACK)
  {
    hide IpShape, Ahead, V6L4;
    if i > 0 {
      assert Follows(pkts[0], pkts[i], isTCP, SeqAt(pkts[0], isTCP, i));
      if i < |pkts| - 1 { assert !Stops(pkts[0], pkts[i], isTCP); }
    } else {
      SeqBound(pkts[0], isTCP);
      AheadZero(Parse(pkts[0], isTCP).seqNo, Parse(pkts[0], isTCP).payload);
    }
  }

  lemma LengthFields(pkt: Bytes, isTCP: bool)
    requires Parse(pkt, isTCP).Flow?
    ensures var f := Parse(pkt, isTCP);
            && |pkt| < 0x1_0000 + 40
            && (if f.v6 then Get16(pkt, 4) == |pkt| - 40 else Get16(pkt, 2) == |pkt|)
            && (!isTCP ==> Get16(pkt, f.ipHdr + 4) == |pkt| - f.ipHdr)
            && (isTCP ==> f.flags == pkt[f.ipHdr + 13] && f.seqNo == Get32(pkt, f.ipHdr + 4))
            && (!isTCP ==> f.l4Hdr == 8)
  {
    hide V6L4;
  }

  /** A segment whose copied octets, fields and payload share are those of a packet is that packet. */
  lemma Assembled(s: Bytes, p: Plan, off: nat, i: nat, pkt: Bytes, isTCP: bool)
    requires p.Plan? && Cuttable(s, p) && off < |Payload(s, p)| && Parse(pkt, isTCP).Flow?
    requires var f := Parse(pkt, isTCP);
             && p.v6 == f.v6 && p.ipHdr == f.ipHdr && p.l4Hdr == f.l4Hdr && p.isTCP == isTCP
             && p.HdrLen() <= |pkt| && Payload(s, p)[off..End(s, p, off)] == pkt[p.HdrLen()..]
             && (forall k :: 0 <= k < p.HdrLen() && !Exempt(f, isTCP, k) ==> !Rewritten(p, k) && s[k] == pkt[k])
             && (isTCP ==> f.seqNo == (p.baseSeq + off) % 0x1_0000_0000)
             && (isTCP ==> f.flags == if End(s, p, off) == |Payload(s, p)| then p.flags else ClearFinPsh(p.flags))
    ensures SamePacket(Seg(s, p, off, i), pkt, isTCP)
  {
    hide Parse, Seg, SamePacket, Exempt, Rewritten, Cuttable, ClearFinPsh, V6L4, Get16, Get32;
    FlowSizes(pkt, isTCP);
    LengthFields(pkt, isTCP);
    SegContents(s, p, off, i);
    var r, hdr := Seg(s, p, off, i), p.HdrLen();
    assert |r| == |pkt|;
    Copied(s, r, pkt, p, Parse(pkt, isTCP));
    SameFields(r, pkt, isTCP);
  }

  lemma Copied(s: Bytes, r: Bytes, pkt: Bytes, p: Plan, f: Flow)
    requires p.Plan? && f.Flow? && |r| == |pkt| && p.HdrLen() <= |pkt| && p.HdrLen() <= |s|
    requires r[p.HdrLen()..] == pkt[p.HdrLen()..]
    requires forall k :: 0 <= k < p.HdrLen() && !Rewritten(p, k) ==> r[k] == s[k]
    requires forall k :: 0 <= k < p.HdrLen() && !Exempt(f, p.isTCP, k) ==> !Rewritten(p, k) && s[k] == pkt[k]
    ensures forall k :: 0 <= k < |pkt| && !Exempt(f, p.isTCP, k) ==> r[k] == pkt[k]
  {
    hide Rewritten, Exempt;
    var hdr := p.HdrLen();
    forall k | 0 <= k < |pkt| && !Exempt(f, p.isTCP, k) ensures r[k] == pkt[k] {
      if k >= hdr { assert r[k] == r[hdr..][k - hdr] == pkt[hdr..][k - hdr]; }
    }
  }

  /** The plan load makes for the super-packet of a run. */
  ghost predicate PlanFits(pkts: seq<Bytes>, isTCP: bool, p: Plan)
    requires IsRun(pkts, isTCP)
  {
    RunLeads(pkts, isTCP);
    var f := Parse(pkts[0], isTCP);
    && p.Plan? && p.v6 == f.v6 && p.isTCP == isTCP && p.ipHdr == f.ipHdr && p.l4Hdr == f.l4Hdr && p.gso == f.payload
    && (isTCP ==> p.baseSeq == f.seqNo && p.flags == OrPsh(ACK, Parse(pkts[|pkts| - 1], isTCP).flags))
    && Cuttable(Super(pkts, isTCP), p)
  }

  /** Segment i of the super-packet is packet i of the run. */
  lemma SegmentIsPacket(pkts: seq<Bytes>, isTCP: bool, p: Plan, i: nat)
    requires IsRun(pkts, isTCP) && i < |pkts| && PlanFits(pkts, isTCP, p)
    requires Start(p, i) < |Payload(Super(pkts, isTCP), p)|
    ensures Parse(pkts[i], isTCP).Flow?
    ensures SamePacket(Seg(Super(pkts, isTCP), p, Start(p, i), i), pkts[i], isTCP)
  {
    hide IsRun, Parse, Super, Seg, SameHeaders, SeqAt, SamePacket, Cuttable, Exempt, Rewritten, Start, Payload;
    RunLeads(pkts, isTCP);
    RunMember(pkts, isTCP, i);
    RunMember(pkts, isTCP, |pkts| - 1);
    SegmentShare(pkts, isTCP, p, i);
    SuperContents(pkts, isTCP);
    SegmentHeader(pkts, isTCP, p, i);
    if isTCP { SeqMatches(pkts, isTCP, p, i); }
    Assembled(Super(pkts, isTCP), p, Start(p, i), i, pkts[i], isTCP);
  }

  /** The payload share of segment i is the payload of packet i, and only the last one ends the payload. */
  lemma SegmentShare(pkts: seq<Bytes>, isTCP: bool, p: Plan, i: nat)
    requires IsRun(pkts, isTCP) && i < |pkts| && Parse(pkts[0], isTCP).Flow?
    requires var f := Parse(pkts[0], isTCP); p.Plan? && p.ipHdr == f.ipHdr && p.l4Hdr == f.l4Hdr && p.gso == f.payload
    requires Cuttable(Super(pkts, isTCP), p) && Start(p, i) < |Payload(Super(pkts, isTCP), p)|
    ensures var s := Super(pkts, isTCP);
            var end := End(s, p, Start(p, i));
            && p.HdrLen() <= |pkts[i]| && Payload(s, p)[Start(p, i)..end] == pkts[i][p.HdrLen()..]
            && (end == |Payload(s, p)| <==> i == |pkts| - 1)
  {
    hide IsRun, Parse, Super, Cuttable;
    var hdr := p.HdrLen();
    RunSizes(pkts, isTCP);
    SuperContents(pkts, isTCP);
    OffsetIs(pkts, hdr, p.gso, i);
    BodiesAt(pkts, hdr, i);
    LastOnly(pkts, isTCP, hdr, i);
  }

  /** The header octets that are copied are those of packet i. */
  lemma SegmentHeader(pkts: seq<Bytes>, isTCP: bool, p: Plan, i: nat)
    requires IsRun(pkts, isTCP) && i < |pkts| && Parse(pkts[0], isTCP).Flow? && Parse(pkts[i], isTCP).Flow?
    requires var f := Parse(pkts[0], isTCP); p.Plan? && p.v6 == f.v6 && p.isTCP == isTCP && p.ipHdr == f.ipHdr && p.l4Hdr == f.l4Hdr
    requires p.HdrLen() <= |Super(pkts, isTCP)| && p.HdrLen() <= |pkts[i]|
    ensures forall k :: 0 <= k < p.HdrLen() && !Exempt(Parse(pkts[i], isTCP), isTCP, k) ==>
              !Rewritten(p, k) && Super(pkts, isTCP)[k] == pkts[i][k]
  {
    hide IsRun, Parse, Super, SameHeaders;
    SuperContents(pkts, isTCP);
    RunMember(pkts, isTCP, i);
    forall k | 0 <= k < p.HdrLen() && !Exempt(Parse(pkts[i], isTCP), isTCP, k)
      ensures !Rewritten(p, k) && Super(pkts, isTCP)[k] == pkts[i][k]
    {
      SameHeaderBytes(pkts[0], pkts[i], isTCP, k);
    }
  }

  lemma SeqMatches(pkts: seq<Bytes>, isTCP: bool, p: Plan, i: nat)
    requires |pkts| >= 1 && Parse(pkts[0], isTCP).Flow? && p.Plan? && p.gso == Parse(pkts[0], isTCP).payload
    requires p.baseSeq == Parse(pkts[0], isTCP).seqNo
    ensures SeqAt(pkts[0], isTCP, i) == (p.baseSeq + Start(p, i)) % 0x1_0000_0000
  {
    hide Parse;
  }

  /** Only the last packet of a run reaches the end of the joined payloads. */
  lemma LastOnly(pkts: seq<Bytes>, isTCP: bool, hdr: nat, i: nat)
    requires IsRun(pkts, isTCP) && i < |pkts| && Parse(pkts[0], isTCP).Flow?
    requires hdr == Parse(pkts[0], isTCP).ipHdr + Parse(pkts[0], isTCP).l4Hdr
    ensures forall s :: s in pkts ==> hdr <= |s|
    ensures Offset(pkts, hdr, i) + |pkts[i]| - hdr == |Bodies(pkts, hdr)| <==> i == |pkts| - 1
    ensures Offset(pkts, hdr, i) + Parse(pkts[0], isTCP).payload >= |Bodies(pkts, hdr)| <==> i == |pkts| - 1
  {
    hide IsRun, Parse, Bodies;
    RunSizes(pkts, isTCP);
    BodiesAt(pkts, hdr, i);
    if i < |pkts| - 1 {
      var seg := Parse(pkts[0], isTCP).payload;
      OffsetIs(pkts, hdr, seg, i);
      OffsetIs(pkts, hdr, seg, i + 1);
      BodiesAt(pkts, hdr, i + 1);
      assert (i + 1) * seg == i * seg + seg;
    }
  }

  /**
   Coalescing then segmenting is the identity: the super-packet of a run, cut at its
   segment size, gives the packets of the run back in order, equal in every octet
   except the IPv4 ID and the checksums.
   */
  lemma RoundTrip(pkts: seq<Bytes>, isTCP: bool)
    requires IsRun(pkts, isTCP)
    ensures var s := Super(pkts, isTCP);
            && |s| >= 1
            && var p := MakePlan(s, isTCP, Parse(pkts[0], isTCP).payload);
               && Cuttable(s, p) && |Cut(s, p, 0, 0)| == |pkts|
               && forall i :: 0 <= i < |pkts| ==>
                    Parse(pkts[i], isTCP).Flow? && SamePacket(Cut(s, p, 0, 0)[i], pkts[i], isTCP)
  {
    hide IsRun, Parse, Super, Seg, Cut, SameHeaders, SamePacket, MakePlan, Cuttable, Start, Payload;
    var s := Super(pkts, isTCP);
    RunSizes(pkts, isTCP);
    SuperContents(pkts, isTCP);
    BodiesNonempty(pkts, isTCP);
    PlanLikeLead(pkts[0], s, isTCP);
    RunMember(pkts, isTCP, 0);
    LengthFields(pkts[0], isTCP);
    var f := Parse(pkts[0], isTCP);
    var p := MakePlan(s, isTCP, f.payload);
    var n := |pkts|;
    PayloadIs(pkts, isTCP, p);
    CutLength(s, p, n, |pkts[n - 1]| - p.HdrLen(), 0);
    StartZero(p);
    forall i | 0 <= i < n
      ensures Parse(pkts[i], isTCP).Flow? && SamePacket(Cut(s, p, 0, 0)[i], pkts[i], isTCP)
    {
      CutAt(s, p, 0, i);
      SegmentIsPacket(pkts, isTCP, p, i);
    }
  }

  lemma StartZero(p: Plan)
    requires p.Plan?
    ensures Start(p, 0) == 0
  {
  }

  lemma BodiesNonempty(pkts: seq<Bytes>, isTCP: bool)
    requires IsRun(pkts, isTCP)
    ensures var f := Parse(pkts[0], isTCP); f.Flow? && f.ipHdr + f.l4Hdr < |Super(pkts, isTCP)|
  {
    hide IsRun, Parse, Super;
    RunSizes(pkts, isTCP);
    SuperContents(pkts, isTCP);
    var f := Parse(pkts[0], isTCP);
    BodiesAt(pkts, f.ipHdr + f.l4Hdr, 0);
  }

  lemma PayloadIs(pkts: seq<Bytes>, isTCP: bool, p: Plan)
    requires IsRun(pkts, isTCP) && Parse(pkts[0], isTCP).Flow? && Cuttable(Super(pkts, isTCP), p)
    requires var f := Parse(pkts[0], isTCP); p.ipHdr == f.ipHdr && p.l4Hdr == f.l4Hdr && p.gso == f.payload
    ensures var last := |pkts[|pkts| - 1]| - p.HdrLen();
            0 < last <= p.gso && |Payload(Super(pkts, isTCP), p)| == Start(p, |pkts| - 1) + last
  {
    hide IsRun, Parse, Super;
    RunSizes(pkts, isTCP);
    SuperContents(pkts, isTCP);
    OffsetIs(pkts, p.HdrLen(), p.gso, |pkts| - 1);
    BodiesAt(pkts, p.HdrLen(), |pkts| - 1);
  }

  // ----- the header of the super-packet

  lemma {:induction false} OffsetNext(pkts: seq<Bytes>, hdr: nat, i: nat)
    requires (forall s :: s in pkts ==> hdr <= |s|) && i < |pkts|
    ensures Offset(pkts, hdr, i + 1) == Offset(pkts, hdr, i) + |pkts[i]| - hdr
  {
    if i > 0 { OffsetNext(pkts[1..], hdr, i - 1); }
  }

  lemma {:induction false} TotalIs(pkts: seq<Bytes>, isTCP: bool, hdr: nat, m: nat)
    requires 1 <= m <= |pkts| && forall s :: s in pkts ==> hdr <= |s|
    requires forall i :: 0 <= i < |pkts| ==> Parse(pkts[i], isTCP).Flow? && Parse(pkts[i], isTCP).payload == |pkts[i]| - hdr
    ensures TotalLen(pkts[..m], isTCP) == hdr + Offset(pkts, hdr, m)
  {
    hide Parse;
    OffsetNext(pkts, hdr, m - 1);
    if m > 1 {
      TotalIs(pkts, isTCP, hdr, m - 1);
      TotalGrows(pkts, m - 1, isTCP);
    }
  }

  lemma SuperLength(pkts: seq<Bytes>, isTCP: bool)
    requires IsRun(pkts, isTCP) && |pkts| >= 2
    ensures |Super(pkts, isTCP)| == TotalLen(pkts, isTCP) <= MAX_BYTES
  {
    hide Parse, IsRun, Super, TotalLen, Offset, Bodies, Exempt;
    SuperContents(pkts, isTCP);
    BodiesTotal(pkts, isTCP);
    RunTotal(pkts, isTCP);
  }

  lemma BodiesTotal(pkts: seq<Bytes>, isTCP: bool)
    requires IsRun(pkts, isTCP)
    ensures |pkts| >= 1 && Parse(pkts[0], isTCP).Flow?
    ensures var hdr := Parse(pkts[0], isTCP).ipHdr + Parse(pkts[0], isTCP).l4Hdr;
            (forall s :: s in pkts ==> hdr <= |s|) && TotalLen(pkts, isTCP) == hdr + |Bodies(pkts, hdr)|
  {
    hide Parse, IsRun, TotalLen, Offset, Bodies;
    RunSizes(pkts, isTCP);
    PayloadSizes(pkts, isTCP);
    var n, hdr := |pkts|, Parse(pkts[0], isTCP).ipHdr + Parse(pkts[0], isTCP).l4Hdr;
    TotalIs(pkts, isTCP, hdr, n);
    assert pkts[..n] == pkts;
    OffsetEnds(pkts, hdr);
  }

  lemma OffsetEnds(pkts: seq<Bytes>, hdr: nat)
    requires pkts != [] && forall s :: s in pkts ==> hdr <= |s|
    ensures Offset(pkts, hdr, |pkts|) == |Bodies(pkts, hdr)|
  {
    hide Offset, Bodies;
    BodiesAt(pkts, hdr, |pkts| - 1);
    OffsetNext(pkts, hdr, |pkts| - 1);
  }

  lemma PayloadSizes(pkts: seq<Bytes>, isTCP: bool)
    requires IsRun(pkts, isTCP)
    ensures |pkts| >= 1 && Parse(pkts[0], isTCP).Flow?
    ensures var hdr := Parse(pkts[0], isTCP).ipHdr + Parse(pkts[0], isTCP).l4Hdr;
            forall i :: 0 <= i < |pkts| ==> Parse(pkts[i], isTCP).Flow? && Parse(pkts[i], isTCP).payload == |pkts[i]| - hdr
  {
    hide Parse, IsRun, SameHeaders, SeqAt;
    RunLeads(pkts, isTCP);
    var hdr := Parse(pkts[0], isTCP).ipHdr + Parse(pkts[0], isTCP).l4Hdr;
    forall i | 0 <= i < |pkts| ensures Parse(pkts[i], isTCP).Flow? && Parse(pkts[i], isTCP).payload == |pkts[i]| - hdr {
      RunMember(pkts, isTCP, i);
      FlowSizes(pkts[i], isTCP);
    }
  }

  /** The lengths in the super-packet are its own, and its IPv4 header checksum verifies. */
  lemma SuperHeader(pkts: seq<Bytes>, isTCP: bool)
    requires IsRun(pkts, isTCP) && |pkts| >= 2
    ensures var f, s := Parse(pkts[0], isTCP), Super(pkts, isTCP);
            && f.Flow? && f.ipHdr + f.l4Hdr < |s| <= MAX_BYTES
            && (if f.v6 then Get16(s, 4) == |s| - 40 else Get16(s, 2) == |s| && Sum16(s[..f.ipHdr], 0) == 0xffff)
            && (!isTCP ==> Get16(s, f.ipHdr + 4) == |s| - f.ipHdr)
  {
    hide Parse, IsRun, SuperLead, Bodies, TotalLen, Sum16;
    RunLeads(pkts, isTCP);
    RunSizes(pkts, isTCP);
    SuperLength(pkts, isTCP);
    SuperContents(pkts, isTCP);
    BodiesNonempty(pkts, isTCP);
    FlowSizes(pkts[0], isTCP);
    var f := Parse(pkts[0], isTCP);
    var l4Len, last := f.l4Hdr + |Bodies(pkts, f.ipHdr + f.l4Hdr)|, Parse(pkts[|pkts| - 1], isTCP).flags;
    LeadHeader(pkts[0], f, isTCP, l4Len, last);
    assert Super(pkts, isTCP)[..f.ipHdr] == SuperLead(pkts[0], f, isTCP, l4Len, last)[..f.ipHdr];
  }

  /** A super-packet leaves with a seed in its checksum field; once the device has finished it, receivers accept it. */
  lemma SuperFinishes(pkts: seq<Bytes>, isTCP: bool, noZero: bool)
    requires IsRun(pkts, isTCP) && |pkts| >= 2
    ensures var f, s := Parse(pkts[0], isTCP), Super(pkts, isTCP);
            && f.Flow? && f.ipHdr + f.l4Hdr < |s| <= 60000
            && (!f.v6 ==> OnesSum(s[..f.ipHdr], 0) == 0xffff)
            && TransportVerifies(Finished(s, f.ipHdr, if isTCP then 16 else 6, noZero), f.v6, isTCP, f.ipHdr)
  {
    hide Parse, IsRun, Super, Sum16, OnesSum, Finished, TransportVerifies, Words, Norm;
    SuperHeader(pkts, isTCP);
    SuperSeeded(pkts, isTCP);
    RunLeads(pkts, isTCP);
    FlowSizes(pkts[0], isTCP);
    var f, s := Parse(pkts[0], isTCP), Super(pkts, isTCP);
    ShortFits(f.v6, |s| - f.ipHdr);
    SeedFinishes(s, f.v6, isTCP, f.ipHdr, noZero);
    if !f.v6 {
      OnesSumIsNorm(s[..f.ipHdr], 0);
      SumFromZero(s[..f.ipHdr]);
    }
  }

  /** The seed of the super-packet. */
  lemma SuperSeeded(pkts: seq<Bytes>, isTCP: bool)
    requires IsRun(pkts, isTCP) && |pkts| >= 2
    ensures var f, s := Parse(pkts[0], isTCP), Super(pkts, isTCP);
            && f.Flow? && f.ipHdr + f.l4Hdr < |s|
            && Get16(s, f.ipHdr + CsumOff(isTCP)) == PseudoSum(s, f.v6, if isTCP then TCP else UDP, |s| - f.ipHdr)
  {
    hide Parse, IsRun, SuperLead, Bodies, Words, Norm;
    RunLeads(pkts, isTCP);
    RunSizes(pkts, isTCP);
    SuperContents(pkts, isTCP);
    BodiesNonempty(pkts, isTCP);
    FlowSizes(pkts[0], isTCP);
    var f := Parse(pkts[0], isTCP);
    var l4Len, last := f.l4Hdr + |Bodies(pkts, f.ipHdr + f.l4Hdr)|, Parse(pkts[|pkts| - 1], isTCP).flags;
    LeadSeeded(pkts[0], f, isTCP, l4Len, last);
    var lead, s := SuperLead(pkts[0], f, isTCP, l4Len, last), Super(pkts, isTCP);
    assert forall k :: 0 <= k < |lead| ==> s[k] == lead[k];
    assert Addrs(s, f.v6) == Addrs(lead, f.v6);
  }

  lemma LeadSeeded(lead: Bytes, f: Flow, isTCP: bool, l4Len: nat, lastFlags: Octet)
    requires f == Parse(lead, isTCP) && f.Flow?
    ensures var r, o := SuperLead(lead, f, isTCP, l4Len, lastFlags), f.ipHdr + CsumOff(isTCP);
            o + 2 <= |r| && Get16(r, o) == PseudoSum(r, f.v6, if isTCP then TCP else UDP, l4Len)
  {
    hide Words, Norm, Parse, SuperIp, PseudoSum, Splice, Put16, OrPsh;
    FlowSizes(lead, isTCP);
    var a := SuperIp(lead, f, l4Len);
    var b := if isTCP then Splice(a, f.ipHdr + 13, [OrPsh(a[f.ipHdr + 13], lastFlags)])
             else Splice(a, f.ipHdr + 4, Put16(l4Len % 0x1_0000));
    var r := SuperLead(lead, f, isTCP, l4Len, lastFlags);
    SeedPut(b, f.v6, f.ipHdr + CsumOff(isTCP), PseudoSum(b, f.v6, if isTCP then TCP else UDP, l4Len));
    SameAddresses(b, r, f.v6, if isTCP then TCP else UDP, l4Len);
  }

  lemma SeedPut(b: Bytes, v6: bool, o: nat, x: nat)
    requires o >= (if v6 then 40 else 20) && o + 2 <= |b| && x < 0x1_0000
    ensures var r := Splice(b, o, Put16(x)); Get16(r, o) == x && Addrs(r, v6) == Addrs(b, v6)
  {
    var r := Splice(b, o, Put16(x));
    assert forall k :: 0 <= k < o ==> r[k] == b[k];
  }

  lemma SameAddresses(a: Bytes, b: Bytes, v6: bool, proto: nat, len: nat)
    requires |a| >= (if v6 then 40 else 20) && |b| >= (if v6 then 40 else 20) && Addrs(a, v6) == Addrs(b, v6)
    ensures PseudoSum(a, v6, proto, len) == PseudoSum(b, v6, proto, len)
  {
  }

  /** A field seeded with the pseudo header, finished, makes the transport segment verify. */
  lemma SeedFinishes(s: Bytes, v6: bool, isTCP: bool, ipHdr: nat, noZero: bool)
    requires ipHdr >= (if v6 then 40 else 20) && ipHdr + CsumOff(isTCP) + 2 <= |s| && PseudoFits(v6, |s| - ipHdr)
    requires Get16(s, ipHdr + CsumOff(isTCP)) == PseudoSum(s, v6, if isTCP then TCP else UDP, |s| - ipHdr)
    ensures TransportVerifies(Finished(s, ipHdr, CsumOff(isTCP), noZero), v6, isTCP, ipHdr)
  {
    hide Words, Norm, OnesSum, Finished, Sealed, PseudoOctets;
    var off, len := CsumOff(isTCP), |s| - ipHdr;
    var r, seed := Finished(s, ipHdr, off, noZero), Get16(s, ipHdr + off);
    FinishedSeals(s, ipHdr, off, noZero);
    assert Addrs(r, v6) == Addrs(s, v6);
    NormPositive(Addrs(s, v6), (if isTCP then TCP else UDP) + len);
    SealedVerifies(s[ipHdr..], off, seed, noZero);
    PseudoSums(r, v6, isTCP, len, r[ipHdr..]);
  }

  lemma RunTotal(pkts: seq<Bytes>, isTCP: bool)
    requires IsRun(pkts, isTCP) && |pkts| >= 2
    ensures TotalLen(pkts, isTCP) <= MAX_BYTES
  {
  }

  lemma LeadHeader(lead: Bytes, f: Flow, isTCP: bool, l4Len: nat, lastFlags: Octet)
    requires f == Parse(lead, isTCP) && f.Flow? && f.ipHdr + l4Len < 0x1_0000
    ensures var r := SuperLead(lead, f, isTCP, l4Len, lastFlags);
            && (if f.v6 then Get16(r, 4) == f.ipHdr - 40 + l4Len
                else Get16(r, 2) == f.ipHdr + l4Len && Sum16(r[..f.ipHdr], 0) == 0xffff)
            && (!isTCP ==> Get16(r, f.ipHdr + 4) == l4Len)
  {
    hide Words, Norm, Parse, SuperIp, Sum16, SuperLead;
    FlowSizes(lead, isTCP);
    LeadFirst(lead, isTCP);
    SuperIpHeader(lead, f, l4Len);
    LeadFront(lead, f, isTCP, l4Len, lastFlags);
    var a, r := SuperIp(lead, f, l4Len), SuperLead(lead, f, isTCP, l4Len, lastFlags);
    assert r[..f.ipHdr] == a[..f.ipHdr];
  }

  /** The transport fields leave the IP header alone. */
  lemma LeadFront(lead: Bytes, f: Flow, isTCP: bool, l4Len: nat, lastFlags: Octet)
    requires f == Parse(lead, isTCP) && f.Flow? && f.ipHdr + l4Len < 0x1_0000
    ensures f.ipHdr + 8 <= |lead|
    ensures var a, r := SuperIp(lead, f, l4Len), SuperLead(lead, f, isTCP, l4Len, lastFlags);
            && |r| == |a| == |lead| && (forall k :: 0 <= k < f.ipHdr ==> r[k] == a[k])
            && (!isTCP ==> Get16(r, f.ipHdr + 4) == l4Len)
  {
    hide Words, Norm, Parse, SuperIp, Sum16, PseudoSum;
    FlowSizes(lead, isTCP);
    SuperIpKeeps(lead, f, l4Len);
  }

  lemma LeadFirst(lead: Bytes, isTCP: bool)
    requires Parse(lead, isTCP).Flow?
    ensures |lead| >= 20 && lead[0] > 0
  {
    hide V6L4;
  }

  lemma SuperIpHeader(lead: Bytes, f: Flow, l4Len: nat)
    requires f.Flow? && f.ipHdr <= |lead| && (if f.v6 then 40 <= f.ipHdr else 20 <= f.ipHdr) && lead[0] > 0
    requires f.ipHdr + l4Len < 0x1_0000
    ensures var r := SuperIp(lead, f, l4Len);
            if f.v6 then Get16(r, 4) == f.ipHdr - 40 + l4Len
            else Get16(r, 2) == f.ipHdr + l4Len && Sum16(r[..f.ipHdr], 0) == 0xffff
  {
    hide Words, Norm, Sealed, Sum16, Splice, Put16;
    var s := WithField(lead, if f.v6 then 4 else 2, if f.v6 then f.ipHdr - 40 + l4Len else f.ipHdr + l4Len);
    if !f.v6 {
      var h := s[..f.ipHdr];
      var z := Sealed(h, 10, 0, false);
      SealedKeeps(h, 10, 0, false);
      HeaderVerifies(h);
      var r := SuperIp(lead, f, l4Len);
      assert r == z + s[f.ipHdr..];
      assert (z + s[f.ipHdr..])[..f.ipHdr] == z;
      assert r[2] == z[2] && r[3] == z[3];
    }
  }

  lemma WithField(lead: Bytes, off: nat, x: nat) returns (s: Bytes)
    requires 2 <= off && off + 2 <= |lead| && x < 0x1_0000
    ensures s == Splice(lead, off, Put16(x)) && |s| == |lead| && s[0] == lead[0] && Get16(s, off) == x
  {
    s := Splice(lead, off, Put16(x));
  }

  // ----- writing

  datatype Vnet = Vnet(gsoType: nat, hdrLen: nat, gsoSize: nat, csumStart: nat, csumOffset: nat)

  /** The payloads of the packets after the lead, in order. */
  method JoinTail(rest: seq<Bytes>, hdrLen: nat) returns (tail: Bytes)
    requires forall s :: s in rest ==> hdrLen <= |s|
    ensures tail == Bodies(rest, hdrLen)
  {
    hide Bodies;
    tail := [];
    for i := 0 to |rest|
      invariant tail + Bodies(rest[i..], hdrLen) == Bodies(rest, hdrLen)
    {
      BodiesUnfold(rest[i..], hdrLen);
      assert rest[i..][1..] == rest[i + 1..];
      tail := tail + rest[i][hdrLen..];
    }
    BodiesEmpty(hdrLen);
    assert rest[|rest|..] == [];
  }

  lemma BodiesEmpty(hdrLen: nat)
    ensures Bodies([], hdrLen) == []
  {
  }

  function GsoType(isTCP: bool, v6: bool): (t: nat) {
    if !isTCP then GSO_UDP else if v6 then GSO_TCPV6 else GSO_TCPV4
  }

  /** The GSO type written by writeSuper is the one load dispatches on. */
  lemma GsoTypeLoads(s: Bytes, isTCP: bool, v6: bool, seg: nat)
    requires |s| >= 1
    ensures Load(s, seg, GsoType(isTCP, v6)) == MakePlan(s, isTCP, seg)
  {
    hide MakePlan;
  }

  /** writeSuper: rewrites the lead packet in place and writes it with the payloads of the others. */
  method WriteSuper(lead: array<Octet>, rest: seq<Bytes>, segSize: nat, isTCP: bool) returns (vnet: Vnet, written: Bytes)
    requires IsRun([lead[..]] + rest, isTCP) && segSize == Parse(lead[..], isTCP).payload
    modifies lead
    ensures written == Super([old(lead[..])] + rest, isTCP)
    ensures |written| >= 1 && Load(written, vnet.gsoSize, vnet.gsoType) == MakePlan(written, isTCP, segSize)
    ensures var f := Parse(old(lead[..]), isTCP);
            && vnet.gsoSize == segSize && vnet.hdrLen == f.ipHdr + f.l4Hdr
            && vnet.gsoType == (if !isTCP then 5 else if f.v6 then 4 else 1)
            && vnet.csumStart == f.ipHdr && vnet.csumOffset == (if isTCP then 16 else 6)
    ensures rest != [] ==> Accepted(written, vnet, Parse(old(lead[..]), isTCP).v6, isTCP)
  {
    hide Parse, IsRun, MakePlan, Load, SuperLead, Bodies;
    ghost var pkts := [lead[..]] + rest;
    RunLeads(pkts, isTCP);
    RunSizes(pkts, isTCP);
    BodiesNonempty(pkts, isTCP);
    var f := Parse(lead[..], isTCP);
    var hdrLen := f.ipHdr + f.l4Hdr;
    var lastFlags := if rest == [] then f.flags else Parse(rest[|rest| - 1], isTCP).flags;
    assert pkts[1..] == rest;
    var tail := JoinTail(rest, hdrLen);
    BodiesUnfold(pkts, hdrLen);
    var l4Len := f.l4Hdr + (lead.Length - hdrLen) + |tail|;
    RunShort(pkts, isTCP, l4Len);
    RewriteLead(lead, f, isTCP, l4Len, lastFlags);
    vnet := Vnet(GsoType(isTCP, f.v6), hdrLen, segSize, f.ipHdr, CsumOff(isTCP));
    written := lead[..] + tail;
    GsoTypeLoads(written, isTCP, f.v6, segSize);
    if rest != [] {
      SuperAccepted(pkts, isTCP, vnet);
      assert pkts[1..] == rest;
    }
  }

  /** What its vnet header makes a device finish, receivers accept. */
  ghost predicate Accepted(s: Bytes, vnet: Vnet, v6: bool, isTCP: bool) {
    && vnet.csumStart + vnet.csumOffset + 2 <= |s| && vnet.csumStart >= (if v6 then 40 else 20)
    && forall noZero ::
         TransportVerifies(Finished(s, vnet.csumStart, vnet.csumOffset, noZero), v6, isTCP, vnet.csumStart)
  }

  lemma SuperAccepted(pkts: seq<Bytes>, isTCP: bool, vnet: Vnet)
    requires IsRun(pkts, isTCP) && |pkts| >= 2 && Parse(pkts[0], isTCP).Flow?
    requires vnet.csumStart == Parse(pkts[0], isTCP).ipHdr && vnet.csumOffset == CsumOff(isTCP)
    ensures Accepted(Super(pkts, isTCP), vnet, Parse(pkts[0], isTCP).v6, isTCP)
  {
    hide Parse, IsRun, Super, Finished, TransportVerifies;
    FlowSizes(pkts[0], isTCP);
    SuperFinishes(pkts, isTCP, true);
    SuperFinishes(pkts, isTCP, false);
    var s, f := Super(pkts, isTCP), Parse(pkts[0], isTCP);
    forall noZero: bool
      ensures TransportVerifies(Finished(s, vnet.csumStart, vnet.csumOffset, noZero), f.v6, isTCP, vnet.csumStart)
    {
      SuperFinishes(pkts, isTCP, noZero);
    }
  }

  lemma RunShort(pkts: seq<Bytes>, isTCP: bool, l4Len: nat)
    requires IsRun(pkts, isTCP) && |pkts| >= 1 && Parse(pkts[0], isTCP).Flow?
    requires var hdr := Parse(pkts[0], isTCP).ipHdr + Parse(pkts[0], isTCP).l4Hdr;
             (forall s :: s in pkts ==> hdr <= |s|) && l4Len == Parse(pkts[0], isTCP).l4Hdr + |Bodies(pkts, hdr)|
    ensures l4Len < W64 - 0x1_0000
  {
    hide Parse, IsRun, TotalLen, Bodies, Super;
    BodiesTotal(pkts, isTCP);
    SuperContents(pkts, isTCP);
    if |pkts| >= 2 {
      SuperLength(pkts, isTCP);
    } else {
      LengthFields(pkts[0], isTCP);
      BodiesOne(pkts, isTCP);
    }
  }

  lemma BodiesOne(pkts: seq<Bytes>, isTCP: bool)
    requires |pkts| == 1
    ensures TotalLen(pkts, isTCP) == |pkts[0]|
  {
  }

  method RewriteLead(lead: array<Octet>, f: Flow, isTCP: bool, l4Len: nat, lastFlags: Octet)
    requires f == Parse(lead[..], isTCP) && f.Flow? && l4Len < W64 - 0x1_0000
    modifies lead
    ensures lead[..] == SuperLead(old(lead[..]), f, isTCP, l4Len, lastFlags)
  {
    hide Parse, Sealed, Splice, Put16, Words, Norm;
    ghost var before := lead[..];
    FlowSizes(lead[..], isTCP);
    var size := lead.Length;
    assert lead[..size] == lead[..];
    RewriteIp(lead, f, l4Len);
    assert lead[..size] == lead[..];
    if isTCP {
      var flags := OrPsh(lead[f.ipHdr + 13], lastFlags);
      PutAt(lead, size, f.ipHdr + 13, [flags]);
    } else {
      PutAt(lead, size, f.ipHdr + 4, Put16(l4Len % 0x1_0000));
    }
    assert lead[..size] == lead[..];
    var sum := PseudoHeader(lead[..], f.v6, if isTCP then TCP else UDP, l4Len);
    PutAt(lead, size, f.ipHdr + CsumOff(isTCP), Put16(sum));
    assert lead[..size] == lead[..];
  }

  method RewriteIp(lead: array<Octet>, f: Flow, l4Len: nat)
    requires f.Flow? && f.ipHdr <= lead.Length && (if f.v6 then 40 <= f.ipHdr else 20 <= f.ipHdr)
    modifies lead
    ensures lead[..] == SuperIp(old(lead[..]), f, l4Len)
  {
    hide Sealed, Splice, Put16, Words, Norm;
    var size := lead.Length;
    assert lead[..size] == lead[..];
    if f.v6 {
      PutAt(lead, size, 4, Put16((f.ipHdr - 40 + l4Len) % 0x1_0000));
    } else {
      PutAt(lead, size, 2, Put16((f.ipHdr + l4Len) % 0x1_0000));
      SealFront(lead, size, f.ipHdr);
    }
    assert lead[..size] == lead[..];
  }

  datatype Write = Single(pkt: Bytes) | Coalesced(run: seq<Bytes>, isTCP: bool)

  function Covered(writes: seq<Write>): (pkts: seq<Bytes>) {
    if writes == [] then []
    else Covered(writes[..|writes| - 1]) +
         match writes[|writes| - 1] { case Single(p) => [p] case Coalesced(run, _) => run }
  }

  /** A coalesced write is a run of two or more packets of an enabled protocol. */
  predicate Proper(w: Write, uso: bool) {
    w.Coalesced? ==> (w.isTCP || uso) && |w.run| >= 2 && IsRun(w.run, w.isTCP)
  }

  /** A write that takes as much off the front of pkts as it can: a TCP run, a UDP run, or else one packet. */
  ghost predicate Greedy(w: Write, pkts: seq<Bytes>, uso: bool) {
    && (|pkts| >= 2 && IsRun(pkts[..2], true) ==> w.Coalesced? && w.isTCP)
    && (|pkts| >= 2 && uso && IsRun(pkts[..2], false) ==> w.Coalesced?)
    && (w.Coalesced? ==> |w.run| <= |pkts| && w.run == pkts[..|w.run|])
    && (w.Coalesced? && |w.run| < |pkts| ==> !IsRun(pkts[..|w.run| + 1], w.isTCP))
  }

  /** One decision of the batch: what leaves next from the front of pkts. */
  method NextWrite(pkts: seq<Bytes>, uso: bool) returns (w: Write, n: nat)
    requires pkts != []
    ensures 1 <= n <= |pkts| && w == if w.Single? then Single(pkts[0]) else Coalesced(pkts[..n], w.isTCP)
    ensures Proper(w, uso) && Greedy(w, pkts, uso) && (w.Single? ==> n == 1)
  {
    hide IsRun;
    var isTCP := true;
    var run, segSize := FindRun(pkts, true);
    if run < 2 && uso {
      run, segSize := FindRun(pkts, false);
      if run >= 2 { isTCP := false; }
    }
    if run < 2 { return Single(pkts[0]), 1; }
    return Coalesced(pkts[..run], isTCP), run;
  }

  /** WriteBatch: every packet leaves exactly once and in order, with offload in runs as long as can be. */
  method WriteBatch(pkts: seq<Bytes>, gso: bool, uso: bool) returns (writes: seq<Write>)
    ensures Covered(writes) == pkts
    ensures forall i :: 0 <= i < |writes| ==> Proper(writes[i], uso) && (!gso ==> writes[i].Single?)
    ensures gso ==> forall i :: 0 <= i < |writes| ==> GreedyAt(writes, i, pkts, uso)
  {
    hide IsRun, Covered, Proper, Greedy;
    writes := [];
    CoveredEmpty();
    var i := 0;
    while i < |pkts|
      invariant i <= |pkts| && Covered(writes) == pkts[..i]
      invariant forall j :: 0 <= j < |writes| ==> Proper(writes[j], uso) && (!gso ==> writes[j].Single?)
      invariant gso ==> forall j :: 0 <= j < |writes| ==> GreedyAt(writes, j, pkts, uso)
    {
      var w, n := Single(pkts[i]), 1;
      if gso {
        w, n := NextWrite(pkts[i..], uso);
        assert pkts[i..][..n] == pkts[i..i + n];
      } else {
        SingleProper(pkts[i], uso);
      }
      Appended(writes, w);
      if gso { GreedyAppended(writes, w, pkts, uso); }
      assert pkts[..i + n] == pkts[..i] + pkts[i..i + n];
      writes, i := writes + [w], i + n;
    }
    assert pkts[..|pkts|] == pkts;
  }

  /** Write i is greedy on what the writes before it left. */
  ghost predicate GreedyAt(writes: seq<Write>, i: nat, pkts: seq<Bytes>, uso: bool)
    requires i < |writes|
  {
    var taken := |Covered(writes[..i])|;
    taken <= |pkts| && Greedy(writes[i], pkts[taken..], uso)
  }

  lemma GreedyAppended(writes: seq<Write>, w: Write, pkts: seq<Bytes>, uso: bool)
    requires forall j :: 0 <= j < |writes| ==> GreedyAt(writes, j, pkts, uso)
    requires |Covered(writes)| <= |pkts| && Greedy(w, pkts[|Covered(writes)|..], uso)
    ensures forall j :: 0 <= j <= |writes| ==> GreedyAt(writes + [w], j, pkts, uso)
  {
    hide Greedy, Covered;
    var more := writes + [w];
    forall j | 0 <= j <= |writes| ensures GreedyAt(more, j, pkts, uso) {
      assert more[..j] == writes[..j];
      assert writes[..|writes|] == writes;
      if j < |writes| { assert GreedyAt(writes, j, pkts, uso); }
    }
  }

  lemma CoveredEmpty()
    ensures Covered([]) == []
  {
  }

  lemma SingleProper(pkt: Bytes, uso: bool)
    ensures Proper(Single(pkt), uso)
  {
  }

  lemma Appended(writes: seq<Write>, w: Write)
    ensures Covered(writes + [w]) == Covered(writes) + match w { case Single(p) => [p] case Coalesced(run, _) => run }
  {
    assert (writes + [w])[..|writes|] == writes;
  }
}
