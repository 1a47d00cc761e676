/** The records of internal/packet/stripe.go and the byte strings made of them. */
module StripeRecord {
  import opened Octets
  import opened Wire

  const REC_HDR := 12
  const MAX_RECORD := 0x10_0000
  /** What the length field can say. */
  const MAX_LENGTH: nat := 0x1_0000_0000
  const W_SEQ: nat := 0x1_0000_0000_0000_0000

  // ----- records

  function Record(seqNo: nat, p: Bytes): (r: Bytes)
    requires seqNo < W_SEQ && |p| < MAX_LENGTH
    ensures |r| == REC_HDR + |p|
  {
    Put64(seqNo) + PutBe(|p|, 4) + p
  }

  /** What a reader delivers: it skips an empty record and gives up at one over the limit. */
  predicate Readable(p: Bytes) {
    1 <= |p| <= MAX_RECORD
  }

  function HeadLen(b: Bytes): (n: nat)
    requires |b| >= REC_HDR
  {
    GetBe(b[8..12])
  }

  lemma RecordParses(seqNo: nat, p: Bytes, rest: Bytes)
    requires seqNo < W_SEQ && |p| < MAX_LENGTH
    ensures var b := Record(seqNo, p) + rest;
            && Get64(b) == seqNo && HeadLen(b) == |p|
            && b[REC_HDR..REC_HDR + |p|] == p && b[REC_HDR + |p|..] == rest
  {
    hide PutBe, GetBe, FitsBe, Put64, Get64;
    var b := Record(seqNo, p) + rest;
    LengthField(|p|);
    Get64Put(seqNo, PutBe(|p|, 4) + p + rest);
    assert b == Put64(seqNo) + (PutBe(|p|, 4) + p + rest);
    assert b[8..12] == PutBe(|p|, 4);
    assert b[12..12 + |p|] == p && b[12 + |p|..] == rest;
  }

  lemma LengthField(n: nat)
    requires n < MAX_LENGTH
    ensures |PutBe(n, 4)| == 4 && GetBe(PutBe(n, 4)) == n
  {
    FitsFour(n);
    BeRoundTrip(n, 4);
  }

  /** A byte string made of whole records, each a keepalive or the payload accepted under its number. */
  ghost predicate Genuine(b: Bytes, accepted: seq<Bytes>)
    decreases |b|
  {
    b == [] ||
    (&& |b| >= REC_HDR && |b| >= REC_HDR + HeadLen(b)
     && (HeadLen(b) == 0 || (Get64(b) < |accepted| && b[REC_HDR..REC_HDR + HeadLen(b)] == accepted[Get64(b)]))
     && Genuine(b[REC_HDR + HeadLen(b)..], accepted))
  }

  lemma {:induction false} GenuineAppend(a: Bytes, b: Bytes, accepted: seq<Bytes>)
    requires Genuine(a, accepted) && Genuine(b, accepted)
    ensures Genuine(a + b, accepted)
    decreases |a|
  {
    hide Get64, HeadLen;
    if a == [] {
      assert a + b == b;
    } else {
      var m := REC_HDR + HeadLen(a);
      GenuineAppend(a[m..], b, accepted);
      assert (a + b)[m..] == a[m..] + b;
      HeadStays(a, b);
      assert (a + b)[REC_HDR..m] == a[REC_HDR..m];
    }
  }

  lemma HeadStays(a: Bytes, b: Bytes)
    requires |a| >= REC_HDR
    ensures Get64(a + b) == Get64(a) && HeadLen(a + b) == HeadLen(a)
  {
    hide GetBe;
    assert (a + b)[..8] == a[..8] && (a + b)[8..12] == a[8..12];
  }

  lemma {:induction false} GenuineGrows(b: Bytes, accepted: seq<Bytes>, p: Bytes)
    requires Genuine(b, accepted)
    ensures Genuine(b, accepted + [p])
    decreases |b|
  {
    if b != [] { GenuineGrows(b[REC_HDR + HeadLen(b)..], accepted, p); }
  }

  lemma GenuineEmpty(accepted: seq<Bytes>)
    ensures Genuine([], accepted)
  {
  }

  lemma RecordGenuine(accepted: seq<Bytes>, i: nat)
    requires i < |accepted| <= W_SEQ && |accepted[i]| < MAX_LENGTH
    ensures Genuine(Record(i, accepted[i]), accepted)
  {
    hide Put64, Get64, HeadLen, Record;
    var r := Record(i, accepted[i]);
    RecordParses(i, accepted[i], []);
    assert r + [] == r;
    RecordSize(i, accepted[i]);
    assert Genuine([], accepted);
  }

  lemma RecordSize(seqNo: nat, p: Bytes)
    requires seqNo < W_SEQ && |p| < MAX_LENGTH
    ensures |Record(seqNo, p)| == REC_HDR + |p|
  {
  }

  const KEEPALIVE: Bytes := [0, 0, 0, 0, 0, 0, 0, 0, 0, 0, 0, 0]

  lemma KeepaliveGenuine(accepted: seq<Bytes>)
    ensures Genuine(KEEPALIVE, accepted)
  {
    assert KEEPALIVE[8..12] == [0, 0, 0, 0] == PutBe(0, 4) by {
      assert PutBe(0, 1) == [0] && PutBe(0, 2) == [0, 0] && PutBe(0, 3) == [0, 0, 0];
    }
    LengthField(0);
    assert HeadLen(KEEPALIVE) == 0;
    assert KEEPALIVE[12..] == [];
  }

  // ----- the numbers in a byte string

  /** The numbers of the records in a run. */
  function Nums(b: Bytes): (r: set<nat>)
    decreases |b|
  {
    if |b| < REC_HDR || |b| < REC_HDR + HeadLen(b) then {}
    else (if HeadLen(b) == 0 then {} else {Get64(b)}) + Nums(b[REC_HDR + HeadLen(b)..])
  }

  lemma {:induction false} NumsAppend(a: Bytes, b: Bytes, accepted: seq<Bytes>)
    requires Genuine(a, accepted)
    ensures Nums(a + b) == Nums(a) + Nums(b)
    decreases |a|
  {
    hide Get64, HeadLen;
    if a == [] {
      assert a + b == b;
    } else {
      var m := REC_HDR + HeadLen(a);
      NumsAppend(a[m..], b, accepted);
      HeadStays(a, b);
      assert (a + b)[m..] == a[m..] + b;
    }
  }

  lemma NumsHead(b: Bytes)
    requires |b| >= REC_HDR && |b| >= REC_HDR + HeadLen(b) && HeadLen(b) > 0
    ensures Get64(b) in Nums(b)
  {
    hide HeadLen, Get64;
  }
}
