/**
 The Internet checksum of internal/csum/csum.go: a 64-bit carry chain over
 unrolled words, folded to 16 bits, against the one's-complement sum of
 section 1 of RFC 1071.
 */
module Csum {
  import opened Octets

  const W64: nat := 0x1_0000_0000_0000_0000

  /** The sum of the big-endian 16-bit words, a last odd octet padded with zero. */
  function Words(b: seq<Octet>): (s: nat) {
    if b == [] then 0
    else if |b| == 1 then Word(b[0], 0)
    else Word(b[0], b[1]) + Words(b[2..])
  }

  /** One end-around-carry addition. */
  function OnesAdd(s: nat, w: nat): (r: nat)
    requires s < 0x1_0000 && w < 0x1_0000
    ensures r < 0x1_0000
  {
    if s + w < 0x1_0000 then s + w else s + w - 0xffff
  }

  /** The one's-complement sum of RFC 1071, word by word. */
  function OnesSum(b: seq<Octet>, s: nat): (r: nat)
    requires s < 0x1_0000
    ensures r < 0x1_0000
  {
    if b == [] then s
    else if |b| == 1 then OnesAdd(s, Word(b[0], 0))
    else OnesSum(b[2..], OnesAdd(s, Word(b[0], b[1])))
  }

  /** The representative of a sum modulo 65535 that is zero only for zero. */
  function Norm(x: nat): (r: nat)
    ensures r < 0x1_0000 && (r == 0 <==> x == 0)
  {
    if x <= 0xffff then x else Norm(x - 0xffff)
  }

  lemma {:induction false} NormShift(a: nat, d: nat)
    requires a > 0
    ensures Norm(a + 0xffff * d) == Norm(a)
    decreases d
  {
    if d > 0 { NormShift(a, d - 1); }
  }

  /** A number exceeds its representative by a multiple of 65535. */
  lemma {:induction false} NormGap(x: nat) returns (d: nat)
    ensures x == Norm(x) + 0xffff * d
  {
    if x <= 0xffff {
      d := 0;
    } else {
      d := NormGap(x - 0xffff);
      d := d + 1;
    }
  }

  lemma NormSmall(x: nat)
    requires x < 0x1_0000
    ensures Norm(x) == x
  {
  }

  /** Replacing a summand by its representative changes nothing. */
  lemma NormInner(x: nat, y: nat)
    ensures Norm(Norm(x) + y) == Norm(x + y)
  {
    if x > 0 {
      var d := NormGap(x);
      NormShift(Norm(x) + y, d);
    }
  }

  lemma {:induction false} OnesSumIsNorm(b: seq<Octet>, s: nat)
    requires s < 0x1_0000
    ensures OnesSum(b, s) == Norm(s + Words(b))
  {
    if b == [] {
      NormSmall(s);
    } else {
      var w := Word(b[0], if |b| == 1 then 0 else b[1]);
      assert OnesAdd(s, w) == Norm(s + w) by { NormShift(if s + w < 0x1_0000 then 1 else s + w - 0xffff, 1); NormSmall(OnesAdd(s, w)); }
      if |b| > 1 {
        OnesSumIsNorm(b[2..], OnesAdd(s, w));
        NormInner(s + w, Words(b[2..]));
      }
    }
  }

  // ----- Fold

  method Fold(acc: nat) returns (r: nat)
    requires acc < W64
    ensures r == Norm(acc)
  {
    r := acc;
    while r / 0x1_0000 != 0
      invariant Norm(r) == Norm(acc)
      decreases r
    {
      var d := r / 0x1_0000;
      NormShift(d + r % 0x1_0000, d);
      r := d + r % 0x1_0000;
    }
    NormSmall(r);
  }

  // ----- Add

  function Be64(b: seq<Octet>): (w: nat)
    requires |b| >= 8
    ensures w < W64
  {
    EightOctets(b);
    GetBe(b[..8])
  }

  /** bits.Add64: the sum modulo 2^64 and the carry out. */
  function Add64(x: nat, y: nat, c: nat): (r: (nat, nat))
    requires x < W64 && y < W64 && c <= 1
    ensures r.0 < W64 && r.1 <= 1 && r.0 + r.1 * W64 == x + y + c
  {
    if x + y + c < W64 then (x + y + c, 0) else (x + y + c - W64, 1)
  }

  /** The accumulator and its pending carry stand for a total, up to multiples of 65535. */
  ghost predicate Stands(acc: nat, c: nat, rest: nat, total: nat) {
    && acc < W64 && c <= 1 && acc + c < W64
    && Norm(acc + c + rest) == Norm(total)
  }

  lemma EightOctets(b: seq<Octet>)
    requires |b| >= 8
    ensures GetBe(b[..8]) == (Word(b[0], b[1]) * 0x1_0000 + Word(b[2], b[3])) * 0x1_0000_0000
                       + Word(b[4], b[5]) * 0x1_0000 + Word(b[6], b[7])
  {
    hide GetBe;
    LastFour(b[..8]);
    assert b[..8][..4] == b[..4];
    FourOctets(b[..4]);
  }

  lemma WordsOf8(b: seq<Octet>) returns (s: nat, d: nat)
    requires |b| >= 8
    ensures Be64(b) == s + 0xffff * d && (s == 0 ==> d == 0) && Words(b) == s + Words(b[8..])
  {
    hide GetBe;
    EightOctets(b);
    var w0, w1, w2, w3 := Word(b[0], b[1]), Word(b[2], b[3]), Word(b[4], b[5]), Word(b[6], b[7]);
    s := w0 + w1 + w2 + w3;
    d := w0 * 0x1_0001_0001 + w1 * 0x1_0001 + w2;
    assert Be64(b) == s + 0xffff * d;
    assert b[2..][2..] == b[4..] && b[4..][2..] == b[6..] && b[6..][2..] == b[8..];
    assert Words(b) == w0 + Words(b[2..]);
    assert Words(b[2..]) == w1 + Words(b[4..]);
    assert Words(b[4..]) == w2 + Words(b[6..]);
    assert Words(b[6..]) == w3 + Words(b[8..]);
  }

  /** One step of the chain; in particular the accumulator never ends all ones with a carry pending. */
  lemma ChainStep(acc: nat, c: nat, b: seq<Octet>, total: nat)
    requires |b| >= 8 && Stands(acc, c, Words(b), total)
    ensures var (acc', c') := Add64(acc, Be64(b), c); Stands(acc', c', Words(b[8..]), total)
  {
    hide Norm, Words, Be64, Add64;
    var s, d := WordsOf8(b);
    Be64Bound(b);
    var rest := Words(b[8..]);
    if acc + c + s + rest > 0 { NormShift(acc + c + s + rest, d); }
    assert Norm(acc + c + Be64(b) + rest) == Norm(total);
    CarryStands(acc, c, Be64(b), rest, total);
  }

  lemma Be64Bound(b: seq<Octet>)
    requires |b| >= 8
    ensures Be64(b) < W64
  {
  }

  /** An addition with carry: 2^64 is one more than a multiple of 65535. */
  lemma CarryStands(acc: nat, c: nat, y: nat, rest: nat, total: nat)
    requires acc < W64 && c <= 1 && acc + c < W64 && y < W64 && Norm(acc + c + y + rest) == Norm(total)
    ensures var r := Add64(acc, y, c); Stands(r.0, r.1, rest, total)
  {
    hide Norm;
    var r := Add64(acc, y, c);
    if r.1 == 1 { NormShift(r.0 + 1 + rest, 0x1_0001_0001_0001); }
  }

  method Chain(acc: nat, c: nat, b: seq<Octet>, ghost total: nat) returns (acc': nat, c': nat)
    requires |b| >= 8 && Stands(acc, c, Words(b), total)
    ensures Stands(acc', c', Words(b[8..]), total)
  {
    ChainStep(acc, c, b, total);
    var r := Add64(acc, Be64(b), c);
    acc', c' := r.0, r.1;
  }

  /** Zeros at the end add nothing. */
  lemma {:induction false} PadWords(b: seq<Octet>, z: seq<Octet>)
    requires forall i :: 0 <= i < |z| ==> z[i] == 0
    ensures Words(b + z) == Words(b)
    decreases |b|
  {
    hide Word;
    if |b| >= 2 {
      PadWords(b[2..], z);
      assert (b + z)[2..] == b[2..] + z;
    } else if b == [] {
      assert b + z == z;
      WordsZero(z);
    } else if z == [] {
      assert b + z == b;
    } else {
      WordsZero(z[1..]);
      assert (b + z)[2..] == z[1..];
    }
  }

  method Add(b: seq<Octet>, acc0: nat) returns (r: nat)
    requires acc0 < W64
    ensures r < W64 && Norm(r) == Norm(acc0 + Words(b))
  {
    var acc, c, rest := acc0, 0, b;
    while |rest| >= 32
      invariant Stands(acc, c, Words(rest), acc0 + Words(b))
      decreases |rest|
    {
      acc, c := Chain(acc, c, rest, acc0 + Words(b));
      assert rest[8..][8..] == rest[16..] && rest[16..][8..] == rest[24..] && rest[24..][8..] == rest[32..];
      acc, c := Chain(acc, c, rest[8..], acc0 + Words(b));
      acc, c := Chain(acc, c, rest[16..], acc0 + Words(b));
      acc, c := Chain(acc, c, rest[24..], acc0 + Words(b));
      rest := rest[32..];
    }
    while |rest| >= 8
      invariant Stands(acc, c, Words(rest), acc0 + Words(b))
      decreases |rest|
    {
      acc, c := Chain(acc, c, rest, acc0 + Words(b));
      rest := rest[8..];
    }
    if |rest| > 0 {
      var z: seq<Octet> := seq(8 - |rest|, _ => 0);
      var t := rest + z;
      PadWords(rest, z);
      acc, c := Chain(acc, c, t, acc0 + Words(b));
    }
    r := acc + c;
  }

  /** Checksum: the complement of the RFC 1071 sum, all ones only for all-zero input. */
  method Checksum(b: seq<Octet>) returns (r: nat)
    ensures r == 0xffff - OnesSum(b, 0)
    ensures r == 0xffff <==> forall i :: 0 <= i < |b| ==> b[i] == 0
  {
    var acc := Add(b, 0);
    var f := Fold(acc);
    OnesSumIsNorm(b, 0);
    WordsZero(b);
    r := 0xffff - f;
  }

  lemma {:induction false} WordsZero(b: seq<Octet>)
    ensures Words(b) == 0 <==> forall i :: 0 <= i < |b| ==> b[i] == 0
  {
    if |b| >= 2 {
      WordsZero(b[2..]);
      assert forall i :: 2 <= i < |b| ==> b[i] == b[2..][i - 2];
      assert forall i :: 0 <= i < |b| - 2 ==> b[2..][i] == b[i + 2];
    }
  }
}
