/** Big-endian fields inside byte strings, and the checksum fields of IP, TCP and UDP. */
module Wire {
  import opened Csum
  import opened Octets

  type Bytes = seq<Octet>

  /** Four octets: an IPv4 address, a masking key. */
  type Quad = q: Bytes | |q| == 4 witness [0, 0, 0, 0]

  function Put16(x: nat): (s: Bytes)
    requires x < 0x1_0000
    ensures |s| == 2 && Word(s[0], s[1]) == x
  {
    [x / 256, x % 256]
  }

  /** The last n big-endian octets of x. */
  function PutBe(x: nat, n: nat): (s: Bytes)
    ensures |s| == n
  {
    if n == 0 then [] else PutBe(x / 256, n - 1) + [x % 256]
  }

  /** x has at most n octets. */
  predicate FitsBe(x: nat, n: nat) {
    if n == 0 then x == 0 else FitsBe(x / 256, n - 1)
  }

  lemma {:induction false} BeRoundTrip(x: nat, n: nat)
    requires FitsBe(x, n)
    ensures GetBe(PutBe(x, n)) == x
    decreases n
  {
    if n > 0 {
      BeRoundTrip(x / 256, n - 1);
      var s := PutBe(x, n);
      assert s[..n - 1] == PutBe(x / 256, n - 1);
    }
  }

  lemma FitsTwo(x: nat)
    requires x < 0x1_0000
    ensures FitsBe(x, 2)
  {
    var a := x / 256;
    assert a < 256;
    assert FitsBe(a / 256, 0);
    assert FitsBe(a, 1);
  }

  lemma FitsFour(x: nat)
    requires x < 0x1_0000_0000
    ensures FitsBe(x, 4)
  {
    var a := x / 256;
    var b := a / 256;
    var c := b / 256;
    assert a < 0x100_0000 && b < 0x1_0000 && c < 0x100;
    assert FitsBe(c / 256, 0);
    assert FitsBe(c, 1);
    assert FitsBe(b, 2);
    assert FitsBe(a, 3);
  }

  lemma FitsEight(x: nat)
    requires x < 0x1_0000_0000_0000_0000
    ensures FitsBe(x, 8)
  {
    var a := x / 256;
    var b := a / 256;
    var c := b / 256;
    var d := c / 256;
    assert a < 0x100_0000_0000_0000 && b < 0x1_0000_0000_0000 && c < 0x100_0000_0000 && d < 0x1_0000_0000;
    FitsFour(d);
    assert FitsBe(c, 5);
    assert FitsBe(b, 6);
    assert FitsBe(a, 7);
  }

  function Get16(b: Bytes, i: nat): (x: nat)
    requires i + 2 <= |b|
    ensures x < 0x1_0000
  {
    Word(b[i], b[i + 1])
  }

  function Put32(x: nat): (s: Bytes)
    requires x < 0x1_0000_0000
    ensures |s| == 4 && GetBe(s) == x
  {
    FitsFour(x);
    BeRoundTrip(x, 4);
    PutBe(x, 4)
  }

  function Get32(b: Bytes, i: nat): (x: nat)
    requires i + 4 <= |b|
    ensures x < 0x1_0000_0000
  {
    FourOctets(b[i..i + 4]);
    GetBe(b[i..i + 4])
  }

  function Put64(x: nat): (s: Bytes)
    requires x < 0x1_0000_0000_0000_0000
    ensures |s| == 8
  {
    PutBe(x, 8)
  }

  function Get64(b: Bytes): (x: nat)
    requires |b| >= 8
  {
    GetBe(b[..8])
  }

  lemma Get64Put(x: nat, t: Bytes)
    requires x < 0x1_0000_0000_0000_0000
    ensures |Put64(x)| == 8 && Get64(Put64(x) + t) == x
  {
    FitsEight(x);
    BeRoundTrip(x, 8);
    hide PutBe, GetBe, FitsBe;
    assert (Put64(x) + t)[..8] == Put64(x);
  }

  /** b with s written at offset off. */
  function Splice(b: Bytes, off: nat, s: Bytes): (r: Bytes)
    requires off + |s| <= |b|
    ensures |r| == |b|
    ensures forall k :: 0 <= k < |b| ==> r[k] == if off <= k < off + |s| then s[k - off] else b[k]
  {
    b[..off] + s + b[off + |s|..]
  }

  lemma LongSame(r: Bytes, pkt: Bytes, o: nat)
    requires o + 4 <= |r| && o + 4 <= |pkt| && forall k :: o <= k < o + 4 ==> r[k] == pkt[k]
    ensures Get32(r, o) == Get32(pkt, o) < 0x1_0000_0000
  {
    assert r[o..o + 4] == pkt[o..o + 4];
  }

  lemma Get32Splice(b: Bytes, off: nat, x: nat)
    requires off + 4 <= |b| && x < 0x1_0000_0000
    ensures |Splice(b, off, Put32(x))| == |b| && Get32(Splice(b, off, Put32(x)), off) == x
  {
    hide PutBe, GetBe;
    assert Splice(b, off, Put32(x))[off..off + 4] == Put32(x);
  }

  /** A word at an even offset adds its value to the sum. */
  lemma {:induction false} WordsSplice(b: Bytes, off: nat, x: nat)
    requires off % 2 == 0 && off + 2 <= |b| && x < 0x1_0000
    ensures Words(Splice(b, off, Put16(x))) == Words(Splice(b, off, [0, 0])) + x
    decreases |b|
  {
    var z, w := Splice(b, off, [0, 0]), Splice(b, off, Put16(x));
    if off == 0 {
      assert z[2..] == w[2..];
    } else {
      WordsSplice(b[2..], off - 2, x);
      assert z[2..] == Splice(b[2..], off - 2, [0, 0]);
      assert w[2..] == Splice(b[2..], off - 2, Put16(x));
    }
  }

  /** The folded sum of bytes and an initial value, which the chain of internal/csum computes. */
  function Sum16(b: Bytes, acc: nat): (s: nat)
    ensures s < 0x1_0000
  {
    Norm(acc + Words(b))
  }

  /** Writes the complement of the sum into a zeroed field; a zero is sent as all ones when asked. */
  function Sealed(b: Bytes, off: nat, acc: nat, noZero: bool): (r: Bytes)
    requires off + 2 <= |b|
    ensures |r| == |b|
  {
    var zeroed := Splice(b, off, [0, 0]);
    var c := 0xffff - Sum16(zeroed, acc);
    Splice(zeroed, off, Put16(if noZero && c == 0 then 0xffff else c))
  }

  /** Sealing changes nothing but its field. */
  lemma SealedKeeps(b: Bytes, off: nat, acc: nat, noZero: bool)
    requires off + 2 <= |b|
    ensures |Sealed(b, off, acc, noZero)| == |b|
    ensures forall k :: 0 <= k < |b| && !(off <= k < off + 2) ==> Sealed(b, off, acc, noZero)[k] == b[k]
  {
    hide Words, Norm;
  }

  /** A sealed field makes the whole sum verify. */
  lemma SealedVerifies(b: Bytes, off: nat, acc: nat, noZero: bool)
    requires off % 2 == 0 && off + 2 <= |b|
    requires acc + Words(Splice(b, off, [0, 0])) > 0
    ensures Sum16(Sealed(b, off, acc, noZero), acc) == 0xffff
  {
    var zeroed := Splice(b, off, [0, 0]);
    var total := acc + Words(zeroed);
    var s := Norm(total);
    var c := 0xffff - s;
    var f := if noZero && c == 0 then 0xffff else c;
    assert Splice(zeroed, off, [0, 0]) == zeroed;
    WordsSplice(zeroed, off, f);
    var d := NormGap(total);
    if s + f == 0xffff {
      NormShift(0xffff, d);
    } else {
      NormShift(0xffff, d + 1);
    }
    NormSmall(0xffff);
  }

  /** Sealing a range of a larger buffer is two writes into that buffer. */
  lemma SealInside(v: Bytes, lo: nat, hi: nat, off: nat, acc: nat, noZero: bool)
    requires lo <= hi <= |v| && lo + off + 2 <= hi
    ensures Splice(v, lo + off, [0, 0])[lo..hi] == Splice(v[lo..hi], off, [0, 0])
    ensures var c := 0xffff - Sum16(Splice(v[lo..hi], off, [0, 0]), acc);
            (Splice(Splice(v, lo + off, [0, 0]), lo + off, Put16(if noZero && c == 0 then 0xffff else c))
             == v[..lo] + Sealed(v[lo..hi], off, acc, noZero) + v[hi..])
  {
    hide Words, Norm, Put16;
    var z := Splice(v, lo + off, [0, 0]);
    assert z[lo..hi] == Splice(v[lo..hi], off, [0, 0]);
    var c := 0xffff - Sum16(Splice(v[lo..hi], off, [0, 0]), acc);
    var f := Put16(if noZero && c == 0 then 0xffff else c);
    assert |f| == 2;
    Nested(v, lo, hi, off, f);
  }

  lemma Nested(v: Bytes, lo: nat, hi: nat, off: nat, f: Bytes)
    requires lo <= hi <= |v| && lo + off + 2 <= hi && |f| == 2
    ensures Splice(Splice(v, lo + off, [0, 0]), lo + off, f)
         == v[..lo] + Splice(Splice(v[lo..hi], off, [0, 0]), off, f) + v[hi..]
  {
    hide Splice;
    SpliceTwice(v, lo + off, [0, 0], f);
    SpliceTwice(v[lo..hi], off, [0, 0], f);
    SpliceInside(v, lo, hi, off, f);
  }

  /** The second write to a field is the one that stays. */
  lemma SpliceTwice(b: Bytes, off: nat, x: Bytes, f: Bytes)
    requires off + |f| <= |b| && |x| == |f|
    ensures |Splice(b, off, x)| == |b| && Splice(Splice(b, off, x), off, f) == Splice(b, off, f)
  {
  }

  lemma SpliceInside(v: Bytes, lo: nat, hi: nat, off: nat, f: Bytes)
    requires lo <= hi <= |v| && lo + off + |f| <= hi
    ensures Splice(v, lo + off, f) == v[..lo] + Splice(v[lo..hi], off, f) + v[hi..]
  {
    var m := v[lo..hi];
    assert v == v[..lo] + m + v[hi..];
  }
}
