/** Masking of WebSocket payloads (section 5.3 of RFC 6455): maskCopy of internal/packet/wsconn.go. */
module WsMask {
  import opened Bits
  import opened Octets
  import opened Wire

  function Xor8(a: Octet, b: Octet): (r: Octet) {
    hide Xor;
    OctetXor(a, b);
    Xor(a, b)
  }

  lemma OctetXor(a: Octet, b: Octet)
    ensures Xor(a, b) < 256
  {
    hide Xor;
    assert Pow2(4) == 16 && Pow2(8) == 16 * Pow2(4);
    XorBound(a, b, 8);
  }

  /** The definition of the standard: octet i is combined with octet i mod 4 of the key. */
  function Masked(s: Bytes, key: Quad): (r: Bytes)
    ensures |r| == |s| && forall i :: 0 <= i < |s| ==> r[i] == Xor8(s[i], key[i % 4])
  {
    seq(|s|, i requires 0 <= i < |s| => Xor8(s[i], key[i % 4]))
  }

  /** Masking undoes itself. */
  lemma MaskTwice(s: Bytes, key: Quad)
    ensures Masked(Masked(s, key), key) == s
  {
    hide Xor8;
    forall i | 0 <= i < |s| ensures Masked(Masked(s, key), key)[i] == s[i] {
      Cancel8(s[i], key[i % 4]);
    }
  }

  lemma Cancel8(a: Octet, b: Octet)
    ensures Xor8(Xor8(a, b), b) == a
  {
    hide Xor;
    XorCancel(a, b);
  }

  // ----- little-endian words

  function Le(b: Bytes): (x: nat) {
    if b == [] then 0 else b[0] + 256 * Le(b[1..])
  }

  function PutLe(x: nat, n: nat): (b: Bytes)
    ensures |b| == n
  {
    if n == 0 then [] else [x % 256] + PutLe(x / 256, n - 1)
  }

  /** A word operation is the octet operation on every octet. */
  lemma {:induction false} WordXor(s: Bytes, t: Bytes)
    requires |s| == |t|
    ensures forall i :: 0 <= i < |s| ==> PutLe(Xor(Le(s), Le(t)), |s|)[i] == Xor8(s[i], t[i])
  {
    hide Xor;
    if s != [] {
      var x, y := Le(s), Le(t);
      Split256(x, y);
      OctetXor(s[0], t[0]);
      assert x % 256 == s[0] && x / 256 == Le(s[1..]) && y % 256 == t[0] && y / 256 == Le(t[1..]);
      WordXor(s[1..], t[1..]);
      assert Xor(x, y) % 256 == Xor(s[0], t[0]) && Xor(x, y) / 256 == Xor(x / 256, y / 256);
    }
  }

  function Wide(k: nat): (r: nat) {
    k + 0x1_0000_0000 * k
  }

  /** The key repeated in both halves of a 64-bit word. */
  lemma WideKey(key: Quad)
    ensures Wide(Le(key)) == Le(key + key)
  {
    Le4(key, key);
    Le4(key, []);
    assert key + [] == key;
  }

  lemma Le4(key: Quad, t: Bytes)
    ensures Le(key + t) == key[0] + 256 * key[1] + 0x1_0000 * key[2] + 0x100_0000 * key[3] + 0x1_0000_0000 * Le(t)
  {
    var s := key + t;
    LeFirst(s);
    LeFirst(s[1..]);
    LeFirst(s[2..]);
    LeFirst(s[3..]);
    hide Le;
    assert s[1..][1..] == s[2..] && s[2..][1..] == s[3..] && s[3..][1..] == s[4..] == t;
  }

  lemma LeFirst(s: Bytes)
    requires s != []
    ensures Le(s) == s[0] + 256 * Le(s[1..])
  {
  }

  /** Eight octets at a multiple of eight, masked by one word operation. */
  lemma WordMasks(w: Bytes, key: Quad, i: nat)
    requires |w| == 8 && i % 8 == 0
    ensures var b := PutLe(Xor(Le(w), Wide(Le(key))), 8);
            |b| == 8 && forall j :: 0 <= j < 8 ==> b[j] == Xor8(w[j], key[(i + j) % 4])
  {
    hide Xor, Le, PutLe, Wide, Xor8;
    WideKey(key);
    WordXor(w, key + key);
    PutLeSize(Xor(Le(w), Le(key + key)), 8);
    forall j | 0 <= j < 8 ensures (key + key)[j] == key[(i + j) % 4] {
      SameLane(i, j);
    }
  }

  lemma SameLane(i: nat, j: nat)
    requires i % 8 == 0 && j < 8
    ensures (i + j) % 4 == if j < 4 then j else j - 4
  {
    var q := 2 * (i / 8);
    if j < 4 {
      assert i + j == 4 * q + j;
    } else {
      assert i + j == 4 * (q + 1) + (j - 4);
    }
  }

  lemma PutLeSize(x: nat, n: nat)
    ensures |PutLe(x, n)| == n
  {
  }

  /** Writes n octets of src, masked, to the front of dst; dst may be src itself. */
  method MaskCopy(dst: array<Octet>, src: array<Octet>, n: nat, key: Quad)
    requires n <= src.Length && n <= dst.Length
    modifies dst
    ensures dst[..n] == Masked(old(src[..n]), key)
    ensures forall k :: n <= k < dst.Length ==> dst[k] == old(dst[k])
  {
    hide Xor, Le, PutLe, Wide, Xor8;
    ghost var s := src[..n];
    var k := Wide(Le(key));
    var i := 0;
    while i + 8 <= n
      invariant 0 <= i <= n && i % 8 == 0
      invariant forall j :: 0 <= j < i ==> dst[j] == Xor8(s[j], key[j % 4])
      invariant forall j :: i <= j < n ==> src[j] == s[j]
      invariant forall j :: n <= j < dst.Length ==> dst[j] == old(dst[j])
    {
      MaskWord(dst, src, i, key, k);
      i := i + 8;
    }
    while i < n
      invariant 0 <= i <= n
      invariant forall j :: 0 <= j < i ==> dst[j] == Xor8(s[j], key[j % 4])
      invariant forall j :: i <= j < n ==> src[j] == s[j]
      invariant forall j :: n <= j < dst.Length ==> dst[j] == old(dst[j])
    {
      dst[i] := Xor8(src[i], key[i % 4]);
      i := i + 1;
    }
  }

  /** One round of the word loop. */
  method MaskWord(dst: array<Octet>, src: array<Octet>, i: nat, key: Quad, k: nat)
    requires i + 8 <= src.Length && i + 8 <= dst.Length && i % 8 == 0 && k == Wide(Le(key))
    modifies dst
    ensures forall j :: i <= j < i + 8 ==> dst[j] == Xor8(old(src[j]), key[j % 4])
    ensures forall j :: 0 <= j < i || i + 8 <= j < dst.Length ==> dst[j] == old(dst[j])
  {
    hide Xor, Le, PutLe, Wide, Xor8;
    var w := src[i..i + 8];
    WordMasks(w, key, i);
    var b := PutLe(Xor(Le(w), k), 8);
    PutOctets(dst, i, b);
    forall j | i <= j < i + 8 ensures dst[j] == Xor8(old(src[j]), key[j % 4]) {
      assert w[j - i] == old(src[j]) && dst[j] == b[j - i];
      assert b[j - i] == Xor8(w[j - i], key[(i + (j - i)) % 4]);
    }
  }

  /** binary.LittleEndian.PutUint64, once the word is split into octets. */
  method PutOctets(dst: array<Octet>, at: nat, b: Bytes)
    requires at + |b| <= dst.Length
    modifies dst
    ensures forall k :: 0 <= k < dst.Length ==> dst[k] == if at <= k < at + |b| then b[k - at] else old(dst[k])
  {
    for j := 0 to |b|
      invariant forall k :: 0 <= k < dst.Length ==> dst[k] == if at <= k < at + j then b[k - at] else old(dst[k])
    {
      dst[at + j] := b[j];
    }
  }
}
