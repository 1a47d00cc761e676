/** Octets and the big-endian numbers they spell. */
module Octets {

  type Octet = b: int | 0 <= b < 256

  /** A big-endian 16-bit word. */
  function Word(hi: Octet, lo: Octet): (w: nat)
    ensures w < 0x1_0000
  {
    (hi as int) * 256 + lo as int
  }

  /** A big-endian number. */
  function GetBe(b: seq<Octet>): (x: nat) {
    if b == [] then 0 else GetBe(b[..|b| - 1]) * 256 + b[|b| - 1]
  }

  lemma LastOctet(b: seq<Octet>)
    requires b != []
    ensures GetBe(b) == GetBe(b[..|b| - 1]) * 256 + b[|b| - 1]
  {
  }

  lemma LastFour(b: seq<Octet>)
    requires |b| >= 4
    ensures var n := |b| - 4;
            GetBe(b) == GetBe(b[..n]) * 0x1_0000_0000 + Word(b[n], b[n + 1]) * 0x1_0000 + Word(b[n + 2], b[n + 3])
  {
    hide GetBe;
    var n := |b| - 4;
    LastOctet(b);
    LastOctet(b[..n + 3]);
    LastOctet(b[..n + 2]);
    LastOctet(b[..n + 1]);
    assert b[..n + 3][..n + 2] == b[..n + 2] && b[..n + 2][..n + 1] == b[..n + 1] && b[..n + 1][..n] == b[..n];
  }

  lemma FourOctets(b: seq<Octet>)
    requires |b| == 4
    ensures GetBe(b) == Word(b[0], b[1]) * 0x1_0000 + Word(b[2], b[3])
  {
    LastFour(b);
    assert GetBe(b[..0]) == 0;
  }

  lemma TwoOctets(b: seq<Octet>)
    requires |b| == 2
    ensures GetBe(b) == Word(b[0], b[1])
  {
    var c := b[..1];
    assert c == [b[0]] && c[..0] == [];
    assert GetBe(c) == b[0];
  }

  /** Octets of the same number are the same. */
  lemma {:induction false} GetBeInjective(a: seq<Octet>, b: seq<Octet>)
    requires |a| == |b| && GetBe(a) == GetBe(b)
    ensures a == b
  {
    if a != [] {
      var n := |a| - 1;
      SameDigits(GetBe(a[..n]), a[n], GetBe(b[..n]), b[n]);
      GetBeInjective(a[..n], b[..n]);
      assert a == a[..n] + [a[n]] && b == b[..n] + [b[n]];
    }
  }

  lemma SameDigits(q: nat, r: Octet, q': nat, r': Octet)
    requires q * 256 + r == q' * 256 + r'
    ensures q == q' && r == r'
  {
  }
}
