/**
 The generator of classic BPF programs in internal/packet/rawfilter_linux.go, against an
 interpreter for the instructions it emits.
 */
module BpfFilter {
  import opened Octets
  import opened Wire

  /** One instruction as the kernel takes it: an opcode, two 8-bit jump offsets and an operand. */
  datatype Insn = Insn(code: nat, jt: nat, jf: nat, k: nat)

  /** The opcodes the generator emits. */
  const LD_W_ABS: nat := 0x20
  const LD_H_IND: nat := 0x48
  const LDX_B_MSH: nat := 0xb1
  const JEQ_K: nat := 0x15
  const RET_K: nat := 0x06

  const ACCEPT: nat := 0x40000
  const MAX_SRCS: nat := 255

  // ----- the machine

  /** How a program ends: by returning a length, or by leaving the program or its instruction set. */
  datatype Outcome = Returned(n: nat) | Fault

  /** The opcodes as the kernel decodes them. A load outside the packet ends the program and drops the packet. */
  function Run(prog: seq<Insn>, pkt: Bytes, pc: nat, a: nat, x: nat): (r: Outcome)
    decreases |prog| - pc
  {
    if pc >= |prog| then Fault else
      var i := prog[pc];
      if i.code == 0x20 then
        if i.k + 4 <= |pkt| then Run(prog, pkt, pc + 1, Get32(pkt, i.k), x) else Returned(0)
      else if i.code == 0x48 then
        if x + i.k + 2 <= |pkt| then Run(prog, pkt, pc + 1, Get16(pkt, x + i.k), x) else Returned(0)
      else if i.code == 0xb1 then
        if i.k < |pkt| then Run(prog, pkt, pc + 1, a, 4 * (pkt[i.k] % 16)) else Returned(0)
      else if i.code == 0x15 then
        Run(prog, pkt, pc + 1 + (if a == i.k then i.jt else i.jf), a, x)
      else if i.code == 0x06 then Returned(i.k)
      else Fault
  }

  /** Every jump offset fits in eight bits and lands inside the program. */
  ghost predicate JumpsFit(prog: seq<Insn>) {
    forall pc :: 0 <= pc < |prog| ==>
      prog[pc].jt < 256 && prog[pc].jf < 256 &&
      (prog[pc].code == JEQ_K ==> pc + 1 + prog[pc].jt < |prog| && pc + 1 + prog[pc].jf < |prog|)
  }

  // ----- what the filter is for

  /** The packet is let through whole: the length returned is beyond that of any IP packet. */
  predicate Passes(prog: seq<Insn>, pkt: Bytes) {
    var r := Run(prog, pkt, 0, 0, 0);
    r.Returned? && r.n >= 0x1_0000
  }

  /** The IPv4 addresses of a set of addresses. */
  function Keys(addrs: set<Bytes>): (r: set<Bytes>) {
    set k | k in addrs && |k| == 4
  }

  /** The 16-bit field after the IP header that the port test looks at. */
  predicate PortMatches(pkt: Bytes, portOff: nat, port: nat)
    requires |pkt| > 0
  {
    var off := 4 * (pkt[0] % 16) + portOff;
    port == 0 || (off + 2 <= |pkt| && Get16(pkt, off) == port)
  }

  predicate Wanted(addrs: set<Bytes>, portOff: nat, port: nat, pkt: Bytes) {
    |pkt| >= 16 && pkt[12..16] in addrs && PortMatches(pkt, portOff, port)
  }

  // ----- the program

  function Jump(keys: seq<Quad>, i: nat): (r: Insn)
    requires i < |keys|
  {
    Insn(JEQ_K, |keys| - i, 0, Get32(keys[i], 0))
  }

  function Tail(portOff: nat, port: nat): (r: seq<Insn>) {
    (if port == 0 then [] else [Insn(LDX_B_MSH, 0, 0, 0), Insn(LD_H_IND, 0, 0, portOff),
                                Insn(JEQ_K, 1, 0, port), Insn(RET_K, 0, 0, 0)])
    + [Insn(RET_K, 0, 0, ACCEPT)]
  }

  ghost predicate Laid(f: seq<Insn>, keys: seq<Quad>, portOff: nat, port: nat) {
    var n := |keys|;
    |f| == n + 2 + |Tail(portOff, port)| && f[0] == Insn(LD_W_ABS, 0, 0, 12) &&
    (forall i :: 0 <= i < n ==> f[1 + i] == Jump(keys, i)) &&
    f[n + 1] == Insn(RET_K, 0, 0, 0) && f[n + 2..] == Tail(portOff, port)
  }

  lemma LaidJumpsFit(f: seq<Insn>, keys: seq<Quad>, portOff: nat, port: nat)
    requires Laid(f, keys, portOff, port) && |keys| <= MAX_SRCS
    ensures JumpsFit(f)
  {
    var n := |keys|;
    forall pc | 0 <= pc < |f|
      ensures f[pc].jt < 256 && f[pc].jf < 256
      ensures f[pc].code == JEQ_K ==> pc + 1 + f[pc].jt < |f| && pc + 1 + f[pc].jf < |f|
    {
      if 1 <= pc <= n {
        assert f[pc] == Jump(keys, pc - 1);
      } else if pc >= n + 2 {
        assert f[pc] == Tail(portOff, port)[pc - n - 2];
      }
    }
  }

  /** The comparisons from key i on: the first equal key jumps to the tail. */
  lemma {:induction false} ChainRuns(f: seq<Insn>, keys: seq<Quad>, portOff: nat, port: nat, pkt: Bytes, a: nat, i: nat)
    requires Laid(f, keys, portOff, port) && i <= |keys|
    ensures Run(f, pkt, 1 + i, a, 0) ==
            (if exists j :: i <= j < |keys| && Get32(keys[j], 0) == a
             then Run(f, pkt, |keys| + 2, a, 0) else Returned(0))
    decreases |keys| - i
  {
    hide Get32, Tail;
    if i < |keys| {
      assert f[1 + i] == Jump(keys, i);
      ChainRuns(f, keys, portOff, port, pkt, a, i + 1);
    }
  }

  /** The tail accepts exactly the packets whose port field matches. */
  lemma TailRuns(f: seq<Insn>, keys: seq<Quad>, portOff: nat, port: nat, pkt: Bytes, a: nat)
    requires Laid(f, keys, portOff, port) && |pkt| > 0
    ensures Run(f, pkt, |keys| + 2, a, 0) == Returned(if PortMatches(pkt, portOff, port) then ACCEPT else 0)
  {
    hide Get16;
    var s, t := |keys| + 2, Tail(portOff, port);
    forall k | 0 <= k < |t| ensures f[s + k] == t[k] {
      assert f[s..][k] == t[k];
    }
    if port != 0 {
      TailPort(f, s, portOff, port, pkt, a);
    }
  }

  lemma TailPort(f: seq<Insn>, s: nat, portOff: nat, port: nat, pkt: Bytes, a: nat)
    requires s + 5 == |f| && port != 0 && |pkt| > 0
    requires f[s] == Insn(LDX_B_MSH, 0, 0, 0) && f[s + 1] == Insn(LD_H_IND, 0, 0, portOff)
    requires f[s + 2] == Insn(JEQ_K, 1, 0, port)
    requires f[s + 3] == Insn(RET_K, 0, 0, 0) && f[s + 4] == Insn(RET_K, 0, 0, ACCEPT)
    ensures Run(f, pkt, s, a, 0) == Returned(if PortMatches(pkt, portOff, port) then ACCEPT else 0)
  {
    hide Get16;
    var x := 4 * (pkt[0] % 16);
    assert Run(f, pkt, s, a, 0) == Run(f, pkt, s + 1, a, x);
    if x + portOff + 2 <= |pkt| {
      var v := Get16(pkt, x + portOff);
      assert Run(f, pkt, s + 1, a, x) == Run(f, pkt, s + 2, v, x);
      assert Run(f, pkt, s + 3, v, x) == Returned(0);
      assert Run(f, pkt, s + 4, v, x) == Returned(ACCEPT);
    }
  }

  lemma SameAddress(k: Quad, pkt: Bytes)
    requires |pkt| >= 16
    ensures Get32(k, 0) == Get32(pkt, 12) <==> k == pkt[12..16]
  {
    assert k[0..4] == k;
    if Get32(k, 0) == Get32(pkt, 12) { GetBeInjective(k, pkt[12..16]); }
  }

  /** A program laid out for keys accepts exactly the packets of those sources and that port. */
  lemma LaidAccepts(f: seq<Insn>, keys: seq<Quad>, addrs: set<Bytes>, portOff: nat, port: nat, pkt: Bytes)
    requires Laid(f, keys, portOff, port) && forall k :: k in Keys(addrs) <==> k in keys
    ensures Run(f, pkt, 0, 0, 0) == Returned(if Wanted(addrs, portOff, port, pkt) then ACCEPT else 0)
  {
    hide Get32, PortMatches, Tail;
    if |pkt| >= 16 {
      var a := Get32(pkt, 12);
      assert Run(f, pkt, 0, 0, 0) == Run(f, pkt, 1, a, 0);
      ChainRuns(f, keys, portOff, port, pkt, a, 0);
      TailRuns(f, keys, portOff, port, pkt, a);
      forall j | 0 <= j < |keys| ensures Get32(keys[j], 0) == a <==> keys[j] == pkt[12..16] {
        SameAddress(keys[j], pkt);
      }
      assert pkt[12..16] in addrs <==> pkt[12..16] in Keys(addrs);
    }
  }

  // ----- the generator

  predicate Ascending(keys: seq<Quad>) {
    forall i, j :: 0 <= i < j < |keys| ==> Get32(keys[i], 0) < Get32(keys[j], 0)
  }

  /** Inserts one key into an ascending list; on four-byte strings the order is that of the words. */
  method InsertKey(keys: seq<Quad>, k: Quad) returns (r: seq<Quad>)
    requires Ascending(keys) && k !in keys
    ensures Ascending(r) && |r| == |keys| + 1
    ensures forall x :: x in r <==> x in keys || x == k
  {
    hide Get32;
    var i := 0;
    while i < |keys| && Get32(keys[i], 0) < Get32(k, 0)
      invariant 0 <= i <= |keys|
      invariant forall j :: 0 <= j < i ==> Get32(keys[j], 0) < Get32(k, 0)
    {
      i := i + 1;
    }
    if i < |keys| { WordsDiffer(keys[i], k); }
    r := keys[..i] + [k] + keys[i..];
    assert forall x :: x in keys <==> x in keys[..i] || x in keys[i..];
  }

  lemma WordsDiffer(a: Quad, b: Quad)
    requires a != b
    ensures Get32(a, 0) != Get32(b, 0)
  {
    assert a[0..4] == a && b[0..4] == b;
    if Get32(a, 0) == Get32(b, 0) { GetBeInjective(a, b); }
  }

  /** The IPv4 keys of a set, in ascending order. */
  method SortedKeys(addrs: set<Bytes>) returns (keys: seq<Quad>)
    ensures Ascending(keys) && |keys| == |Keys(addrs)|
    ensures forall k :: k in Keys(addrs) <==> k in keys
  {
    hide Get32;
    keys := [];
    var rest := addrs;
    while rest != {}
      invariant rest <= addrs && Ascending(keys) && |keys| == |Keys(addrs - rest)|
      invariant forall k :: k in Keys(addrs - rest) <==> k in keys
      decreases rest
    {
      var k :| k in rest;
      KeysStep(addrs, rest, k);
      if |k| == 4 { keys := InsertKey(keys, k); }
      rest := rest - {k};
    }
    assert addrs - rest == addrs;
  }

  lemma KeysStep(addrs: set<Bytes>, rest: set<Bytes>, k: Bytes)
    requires rest <= addrs && k in rest
    ensures Keys(addrs - (rest - {k})) == Keys(addrs - rest) + (if |k| == 4 then {k} else {})
    ensures k !in Keys(addrs - rest)
  {
  }

  /**
   The emitted program, when there is one, never faults, and accepts a packet exactly when its
   source is in the set and its port field matches.
   */
  method SrcFilter(addrs: set<Bytes>, portOff: nat, port: nat) returns (f: seq<Insn>)
    ensures f == [] <==> (|Keys(addrs)| == 0 || |Keys(addrs)| > 255)
    ensures f != [] ==> |f| == |Keys(addrs)| + (if port == 0 then 3 else 7)
    ensures f != [] ==> JumpsFit(f)
    ensures f != [] ==> forall pkt :: Run(f, pkt, 0, 0, 0) == Returned(if Wanted(addrs, portOff, port, pkt) then ACCEPT else 0)
    ensures f != [] ==> forall pkt :: Passes(f, pkt) <==> Wanted(addrs, portOff, port, pkt)
  {
    hide Keys, Ascending, Run, Wanted, JumpsFit;
    var keys := SortedKeys(addrs);
    if |keys| == 0 || |keys| > MAX_SRCS {
      return [];
    }
    f := Emit(keys, portOff, port);
    LaidJumpsFit(f, keys, portOff, port);
    forall pkt ensures Run(f, pkt, 0, 0, 0) == Returned(if Wanted(addrs, portOff, port, pkt) then ACCEPT else 0) {
      LaidAccepts(f, keys, addrs, portOff, port, pkt);
    }
  }

  method Emit(keys: seq<Quad>, portOff: nat, port: nat) returns (f: seq<Insn>)
    ensures Laid(f, keys, portOff, port)
  {
    hide Get32;
    f := [Insn(LD_W_ABS, 0, 0, 12)];
    for i := 0 to |keys|
      invariant |f| == 1 + i && f[0] == Insn(LD_W_ABS, 0, 0, 12)
      invariant forall j :: 0 <= j < i ==> f[1 + j] == Jump(keys, j)
    {
      f := f + [Insn(JEQ_K, |keys| - i, 0, Get32(keys[i], 0))];
    }
    f := f + [Insn(RET_K, 0, 0, 0)];
    ghost var head := f;
    if port != 0 {
      f := f + [Insn(LDX_B_MSH, 0, 0, 0), Insn(LD_H_IND, 0, 0, portOff),
                Insn(JEQ_K, 1, 0, port), Insn(RET_K, 0, 0, 0)];
    }
    f := f + [Insn(RET_K, 0, 0, ACCEPT)];
    assert f == head + Tail(portOff, port);
  }
}
