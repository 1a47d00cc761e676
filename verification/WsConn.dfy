/** The connection object of internal/packet/wsconn.go: buffers reused between frames. */
module WsConn {
  import opened Octets
  import opened Wire
  import opened WsMask
  import opened WsFrame

  /** How reading one frame ended. */
  datatype Status = Fine | Failed(why: End)

  class Conn {
    const client: bool
    /** The random source: the key a client uses for its n-th frame. drawn counts the frames sent. */
    const key: nat -> Quad
    var drawn: nat
    /** Bytes still to come from the peer, and bytes sent to it. */
    var inp: Bytes
    var out: Bytes
    /** The reused store; its length is the capacity. rbuf is store[lo..hi]. */
    var store: array<Octet>
    var lo: nat
    var hi: nat

    constructor (client: bool, key: nat -> Quad, inp: Bytes)
      ensures Valid() && fresh(store) && this.client == client && this.key == key && this.inp == inp
      ensures View() == Reader([], inp) && out == [] && drawn == 0
    {
      this.client, this.key, this.inp := client, key, inp;
      out, drawn, lo, hi := [], 0, 0, 0;
      store := new Octet[0];
    }

    ghost predicate Valid()
      reads this
    {
      lo <= hi <= store.Length
    }

    /** What is still unread. */
    ghost function View(): (r: Reader)
      requires Valid()
      reads this, store
    {
      Reader(store[lo..hi], inp)
    }

    /** Sends one frame, with the next key when the sender is a client. */
    method SendFrame(op: nat, payload: Bytes)
      requires op < 16 && |payload| < 0x8000_0000_0000_0000
      modifies this`out, this`drawn
      ensures drawn == old(drawn) + 1
      ensures out == old(out) + Encode(Frame(op, payload, client, key(old(drawn))))
    {
      hide Masked, Put16, Put64;
      var n := |payload|;
      var w: Bytes := [128 + op];
      var maskBit := if client then 128 else 0;
      if n < 126 {
        w := w + [maskBit + n];
      } else if n < 0x1_0000 {
        w := w + [maskBit + 126] + Put16(n);
      } else {
        w := w + [maskBit + 127] + Put64(n);
      }
      ghost var f := Frame(op, payload, client, key(drawn));
      ghost var head := [128 + op, maskBit + LengthCode(n)];
      assert w == head + LengthExt(n);
      if client {
        var k := key(drawn);
        var body := MaskInto(payload, k);
        w := w + k + body;
      } else {
        w := w + payload;
      }
      assert w == head + LengthExt(n) + MaskField(f) + Body(f);
      drawn := drawn + 1;
      out := out + w;
    }

    /** Splits a write into frames of at most MAX_FRAME bytes; an empty write is one empty frame. */
    method Write(p: Bytes)
      modifies this`out, this`drawn
      ensures drawn == old(drawn) + |WriteFrames(p, client, key, old(drawn))|
      ensures Fit(WriteFrames(p, client, key, old(drawn)))
      ensures out == old(out) + EncodeAll(WriteFrames(p, client, key, old(drawn)))
    {
      hide Encode, EncodeAll, DataOf, WriteFrames;
      ghost var all := WriteFrames(p, client, key, drawn);
      WriteFramesCarry(p, client, key, drawn);
      ghost var done: seq<Frame> := [];
      EncodeNothing();
      assert p[0..] == p;
      var sent := 0;
      while true
        invariant 0 <= sent <= |p| && drawn == old(drawn) + |done|
        invariant all == done + WriteFrames(p[sent..], client, key, drawn)
        invariant forall f :: f in done ==> f.Ok()
        invariant out == old(out) + EncodeAll(done)
        decreases |p| - sent
      {
        var n := if |p| - sent < MAX_FRAME then |p| - sent else MAX_FRAME;
        ghost var f := Frame(2, p[sent..sent + n], client, key(drawn));
        FirstFrame(p, sent, n, client, key, drawn);
        SendFrame(2, p[sent..sent + n]);
        EncodeOneMore(done, f);
        done := done + [f];
        sent := sent + n;
        if sent == |p| {
          assert done == all;
          return;
        }
      }
    }

    /** Reads one frame into the store; the caller has no unread bytes there. */
    method ReadFrame() returns (st: Status, op: nat, n: nat)
      requires Valid() && lo == hi
      modifies this`inp, this`store, this`lo, this`hi, store
      ensures Valid() && lo == hi && (store == old(store) || fresh(store))
      ensures st.Fine? <==> Parse(old(inp)).Got?
      ensures st.Fine? ==> n <= store.Length && Parse(old(inp)) == Got(op, store[..n], inp)
      ensures !st.Fine? ==> inp == old(inp) && st.why == StopOf(Parse(inp))
    {
      hide Masked, Parse;
      var at, masked;
      st, op, n, at, masked := ReadHead(inp);
      if st.Failed? { return; }
      var from := at + if masked then 4 else 0;
      LoadPayload(inp[from..from + n], masked, if masked then inp[at..at + 4] else [0, 0, 0, 0]);
      inp := inp[from + n..];
    }

    /** Puts a payload in the store, in a larger one when it does not fit, and unmasks it in place. */
    method LoadPayload(p: Bytes, masked: bool, k: Quad)
      requires Valid() && lo == hi
      modifies this`store, this`lo, this`hi, store
      ensures Valid() && lo == hi && (store == old(store) || fresh(store)) && |p| <= store.Length
      ensures store[..|p|] == if masked then Masked(p, k) else p
    {
      hide Masked;
      lo, hi := 0, 0;
      if store.Length < |p| {
        store := new Octet[|p|];
      }
      Fill(store, p);
      if masked {
        MaskCopy(store, store, |p|, k);
      }
    }

    /**
     Returns the next bytes of the stream, at most size of them. Pings met on the way are
     answered; the store is overwritten only when nothing in it is unread.
     */
    method Read(size: nat) returns (end: End, data: Bytes)
      requires Valid()
      modifies this`inp, this`store, this`lo, this`hi, this`out, this`drawn, store
      ensures Valid() && (store == old(store) || fresh(store))
      ensures ReadOut(end, data, View()) == ReadOnce(old(View()), size)
      ensures Fit(Pongs(Pinged(old(View())), client, key, old(drawn)))
      ensures out == old(out) + EncodeAll(Pongs(Pinged(old(View())), client, key, old(drawn)))
    {
      hide Parse, FetchFrom, EncodeAll, Take;
      ghost var start, first := View(), drawn;
      PongsFit(start, client, key, first);
      if lo == hi {
        end := Refill();
        if !end.Data? {
          return end, [];
        }
      } else {
        NoPongs(client, key, first);
      }
      data := CopyOut(size);
      end := Data;
    }

    /** Hands over the front of the unread bytes. */
    method CopyOut(size: nat) returns (data: Bytes)
      requires Valid()
      modifies this`lo
      ensures Valid() && ReadOut(Data, data, View()) == Take(old(store[lo..hi]), inp, size)
    {
      var n := if size < hi - lo then size else hi - lo;
      SplitSlice(store[..], lo, n, hi);
      data := store[lo..lo + n];
      lo := lo + n;
    }

    /** The loop of Read: frames are taken until one leaves bytes to read. */
    method Refill() returns (end: End)
      requires Valid() && lo == hi
      modifies this`inp, this`store, this`lo, this`hi, this`out, this`drawn, store
      ensures Valid() && (store == old(store) || fresh(store))
      ensures var f := FetchFrom(old(inp));
              end == f.end && inp == f.rest && store[lo..hi] == (if end.Data? then f.payload else []) && (end.Data? <==> lo < hi)
      ensures ControlSized(FetchFrom(old(inp)).pings)
      ensures out == old(out) + EncodeAll(Pongs(FetchFrom(old(inp)).pings, client, key, old(drawn)))
    {
      hide Parse, EncodeAll, Encode, FetchFrom;
      ghost var goal, first := FetchFrom(inp), drawn;
      ghost var done: seq<Bytes> := [];
      PingsSized(inp);
      FetchOk(inp);
      EncodeNothing();
      while lo == hi
        invariant Valid() && (store == old(store) || fresh(store))
        invariant ControlSized(done) && drawn == first + |done|
        invariant out == old(out) + EncodeAll(Pongs(done, client, key, first))
        invariant var f := FetchFrom(inp);
                  (lo == hi ==> goal == f.(pings := done + f.pings)) &&
                  (lo < hi ==> goal == Fetch(Data, store[lo..hi], inp, done))
        decreases |inp|, if lo == hi then 1 else 0
      {
        ParseShrinks(inp);
        FetchUnfolds(inp);
        ghost var r := Parse(inp);
        var go, why := TakeFrame();
        if !go {
          assert goal.pings == done;
          return why;
        }
        if r.op == 9 {
          PongsStep(done, r.payload, client, key, first);
          done := done + [r.payload];
        }
      }
      return Data;
    }

    /** One round of that loop: a data frame is kept for reading, a ping is answered. */
    method TakeFrame() returns (go: bool, why: End)
      requires Valid() && lo == hi
      modifies this`inp, this`store, this`lo, this`hi, this`out, this`drawn, store
      ensures Valid() && (store == old(store) || fresh(store))
      ensures var r := Parse(old(inp));
              (go <==> r.Got? && Carried(r.op, |r.payload|)) && (!go ==> why == StopOf(r)) &&
              inp == (if r.Got? then r.rest else old(inp)) &&
              store[lo..hi] == (if go && IsData(r.op) then r.payload else []) &&
              drawn == old(drawn) + (if go && r.op == 9 then 1 else 0) &&
              (go && r.op == 9 ==> out == old(out) + Encode(Frame(10, r.payload, client, key(old(drawn))))) &&
              (!go || r.op != 9 ==> out == old(out))
    {
      hide Parse, Encode;
      var st, op, n := ReadFrame();
      if st.Failed? {
        return false, st.why;
      }
      if op >= 8 && n > MAX_CONTROL {
        return false, Malformed;
      }
      if op <= 2 {
        lo, hi := 0, n;
        return true, Data;
      }
      if op == 8 {
        return false, Closed;
      }
      if op == 9 {
        SendFrame(10, store[..n]);
        return true, Data;
      }
      return op == 10, Malformed;
    }
  }

  /** The header of a frame: where the mask or the payload starts and how long the payload is. */
  method ReadHead(inp: Bytes) returns (st: Status, op: nat, n: nat, at: nat, masked: bool)
    ensures st.Fine? <==> Parse(inp).Got?
    ensures st.Failed? ==> st.why == StopOf(Parse(inp))
    ensures st.Fine? ==> at + (if masked then 4 else 0) + n <= |inp|
    ensures st.Fine? ==> Parse(inp) == Got(op, Payload(inp, at, masked, n), inp[at + (if masked then 4 else 0) + n..])
  {
    hide Payload, Length, ExtSize;
    st, op, n, at, masked := Failed(CutOff), 0, 0, 0, false;
    if |inp| < 2 { return; }
    op, masked := inp[0] % 16, inp[1] >= 128;
    var code := inp[1] % 128;
    ExtSizeSmall(code);
    at := 2 + ExtSize(code);
    if |inp| < at { return; }
    n := Length(code, inp[2..]);
    if n > MAX_READ {
      st := Failed(Malformed);
      return;
    }
    if |inp| < at + (if masked then 4 else 0) + n { return; }
    st := Fine;
  }

  method Fill(a: array<Octet>, b: Bytes)
    requires |b| <= a.Length
    modifies a
    ensures a[..|b|] == b
  {
    for i := 0 to |b|
      invariant a[..i] == b[..i]
    {
      a[i] := b[i];
    }
  }

  /** Masks into a buffer of its own, as the sender does. */
  method MaskInto(payload: Bytes, k: Quad) returns (body: Bytes)
    ensures body == Masked(payload, k)
  {
    hide Masked;
    var src := new Octet[|payload|](i requires 0 <= i < |payload| => payload[i]);
    var dst := new Octet[|payload|];
    assert src[..|payload|] == payload;
    MaskCopy(dst, src, |payload|, k);
    body := dst[..|payload|];
  }

  lemma SplitSlice(s: Bytes, lo: nat, n: nat, hi: nat)
    requires lo + n <= hi <= |s|
    ensures s[lo..hi][..n] == s[lo..lo + n] && s[lo..hi][n..] == s[lo + n..hi]
  {
  }

  lemma ExtSizeSmall(code: nat)
    ensures ExtSize(code) <= 8
  {
  }

  lemma FirstFrame(p: Bytes, sent: nat, n: nat, client: bool, key: nat -> Quad, i: nat)
    requires sent <= |p| && n == if |p| - sent < MAX_FRAME then |p| - sent else MAX_FRAME
    ensures var f := Frame(2, p[sent..sent + n], client, key(i));
            f.Ok() && WriteFrames(p[sent..], client, key, i) ==
                      [f] + if sent + n == |p| then [] else WriteFrames(p[sent + n..], client, key, i + 1)
  {
    var q := p[sent..];
    assert q[..n] == p[sent..sent + n] && q[n..] == p[sent + n..];
    if |q| <= MAX_FRAME { assert q[..|q|] == q; }
  }

  lemma EncodeNothing()
    ensures EncodeAll([]) == []
  {
  }

  lemma EncodeOneMore(fs: seq<Frame>, f: Frame)
    requires f.Ok() && forall g :: g in fs ==> g.Ok()
    ensures EncodeAll(fs + [f]) == EncodeAll(fs) + Encode(f)
  {
    hide Encode;
    EncodeAllAppend(fs, [f]);
    assert [f][1..] == [];
    EncodeNothing();
    assert EncodeAll([f]) == Encode(f) + [];
  }

  /** What one frame means for the loop of Read. */
  lemma FetchUnfolds(inp: Bytes)
    ensures var r := Parse(inp); var f := FetchFrom(inp);
            if !r.Got? then f == Fetch(StopOf(r), [], inp, []) else
              if !Carried(r.op, |r.payload|) then f == Fetch(StopOf(r), [], r.rest, []) else
                if IsData(r.op) && r.payload != [] then f == Fetch(Data, r.payload, r.rest, []) else
                  f == var g := FetchFrom(r.rest); if r.op == 9 then g.(pings := [r.payload] + g.pings) else g
  {
    hide Parse, Carried;
  }

  /** The answers to pings, in order. */
  function Pongs(pings: seq<Bytes>, client: bool, key: nat -> Quad, i: nat): (fs: seq<Frame>)
    ensures |fs| == |pings|
    ensures forall k :: 0 <= k < |pings| ==> fs[k] == Frame(10, pings[k], client, key(i + k))
  {
    seq(|pings|, k requires 0 <= k < |pings| => Frame(10, pings[k], client, key(i + k)))
  }

  /** The pings that the next Read meets. */
  function Pinged(r: Reader): (pings: seq<Bytes>) {
    if r.rbuf != [] then [] else FetchFrom(r.inp).pings
  }

  ghost predicate ControlSized(pings: seq<Bytes>) {
    forall k :: 0 <= k < |pings| ==> |pings[k]| <= MAX_CONTROL
  }

  lemma {:induction false} PingsSized(inp: Bytes)
    ensures ControlSized(FetchFrom(inp).pings)
    decreases |inp|
  {
    hide Parse;
    var r := Parse(inp);
    if r.Got? && Carried(r.op, |r.payload|) {
      ParseShrinks(inp);
      PingsSized(r.rest);
    }
  }

  lemma PongsFit(r: Reader, client: bool, key: nat -> Quad, i: nat)
    ensures Fit(Pongs(Pinged(r), client, key, i))
  {
    hide FetchFrom;
    PingsSized(r.inp);
  }

  lemma NoPongs(client: bool, key: nat -> Quad, i: nat)
    ensures EncodeAll(Pongs([], client, key, i)) == []
  {
  }

  lemma PongsStep(pings: seq<Bytes>, p: Bytes, client: bool, key: nat -> Quad, i: nat)
    requires ControlSized(pings) && |p| <= MAX_CONTROL
    ensures ControlSized(pings + [p]) && Frame(10, p, client, key(i + |pings|)).Ok()
    ensures EncodeAll(Pongs(pings + [p], client, key, i)) ==
            EncodeAll(Pongs(pings, client, key, i)) + Encode(Frame(10, p, client, key(i + |pings|)))
  {
    hide Encode;
    assert Pongs(pings + [p], client, key, i) == Pongs(pings, client, key, i) + [Frame(10, p, client, key(i + |pings|))];
    EncodeOneMore(Pongs(pings, client, key, i), Frame(10, p, client, key(i + |pings|)));
  }
}
