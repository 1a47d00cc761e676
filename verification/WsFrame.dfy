/**
 WebSocket frames (section 5.2 of RFC 6455) as internal/packet/wsconn.go writes and reads them:
 the data bytes of one side's frames are a byte stream to the other.
 */
module WsFrame {
  import opened Octets
  import opened Wire
  import opened WsMask

  const MAX_FRAME: nat := 65535
  const MAX_READ: nat := 131070
  const MAX_CONTROL: nat := 125

  datatype Frame = Frame(op: nat, payload: Bytes, masked: bool, key: Quad) {
    predicate Ok() {
      op < 16 && |payload| < 0x8000_0000_0000_0000
    }
  }

  // ----- encoding

  /** The 7-bit length code and its extension. */
  function LengthCode(n: nat): (c: nat)
    ensures c < 128
  {
    if n < 126 then n else if n < 0x1_0000 then 126 else 127
  }

  function LengthExt(n: nat): (b: Bytes)
    requires n < 0x8000_0000_0000_0000
    ensures |b| == if n < 126 then 0 else if n < 0x1_0000 then 2 else 8
  {
    if n < 126 then [] else if n < 0x1_0000 then Put16(n) else Put64(n)
  }

  function Body(f: Frame): (b: Bytes)
    ensures |b| == |f.payload|
  {
    if f.masked then Masked(f.payload, f.key) else f.payload
  }

  function MaskField(f: Frame): (b: Bytes)
    ensures |b| == if f.masked then 4 else 0
  {
    if f.masked then f.key else []
  }

  function Encode(f: Frame): (b: Bytes)
    requires f.Ok()
  {
    var n := |f.payload|;
    [128 + f.op, (if f.masked then 128 else 0) + LengthCode(n)] + LengthExt(n) + MaskField(f) + Body(f)
  }

  // ----- decoding

  datatype Parsed = Got(op: nat, payload: Bytes, rest: Bytes) | Short | Desync

  function ExtSize(code: nat): (k: nat)
    ensures k <= 8
  {
    if code == 126 then 2 else if code == 127 then 8 else 0
  }

  function Length(code: nat, ext: Bytes): (n: nat)
    requires |ext| >= ExtSize(code)
  {
    if code == 126 then Get16(ext, 0) else if code == 127 then Get64(ext) else code
  }

  /** The payload behind a header that ends at offset at. */
  function Payload(inp: Bytes, at: nat, masked: bool, n: nat): (p: Bytes)
    requires at + (if masked then 4 else 0) + n <= |inp|
  {
    if masked then Masked(inp[at + 4..at + 4 + n], inp[at..at + 4]) else inp[at..at + n]
  }

  /** readWSFrame on the bytes that are still to come. */
  function Parse(inp: Bytes): (r: Parsed)
    ensures r.Got? ==> |r.rest| < |inp|
  {
    if |inp| < 2 then Short else
      var code, masked := inp[1] % 128, inp[1] >= 128;
      var at := 2 + ExtSize(code);
      if |inp| < at then Short else
        var n := Length(code, inp[2..]);
        var from := at + if masked then 4 else 0;
        if n > MAX_READ then Desync else
          if |inp| < from + n then Short else
            Got(inp[0] % 16, Payload(inp, at, masked, n), inp[from + n..])
  }

  lemma LengthRoundTrip(n: nat, t: Bytes)
    requires n < 0x8000_0000_0000_0000
    ensures ExtSize(LengthCode(n)) == |LengthExt(n)|
    ensures Length(LengthCode(n), LengthExt(n) + t) == n
  {
    hide Get16, Put16, Get64, Put64;
    if n < 126 {
    } else if n < 0x1_0000 {
      Get16Put(n, t);
    } else {
      Get64Put(n, t);
    }
  }

  lemma Get16Put(n: nat, t: Bytes)
    requires n < 0x1_0000
    ensures |Put16(n)| == 2 && Get16(Put16(n) + t, 0) == n
  {
  }

  lemma EncodeShape(f: Frame, rest: Bytes)
    requires f.Ok()
    ensures var b := Encode(f) + rest; var n := |f.payload|; var e, m := LengthExt(n), MaskField(f);
            && |b| >= 2 && b[0] == 128 + f.op && b[1] == (if f.masked then 128 else 0) + LengthCode(n)
            && b[2..] == e + (m + Body(f) + rest)
            && |b| == 2 + |e| + |m| + n + |rest|
            && b[2 + |e|..2 + |e| + |m|] == m
            && b[2 + |e| + |m|..2 + |e| + |m| + n] == Body(f)
            && b[2 + |e| + |m| + n..] == rest
  {
    hide LengthCode, LengthExt, MaskField, Body;
    var n := |f.payload|;
    BodySize(f);
    Pieces([128 + f.op, (if f.masked then 128 else 0) + LengthCode(n)], LengthExt(n), MaskField(f), Body(f), rest);
  }

  lemma BodySize(f: Frame)
    ensures |Body(f)| == |f.payload|
  {
  }

  lemma Pieces(h: Bytes, e: Bytes, m: Bytes, p: Bytes, rest: Bytes)
    requires |h| == 2
    ensures var b := h + e + m + p + rest;
            && b[0] == h[0] && b[1] == h[1] && b[2..] == e + (m + p + rest)
            && b[2 + |e|..2 + |e| + |m|] == m
            && b[2 + |e| + |m|..2 + |e| + |m| + |p|] == p
            && b[2 + |e| + |m| + |p|..] == rest
  {
  }

  /** A frame read back is the frame written, unless it is longer than the reader allows. */
  lemma FrameRoundTrip(f: Frame, rest: Bytes)
    requires f.Ok()
    ensures Parse(Encode(f) + rest) == if |f.payload| <= MAX_READ then Got(f.op, f.payload, rest) else Desync
  {
    hide Encode, LengthCode, LengthExt, Length, ExtSize, Masked, Parse;
    var b, n := Encode(f) + rest, |f.payload|;
    EncodeShape(f, rest);
    CodeBound(n);
    HeadOctets(f.op, LengthCode(n), f.masked);
    LengthRoundTrip(n, MaskField(f) + Body(f) + rest);
    ParseIs(b, 2 + |LengthExt(n)|, n);
    if f.masked { MaskTwice(f.payload, f.key); }
  }

  lemma HeadOctets(op: nat, code: nat, masked: bool)
    requires op < 16 && code < 128
    ensures (128 + op) % 16 == op && ((if masked then 128 else 0) + code) % 128 == code
  {
  }

  /** Parsing, once the header is known to end at offset at and to announce n bytes. */
  lemma ParseIs(b: Bytes, at: nat, n: nat)
    requires |b| >= at >= 2 && at == 2 + ExtSize(b[1] % 128) && Length(b[1] % 128, b[2..]) == n
    ensures n > MAX_READ ==> Parse(b) == Desync
    ensures var from := at + if b[1] >= 128 then 4 else 0;
            n <= MAX_READ && from + n <= |b| ==> Parse(b) == Got(b[0] % 16, Payload(b, at, b[1] >= 128, n), b[from + n..])
  {
    hide Length, ExtSize, Payload;
  }

  lemma CodeBound(n: nat)
    ensures LengthCode(n) < 128
  {
  }

  function EncodeAll(fs: seq<Frame>): (b: Bytes)
    requires forall f :: f in fs ==> f.Ok()
  {
    if fs == [] then [] else Encode(fs[0]) + EncodeAll(fs[1..])
  }

  lemma {:induction false} EncodeAllAppend(x: seq<Frame>, y: seq<Frame>)
    requires forall f :: f in x + y ==> f.Ok()
    ensures forall f :: f in x || f in y ==> f in x + y
    ensures EncodeAll(x + y) == EncodeAll(x) + EncodeAll(y)
    decreases |x|
  {
    hide Encode;
    assert forall f :: f in x || f in y ==> f in x + y;
    if x == [] {
      assert x + y == y;
    } else {
      assert (x + y)[0] == x[0] && (x + y)[1..] == x[1..] + y;
      EncodeAllAppend(x[1..], y);
    }
  }

  // ----- the byte stream

  predicate IsData(op: nat) {
    op <= 2
  }

  /** A frame the reader goes on after. */
  predicate Carried(op: nat, n: nat) {
    IsData(op) || ((op == 9 || op == 10) && n <= MAX_CONTROL)
  }

  /** The data bytes of the input up to the first frame that ends the stream. */
  function Stream(inp: Bytes): (b: Bytes)
    decreases |inp|
  {
    match Parse(inp)
    case Got(op, p, rest) =>
      if !Carried(op, |p|) then [] else (if IsData(op) then p else []) + Stream(rest)
    case _ => []
  }

  /** How reading ends: with bytes to hand over, at a close frame, on a broken frame, or in the middle of one. */
  datatype End = Data | Closed | Malformed | CutOff

  /** Why the reader stops at what it parsed. */
  function StopOf(r: Parsed): (e: End) {
    match r
    case Got(op, p, _) => if op == 8 && |p| <= MAX_CONTROL then Closed else Malformed
    case Short => CutOff
    case Desync => Malformed
  }

  /** How the input ends once its stream is read. */
  function EndOf(inp: Bytes): (e: End)
    decreases |inp|
  {
    var r := Parse(inp);
    if r.Got? && Carried(r.op, |r.payload|) then EndOf(r.rest) else StopOf(r)
  }

  function DataOf(fs: seq<Frame>): (b: Bytes) {
    if fs == [] then [] else (if IsData(fs[0].op) then fs[0].payload else []) + DataOf(fs[1..])
  }

  lemma {:induction false} DataOfAppend(x: seq<Frame>, y: seq<Frame>)
    ensures DataOf(x + y) == DataOf(x) + DataOf(y)
    decreases |x|
  {
    if x == [] {
      assert x + y == y;
    } else {
      assert (x + y)[0] == x[0] && (x + y)[1..] == x[1..] + y;
      DataOfAppend(x[1..], y);
    }
  }

  ghost predicate Fit(fs: seq<Frame>) {
    forall f :: f in fs ==> f.Ok() && |f.payload| <= MAX_READ && Carried(f.op, |f.payload|)
  }

  /** The data of any frames the reader goes on after, pings and pongs among them, comes out whole, and then what follows. */
  lemma {:induction false} StreamIsData(fs: seq<Frame>, rest: Bytes)
    requires Fit(fs)
    ensures Stream(EncodeAll(fs) + rest) == DataOf(fs) + Stream(rest)
    ensures EndOf(EncodeAll(fs) + rest) == EndOf(rest)
    decreases |fs|
  {
    hide Encode, Parse, Carried, Stream, EndOf, EncodeAll, DataOf;
    if fs == [] {
      AllOfNone(rest);
    } else {
      var f := fs[0];
      assert f in fs;
      AllUnfold(fs, rest);
      StreamFront(f, EncodeAll(fs[1..]) + rest);
      StreamIsData(fs[1..], rest);
    }
  }

  lemma AllOfNone(rest: Bytes)
    ensures EncodeAll([]) + rest == rest && DataOf([]) == []
  {
  }

  lemma AllUnfold(fs: seq<Frame>, rest: Bytes)
    requires fs != [] && forall f :: f in fs ==> f.Ok()
    ensures EncodeAll(fs) + rest == Encode(fs[0]) + (EncodeAll(fs[1..]) + rest)
    ensures DataOf(fs) == (if IsData(fs[0].op) then fs[0].payload else []) + DataOf(fs[1..])
  {
    hide Encode;
  }

  lemma StreamFront(f: Frame, more: Bytes)
    requires f.Ok() && |f.payload| <= MAX_READ && Carried(f.op, |f.payload|)
    ensures Stream(Encode(f) + more) == (if IsData(f.op) then f.payload else []) + Stream(more)
    ensures EndOf(Encode(f) + more) == EndOf(more)
  {
    hide Encode, Parse, Carried;
    FrameRoundTrip(f, more);
  }

  // ----- writing

  /** The frames of one Write; frame number i uses the i-th key drawn. */
  function WriteFrames(p: Bytes, client: bool, key: nat -> Quad, i: nat): (fs: seq<Frame>)
    ensures |fs| >= 1
    decreases |p|
  {
    if |p| <= MAX_FRAME then [Frame(2, p, client, key(i))] else
      [Frame(2, p[..MAX_FRAME], client, key(i))] + WriteFrames(p[MAX_FRAME..], client, key, i + 1)
  }

  lemma {:induction false} WriteFramesCarry(p: Bytes, client: bool, key: nat -> Quad, i: nat)
    ensures Fit(WriteFrames(p, client, key, i)) && DataOf(WriteFrames(p, client, key, i)) == p
    decreases |p|
  {
    if |p| > MAX_FRAME {
      WriteFramesCarry(p[MAX_FRAME..], client, key, i + 1);
      assert p[..MAX_FRAME] + p[MAX_FRAME..] == p;
    }
  }

  /** What one side does: a write, or a control frame between writes. */
  datatype Act = Put(data: Bytes) | Ping(note: Bytes) | Pong(note: Bytes)

  ghost predicate Sane(acts: seq<Act>) {
    forall a :: a in acts ==> a.Put? || |a.note| <= MAX_CONTROL
  }

  function ActFrames(a: Act, client: bool, key: nat -> Quad, i: nat): (fs: seq<Frame>) {
    match a
    case Put(p) => WriteFrames(p, client, key, i)
    case Ping(p) => [Frame(9, p, client, key(i))]
    case Pong(p) => [Frame(10, p, client, key(i))]
  }

  function Frames(acts: seq<Act>, client: bool, key: nat -> Quad, i: nat): (fs: seq<Frame>)
    decreases |acts|
  {
    if acts == [] then [] else
      var fs := ActFrames(acts[0], client, key, i);
      fs + Frames(acts[1..], client, key, i + |fs|)
  }

  function Written(acts: seq<Act>): (b: Bytes) {
    if acts == [] then [] else (if acts[0].Put? then acts[0].data else []) + Written(acts[1..])
  }

  lemma ActCarries(a: Act, client: bool, key: nat -> Quad, i: nat)
    requires a.Put? || |a.note| <= MAX_CONTROL
    ensures Fit(ActFrames(a, client, key, i))
    ensures DataOf(ActFrames(a, client, key, i)) == if a.Put? then a.data else []
  {
    if a.Put? { WriteFramesCarry(a.data, client, key, i); }
  }

  lemma {:induction false} FramesCarry(acts: seq<Act>, client: bool, key: nat -> Quad, i: nat)
    requires Sane(acts)
    ensures Fit(Frames(acts, client, key, i)) && DataOf(Frames(acts, client, key, i)) == Written(acts)
    decreases |acts|
  {
    hide ActFrames, DataOf;
    if acts == [] {
      NoData();
    } else {
      assert acts[0] in acts;
      var fs := ActFrames(acts[0], client, key, i);
      ActCarries(acts[0], client, key, i);
      FramesCarry(acts[1..], client, key, i + |fs|);
      DataOfAppend(fs, Frames(acts[1..], client, key, i + |fs|));
    }
  }

  lemma NoData()
    ensures DataOf([]) == []
  {
  }

  /** Either role, any keys, any writes and any control frames between them: the stream is what was written. */
  lemma StreamIdentity(acts: seq<Act>, client: bool, key: nat -> Quad, i: nat)
    requires Sane(acts)
    ensures Fit(Frames(acts, client, key, i))
    ensures Stream(EncodeAll(Frames(acts, client, key, i))) == Written(acts)
  {
    hide Stream, EncodeAll, Frames, DataOf;
    var fs := Frames(acts, client, key, i);
    FramesCarry(acts, client, key, i);
    StreamIsData(fs, []);
    assert EncodeAll(fs) + [] == EncodeAll(fs);
    StreamOfNothing();
  }

  lemma StreamOfNothing()
    ensures Stream([]) == []
  {
  }

  // ----- reading

  /** What the loop of Read takes from the input: the next non-empty payload and the pings passed. */
  datatype Fetch = Fetch(end: End, payload: Bytes, rest: Bytes, pings: seq<Bytes>)

  function FetchFrom(inp: Bytes): (r: Fetch)
    decreases |inp|
  {
    var r := Parse(inp);
    if !(r.Got? && Carried(r.op, |r.payload|)) then Fetch(StopOf(r), [], if r.Got? then r.rest else inp, []) else
      if IsData(r.op) && r.payload != [] then Fetch(Data, r.payload, r.rest, []) else
        var f := FetchFrom(r.rest);
        if r.op == 9 then f.(pings := [r.payload] + f.pings) else f
  }

  /** The loop takes the stream from the front, and gives up only when nothing is left of it. */
  lemma {:induction false} FetchTakes(inp: Bytes)
    ensures var f := FetchFrom(inp);
            && Stream(inp) == (if f.end.Data? then f.payload + Stream(f.rest) else []) && (f.end.Data? <==> Stream(inp) != [])
            && EndOf(inp) == (if f.end.Data? then EndOf(f.rest) else f.end)
    decreases |inp|
  {
    hide Parse, Carried;
    var r := Parse(inp);
    if r.Got? && Carried(r.op, |r.payload|) {
      ParseShrinks(inp);
      FetchTakes(r.rest);
      FetchOk(r.rest);
    }
    FetchOk(inp);
  }

  lemma ParseShrinks(inp: Bytes)
    ensures Parse(inp).Got? ==> |Parse(inp).rest| < |inp|
  {
  }

  lemma {:induction false} FetchOk(inp: Bytes)
    ensures FetchFrom(inp).end.Data? ==> FetchFrom(inp).payload != []
    decreases |inp|
  {
    hide Parse, Carried;
    var r := Parse(inp);
    if r.Got? && Carried(r.op, |r.payload|) {
      ParseShrinks(inp);
      FetchOk(r.rest);
    }
  }

  /** The unread part of a payload and the input behind it. */
  datatype Reader = Reader(rbuf: Bytes, inp: Bytes) {
    function Pending(): (b: Bytes) {
      rbuf + Stream(inp)
    }
  }

  datatype ReadOut = ReadOut(end: End, data: Bytes, reader: Reader)

  function Min(a: nat, b: nat): (r: nat) {
    if a < b then a else b
  }

  function Take(b: Bytes, inp: Bytes, size: nat): (r: ReadOut) {
    var n := Min(size, |b|);
    ReadOut(Data, b[..n], Reader(b[n..], inp))
  }

  /** One Read into a buffer of the given size. */
  function ReadOnce(s: Reader, size: nat): (r: ReadOut) {
    if s.rbuf != [] then Take(s.rbuf, s.inp, size) else
      var f := FetchFrom(s.inp);
      if f.end.Data? then Take(f.payload, f.rest, size) else ReadOut(f.end, [], Reader([], f.rest))
  }

  /** A Read returns the next bytes of the stream, some if there is room, and fails only at its end, as the input ends. */
  lemma ReadTakes(s: Reader, size: nat)
    ensures var r := ReadOnce(s, size);
            && (r.end.Data? ==> r.data + r.reader.Pending() == s.Pending() && (size > 0 ==> r.data != []) && |r.data| <= size)
            && (r.end.Data? <==> s.Pending() != [])
            && (if r.end.Data? then EndOf(r.reader.inp) == EndOf(s.inp) else r.end == EndOf(s.inp))
  {
    hide Stream, FetchFrom, EndOf;
    FetchTakes(s.inp);
    FetchOk(s.inp);
    if s.rbuf != [] {
      TakeSplits(s.rbuf, s.inp, size);
    } else if FetchFrom(s.inp).end.Data? {
      TakeSplits(FetchFrom(s.inp).payload, FetchFrom(s.inp).rest, size);
    }
  }

  lemma TakeSplits(b: Bytes, inp: Bytes, size: nat)
    ensures var r := Take(b, inp, size);
            r.data + r.reader.Pending() == b + Stream(inp) && (size > 0 && b != [] ==> r.data != []) && |r.data| <= size
  {
    hide Stream;
    var n := Min(size, |b|);
    assert b[..n] + (b[n..] + Stream(inp)) == b + Stream(inp);
  }

  /** What Reads of the given sizes return, up to the first that fails. */
  function ReadAll(s: Reader, sizes: seq<nat>): (b: Bytes)
    decreases |sizes|
  {
    if sizes == [] then [] else
      var r := ReadOnce(s, sizes[0]);
      if r.end.Data? then r.data + ReadAll(r.reader, sizes[1..]) else []
  }

  /** Reads of any sizes return a prefix of the stream, and all of it once there are enough of them. */
  lemma {:induction false} ReadAllPrefix(s: Reader, sizes: seq<nat>)
    ensures ReadAll(s, sizes) <= s.Pending()
    ensures |sizes| >= |s.Pending()| && (forall i :: 0 <= i < |sizes| ==> sizes[i] > 0) ==> ReadAll(s, sizes) == s.Pending()
    decreases |sizes|
  {
    hide ReadOnce, Reader.Pending;
    if sizes != [] {
      ReadTakes(s, sizes[0]);
      var r := ReadOnce(s, sizes[0]);
      if r.end.Data? { ReadAllPrefix(r.reader, sizes[1..]); }
    }
  }

  /** From one side's writes to the other side's reads. */
  lemma EndToEnd(acts: seq<Act>, client: bool, key: nat -> Quad, i: nat, sizes: seq<nat>)
    requires Sane(acts) && |sizes| >= |Written(acts)| && forall k :: 0 <= k < |sizes| ==> sizes[k] > 0
    ensures Fit(Frames(acts, client, key, i))
    ensures ReadAll(Reader([], EncodeAll(Frames(acts, client, key, i))), sizes) == Written(acts)
  {
    hide Stream, EncodeAll, Frames, ReadAll;
    StreamIdentity(acts, client, key, i);
    var s := Reader([], EncodeAll(Frames(acts, client, key, i)));
    assert s.Pending() == Written(acts);
    ReadAllPrefix(s, sizes);
  }

  // ----- the octets of a frame

  /** How many octets precede the key and the payload. */
  function HeadSize(n: nat): (h: nat) {
    if n < 126 then 2 else if n < 0x1_0000 then 4 else 10
  }

  /** The layout of section 5.2 of RFC 6455: a final frame, no reserved bits, the shortest length, key and masked payload. */
  lemma FrameLayout(f: Frame)
    requires f.Ok()
    ensures var b, n, h := Encode(f), |f.payload|, HeadSize(|f.payload|);
            && |b| == h + (if f.masked then 4 else 0) + n
            && b[0] / 128 == 1 && b[0] / 16 % 8 == 0 && b[0] % 16 == f.op && b[1] / 128 == (if f.masked then 1 else 0)
            && (if n < 126 then b[1] % 128 == n
                else if n < 0x1_0000 then b[1] % 128 == 126 && GetBe(b[2..4]) == n
                else b[1] % 128 == 127 && GetBe(b[2..10]) == n)
            && (f.masked ==> b[h..h + 4] == f.key && forall i :: 0 <= i < n ==> b[h + 4 + i] == Xor8(f.payload[i], f.key[i % 4]))
            && (!f.masked ==> b[h..] == f.payload)
  {
    hide Encode, LengthCode, LengthExt, GetBe, Xor8, Masked, MaskField, Body;
    var b, n := Encode(f), |f.payload|;
    EncodeShape(f, []);
    assert b + [] == b;
    HeadBits(f.op);
    CodeBits(LengthCode(n), f.masked);
    ExtSpells(n);
    FieldInFront(b[2..], LengthExt(n), MaskField(f) + Body(f) + []);
    BodyLayout(f);
    var h, m := HeadSize(n), |MaskField(f)|;
    assert b[2..][..h - 2] == b[2..h];
    BodyAt(b, h + m, Body(f));
    if !f.masked { assert b[h..] == b[h..h + n]; }
  }

  lemma BodyAt(b: Bytes, at: nat, body: Bytes)
    requires at + |body| <= |b| && b[at..at + |body|] == body
    ensures forall i :: 0 <= i < |body| ==> b[at + i] == body[i]
  {
    forall i | 0 <= i < |body| ensures b[at + i] == body[i] { assert b[at..at + |body|][i] == b[at + i]; }
  }

  lemma FieldInFront(b: Bytes, e: Bytes, rest: Bytes)
    requires b == e + rest
    ensures b[..|e|] == e
  {
  }

  lemma CodeBits(code: nat, masked: bool)
    requires code < 128
    ensures var o := (if masked then 128 else 0) + code; o % 128 == code && o / 128 == if masked then 1 else 0
  {
  }

  lemma BodyLayout(f: Frame)
    ensures |MaskField(f)| == (if f.masked then 4 else 0) && (f.masked ==> MaskField(f) == f.key)
    ensures |Body(f)| == |f.payload|
    ensures f.masked ==> forall i :: 0 <= i < |f.payload| ==> Body(f)[i] == Xor8(f.payload[i], f.key[i % 4])
    ensures !f.masked ==> Body(f) == f.payload
  {
    hide Xor8;
  }

  lemma HeadBits(op: nat)
    requires op < 16
    ensures (128 + op) / 128 == 1 && (128 + op) / 16 % 8 == 0 && (128 + op) % 16 == op
  {
  }

  lemma ExtSpells(n: nat)
    requires n < 0x8000_0000_0000_0000
    ensures |LengthExt(n)| == HeadSize(n) - 2
    ensures LengthCode(n) == if n < 126 then n else if n < 0x1_0000 then 126 else 127
    ensures n >= 126 ==> GetBe(LengthExt(n)) == n
  {
    if 126 <= n < 0x1_0000 {
      TwoOctets(Put16(n));
    } else if n >= 0x1_0000 {
      Get64Put(n, []);
      assert Put64(n) + [] == Put64(n) && Put64(n)[..8] == Put64(n);
    }
  }

  /** A write is cut into binary frames of 65535 octets, the last one with what is left. */
  lemma {:induction false} WriteFramesFull(p: Bytes, client: bool, key: nat -> Quad, i: nat, j: nat)
    requires j < |WriteFrames(p, client, key, i)|
    ensures j * 65535 <= |p| && (j > 0 ==> j * 65535 < |p|)
    ensures var from := j * 65535;
            var till := if from + 65535 < |p| then from + 65535 else |p|;
            && WriteFrames(p, client, key, i)[j] == Frame(2, p[from..till], client, key(i + j))
            && (j + 1 == |WriteFrames(p, client, key, i)| <==> till == |p|)
    decreases j
  {
    if j > 0 {
      WriteFramesFull(p[65535..], client, key, i + 1, j - 1);
    }
  }

  // ----- how the input ends

  /** A frame the reader does not go on after ends the stream: a close frame in good order, anything else in error. */
  lemma EndsAt(f: Frame, rest: Bytes)
    requires f.Ok()
    requires |f.payload| > 131070 || (f.op > 2 && !((f.op == 9 || f.op == 10) && |f.payload| <= 125))
    ensures Stream(Encode(f) + rest) == []
    ensures EndOf(Encode(f) + rest) == if f.op == 8 && |f.payload| <= 125 then Closed else Malformed
  {
    hide Encode, Parse;
    FrameRoundTrip(f, rest);
  }

  /** Input that stops inside a frame ends the stream there. */
  lemma EndsInside(f: Frame, k: nat)
    requires f.Ok() && |f.payload| <= 131070 && k < |Encode(f)|
    ensures Stream(Encode(f)[..k]) == [] && EndOf(Encode(f)[..k]) == CutOff
  {
    hide Encode, Parse;
    PrefixShort(f, k);
  }

  lemma PrefixShort(f: Frame, k: nat)
    requires f.Ok() && |f.payload| <= 131070 && k < |Encode(f)|
    ensures Parse(Encode(f)[..k]) == Short
  {
    hide Encode, LengthCode, LengthExt, Length, ExtSize, Masked, Payload;
    var b, n := Encode(f), |f.payload|;
    EncodeShape(f, []);
    assert b + [] == b;
    CodeBound(n);
    HeadOctets(f.op, LengthCode(n), f.masked);
    LengthRoundTrip(n, []);
    var p, e := b[..k], LengthExt(n);
    if k >= 2 + |e| {
      var t := p[2 + |e|..];
      assert p[2..] == e + t;
      LengthRoundTrip(n, t);
    }
  }
}
