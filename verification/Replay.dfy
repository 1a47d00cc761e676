/**
 The replay window of internal/packet/replay.go: a ring bitmap that remembers which
 of the last 32768 sequence numbers of a session were accepted. It follows the
 sliding window of section 3.4.3 of RFC 4303.
 */
module Replay {

  const WINDOW: nat := 32768
  const WORDS: nat := 512

  // ----- one word

  function And(x: bv64, y: bv64): (r: bv64) { x & y }
  function Or(x: bv64, y: bv64): (r: bv64) { x | y }
  function Not(x: bv64): (r: bv64) { !x }

  function One(a: bv7): (m: bv64)
    requires a < 64
  {
    (1 as bv64) << a
  }

  lemma OnesApart(a: bv7, b: bv7)
    requires a < 64 && b < 64 && a != b
    ensures And(One(a), One(b)) == 0
  {
  }

  lemma OneNonzero(a: bv7)
    requires a < 64
    ensures One(a) != 0
  {
  }

  lemma OrApart(w: bv64, m: bv64, n: bv64)
    requires And(m, n) == 0
    ensures And(Or(w, n), m) == And(w, m)
  {
  }

  lemma OrSame(w: bv64, m: bv64)
    ensures And(Or(w, m), m) == m
  {
  }

  lemma ClearApart(w: bv64, m: bv64, n: bv64)
    requires And(m, n) == 0
    ensures And(And(w, Not(n)), m) == And(w, m)
  {
  }

  lemma ClearSame(w: bv64, m: bv64)
    ensures And(And(w, Not(m)), m) == 0
  {
  }

  predicate Test(w: bv64, a: bv7)
    requires a < 64
  {
    And(w, One(a)) != 0
  }

  function With(w: bv64, a: bv7, on: bool): (r: bv64)
    requires a < 64
  {
    if on then Or(w, One(a)) else And(w, Not(One(a)))
  }

  lemma TestWith(w: bv64, a: bv7, b: bv7, on: bool)
    requires a < 64 && b < 64
    ensures Test(With(w, b, on), a) <==> if a == b then on else Test(w, a)
  {
    hide And, Or, Not, One;
    if a == b {
      OneNonzero(a);
      OrSame(w, One(a));
      ClearSame(w, One(a));
    } else {
      OnesApart(a, b);
      OrApart(w, One(a), One(b));
      ClearApart(w, One(a), One(b));
    }
  }

  lemma TestZero(a: bv7)
    requires a < 64
    ensures !Test(0, a)
  {
    assert And(0, One(a)) == 0;
  }

  /** The bit of a sequence number within its word. */
  function BitOf(k: nat): (a: bv7)
    ensures a < 64
  {
    Narrow(k % 64);
    (k % 64) as bv7
  }

  /** The bit-vector reached from zero by i additions of one. */
  ghost function Lane(i: nat): (a: bv7) {
    if i == 0 then 0 else Lane(i - 1) + 1
  }

  lemma Successor(a: bv7)
    requires a < 127
    ensures (a + 1) as nat == a as nat + 1
  {
  }

  lemma Below(a: bv7, b: bv7)
    ensures a as nat < b as nat <==> a < b
  {
  }

  lemma Literals()
    ensures (0 as bv7) as nat == 0 && (64 as bv7) as nat == 64 && (127 as bv7) as nat == 127
  {
  }

  lemma {:induction false} LaneValue(i: nat)
    requires i < 64
    ensures Lane(i) as nat == i && Lane(i) < 64
  {
    Literals();
    if i > 0 {
      LaneValue(i - 1);
      Below(Lane(i - 1), 127);
      Successor(Lane(i - 1));
    }
    Below(Lane(i), 64);
  }

  lemma BackAndForth(a: bv7)
    ensures (a as nat) as bv7 == a
  {
  }

  lemma Narrow(i: nat)
    requires i < 64
    ensures i as bv7 < 64 && (i as bv7) as nat == i
  {
    LaneValue(i);
    BackAndForth(Lane(i));
  }

  // ----- the ring

  type Bits = s: seq<bv64> | |s| == WORDS witness seq(WORDS, _ => 0)

  function Word(k: nat): (i: nat)
    ensures i < WORDS
  {
    k % WINDOW / 64
  }

  predicate Marked(bits: Bits, k: nat) {
    Test(bits[Word(k)], BitOf(k))
  }

  function Put(bits: Bits, k: nat, on: bool): (r: Bits) {
    bits[Word(k) := With(bits[Word(k)], BitOf(k), on)]
  }

  /** Marking one number touches exactly the numbers of its slot. */
  lemma PutMarks(bits: Bits, k: nat, on: bool, j: nat)
    ensures Marked(Put(bits, k, on), j) <==> if j % WINDOW == k % WINDOW then on else Marked(bits, j)
  {
    hide With, Test, BitOf, Word;
    SlotOf(j, k);
    TestWith(bits[Word(k)], BitOf(j), BitOf(k), on);
  }

  /** The word and the bit fix the number modulo the window. */
  lemma SlotOf(j: nat, k: nat)
    ensures Word(j) < WORDS && Word(k) < WORDS && BitOf(j) < 64 && BitOf(k) < 64
    ensures Word(j) == Word(k) && BitOf(j) == BitOf(k) <==> j % WINDOW == k % WINDOW
  {
    hide BitOf, Word;
    BitsAgree(j, k);
    WordLane(j);
    WordLane(k);
  }

  lemma WordLane(k: nat)
    ensures Word(k) < WORDS && k % WINDOW == 64 * Word(k) + k % 64
  {
  }

  lemma BitsAgree(j: nat, k: nat)
    ensures BitOf(j) < 64 && BitOf(k) < 64
    ensures BitOf(j) == BitOf(k) <==> j % 64 == k % 64
  {
    Narrow(j % 64);
    Narrow(k % 64);
  }

  lemma SlotsApart(j: nat, k: nat)
    requires j != k && j < k + WINDOW && k < j + WINDOW
    ensures j % WINDOW != k % WINDOW
  {
  }

  lemma ZeroMarks(bits: Bits, k: nat)
    requires forall i :: 0 <= i < WORDS ==> bits[i] == 0
    ensures !Marked(bits, k)
  {
    TestZero(BitOf(k));
    hide Test;
  }

  // ----- the specification

  /** Every number accepted in the session since it was opened by a change of session. */
  datatype Model = Closed | Open(session: nat, top: nat, accepted: set<nat>)

  predicate Accepts(m: Model, session: nat, seqno: nat) {
    m.Closed? || m.session != session || (seqno + WINDOW > m.top && seqno !in m.accepted)
  }

  function Next(m: Model, session: nat, seqno: nat): (r: Model) {
    if m.Closed? || m.session != session then Open(session, seqno, {seqno}) else
      if !Accepts(m, session, seqno) then m else
        Open(session, if seqno > m.top then seqno else m.top, m.accepted + {seqno})
  }

  /** The bitmap is right about every number of the window below top. */
  ghost predicate Covers(bits: Bits, top: nat, accepted: set<nat>) {
    (forall k :: k in accepted ==> k <= top) && Right(bits, top + 1, top, accepted)
  }

  /** Right about the numbers below end that lie in the window below top. */
  ghost predicate Right(bits: Bits, end: nat, top: nat, accepted: set<nat>) {
    forall k: nat :: k < end && top < k + WINDOW ==> (Marked(bits, k) <==> k in accepted)
  }

  /** A cleared bitmap with one mark, when everything accepted is older than the window. */
  lemma OpenCovers(bits: Bits, top: nat, accepted: set<nat>)
    requires forall i :: 0 <= i < WORDS ==> bits[i] == 0
    requires top in accepted && forall k :: k in accepted ==> k == top || k + WINDOW <= top
    ensures Covers(Put(bits, top, true), top, accepted)
  {
    hide Put, Marked;
    forall k: nat | k <= top < k + WINDOW
      ensures Marked(Put(bits, top, true), k) <==> k in accepted
    {
      PutMarks(bits, top, true, k);
      ZeroMarks(bits, k);
      if k != top { SlotsApart(k, top); }
    }
  }

  /** Marking the number that ends the part known to be right. */
  lemma PutExtends(bits: Bits, end: nat, top: nat, accepted: set<nat>)
    requires end <= top < end + WINDOW && Right(bits, end, top, accepted)
    ensures Right(Put(bits, end, end in accepted), end + 1, top, accepted)
  {
    hide Put, Marked;
    forall k: nat | k < end + 1 && top < k + WINDOW
      ensures Marked(Put(bits, end, end in accepted), k) <==> k in accepted
    {
      PutMarks(bits, end, end in accepted, k);
      if k != end { SlotsApart(k, end); }
    }
  }

  /** Marking a number inside the window. */
  lemma PutInside(bits: Bits, k: nat, top: nat, accepted: set<nat>)
    requires k <= top < k + WINDOW && Covers(bits, top, accepted)
    ensures Covers(Put(bits, k, true), top, accepted + {k})
  {
    hide Put, Marked;
    forall j: nat | j <= top < j + WINDOW
      ensures Marked(Put(bits, k, true), j) <==> j in accepted + {k}
    {
      PutMarks(bits, k, true, j);
      if j != k { SlotsApart(j, k); }
    }
  }

  // ----- the guard

  class Guard {
    var haveSession: bool
    var session: nat
    var top: nat
    const bits: array<bv64>
    ghost var model: Model

    ghost predicate Valid()
      reads this, bits
    {
      bits.Length == WORDS && haveSession == model.Open? &&
      (model.Open? ==> session == model.session && top == model.top && Covers(bits[..], top, model.accepted))
    }

    constructor ()
      ensures Valid() && model == Closed && fresh(bits)
    {
      haveSession, session, top := false, 0, 0;
      bits := new bv64[WORDS](_ => 0);
      model := Closed;
    }

    method Mark(seqno: nat, on: bool)
      requires bits.Length == WORDS
      modifies bits
      ensures bits[..] == Put(old(bits[..]), seqno, on)
    {
      hide With, BitOf;
      var i := seqno % WINDOW / 64;
      ghost var was := bits[..];
      bits[i] := With(bits[i], BitOf(seqno), on);
      assert bits[..] == was[i := With(was[i], BitOf(seqno), on)];
    }

    method Seen(seqno: nat) returns (r: bool)
      requires bits.Length == WORDS
      ensures r == Marked(bits[..], seqno)
    {
      hide Test, BitOf;
      r := Test(bits[seqno % WINDOW / 64], BitOf(seqno));
    }

    /** Starts over at seqno; the caller says what counts as accepted from here on. */
    method OpenAt(session: nat, seqno: nat, ghost accepted: set<nat>) returns (r: bool)
      requires bits.Length == WORDS
      requires seqno in accepted && forall k :: k in accepted ==> k == seqno || k + WINDOW <= seqno
      modifies this, bits
      ensures Valid() && r && model == Open(session, seqno, accepted)
    {
      haveSession, this.session, top := true, session, seqno;
      Clear();
      OpenCovers(bits[..], seqno, accepted);
      Mark(seqno, true);
      model := Open(session, seqno, accepted);
      return true;
    }

    method Clear()
      requires bits.Length == WORDS
      modifies bits
      ensures forall i :: 0 <= i < WORDS ==> bits[i] == 0
    {
      for i := 0 to WORDS
        invariant forall j :: 0 <= j < i ==> bits[j] == 0
      {
        bits[i] := 0;
      }
    }

    /** The verdict and the new window are those of the specification. */
    method Ok(session: nat, seqno: nat) returns (r: bool)
      requires Valid()
      modifies this, bits
      ensures Valid()
      ensures r == Accepts(old(model), session, seqno) && model == Next(old(model), session, seqno)
    {
      hide Put, Marked;
      if !haveSession || session != this.session {
        r := OpenAt(session, seqno, {seqno});
        return;
      }
      if seqno > top {
        if seqno - top >= WINDOW {
          r := OpenAt(session, seqno, model.accepted + {seqno});
          return;
        }
        Advance(seqno);
        return true;
      }
      if top - seqno >= WINDOW {
        return false;
      }
      var dup := Seen(seqno);
      if dup {
        return false;
      }
      PutInside(bits[..], seqno, top, model.accepted);
      Mark(seqno, true);
      model := Open(session, top, model.accepted + {seqno});
      return true;
    }

    /** Moves the window up to seqno: the numbers skipped are unmarked, seqno is marked. */
    method Advance(seqno: nat)
      requires Valid() && model.Open? && top < seqno < top + WINDOW
      modifies this, bits
      ensures Valid() && model == Open(old(model.session), seqno, old(model.accepted) + {seqno})
    {
      hide Put, Marked;
      ghost var acc := model.accepted + {seqno};
      var s := top + 1;
      while s < seqno
        invariant top < s <= seqno && bits.Length == WORDS
        invariant Right(bits[..], s, seqno, acc)
        modifies bits
      {
        PutExtends(bits[..], s, seqno, acc);
        Mark(s, false);
        s := s + 1;
      }
      PutExtends(bits[..], seqno, seqno, acc);
      top := seqno;
      Mark(seqno, true);
      model := Open(model.session, seqno, acc);
    }
  }

  // ----- runs over any sessions

  datatype Call = Call(session: nat, number: nat)

  ghost function RunModel(s: seq<Call>): (m: Model) {
    if s == [] then Closed else
      var c := s[|s| - 1];
      Next(RunModel(s[..|s| - 1]), c.session, c.number)
  }

  /** The verdict on call i of a run. */
  ghost predicate Verdict(s: seq<Call>, i: nat)
    requires i < |s|
  {
    Accepts(RunModel(s[..i]), s[i].session, s[i].number)
  }

  /** Where the stretch of one session that call i belongs to begins. */
  function Since(s: seq<Call>, i: nat): (from: nat)
    requires i < |s|
    ensures from <= i
  {
    if i == 0 || s[i - 1].session != s[i].session then i else Since(s, i - 1)
  }

  ghost predicate AcceptedIn(s: seq<Call>, from: nat, i: nat, x: nat)
    requires i <= |s|
  {
    exists j: nat :: from <= j < i && s[j].number == x && Verdict(s, j)
  }

  /** No number of the stretch so far is too far ahead of x. */
  ghost predicate Recent(s: seq<Call>, from: nat, i: nat, x: nat)
    requires i <= |s|
  {
    forall j :: from <= j < i ==> x + WINDOW > s[j].number
  }

  /** The window is about one stretch: what it accepted, and its largest number. */
  ghost predicate Knows(m: Model, s: seq<Call>, from: nat, i: nat)
    requires from < i <= |s|
  {
    && m.Open? && m.session == s[i - 1].session
    && (forall x: nat :: x in m.accepted <==> AcceptedIn(s, from, i, x))
    && (forall x: nat :: x in m.accepted ==> x <= m.top)
    && (exists j :: from <= j < i && s[j].number == m.top)
    && (forall j :: from <= j < i ==> s[j].number <= m.top)
  }

  /** What the model knows after call i. */
  lemma {:induction false} RunKnows(s: seq<Call>, i: nat)
    requires i < |s|
    ensures Knows(RunModel(s[..i + 1]), s, Since(s, i), i + 1)
    decreases i
  {
    hide Knows, Verdict, Accepts, Next;
    var was := RunModel(s[..i]);
    ModelStep(s, i);
    if i == 0 {
      assert s[..0] == [];
    } else {
      RunKnows(s, i - 1);
      KnowsSession(was, s, Since(s, i - 1), i);
    }
    if Since(s, i) == i {
      StretchBegins(was, s, i);
    } else {
      StretchGoesOn(was, s, Since(s, i), i);
    }
  }

  lemma ModelStep(s: seq<Call>, i: nat)
    requires i < |s|
    ensures RunModel(s[..i + 1]) == Next(RunModel(s[..i]), s[i].session, s[i].number)
  {
    assert s[..i + 1][..i] == s[..i];
  }

  lemma KnowsSession(m: Model, s: seq<Call>, from: nat, i: nat)
    requires from < i <= |s| && Knows(m, s, from, i)
    ensures m.Open? && m.session == s[i - 1].session
  {
  }

  lemma StretchBegins(was: Model, s: seq<Call>, i: nat)
    requires i < |s| && was == RunModel(s[..i]) && (was.Closed? || was.session != s[i].session)
    ensures Knows(Next(was, s[i].session, s[i].number), s, i, i + 1) && Verdict(s, i)
  {
    hide RunModel, AcceptedIn;
    assert Verdict(s, i);
    var m := Next(was, s[i].session, s[i].number);
    forall x: nat ensures x in m.accepted <==> AcceptedIn(s, i, i + 1, x) { AcceptedStep(s, i, i, x); }
    assert s[i].number == m.top;
  }

  lemma StretchGoesOn(was: Model, s: seq<Call>, from: nat, i: nat)
    requires from < i < |s| && was == RunModel(s[..i]) && Knows(was, s, from, i) && was.session == s[i].session
    ensures Knows(Next(was, s[i].session, s[i].number), s, from, i + 1)
  {
    hide RunModel, AcceptedIn;
    var m := Next(was, s[i].session, s[i].number);
    forall x: nat ensures x in m.accepted <==> AcceptedIn(s, from, i + 1, x) { AcceptedStep(s, from, i, x); }
    var j :| from <= j < i && s[j].number == was.top;
    assert s[j].number == m.top || s[i].number == m.top;
  }

  lemma AcceptedStep(s: seq<Call>, from: nat, i: nat, x: nat)
    requires from <= i < |s|
    ensures AcceptedIn(s, from, i + 1, x) <==> (from < i && AcceptedIn(s, from, i, x)) || (s[i].number == x && Verdict(s, i))
  {
    hide Verdict;
  }

  /**
   A call is accepted exactly when, since the last change of session, its number is within
   the window of everything seen and was not accepted.
   */
  lemma VerdictIff(s: seq<Call>, i: nat)
    requires i < |s|
    ensures var from := Since(s, i);
            Verdict(s, i) <==> Recent(s, from, i, s[i].number) && !AcceptedIn(s, from, i, s[i].number)
  {
    hide RunModel, AcceptedIn;
    if i > 0 { RunKnows(s, i - 1); }
    if Since(s, i) == i {
      StretchOfOne(s, i);
      NoneYet(s, i, s[i].number);
    }
  }

  lemma NoneYet(s: seq<Call>, i: nat, x: nat)
    requires i <= |s|
    ensures !AcceptedIn(s, i, i, x)
  {
  }

  /** The first call of a stretch is always accepted. */
  lemma StretchOfOne(s: seq<Call>, i: nat)
    requires i < |s| && Since(s, i) == i
    ensures Verdict(s, i)
  {
    hide Knows, Verdict, Accepts, Next;
    var was := RunModel(s[..i]);
    if i == 0 {
      assert s[..0] == [];
    } else {
      RunKnows(s, i - 1);
      KnowsSession(was, s, Since(s, i - 1), i);
    }
    StretchBegins(was, s, i);
  }

  /** Nothing is accepted twice in a stretch of one session. */
  lemma NeverTwice(s: seq<Call>, i: nat, j: nat)
    requires i < j < |s| && Since(s, j) <= i && s[i].number == s[j].number && Verdict(s, i)
    ensures !Verdict(s, j)
  {
    hide Verdict;
    VerdictIff(s, j);
    assert AcceptedIn(s, Since(s, j), j, s[j].number);
  }

  /** A change of session opens the window again, whatever was accepted before. */
  lemma SessionReopens(s: seq<Call>, i: nat)
    requires 0 < i < |s| && s[i - 1].session != s[i].session
    ensures Verdict(s, i)
  {
    StretchOfOne(s, i);
  }
}
