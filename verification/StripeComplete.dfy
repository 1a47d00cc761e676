/**
 The resequencer of the striping protocol holds nothing back: while the lock is free and the
 pipe is open, the output is everything before the first number that was never stored.
 */
module StripeComplete {
  import opened Wire
  import opened Sequences
  import opened Reseq
  import opened StripeRecord
  import opened Stripe

  /** What was stored is before next or pending, and all before next was stored. */
  ghost predicate Kept(s: State) {
    && (forall k :: k in s.stored ==> k < s.q.next || k in s.q.pend)
    && (forall k: nat :: k < s.q.next || k in s.q.pend ==> k in s.stored)
  }

  /** The drain loop ends only when the record due next is not there, or the pipe is broken. */
  predicate Drained(s: State) {
    s.lock.Free? && s.q.open ==> s.q.next !in s.q.pend
  }

  /** Steps that touch neither the queue, nor who holds the lock, nor what was stored. */
  predicate Aside(e: Step) {
    OfSender(e) || e.Write? || e.Head? || e.Cut? || e.Announce? || e.Unlock? || e.ClosePipe?
  }

  predicate Untouched(s: State, r: State) {
    && r.q == s.q.(open := r.q.open) && (r.q.open ==> s.q.open) && r.stored == s.stored
    && (r.lock.Free? ==> s.lock.Free? || s.q.next !in s.q.pend)
  }

  lemma AsideFrame(s: State, e: Step)
    requires Enabled(s, e) && Aside(e)
    ensures Untouched(s, Apply(s, e))
  {
    hide Apply;
    if e.Head? || e.Cut? { ReaderAside(s, e); } else { OtherAside(s, e); }
  }

  lemma ReaderAside(s: State, e: Step)
    requires Enabled(s, e) && (e.Head? || e.Cut?)
    ensures Untouched(s, Apply(s, e))
  {
    hide Nums, Record, HeadLen, Get64, BeginStep, EmitStep, Popped;
  }

  lemma OtherAside(s: State, e: Step)
    requires Enabled(s, e) && Aside(e) && !e.Head? && !e.Cut?
    ensures Untouched(s, Apply(s, e))
  {
    hide Nums, Record, HeadStep, CutStep, BeginStep, EmitStep, Popped;
  }

  lemma BeginCompletes(s: State, e: Step)
    requires Kept(s) && Drained(s) && Enabled(s, e) && e.Begin?
    ensures Kept(Apply(s, e)) && Drained(Apply(s, e))
  {
    hide Balanced, HeadLen, Get64, HeadStep, CutStep, EmitStep;
  }

  lemma PopCompletes(s: State, e: Step)
    requires Kept(s) && Enabled(s, e) && e.Pop?
    ensures Kept(Apply(s, e)) && Drained(Apply(s, e))
  {
    hide Balanced, HeadStep, CutStep, BeginStep, EmitStep;
  }

  lemma EmitCompletes(s: State, e: Step)
    requires Kept(s) && Enabled(s, e) && e.Emit?
    ensures Kept(Apply(s, e)) && Drained(Apply(s, e))
  {
    hide Balanced, HeadStep, CutStep, BeginStep;
  }

  lemma StepCompletes(s: State, e: Step)
    requires Kept(s) && Drained(s) && Enabled(s, e)
    ensures Kept(Apply(s, e)) && Drained(Apply(s, e))
  {
    hide Apply, Enabled;
    if e.Begin? { BeginCompletes(s, e); }
    else if e.Pop? { PopCompletes(s, e); }
    else if e.Emit? { EmitCompletes(s, e); }
    else { AsideFrame(s, e); }
  }

  lemma {:induction false} RunCompletes(s: State, steps: seq<Step>, r: State)
    requires Kept(s) && Drained(s) && Runs(s, steps, r)
    ensures Kept(r) && Drained(r)
    decreases |steps|
  {
    hide Kept, Drained, Apply, Enabled;
    if steps != [] {
      StepCompletes(s, steps[0]);
      RunCompletes(Apply(s, steps[0]), steps[1..], r);
    }
  }

  /** next is the first number that was never stored, and the output is everything before it. */
  lemma OutputIsComplete(steps: seq<Step>, r: State)
    requires Runs(INIT, steps, r) && r.lock.Free? && r.q.open
    ensures r.q.next !in r.stored && forall k: nat :: k < r.q.next ==> k in r.stored
    ensures r.q.next <= |r.accepted| && r.q.out == Concat(r.accepted[..r.q.next])
  {
    hide Runs, Concat;
    RunCompletes(INIT, steps, r);
    OutputIsPrefix(steps, r);
  }

  /** Once every accepted write was stored, all of it is out. */
  lemma AllOut(steps: seq<Step>, r: State)
    requires Runs(INIT, steps, r) && r.lock.Free? && r.q.open && forall k: nat :: k < |r.accepted| ==> k in r.stored
    ensures r.q.out == Concat(r.accepted)
  {
    hide Runs, Concat;
    OutputIsComplete(steps, r);
    assert r.accepted[..|r.accepted|] == r.accepted;
  }
}
