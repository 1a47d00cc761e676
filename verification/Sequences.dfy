/** Sequences of sequences. */
module Sequences {

  /** All elements, in order. */
  function Concat<T>(s: seq<seq<T>>): (b: seq<T>) {
    if s == [] then [] else Concat(s[..|s| - 1]) + s[|s| - 1]
  }

  lemma ConcatNext<T>(s: seq<seq<T>>, i: nat)
    requires i < |s|
    ensures Concat(s[..i + 1]) == Concat(s[..i]) + s[i]
  {
    assert s[..i + 1][..i] == s[..i];
  }

  lemma {:induction false} ConcatPrefix<T>(s: seq<seq<T>>, i: nat)
    requires i <= |s|
    ensures Concat(s[..i]) <= Concat(s)
    decreases |s| - i
  {
    if i == |s| {
      assert s[..i] == s;
    } else {
      ConcatNext(s, i);
      ConcatPrefix(s, i + 1);
    }
  }

  lemma ConcatGrows<T>(s: seq<seq<T>>, p: seq<T>)
    ensures Concat(s + [p]) == Concat(s) + p
  {
    assert (s + [p])[..|s|] == s;
  }
}
