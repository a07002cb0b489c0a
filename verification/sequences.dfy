/**
 Removal of one position from a sequence, written the way the component does
 it: keep every element whose index differs from the chosen one.
 */
module Sequences {

  /** The elements of `xs` whose index is not `i`, in their original order. */
  function FilterOutIndex<T>(xs: seq<T>, i: int): (r: seq<T>)
    ensures 0 <= i < |xs| ==> |r| == |xs| - 1
    ensures !(0 <= i < |xs|) ==> r == xs
    decreases |xs|
  {
    if xs == [] then []
    else if i == 0 then FilterOutIndex(xs[1..], i - 1)
    else [xs[0]] + FilterOutIndex(xs[1..], i - 1)
  }

  /** Filtering out an in-range index is cutting that one position out. */
  lemma {:induction false} FilterOutIndexIsSplice<T>(xs: seq<T>, i: int)
    requires 0 <= i < |xs|
    ensures FilterOutIndex(xs, i) == xs[..i] + xs[i + 1..]
    decreases |xs|
  {
    if i == 0 {
      assert xs[..0] + xs[1..] == xs[1..];
    } else {
      FilterOutIndexIsSplice(xs[1..], i - 1);
      SpliceUnderCons(xs[0], xs[1..], i - 1);
      assert [xs[0]] + xs[1..] == xs;
    }
  }

  /** Cutting position `i` out removes exactly one occurrence of `xs[i]`. */
  lemma SpliceMultiset<T>(xs: seq<T>, i: nat)
    requires i < |xs|
    ensures multiset(xs[..i] + xs[i + 1..]) + multiset{xs[i]} == multiset(xs)
  {
    assert xs == xs[..i] + [xs[i]] + xs[i + 1..];
  }

  /** Cutting a position out of a tail commutes with putting an element in front. */
  lemma SpliceUnderCons<T>(h: T, xs: seq<T>, i: nat)
    requires i < |xs|
    ensures ([h] + xs)[..i + 1] + ([h] + xs)[i + 2..] == [h] + (xs[..i] + xs[i + 1..])
  {
  }

  /** Putting the cut-out element in front of a sequence that, with `left`, makes up the rest restores the whole. */
  lemma ConsOntoSplice<T>(xs: seq<T>, i: nat, rest: seq<T>, left: multiset<T>)
    requires i < |xs|
    requires multiset(rest) + left == multiset(xs[..i] + xs[i + 1..])
    ensures multiset([xs[i]] + rest) + left == multiset(xs)
  {
    SpliceMultiset(xs, i);
    assert multiset([xs[i]] + rest) == multiset{xs[i]} + multiset(rest);
  }
}
