/**
  Generic facts about sequences that the accumulation relies on: mapping a
  function over a sequence, and how mapping treats permutations.
 */
module Sequences {

  /** `f` applied to every element of `xs`. */
  function MapSeq<X, Y>(f: X -> Y, xs: seq<X>): (ys: seq<Y>)
    ensures |ys| == |xs|
    ensures forall i :: 0 <= i < |xs| ==> ys[i] == f(xs[i])
  {
    seq(|xs|, i requires 0 <= i < |xs| => f(xs[i]))
  }

  /** Mapping distributes over concatenation. */
  lemma MapSeqConcat<X, Y>(f: X -> Y, x: seq<X>, y: seq<X>)
    ensures MapSeq(f, x + y) == MapSeq(f, x) + MapSeq(f, y)
  {
    var l := MapSeq(f, x + y);
    var r := MapSeq(f, x) + MapSeq(f, y);
    assert |l| == |r|;
    forall i | 0 <= i < |l| ensures l[i] == r[i] {
      if i < |x| {
        assert (x + y)[i] == x[i];
      } else {
        assert (x + y)[i] == y[i - |x|];
      }
    }
  }

  /** Removing matching elements from equal multisets leaves equal multisets. */
  lemma RemoveMatching<T>(x: seq<T>, y: seq<T>, j: int)
    requires multiset(x) == multiset(y) && |x| > 0 && 0 <= j < |y| && y[j] == x[0]
    ensures multiset(x[1..]) == multiset(y[..j] + y[j + 1..])
  {
    var rest := y[..j] + y[j + 1..];
    assert x == [x[0]] + x[1..];
    assert y == y[..j] + [y[j]] + y[j + 1..];
    forall z ensures multiset(x[1..])[z] == multiset(rest)[z] {
      assert multiset(x)[z] == multiset{x[0]}[z] + multiset(x[1..])[z];
      assert multiset(y)[z] == multiset(y[..j])[z] + multiset{y[j]}[z] + multiset(y[j + 1..])[z];
      assert multiset(rest)[z] == multiset(y[..j])[z] + multiset(y[j + 1..])[z];
    }
  }

  /** The image of a non-empty sequence: the image of its head and of its tail. */
  lemma MapSeqFirst<X, Y>(f: X -> Y, x: seq<X>)
    requires |x| > 0
    ensures multiset(MapSeq(f, x)) == multiset{f(x[0])} + multiset(MapSeq(f, x[1..]))
  {
    assert x == [x[0]] + x[1..];
    MapSeqConcat(f, [x[0]], x[1..]);
    assert MapSeq(f, [x[0]]) == [f(x[0])];
  }

  /** The image of a sequence: the image of element `j` and of everything else. */
  lemma MapSeqAt<X, Y>(f: X -> Y, y: seq<X>, j: int)
    requires 0 <= j < |y|
    ensures multiset(MapSeq(f, y)) == multiset{f(y[j])} + multiset(MapSeq(f, y[..j] + y[j + 1..]))
  {
    var before, after := y[..j], y[j + 1..];
    assert y == (before + [y[j]]) + after;
    MapSeqConcat(f, before + [y[j]], after);
    MapSeqConcat(f, before, [y[j]]);
    MapSeqConcat(f, before, after);
    assert MapSeq(f, [y[j]]) == [f(y[j])];
  }

  /** Mapping permuted sequences gives permuted sequences. */
  lemma {:induction false} MapSeqPermutation<X, Y>(f: X -> Y, x: seq<X>, y: seq<X>)
    requires multiset(x) == multiset(y)
    ensures multiset(MapSeq(f, x)) == multiset(MapSeq(f, y))
    decreases |x|
  {
    if |x| > 0 {
      assert x[0] in multiset(y);
      var j :| 0 <= j < |y| && y[j] == x[0];
      RemoveMatching(x, y, j);
      MapSeqPermutation(f, x[1..], y[..j] + y[j + 1..]);
      MapSeqFirst(f, x);
      MapSeqAt(f, y, j);
    } else {
      assert y == [];
    }
  }

  /** A sequence is what comes before position `i`, the element there, and what follows. */
  lemma SplitAround<T>(xs: seq<T>, i: int)
    requires 0 <= i < |xs|
    ensures xs == xs[..i] + ([xs[i]] + xs[i + 1..])
  {
  }

  /** An element of the middle part of a concatenation is in the concatenation. */
  lemma InMiddle<T>(a: seq<T>, b: seq<T>, c: seq<T>, k: int)
    requires 0 <= k < |b|
    ensures b[k] in a + (b + c)
  {
    assert (a + (b + c))[|a| + k] == b[k];
  }
}
