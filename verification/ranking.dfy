/**
  The ordering step of the compatibility ranking: JavaScript's stable
  `Array.prototype.sort` with the comparator `(a, b) => b.score - a.score`,
  followed by `slice(0, 5)`.
 */
module Ranking {

  /** `CompatibilityResult`: a profession's display name and its 0..100 score. */
  datatype CompatibilityResult = CompatibilityResult(name: string, score: int)

  /** Scores never increase along the sequence. */
  predicate Descending(xs: seq<CompatibilityResult>) {
    forall i, j :: 0 <= i < j < |xs| ==> xs[i].score >= xs[j].score
  }

  /** The results with score `k`, in their order in `xs`. */
  function WithScore(xs: seq<CompatibilityResult>, k: int): seq<CompatibilityResult>
    decreases |xs|
  {
    if |xs| == 0 then []
    else (if xs[0].score == k then [xs[0]] else []) + WithScore(xs[1..], k)
  }

  /**
    `x` placed into the descending `ys` after every result scoring at least
    as much, so that among equal scores the earlier result stays first.
   */
  function Insert(x: CompatibilityResult, ys: seq<CompatibilityResult>): (r: seq<CompatibilityResult>)
    ensures |r| == |ys| + 1
    decreases |ys|
  {
    if |ys| == 0 then [x]
    else if ys[0].score >= x.score then [ys[0]] + Insert(x, ys[1..])
    else [x] + ys
  }

  /** The stable descending sort of `xs`: each result inserted in turn. */
  function SortDesc(xs: seq<CompatibilityResult>): (r: seq<CompatibilityResult>)
    ensures |r| == |xs|
    decreases |xs|
  {
    if |xs| == 0 then [] else Insert(xs[|xs| - 1], SortDesc(xs[..|xs| - 1]))
  }

  /** Selecting by score distributes over concatenation. */
  lemma {:induction false} WithScoreConcat(xs: seq<CompatibilityResult>, ys: seq<CompatibilityResult>, k: int)
    ensures WithScore(xs + ys, k) == WithScore(xs, k) + WithScore(ys, k)
    decreases |xs|
  {
    if |xs| == 0 {
      assert xs + ys == ys;
      assert WithScore(xs, k) == [];
    } else {
      var head := if xs[0].score == k then [xs[0]] else [];
      assert (xs + ys)[0] == xs[0];
      assert (xs + ys)[1..] == xs[1..] + ys;
      assert WithScore(xs + ys, k) == head + WithScore(xs[1..] + ys, k);
      assert WithScore(xs, k) == head + WithScore(xs[1..], k);
      WithScoreConcat(xs[1..], ys, k);
    }
  }

  /** A sequence with no result of score `k` selects nothing for `k`. */
  lemma {:induction false} WithScoreNone(xs: seq<CompatibilityResult>, k: int)
    requires forall i :: 0 <= i < |xs| ==> xs[i].score != k
    ensures WithScore(xs, k) == []
    decreases |xs|
  {
    if |xs| > 0 {
      WithScoreNone(xs[1..], k);
    }
  }

  /** Dropping the first result keeps a sequence descending. */
  lemma DescendingTail(ys: seq<CompatibilityResult>)
    requires Descending(ys) && |ys| > 0
    ensures Descending(ys[1..])
  {
    forall i, j | 0 <= i < j < |ys| - 1 ensures ys[1..][i].score >= ys[1..][j].score {
      assert ys[1..][i] == ys[i + 1] && ys[1..][j] == ys[j + 1];
    }
  }

  /** Inserting adds exactly `x`. */
  lemma {:induction false} InsertPermutation(x: CompatibilityResult, ys: seq<CompatibilityResult>)
    ensures multiset(Insert(x, ys)) == multiset(ys) + multiset{x}
    decreases |ys|
  {
    if |ys| > 0 && ys[0].score >= x.score {
      InsertPermutation(x, ys[1..]);
      assert ys == [ys[0]] + ys[1..];
    }
  }

  /** Inserting into a descending sequence keeps it descending. */
  lemma {:induction false} InsertSorted(x: CompatibilityResult, ys: seq<CompatibilityResult>)
    requires Descending(ys)
    ensures Descending(Insert(x, ys))
    decreases |ys|
  {
    if |ys| > 0 && ys[0].score >= x.score {
      var rest := Insert(x, ys[1..]);
      InsertSorted(x, ys[1..]);
      InsertPermutation(x, ys[1..]);
      forall i | 0 <= i < |rest| ensures rest[i].score <= ys[0].score {
        assert rest[i] in multiset(rest);
        if rest[i] != x {
          assert rest[i] in multiset(ys[1..]);
          var j :| 0 <= j < |ys[1..]| && ys[1..][j] == rest[i];
          assert ys[j + 1] == rest[i];
        }
      }
    }
  }

  /** Inserting into a descending sequence puts `x` after every earlier result of its score. */
  lemma {:induction false} InsertStable(x: CompatibilityResult, ys: seq<CompatibilityResult>, k: int)
    requires Descending(ys)
    ensures WithScore(Insert(x, ys), k) == WithScore(ys, k) + (if x.score == k then [x] else [])
    decreases |ys|
  {
    if |ys| == 0 {
    } else if ys[0].score >= x.score {
      var rest := Insert(x, ys[1..]);
      var head := if ys[0].score == k then [ys[0]] else [];
      assert Insert(x, ys) == [ys[0]] + rest;
      assert ([ys[0]] + rest)[1..] == rest;
      assert WithScore(Insert(x, ys), k) == head + WithScore(rest, k);
      assert WithScore(ys, k) == head + WithScore(ys[1..], k);
      DescendingTail(ys);
      InsertStable(x, ys[1..], k);
    } else {
      assert Insert(x, ys) == [x] + ys;
      assert ([x] + ys)[1..] == ys;
      if x.score == k {
        assert forall i :: 0 <= i < |ys| ==> ys[i].score <= ys[0].score;
        WithScoreNone(ys, k);
      }
    }
  }

  /** The sort returns a descending permutation of its input. */
  lemma SortDescSorted(xs: seq<CompatibilityResult>)
    ensures Descending(SortDesc(xs))
    ensures multiset(SortDesc(xs)) == multiset(xs)
  {
    SortDescDescending(xs);
    SortDescPermutation(xs);
  }

  /** The sort's output is descending. */
  lemma {:induction false} SortDescDescending(xs: seq<CompatibilityResult>)
    ensures Descending(SortDesc(xs))
    decreases |xs|
  {
    if |xs| > 0 {
      var init := xs[..|xs| - 1];
      SortDescDescending(init);
      InsertSorted(xs[|xs| - 1], SortDesc(init));
    }
  }

  /** The sort's output is a permutation of its input. */
  lemma {:induction false} SortDescPermutation(xs: seq<CompatibilityResult>)
    ensures multiset(SortDesc(xs)) == multiset(xs)
    decreases |xs|
  {
    if |xs| > 0 {
      var init := xs[..|xs| - 1];
      var last := xs[|xs| - 1];
      assert SortDesc(xs) == Insert(last, SortDesc(init));
      SortDescPermutation(init);
      InsertPermutation(last, SortDesc(init));
      assert xs == init + [last];
      assert multiset(xs) == multiset(init) + multiset{last};
    }
  }

  /** The sort is stable: the results of any one score keep their input order. */
  lemma {:induction false} SortDescStable(xs: seq<CompatibilityResult>, k: int)
    ensures WithScore(SortDesc(xs), k) == WithScore(xs, k)
    decreases |xs|
  {
    if |xs| > 0 {
      var init := xs[..|xs| - 1];
      var last := xs[|xs| - 1];
      var sortedInit := SortDesc(init);
      assert SortDesc(xs) == Insert(last, sortedInit);
      SortDescDescending(init);
      InsertStable(last, sortedInit, k);
      SortDescStable(init, k);
      assert xs == init + [last];
      WithScoreConcat(init, [last], k);
      assert WithScore([last], k) == (if last.score == k then [last] else []) + WithScore([], k);
    }
  }

  /** The smaller of two integers. */
  function Min(a: int, b: int): int {
    if a <= b then a else b
  }

  /** Everything after position `n` of a descending sequence scores no more than the result before it. */
  lemma Dropped(sorted: seq<CompatibilityResult>, n: int)
    requires Descending(sorted) && 0 < n <= |sorted|
    ensures multiset(sorted[..n]) <= multiset(sorted)
    ensures multiset(sorted) - multiset(sorted[..n]) == multiset(sorted[n..])
    ensures forall r :: r in multiset(sorted[n..]) ==> r.score <= sorted[n - 1].score
  {
    assert sorted == sorted[..n] + sorted[n..];
    forall r | r in multiset(sorted[n..]) ensures r.score <= sorted[n - 1].score {
      var j :| 0 <= j < |sorted[n..]| && sorted[n..][j] == r;
      assert sorted[n + j] == r;
    }
  }

  /** `sort(...).slice(0, 5)`: the first five results of the stable descending sort. */
  function TopFive(xs: seq<CompatibilityResult>): (top: seq<CompatibilityResult>)
    ensures |top| == Min(5, |xs|)
  {
    SortDesc(xs)[..Min(5, |xs|)]
  }

  /**
    The five best results, or all of them when there are fewer, best first;
    every result left out scores no more than the last one kept, and among
    equal scores the kept ones come first in input order.
   */
  lemma TopFiveMeaning(xs: seq<CompatibilityResult>)
    ensures Descending(TopFive(xs))
    ensures multiset(TopFive(xs)) <= multiset(xs)
    ensures forall r :: r in multiset(xs) - multiset(TopFive(xs)) ==> |xs| > 0 && r.score <= TopFive(xs)[Min(5, |xs|) - 1].score
    ensures forall k :: WithScore(TopFive(xs), k) <= WithScore(xs, k)
  {
    forall k ensures WithScore(TopFive(xs), k) <= WithScore(xs, k) {
      TopFiveStable(xs, k);
    }
    var sorted := SortDesc(xs);
    SortDescSorted(xs);
    var n := Min(5, |xs|);
    var top := sorted[..n];
    assert top == TopFive(xs);
    if n > 0 {
      Dropped(sorted, n);
      assert multiset(sorted) == multiset(xs);
    } else {
      assert xs == [];
    }
  }

  /**
    The kept results of score `k` are the first results of score `k` in
    input order.
   */
  lemma TopFiveStable(xs: seq<CompatibilityResult>, k: int)
    ensures WithScore(TopFive(xs), k) <= WithScore(xs, k)
  {
    var sorted := SortDesc(xs);
    var n := Min(5, |xs|);
    assert sorted == sorted[..n] + sorted[n..];
    WithScoreConcat(sorted[..n], sorted[n..], k);
    SortDescStable(xs, k);
  }
}
