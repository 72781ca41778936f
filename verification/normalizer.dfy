/**
  The last stages of the derivation script: per-bucket averages, the
  largest average of each aptitude over all professions, the averages
  divided by that maximum and rounded to three decimals, and the compact
  per-profession output that keeps only the positive values.
 */
module Normalizer {
  import opened Wrappers
  import opened Classifier
  import opened Occupations
  import opened Aggregator
  import opened Rounding

  /** `agg.avg[a]`: the mean of a bucket, 0 for a bucket that took no value. */
  function Average(b: Bucket): (r: real)
    ensures b.count == 0 ==> r == 0.0
    ensures b.count > 0 ==> r * b.count as real == b.sum
    ensures b.sum >= 0.0 ==> r >= 0.0
  {
    if b.count > 0 then b.sum / b.count as real else 0.0
  }

  /**
    The running maximum of the averages of `a` over the first `n`
    professions, taken in table order from a starting value of 0, exactly
    as the script's loop keeps `globalMaxPerAptitude[a]`.
   */
  function MaxOver(s: State, a: Aptitude, n: nat): (m: real)
    requires n <= 20
    ensures m >= 0.0
    ensures forall i :: 0 <= i < n ==> Average(Get(s, ProfessionAt(i), a)) <= m
    ensures m == 0.0 || exists i :: 0 <= i < n && m == Average(Get(s, ProfessionAt(i), a))
  {
    if n == 0 then 0.0
    else
      var before := MaxOver(s, a, n - 1);
      var v := Average(Get(s, ProfessionAt(n - 1), a));
      var m := if v > before then v else before;
      assert forall i :: 0 <= i < n - 1 ==> Average(Get(s, ProfessionAt(i), a)) <= m;
      m
  }

  /** `globalMaxPerAptitude[a]`: the largest average of `a` over all professions, or 0. */
  function GlobalMax(s: State, a: Aptitude): (m: real)
    ensures m >= 0.0
    ensures forall p :: Average(Get(s, p, a)) <= m
    ensures m > 0.0 ==> exists p :: m == Average(Get(s, p, a))
  {
    var m := MaxOver(s, a, 20);
    forall p ensures Average(Get(s, p, a)) <= m {
      AtPosition(p);
    }
    m
  }

  /** A quotient of a value by a positive bound it does not exceed is at most 1. */
  lemma RatioAtMostOne(x: real, m: real)
    requires m > 0.0 && x <= m
    ensures x / m <= 1.0
  {
    assert x / m * m == x;
  }

  /** Dividing by a positive value keeps the order. */
  lemma RatioMonotonic(x: real, y: real, m: real)
    requires m > 0.0 && x <= y
    ensures x / m <= y / m
  {
    assert (y - x) / m >= 0.0 by {
      RatioNonNegative(y - x, m);
    }
    assert y / m - x / m == (y - x) / m;
  }

  /** A positive value divided by itself is 1. */
  lemma SelfRatio(m: real)
    requires m > 0.0
    ensures m / m == 1.0
  {
  }

  /** A quotient by a positive value keeps the sign of the dividend. */
  lemma RatioNonNegative(x: real, m: real)
    requires m > 0.0
    ensures x >= 0.0 ==> x / m >= 0.0
  {
    assert x / m * m == x;
  }

  /**
    `agg.normalized[a]`: the average divided by the aptitude's maximum and
    rounded to three decimals; 0 when no profession has a positive average.
   */
  function Normalized(s: State, p: ProfessionId, a: Aptitude): (r: real)
    ensures r <= 1.0
    ensures GlobalMax(s, a) == 0.0 ==> r == 0.0
    ensures GlobalMax(s, a) > 0.0 ==> -0.0005 <= r - Average(Get(s, p, a)) / GlobalMax(s, a) <= 0.0005
    ensures Average(Get(s, p, a)) >= 0.0 ==> r >= 0.0
  {
    var m := GlobalMax(s, a);
    var avg := Average(Get(s, p, a));
    if m > 0.0 then
      RatioAtMostOne(avg, m);
      RatioNonNegative(avg, m);
      ToFixed3(avg / m)
    else 0.0
  }

  /** `req`: the aptitudes whose normalised value is positive, with that value. */
  function Req(s: State, p: ProfessionId): (req: map<Aptitude, real>)
    ensures forall a :: a in req <==> Normalized(s, p, a) > 0.0
    ensures forall a :: a in req ==> req[a] == Normalized(s, p, a) && 0.0 < req[a] <= 1.0
  {
    EveryAptitudeListed();
    map a | a in AllAptitudes && Normalized(s, p, a) > 0.0 :: Normalized(s, p, a)
  }

  /** Every value of `req` lies in (0, 1]. */
  predicate InUnit(req: map<Aptitude, real>) {
    forall a :: a in req ==> 0.0 < req[a] <= 1.0
  }

  /** One entry of `professions_v2_onet`. */
  datatype Entry = Entry(req: map<Aptitude, real>, totalElements: nat)

  /** `professions_v2_onet`: an entry for every profession. */
  function Compact(s: State): (out: map<ProfessionId, Entry>)
    ensures forall p :: p in out
    ensures forall p :: out[p].req == Req(s, p) && out[p].totalElements == |Elements(s, p)|
  {
    EachProfessionOnce();
    map p | p in AllProfessions :: Entry(Req(s, p), |Elements(s, p)|)
  }

  /**
    For a non-negative average and a positive maximum, the value is the
    thousandth nearest to the average's share of the maximum, the larger
    one on a tie.
   */
  lemma NormalizedValue(s: State, p: ProfessionId, a: Aptitude, n: int)
    requires GlobalMax(s, a) > 0.0 && Get(s, p, a).sum >= 0.0
    requires var x := Average(Get(s, p, a)) / GlobalMax(s, a);
      n as real / 1000.0 - 0.0005 <= x < n as real / 1000.0 + 0.0005
    ensures Normalized(s, p, a) == n as real / 1000.0
  {
    var m := GlobalMax(s, a);
    var avg := Average(Get(s, p, a));
    RatioNonNegative(avg, m);
    ToFixed3Nearest(avg / m, n);
  }

  /** A larger average never gets a smaller normalised value. */
  lemma NormalizedMonotonic(s: State, p: ProfessionId, q: ProfessionId, a: Aptitude)
    requires Average(Get(s, p, a)) <= Average(Get(s, q, a))
    ensures Normalized(s, p, a) <= Normalized(s, q, a)
  {
    var m := GlobalMax(s, a);
    if m > 0.0 {
      var x := Average(Get(s, p, a));
      var y := Average(Get(s, q, a));
      RatioMonotonic(x, y, m);
      ToFixed3Monotonic(x / m, y / m);
    }
  }

  /**
    When the maximum for `a` is positive, every profession whose average
    equals it gets exactly 1 and keeps `a` in its `req`.
   */
  lemma MaxGetsOne(s: State, p: ProfessionId, a: Aptitude)
    requires GlobalMax(s, a) > 0.0 && Average(Get(s, p, a)) == GlobalMax(s, a)
    ensures Normalized(s, p, a) == 1.0 && a in Req(s, p)
  {
    assert Normalized(s, p, a) == 1.0 by {
      var m := GlobalMax(s, a);
      SelfRatio(m);
      ToFixed3One();
      assert Average(Get(s, p, a)) / m == 1.0;
    }
    assert a in Req(s, p);
  }

  /** Whenever some profession has a positive average for `a`, some profession gets exactly 1. */
  lemma SomeProfessionGetsOne(s: State, a: Aptitude)
    requires GlobalMax(s, a) > 0.0
    ensures exists p :: Normalized(s, p, a) == 1.0 && a in Req(s, p)
  {
    var p :| GlobalMax(s, a) == Average(Get(s, p, a));
    MaxGetsOne(s, p, a);
  }

  /** An aptitude that no profession ever observed is in no profession's `req`. */
  lemma UnobservedAbsent(s: State, a: Aptitude)
    requires forall p :: Get(s, p, a).count == 0
    ensures forall p :: a !in Req(s, p)
  {
  }

  /**
    With non-negative averages, an aptitude is kept in `req` exactly when its
    average is at least 0.0005 of the aptitude's maximum; anything smaller
    rounds to 0 and is dropped.
   */
  lemma KeptWhenVisible(s: State, p: ProfessionId, a: Aptitude)
    requires Get(s, p, a).sum >= 0.0
    ensures a in Req(s, p) <==> GlobalMax(s, a) > 0.0 && Average(Get(s, p, a)) / GlobalMax(s, a) >= 0.0005
  {
    var m := GlobalMax(s, a);
    if m > 0.0 {
      var avg := Average(Get(s, p, a));
      RatioNonNegative(avg, m);
      ToFixed3Positive(avg / m);
    }
  }

  /**
    Once any profession keeps aptitude `a`, the aptitude's maximum is positive,
    so the profession that reaches it keeps `a` at exactly 1.
   */
  lemma KeptMeansSomeOne(s: State, p: ProfessionId, a: Aptitude)
    requires a in Req(s, p)
    ensures exists q :: a in Req(s, q) && Req(s, q)[a] == 1.0
  {
    if GlobalMax(s, a) <= 0.0 {
      assert false;
    }
    SomeProfessionGetsOne(s, a);
  }

  /** The script's output for the table files: aggregate every row, then normalise. */
  function Derive(inputs: Inputs, num: string -> Option<real>): (out: map<ProfessionId, Entry>)
    ensures forall p :: p in out
    ensures forall p :: InUnit(out[p].req)
  {
    Compact(Aggregate(inputs, num))
  }

  /**
    When the ratings read are non-negative, every profession's `req` holds
    exactly the aptitudes whose average reaches 0.0005 of the maximum, and
    its element count is the number of values in its buckets.
   */
  lemma DeriveMeaning(inputs: Inputs, num: string -> Option<real>, p: ProfessionId, a: Aptitude)
    requires RatingsNonNegative(RowsOf(inputs, TargetFiles), num)
    ensures var s := Aggregate(inputs, num);
      && (a in Derive(inputs, num)[p].req <==> GlobalMax(s, a) > 0.0 && Average(Get(s, p, a)) / GlobalMax(s, a) >= 0.0005)
      && Derive(inputs, num)[p].totalElements == CountOver(s, p, AllAptitudes)
  {
    var rows := RowsOf(inputs, TargetFiles);
    RunSumsNonNegative(rows, num, p, a);
    KeptWhenVisible(Aggregate(inputs, num), p, a);
    TotalElementsIsTotalCount(rows, num, p);
  }

  /**
    In the script's output, every aptitude that appears in some profession's
    `req` appears at exactly 1 in some profession's `req`.
   */
  lemma DerivedMaxIsOne(inputs: Inputs, num: string -> Option<real>, p: ProfessionId, a: Aptitude)
    requires a in Derive(inputs, num)[p].req
    ensures exists q :: a in Derive(inputs, num)[q].req && Derive(inputs, num)[q].req[a] == 1.0
  {
    var s := Aggregate(inputs, num);
    assert Derive(inputs, num)[p].req == Req(s, p);
    KeptMeansSomeOne(s, p, a);
    var q :| a in Req(s, q) && Req(s, q)[a] == 1.0;
    assert Derive(inputs, num)[q].req == Req(s, q);
  }
}
