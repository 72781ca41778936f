/**
  The browser-side scoring: a score per aptitude from the user's answers,
  then a compatibility score per profession and the five best professions.
  The question, profession and aptitude tables are passed in as `Tables`.
 */
module Scoring {
  import opened Rounding
  import opened Ranking

  /** The entries of a `{ [aptitudeId]: number }` object, in key order. */
  type Weights = seq<(string, real)>

  /** A question: its id and the weight it gives each aptitude. */
  datatype Question = Question(id: string, weights: Weights)

  /** A profession: id, display name and the aptitude profile `req`. */
  datatype Profession = Profession(id: string, name: string, req: Weights)

  /** `UserAnswers`: the chosen option value of each answered question. */
  type Answers = map<string, real>

  /** `UserScores`: a score per aptitude id. */
  type Scores = map<string, real>

  /** The interface language. */
  datatype Lang = Pt | En

  /** The static tables: aptitude ids, and the question and profession lists of each language. */
  datatype Tables = Tables(
    aptitudeIds: seq<string>,
    questions: seq<Question>,
    questionsEn: seq<Question>,
    professions: seq<Profession>,
    professionsEn: seq<Profession>)

  /** `getQuestionsByLang`: the English list for "en", the Portuguese one otherwise. */
  function QuestionsByLang(t: Tables, lang: Lang): seq<Question> {
    if lang == En then t.questionsEn else t.questions
  }

  /** `getProfessionsByLang`: the English list for "en", the active Portuguese one otherwise. */
  function ProfessionsByLang(t: Tables, lang: Lang): seq<Profession> {
    if lang == En then t.professionsEn else t.professions
  }

  // ----- Aptitude scores -----

  /** Σ v·w over the entries of `ws` whose key is `apt`. */
  function EntrySum(ws: Weights, apt: string, v: real): real
    decreases |ws|
  {
    if |ws| == 0 then 0.0
    else EntrySum(ws[..|ws| - 1], apt, v) + (if ws[|ws| - 1].0 == apt then v * ws[|ws| - 1].1 else 0.0)
  }

  /** Σ v·w for `apt` over the answered questions of `qs`, `v` being the answer. */
  function AnsweredSum(qs: seq<Question>, answers: Answers, apt: string): real
    decreases |qs|
  {
    if |qs| == 0 then 0.0
    else
      var q := qs[|qs| - 1];
      AnsweredSum(qs[..|qs| - 1], answers, apt) + (if q.id in answers then EntrySum(q.weights, apt, answers[q.id]) else 0.0)
  }

  /** Σ w for `apt` over the answered questions of `qs`. */
  function AnsweredWeight(qs: seq<Question>, answers: Answers, apt: string): real
    decreases |qs|
  {
    if |qs| == 0 then 0.0
    else
      var q := qs[|qs| - 1];
      AnsweredWeight(qs[..|qs| - 1], answers, apt) + (if q.id in answers then EntrySum(q.weights, apt, 1.0) else 0.0)
  }

  /** The weighted mean rounded to three decimals, or 0 without positive weight. */
  function FinalScore(sum: real, wSum: real): real {
    if wSum > 0.0 then ToFixed3(sum / wSum) else 0.0
  }

  /** The scores `calculateAptitudeScores` computes over the question list `qs`. */
  function AptitudeScores(aptIds: seq<string>, qs: seq<Question>, answers: Answers): (r: Scores)
    ensures forall a :: a in r <==> a in aptIds
  {
    map a | a in aptIds :: FinalScore(AnsweredSum(qs, answers, a), AnsweredWeight(qs, answers, a))
  }

  /** The sum over one more entry of `ws`. */
  lemma EntrySumStep(ws: Weights, j: int, apt: string, v: real)
    requires 0 <= j < |ws|
    ensures EntrySum(ws[..j + 1], apt, v) == EntrySum(ws[..j], apt, v) + (if ws[j].0 == apt then v * ws[j].1 else 0.0)
  {
    assert ws[..j + 1][..j] == ws[..j];
  }

  /**
    The inner loop of `calculateAptitudeScores`: every weight of one
    answered question whose key already has a running sum adds `v·w` to
    that sum and `w` to its weight sum; other keys are ignored.
   */
  method AddAnswer(sum: map<string, real>, wSum: map<string, real>, ws: Weights, v: real)
    returns (sum': map<string, real>, wSum': map<string, real>)
    requires sum.Keys == wSum.Keys
    ensures sum'.Keys == sum.Keys && wSum'.Keys == wSum.Keys
    ensures forall a :: a in sum ==> sum'[a] == sum[a] + EntrySum(ws, a, v)
    ensures forall a :: a in wSum ==> wSum'[a] == wSum[a] + EntrySum(ws, a, 1.0)
  {
    sum', wSum' := sum, wSum;
    for j := 0 to |ws|
      invariant sum'.Keys == sum.Keys && wSum'.Keys == wSum.Keys
      invariant forall a :: a in sum ==> sum'[a] == sum[a] + EntrySum(ws[..j], a, v)
      invariant forall a :: a in wSum ==> wSum'[a] == wSum[a] + EntrySum(ws[..j], a, 1.0)
    {
      var (apt, w) := ws[j];
      forall a ensures EntrySum(ws[..j + 1], a, v) == EntrySum(ws[..j], a, v) + (if apt == a then v * w else 0.0)
                   && EntrySum(ws[..j + 1], a, 1.0) == EntrySum(ws[..j], a, 1.0) + (if apt == a then w else 0.0) {
        EntrySumStep(ws, j, a, v);
        EntrySumStep(ws, j, a, 1.0);
      }
      if apt in sum' {
        sum' := sum'[apt := sum'[apt] + v * w];
        wSum' := wSum'[apt := wSum'[apt] + w];
      }
    }
    assert ws[..|ws|] == ws;
  }

  /**
    The loops of `calculateAptitudeScores`: running sums `sum` and `wSum`
    per aptitude id fed by every answered question, then the rounded means.
   */
  method ScoreQuestions(aptIds: seq<string>, qs: seq<Question>, answers: Answers) returns (scores: Scores)
    ensures scores == AptitudeScores(aptIds, qs, answers)
  {
    var sum: map<string, real> := map a | a in aptIds :: 0.0;
    var wSum: map<string, real> := map a | a in aptIds :: 0.0;
    for i := 0 to |qs|
      invariant forall a :: a in sum <==> a in aptIds
      invariant wSum.Keys == sum.Keys
      invariant forall a :: a in sum ==> sum[a] == AnsweredSum(qs[..i], answers, a)
      invariant forall a :: a in wSum ==> wSum[a] == AnsweredWeight(qs[..i], answers, a)
    {
      var q := qs[i];
      assert qs[..i + 1][..i] == qs[..i];
      if q.id in answers {
        sum, wSum := AddAnswer(sum, wSum, q.weights, answers[q.id]);
      }
    }
    assert qs[..|qs|] == qs;
    scores := map a | a in sum :: FinalScore(sum[a], wSum[a]);
  }

  /** `calculateAptitudeScores`: the scores over the Portuguese question list. */
  method CalculateAptitudeScores(t: Tables, answers: Answers) returns (scores: Scores)
    ensures forall a :: a in scores <==> a in t.aptitudeIds
    ensures scores == AptitudeScores(t.aptitudeIds, t.questions, answers)
  {
    scores := ScoreQuestions(t.aptitudeIds, t.questions, answers);
  }

  /**
    `calculateAptitudeScoresLocalized`: the same computation over the
    question list of `lang`; for Portuguese it is `calculateAptitudeScores`.
   */
  method CalculateAptitudeScoresLocalized(t: Tables, answers: Answers, lang: Lang) returns (scores: Scores)
    ensures scores == AptitudeScores(t.aptitudeIds, QuestionsByLang(t, lang), answers)
    ensures lang == Pt ==> scores == AptitudeScores(t.aptitudeIds, t.questions, answers)
  {
    scores := ScoreQuestions(t.aptitudeIds, QuestionsByLang(t, lang), answers);
  }

  /** The sum over `a + b` is the sum over `a` plus the sum over `b`. */
  lemma {:induction false} EntrySumConcat(a: Weights, b: Weights, apt: string, v: real)
    ensures EntrySum(a + b, apt, v) == EntrySum(a, apt, v) + EntrySum(b, apt, v)
    decreases |b|
  {
    if |b| == 0 {
      assert a + b == a;
    } else {
      var n := |b| - 1;
      assert (a + b)[..|a + b| - 1] == a + b[..n];
      assert (a + b)[|a + b| - 1] == b[n];
      EntrySumConcat(a, b[..n], apt, v);
    }
  }

  /** The answered sums over `a + b` are those over `a` plus those over `b`. */
  lemma {:induction false} AnsweredConcat(a: seq<Question>, b: seq<Question>, answers: Answers, apt: string)
    ensures AnsweredSum(a + b, answers, apt) == AnsweredSum(a, answers, apt) + AnsweredSum(b, answers, apt)
    ensures AnsweredWeight(a + b, answers, apt) == AnsweredWeight(a, answers, apt) + AnsweredWeight(b, answers, apt)
    decreases |b|
  {
    if |b| == 0 {
      assert a + b == a;
    } else {
      var n := |b| - 1;
      assert (a + b)[..|a + b| - 1] == a + b[..n];
      assert (a + b)[|a + b| - 1] == b[n];
      AnsweredConcat(a, b[..n], answers, apt);
    }
  }

  /**
    Replacing one question, wherever it stands, by another that adds the
    same amounts to every aptitude id's sums changes no score.
   */
  lemma SameContribution(aptIds: seq<string>, qs1: seq<Question>, q: Question, q': Question, qs2: seq<Question>, answers: Answers)
    requires forall a :: a in aptIds ==> AnsweredSum([q], answers, a) == AnsweredSum([q'], answers, a)
    requires forall a :: a in aptIds ==> AnsweredWeight([q], answers, a) == AnsweredWeight([q'], answers, a)
    ensures AptitudeScores(aptIds, qs1 + [q] + qs2, answers) == AptitudeScores(aptIds, qs1 + [q'] + qs2, answers)
  {
    forall a | a in aptIds
      ensures AnsweredSum(qs1 + [q] + qs2, answers, a) == AnsweredSum(qs1 + [q'] + qs2, answers, a)
      ensures AnsweredWeight(qs1 + [q] + qs2, answers, a) == AnsweredWeight(qs1 + [q'] + qs2, answers, a)
    {
      AnsweredConcat(qs1 + [q], qs2, answers, a);
      AnsweredConcat(qs1, [q], answers, a);
      AnsweredConcat(qs1 + [q'], qs2, answers, a);
      AnsweredConcat(qs1, [q'], answers, a);
    }
  }

  /** An unanswered question, wherever it stands, changes no score. */
  lemma UnansweredIgnored(aptIds: seq<string>, qs1: seq<Question>, q: Question, qs2: seq<Question>, answers: Answers)
    requires q.id !in answers
    ensures AptitudeScores(aptIds, qs1 + [q] + qs2, answers) == AptitudeScores(aptIds, qs1 + qs2, answers)
  {
    forall a | a in aptIds
      ensures AnsweredSum(qs1 + [q] + qs2, answers, a) == AnsweredSum(qs1 + qs2, answers, a)
      ensures AnsweredWeight(qs1 + [q] + qs2, answers, a) == AnsweredWeight(qs1 + qs2, answers, a)
    {
      assert [q][..0] == [];
      AnsweredConcat(qs1 + [q], qs2, answers, a);
      AnsweredConcat(qs1, [q], answers, a);
      AnsweredConcat(qs1, qs2, answers, a);
    }
  }

  /** A weight entry whose key is not `apt`, wherever it stands, adds nothing to the sums of `apt`. */
  lemma OtherKeyIgnored(ws1: Weights, key: string, w: real, ws2: Weights, apt: string, v: real)
    requires key != apt
    ensures EntrySum(ws1 + [(key, w)] + ws2, apt, v) == EntrySum(ws1 + ws2, apt, v)
  {
    assert [(key, w)][..0] == [];
    EntrySumConcat(ws1 + [(key, w)], ws2, apt, v);
    EntrySumConcat(ws1, [(key, w)], apt, v);
    EntrySumConcat(ws1, ws2, apt, v);
  }

  /**
    A weight keyed by something that is not an aptitude id changes no
    score, wherever it stands in its question and wherever the question
    stands in the list.
   */
  lemma UnknownKeyIgnored(aptIds: seq<string>, qs1: seq<Question>, id: string, ws1: Weights, key: string, w: real, ws2: Weights, qs2: seq<Question>, answers: Answers)
    requires key !in aptIds
    ensures AptitudeScores(aptIds, qs1 + [Question(id, ws1 + [(key, w)] + ws2)] + qs2, answers)
         == AptitudeScores(aptIds, qs1 + [Question(id, ws1 + ws2)] + qs2, answers)
  {
    var q := Question(id, ws1 + [(key, w)] + ws2);
    var q' := Question(id, ws1 + ws2);
    forall a | a in aptIds
      ensures AnsweredSum([q], answers, a) == AnsweredSum([q'], answers, a)
      ensures AnsweredWeight([q], answers, a) == AnsweredWeight([q'], answers, a)
    {
      assert [q][..0] == [] && [q'][..0] == [];
      if id in answers {
        OtherKeyIgnored(ws1, key, w, ws2, a, answers[id]);
        OtherKeyIgnored(ws1, key, w, ws2, a, 1.0);
      }
    }
    SameContribution(aptIds, qs1, q, q', qs2, answers);
  }

  /** Every weight is non-negative. */
  predicate NonNegativeWeights(ws: Weights) {
    forall i :: 0 <= i < |ws| ==> ws[i].1 >= 0.0
  }

  /** A fraction of a non-negative weight lies between 0 and the weight. */
  lemma ProductBounded(v: real, w: real)
    requires 0.0 <= v <= 1.0 && w >= 0.0
    ensures 0.0 <= v * w <= w
  {
    assert (1.0 - v) * w >= 0.0;
  }

  /** With an answer in [0, 1] and non-negative weights, 0 <= Σ v·w <= Σ w. */
  lemma {:induction false} EntrySumBounded(ws: Weights, apt: string, v: real)
    requires 0.0 <= v <= 1.0 && NonNegativeWeights(ws)
    ensures 0.0 <= EntrySum(ws, apt, v) <= EntrySum(ws, apt, 1.0)
    decreases |ws|
  {
    if |ws| > 0 {
      var init := ws[..|ws| - 1];
      assert NonNegativeWeights(init) by {
        assert forall i :: 0 <= i < |init| ==> init[i] == ws[i];
      }
      EntrySumBounded(init, apt, v);
      var (key, w) := ws[|ws| - 1];
      var part := if key == apt then v * w else 0.0;
      var whole := if key == apt then w else 0.0;
      assert 0.0 <= part <= whole by {
        ProductBounded(v, w);
      }
      assert EntrySum(ws, apt, v) == EntrySum(init, apt, v) + part;
      assert EntrySum(ws, apt, 1.0) == EntrySum(init, apt, 1.0) + whole;
    }
  }

  /** With answers in [0, 1] and non-negative weights, 0 <= Σ v·w <= Σ w over the answered questions. */
  lemma {:induction false} AnsweredBounded(qs: seq<Question>, answers: Answers, apt: string)
    requires forall k :: k in answers ==> 0.0 <= answers[k] <= 1.0
    requires forall i :: 0 <= i < |qs| ==> NonNegativeWeights(qs[i].weights)
    ensures 0.0 <= AnsweredSum(qs, answers, apt) <= AnsweredWeight(qs, answers, apt)
    decreases |qs|
  {
    if |qs| > 0 {
      var q := qs[|qs| - 1];
      AnsweredBounded(qs[..|qs| - 1], answers, apt);
      if q.id in answers {
        EntrySumBounded(q.weights, apt, answers[q.id]);
      }
    }
  }

  /** A mean of values in [0, 1] stays in [0, 1] after rounding. */
  lemma FinalScoreBounded(sum: real, wSum: real)
    requires 0.0 <= sum <= wSum
    ensures 0.0 <= FinalScore(sum, wSum) <= 1.0
  {
    if wSum > 0.0 {
      assert sum / wSum * wSum == sum;
    }
  }

  /**
    When every answer is an option value in [0, 1] and every weight is
    non-negative, every aptitude score lies in [0, 1].
   */
  lemma ScoresInUnitRange(aptIds: seq<string>, qs: seq<Question>, answers: Answers)
    requires forall k :: k in answers ==> 0.0 <= answers[k] <= 1.0
    requires forall i :: 0 <= i < |qs| ==> NonNegativeWeights(qs[i].weights)
    ensures forall a :: a in AptitudeScores(aptIds, qs, answers) ==> 0.0 <= AptitudeScores(aptIds, qs, answers)[a] <= 1.0
  {
    forall a | a in aptIds
      ensures 0.0 <= FinalScore(AnsweredSum(qs, answers, a), AnsweredWeight(qs, answers, a)) <= 1.0
    {
      AnsweredBounded(qs, answers, a);
      FinalScoreBounded(AnsweredSum(qs, answers, a), AnsweredWeight(qs, answers, a));
    }
  }

  /** With no answered question weighting `apt`, its score is exactly 0. */
  lemma UnweightedIsZero(aptIds: seq<string>, qs: seq<Question>, answers: Answers, apt: string)
    requires apt in aptIds && AnsweredWeight(qs, answers, apt) == 0.0
    ensures AptitudeScores(aptIds, qs, answers)[apt] == 0.0
  {
  }

  // ----- Compatibility -----

  /** `scores[apt] ?? 0`. */
  function ScoreOf(scores: Scores, apt: string): real {
    if apt in scores then scores[apt] else 0.0
  }

  /** Σ score·req over the entries of a profession's `req`. */
  function ReqTotal(scores: Scores, req: Weights): real
    decreases |req|
  {
    if |req| == 0 then 0.0
    else ReqTotal(scores, req[..|req| - 1]) + ScoreOf(scores, req[|req| - 1].0) * req[|req| - 1].1
  }

  /** Σ req over the entries of a profession's `req`. */
  function ReqWeight(req: Weights): real
    decreases |req|
  {
    if |req| == 0 then 0.0 else ReqWeight(req[..|req| - 1]) + req[|req| - 1].1
  }

  /** `compat`: the req-weighted mean of the user's scores, or 0 without positive weight. */
  function Compat(scores: Scores, req: Weights): real {
    var weight := ReqWeight(req);
    if weight > 0.0 then ReqTotal(scores, req) / weight else 0.0
  }

  /** `Math.round(compat * 100)`. */
  function Score(scores: Scores, p: Profession): int {
    MathRound(Compat(scores, p.req) * 100.0)
  }

  /** One result per profession, in list order, before sorting. */
  function Results(scores: Scores, profs: seq<Profession>): (rs: seq<CompatibilityResult>)
    ensures |rs| == |profs|
    ensures forall i :: 0 <= i < |profs| ==> rs[i] == CompatibilityResult(profs[i].name, Score(scores, profs[i]))
  {
    seq(|profs|, i requires 0 <= i < |profs| => CompatibilityResult(profs[i].name, Score(scores, profs[i])))
  }

  /** With scores in [0, 1] and non-negative requirements, 0 <= Σ score·req <= Σ req. */
  lemma {:induction false} ReqTotalBounded(scores: Scores, req: Weights)
    requires forall a :: a in scores ==> 0.0 <= scores[a] <= 1.0
    requires NonNegativeWeights(req)
    ensures 0.0 <= ReqTotal(scores, req) <= ReqWeight(req)
    decreases |req|
  {
    if |req| > 0 {
      var init := req[..|req| - 1];
      var (apt, w) := req[|req| - 1];
      assert NonNegativeWeights(init);
      ReqTotalBounded(scores, init);
      var x := ScoreOf(scores, apt);
      assert 0.0 <= x <= 1.0 && w >= 0.0;
      ProductBounded(x, w);
      assert ReqTotal(scores, req) == ReqTotal(scores, init) + x * w;
      assert ReqWeight(req) == ReqWeight(init) + w;
    }
  }

  /** With scores in [0, 1] and non-negative requirements, a compatibility score lies in 0..100. */
  lemma ScoreInPercentRange(scores: Scores, p: Profession)
    requires forall a :: a in scores ==> 0.0 <= scores[a] <= 1.0
    requires NonNegativeWeights(p.req)
    ensures 0 <= Score(scores, p) <= 100
  {
    ReqTotalBounded(scores, p.req);
    var weight := ReqWeight(p.req);
    var c := Compat(scores, p.req);
    if weight > 0.0 {
      assert c * weight == ReqTotal(scores, p.req);
    }
    assert 0.0 <= c <= 1.0;
    MathRoundPercent(c * 100.0);
  }

  /**
    With scores in [0, 1] and non-negative requirements, every ranked
    result scores in 0..100.
   */
  lemma RankedInPercentRange(scores: Scores, profs: seq<Profession>)
    requires forall a :: a in scores ==> 0.0 <= scores[a] <= 1.0
    requires forall i :: 0 <= i < |profs| ==> NonNegativeWeights(profs[i].req)
    ensures forall r :: r in TopFive(Results(scores, profs)) ==> 0 <= r.score <= 100
  {
    var rs := Results(scores, profs);
    TopFiveMeaning(rs);
    forall r | r in TopFive(rs) ensures 0 <= r.score <= 100 {
      assert r in multiset(TopFive(rs));
      assert r in multiset(rs);
      var i :| 0 <= i < |rs| && rs[i] == r;
      ScoreInPercentRange(scores, profs[i]);
    }
  }

  /**
    The loops of `calculateCompatibility`: each profession's weighted total
    and weight summed over its `req`, its rounded score, then the five best
    results of the stable descending sort.
   */
  method RankProfessions(scores: Scores, profs: seq<Profession>) returns (top: seq<CompatibilityResult>)
    ensures top == TopFive(Results(scores, profs))
    ensures |top| == Min(5, |profs|)
  {
    var list: seq<CompatibilityResult> := [];
    for i := 0 to |profs|
      invariant list == Results(scores, profs[..i])
    {
      var p := profs[i];
      var total := 0.0;
      var weight := 0.0;
      for j := 0 to |p.req|
        invariant total == ReqTotal(scores, p.req[..j])
        invariant weight == ReqWeight(p.req[..j])
      {
        var (apt, reqVal) := p.req[j];
        assert p.req[..j + 1][..j] == p.req[..j];
        total := total + ScoreOf(scores, apt) * reqVal;
        weight := weight + reqVal;
      }
      assert p.req[..|p.req|] == p.req;
      var compat := if weight > 0.0 then total / weight else 0.0;
      list := list + [CompatibilityResult(p.name, MathRound(compat * 100.0))];
      assert profs[..i + 1][..i] == profs[..i];
    }
    assert profs[..|profs|] == profs;
    top := TopFive(list);
  }

  /** `calculateCompatibility`: the ranking over the active profession list. */
  method CalculateCompatibility(t: Tables, scores: Scores) returns (top: seq<CompatibilityResult>)
    ensures |top| == Min(5, |t.professions|)
    ensures top == TopFive(Results(scores, t.professions))
  {
    top := RankProfessions(scores, t.professions);
  }

  /**
    `calculateCompatibilityLocalized`: the ranking over the profession list
    of `lang`; for Portuguese it is `calculateCompatibility`.
   */
  method CalculateCompatibilityLocalized(t: Tables, scores: Scores, lang: Lang) returns (top: seq<CompatibilityResult>)
    ensures top == TopFive(Results(scores, ProfessionsByLang(t, lang)))
    ensures lang == Pt ==> top == TopFive(Results(scores, t.professions))
  {
    top := RankProfessions(scores, ProfessionsByLang(t, lang));
  }
}
