/**
  How the two halves meet: the derivation script computes a
  `professions_v2_onet` table meant to be pasted into lib/data.ts, where each
  entry's `req` object becomes the weights of a profession that the browser
  scoring ranks. Object keys are the aptitude identifiers, in the order the
  script inserts them, which is the rule order.
 */
module Profiles {
  import Classifier
  import Occupations
  import opened Wrappers
  import opened Aggregator
  import opened Normalizer
  import opened Scoring

  /** `w` is the entry of some aptitude of `apts` that `req` holds: its identifier and its value. */
  predicate Listed(req: map<Classifier.Aptitude, real>, apts: seq<Classifier.Aptitude>, w: (string, real))
  {
    exists a :: a in req && a in apts && w == (Classifier.Id(a), req[a])
  }

  /**
    The entries of a derived `req` object over the aptitudes `apts`, in that
    order: each entry pairs the identifier of an aptitude of `req` with that
    aptitude's value. `ReqEntriesOrdered` and `ReqEntriesDistinctKeys` fix
    the order and rule out repeated keys.
   */
  function ReqEntries(req: map<Classifier.Aptitude, real>, apts: seq<Classifier.Aptitude>): (ws: Weights)
    ensures |ws| <= |apts|
    ensures forall i :: 0 <= i < |ws| ==> ws[i].1 in req.Values
    ensures forall i :: 0 <= i < |ws| ==> Listed(req, apts, ws[i])
    decreases |apts|
  {
    if |apts| == 0 then []
    else
      var rest := ReqEntries(req, apts[1..]);
      var a := apts[0];
      var ws := if a in req then [(Classifier.Id(a), req[a])] + rest else rest;
      EntriesFromMap(req, apts, rest, ws);
      ws
  }

  /** A step of `ReqEntries`: the entries built from `apts[0]` and the rest's entries are entries of `req` over `apts`. */
  lemma EntriesFromMap(req: map<Classifier.Aptitude, real>, apts: seq<Classifier.Aptitude>, rest: Weights, ws: Weights)
    requires |apts| > 0
    requires forall i :: 0 <= i < |rest| ==> Listed(req, apts[1..], rest[i])
    requires ws == if apts[0] in req then [(Classifier.Id(apts[0]), req[apts[0]])] + rest else rest
    ensures forall i :: 0 <= i < |ws| ==> Listed(req, apts, ws[i])
  {
    forall i | 0 <= i < |ws| ensures Listed(req, apts, ws[i]) {
      var j := if apts[0] in req then i - 1 else i;
      if j < 0 {
        assert ws[i] == (Classifier.Id(apts[0]), req[apts[0]]) && apts[0] in apts;
      } else {
        assert ws[i] == rest[j];
        var a :| a in req && a in apts[1..] && rest[j] == (Classifier.Id(a), req[a]);
        var k :| 0 <= k < |apts[1..]| && apts[1..][k] == a;
        assert apts[k + 1] == a;
      }
    }
  }

  /** Every aptitude of `req` listed in `apts` gives one entry, with its value. */
  lemma {:induction false} ReqEntriesComplete(req: map<Classifier.Aptitude, real>, apts: seq<Classifier.Aptitude>, a: Classifier.Aptitude)
    requires a in req && a in apts
    ensures (Classifier.Id(a), req[a]) in ReqEntries(req, apts)
    decreases |apts|
  {
    if apts[0] != a {
      assert a in apts[1..];
      ReqEntriesComplete(req, apts[1..], a);
    }
  }

  /** The entry for the aptitude at position `k` of `apts`, when `req` holds it. */
  predicate EntryOf(req: map<Classifier.Aptitude, real>, apts: seq<Classifier.Aptitude>, k: int, w: (string, real))
  {
    0 <= k < |apts| && apts[k] in req && w == (Classifier.Id(apts[k]), req[apts[k]])
  }

  /** `v` and `w` are entries of aptitudes of `apts`, and `v`'s aptitude comes first. */
  predicate Before(req: map<Classifier.Aptitude, real>, apts: seq<Classifier.Aptitude>, v: (string, real), w: (string, real))
  {
    exists k, l :: 0 <= k < l < |apts| && EntryOf(req, apts, k, v) && EntryOf(req, apts, l, w)
  }

  /**
    The entries follow the order of `apts`: of two entries, the earlier one
    belongs to the aptitude that comes first.
   */
  lemma {:induction false} ReqEntriesOrdered(req: map<Classifier.Aptitude, real>, apts: seq<Classifier.Aptitude>, i: int, j: int)
    requires 0 <= i < j < |ReqEntries(req, apts)|
    ensures Before(req, apts, ReqEntries(req, apts)[i], ReqEntries(req, apts)[j])
    decreases |apts|
  {
    var ws := ReqEntries(req, apts);
    var rest := ReqEntries(req, apts[1..]);
    if apts[0] in req {
      assert ws == [(Classifier.Id(apts[0]), req[apts[0]])] + rest;
      if i == 0 {
        FirstBefore(req, apts, rest[j - 1]);
      } else {
        ReqEntriesOrdered(req, apts[1..], i - 1, j - 1);
        ShiftBefore(req, apts, rest[i - 1], rest[j - 1]);
      }
    } else {
      assert ws == rest;
      ReqEntriesOrdered(req, apts[1..], i, j);
      ShiftBefore(req, apts, rest[i], rest[j]);
    }
  }

  /** The entry of `apts[0]` comes before every entry of the later aptitudes. */
  lemma FirstBefore(req: map<Classifier.Aptitude, real>, apts: seq<Classifier.Aptitude>, w: (string, real))
    requires |apts| > 0 && apts[0] in req && Listed(req, apts[1..], w)
    ensures Before(req, apts, (Classifier.Id(apts[0]), req[apts[0]]), w)
  {
    var a :| a in req && a in apts[1..] && w == (Classifier.Id(a), req[a]);
    var l :| 0 <= l < |apts[1..]| && apts[1..][l] == a;
    assert EntryOf(req, apts, 0, (Classifier.Id(apts[0]), req[apts[0]]));
    assert EntryOf(req, apts, l + 1, w);
  }

  /** An order among the later aptitudes holds among all of them. */
  lemma ShiftBefore(req: map<Classifier.Aptitude, real>, apts: seq<Classifier.Aptitude>, v: (string, real), w: (string, real))
    requires |apts| > 0 && Before(req, apts[1..], v, w)
    ensures Before(req, apts, v, w)
  {
    var k, l :| 0 <= k < l < |apts[1..]| && EntryOf(req, apts[1..], k, v) && EntryOf(req, apts[1..], l, w);
    assert apts[1..][k] == apts[k + 1] && apts[1..][l] == apts[l + 1];
    assert EntryOf(req, apts, k + 1, v);
    assert EntryOf(req, apts, l + 1, w);
  }

  /** Over aptitudes listed once each, as `AllAptitudes` lists them, no key repeats. */
  lemma ReqEntriesDistinctKeys(req: map<Classifier.Aptitude, real>, apts: seq<Classifier.Aptitude>)
    requires forall k, l :: 0 <= k < l < |apts| ==> apts[k] != apts[l]
    ensures var ws := ReqEntries(req, apts);
      forall i, j :: 0 <= i < j < |ws| ==> ws[i].0 != ws[j].0
  {
    var ws := ReqEntries(req, apts);
    forall i, j | 0 <= i < j < |ws| ensures ws[i].0 != ws[j].0 {
      ReqEntriesOrdered(req, apts, i, j);
      var k, l :| 0 <= k < l < |apts| && EntryOf(req, apts, k, ws[i]) && EntryOf(req, apts, l, ws[j]);
      Classifier.IdInjective(apts[k], apts[l]);
    }
  }

  /** Every weight lies in (0, 1]. */
  predicate UnitWeights(ws: Weights) {
    forall i :: 0 <= i < |ws| ==> 0.0 < ws[i].1 <= 1.0
  }

  /**
    The profession the scoring sees for the entry `e` of profession `p`:
    weights strictly between 0 and 1 stay so.
   */
  function AsProfession(p: Occupations.ProfessionId, e: Entry, name: string): (prof: Profession)
    requires InUnit(e.req)
    ensures prof.id == Occupations.Id(p) && prof.name == name
    ensures UnitWeights(prof.req)
  {
    InUnitEntries(e.req, Classifier.AllAptitudes);
    Profession(Occupations.Id(p), name, ReqEntries(e.req, Classifier.AllAptitudes))
  }

  /** The entries of a map with values in (0, 1] have weights in (0, 1]. */
  lemma InUnitEntries(req: map<Classifier.Aptitude, real>, apts: seq<Classifier.Aptitude>)
    requires InUnit(req)
    ensures UnitWeights(ReqEntries(req, apts))
  {
    var ws := ReqEntries(req, apts);
    forall i | 0 <= i < |ws| ensures 0.0 < ws[i].1 <= 1.0 {
      assert ws[i].1 in req.Values;
      var a :| a in req && req[a] == ws[i].1;
    }
  }

  /**
    Whatever table files the script reads, a derived profile used as a
    profession's `req` gives every user whose aptitude scores lie in
    [0, 1] a compatibility score in 0..100.
   */
  lemma DerivedScoreInRange(inputs: Inputs, num: string -> Option<real>, p: Occupations.ProfessionId, name: string, scores: Scores)
    requires forall a :: a in scores ==> 0.0 <= scores[a] <= 1.0
    ensures 0 <= Score(scores, AsProfession(p, Derive(inputs, num)[p], name)) <= 100
  {
    var prof := AsProfession(p, Derive(inputs, num)[p], name);
    assert NonNegativeWeights(prof.req);
    ScoreInPercentRange(scores, prof);
  }
}
