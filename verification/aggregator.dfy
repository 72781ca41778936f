/**
  The accumulation stage of the derivation script: every accepted O*NET row
  adds its rescaled value to one (profession, aptitude) bucket for each
  profession that lists the row's occupation code, and is remembered as an
  element of that profession.
 */
module Aggregator {
  import opened Wrappers
  import opened Tsv
  import opened Classifier
  import opened Occupations
  import opened Sequences

  /** The five O*NET tables the script reads, named after their files. */
  datatype FileLabel = Abilities | Skills | Knowledge | Interests | WorkValues

  /** `TARGET_FILES`, in reading order. */
  const TargetFiles: seq<FileLabel> := [Abilities, Skills, Knowledge, Interests, WorkValues]

  /** The table's file name, as recorded in each element. */
  function FileName(f: FileLabel): string {
    match f
    case Abilities => "Abilities.txt"
    case Skills => "Skills.txt"
    case Knowledge => "Knowledge.txt"
    case Interests => "Interests.txt"
    case WorkValues => "Work Values.txt"
  }

  /** Abilities and Skills carry both importance and level rows, told apart by the Scale ID column. */
  predicate HasScale(f: FileLabel) {
    f == Abilities || f == Skills
  }

  /** The column holding the element's name in each table. */
  function NameColumn(f: FileLabel): string {
    match f
    case Interests => "RIASEC Interest Area"
    case WorkValues => "Work Value"
    case _ => "Element Name"
  }

  /** The top of the table's rating scale: 7 for Knowledge, Interests and Work Values, 5 otherwise. */
  function Divisor(f: FileLabel): (d: real)
    ensures d == 5.0 <==> HasScale(f)
    ensures d == 7.0 <==> !HasScale(f)
  {
    if f == Knowledge || f == Interests || f == WorkValues then 7.0 else 5.0
  }

  /**
    `safeNumber`: `parseFloat` of the field, with NaN as `None`. The number
    grammar of `parseFloat` is the parameter `num`; a missing field
    (`parseFloat(undefined)`) is NaN.
   */
  function SafeNumber(num: string -> Option<real>, v: Option<string>): (r: Option<real>)
    ensures v.None? ==> r.None?
    ensures v.Some? ==> r == num(v.value)
  {
    match v
    case None => None
    case Some(s) => num(s)
  }

  /** One accepted observation, as pushed onto a profession's `elements`. */
  datatype Element = Element(
    file: FileLabel,
    occCode: string,
    elementName: string,
    aptitude: Aptitude,
    importanceRaw: real,
    baseScore: real)

  /** A row of one table. */
  datatype Row = Row(file: FileLabel, rec: Record)

  /** A field holding a non-empty string: JavaScript's truthiness test on a field. */
  predicate Present(v: Option<string>) {
    v.Some? && v.value != ""
  }

  /**
    The reasons `considerRecord` returns early without touching anything:
    no occupation code, a level row of Abilities or Skills, no element
    name, a value that is not a number, or a name no rule recognises.
   */
  predicate Skipped(row: Row, num: string -> Option<real>) {
    var rec := row.rec;
    || !Present(Field(rec, "O*NET-SOC Code"))
    || (HasScale(row.file) && Field(rec, "Scale ID") != Some("IM"))
    || !Present(Field(rec, NameColumn(row.file)))
    || SafeNumber(num, Field(rec, "Data Value")).None?
    || Classify(Field(rec, NameColumn(row.file)).value).None?
  }

  /** The element a row contributes, or `None` when `considerRecord` skips it. */
  function Accept(row: Row, num: string -> Option<real>): (r: Option<Element>)
    ensures r.None? <==> Skipped(row, num)
    ensures r.Some? ==>
      var name := Field(row.rec, NameColumn(row.file)).value;
      var value := SafeNumber(num, Field(row.rec, "Data Value")).value;
      && r.value.file == row.file
      && Some(r.value.occCode) == Field(row.rec, "O*NET-SOC Code")
      && r.value.elementName == name
      && Some(r.value.aptitude) == Classify(name)
      && r.value.importanceRaw == value
      && r.value.baseScore * Divisor(row.file) == value
  {
    var rec := row.rec;
    var code := Field(rec, "O*NET-SOC Code");
    if !Present(code) then None
    else if HasScale(row.file) && Field(rec, "Scale ID") != Some("IM") then None
    else
      var name := Field(rec, NameColumn(row.file));
      var value := SafeNumber(num, Field(rec, "Data Value"));
      if !Present(name) || value.None? then None
      else
        match Classify(name.value)
        case None => None
        case Some(a) => Some(Element(row.file, code.value, name.value, a, value.value, value.value / Divisor(row.file)))
  }

  /**
    A rating of 0 is a number, not a missing value: a row that passes the
    other tests with value 0 is accepted, with base score 0.
   */
  lemma ZeroRatingKept(row: Row, num: string -> Option<real>, t: string)
    requires Present(Field(row.rec, "O*NET-SOC Code"))
    requires !HasScale(row.file) || Field(row.rec, "Scale ID") == Some("IM")
    requires Present(Field(row.rec, NameColumn(row.file)))
    requires Classify(Field(row.rec, NameColumn(row.file)).value).Some?
    requires Field(row.rec, "Data Value") == Some(t) && num(t) == Some(0.0)
    ensures Accept(row, num).Some? && Accept(row, num).value.baseScore == 0.0
  {
  }

  // ----- Buckets and state -----

  /** A running sum and the number of values added to it. */
  datatype Bucket = Bucket(sum: real, count: nat)

  const Empty: Bucket := Bucket(0.0, 0)

  /** Adding two tallies. */
  function Plus(x: Bucket, y: Bucket): Bucket {
    Bucket(x.sum + y.sum, x.count + y.count)
  }

  /** One profession's aggregation: a bucket per aptitude and the elements seen. */
  datatype Profile = Profile(raw: map<Aptitude, Bucket>, elements: seq<Element>)

  /** `professionAggregation`. */
  type State = map<ProfessionId, Profile>

  /** A profile's bucket for `a`; the empty bucket when it has none. */
  function BucketOf(prof: Profile, a: Aptitude): Bucket {
    if a in prof.raw then prof.raw[a] else Empty
  }

  /** The bucket of (`p`, `a`); the empty bucket when the state lacks it. */
  function Get(s: State, p: ProfessionId, a: Aptitude): Bucket {
    if p in s then BucketOf(s[p], a) else Empty
  }

  /** The elements recorded for `p`. */
  function Elements(s: State, p: ProfessionId): seq<Element> {
    if p in s then s[p].elements else []
  }

  /** Every profession has an entry, and every entry a bucket for every aptitude. */
  predicate Complete(s: State) {
    forall p: ProfessionId :: p in s && forall a: Aptitude :: a in s[p].raw
  }

  /** The accumulator before the first row: an empty bucket for every pair, no elements. */
  function Init(): (s: State)
    ensures Complete(s)
    ensures forall p, a :: Get(s, p, a) == Empty
    ensures forall p :: Elements(s, p) == []
  {
    EachProfessionOnce();
    EveryAptitudeListed();
    map p | p in AllProfessions :: Profile(map a | a in AllAptitudes :: Empty, [])
  }

  /** One profession's entry after it takes element `e`. */
  function Credit(prof: Profile, e: Element): Profile {
    Profile(prof.raw[e.aptitude := Plus(BucketOf(prof, e.aptitude), Bucket(e.baseScore, 1))], prof.elements + [e])
  }

  /** Crediting adds the element's base score and a count of one to its own aptitude's bucket only. */
  lemma CreditBucket(prof: Profile, e: Element, a: Aptitude)
    ensures BucketOf(Credit(prof, e), a) ==
      if a == e.aptitude then Plus(BucketOf(prof, a), Bucket(e.baseScore, 1)) else BucketOf(prof, a)
  {
  }

  /** The state after profession entries take observation `obs`, if any. */
  function Apply(s: State, obs: Option<Element>): (r: State)
    ensures r.Keys == s.Keys
    ensures obs.None? ==> r == s
  {
    match obs
    case None => s
    case Some(e) => map p | p in s :: if Claims(p, e.occCode) then Credit(s[p], e) else s[p]
  }

  /** What observation `obs` adds to the bucket of (`p`, `a`). */
  function Contribution(obs: Option<Element>, p: ProfessionId, a: Aptitude): Bucket {
    match obs
    case None => Empty
    case Some(e) => if Claims(p, e.occCode) && a == e.aptitude then Bucket(e.baseScore, 1) else Empty
  }

  /** The elements observation `obs` appends to profession `p`. */
  function Appended(obs: Option<Element>, p: ProfessionId): seq<Element> {
    match obs
    case None => []
    case Some(e) => if Claims(p, e.occCode) then [e] else []
  }

  /**
    An observation adds its base score and a count of one to the bucket of
    its aptitude in every profession listing its code, and appends itself to
    their elements; everything else keeps its value.
   */
  lemma ApplyEffect(s: State, obs: Option<Element>, p: ProfessionId, a: Aptitude)
    requires p in s
    ensures Get(Apply(s, obs), p, a) == Plus(Get(s, p, a), Contribution(obs, p, a))
    ensures Elements(Apply(s, obs), p) == Elements(s, p) + Appended(obs, p)
  {
    ApplyBucket(s, obs, p, a);
    ApplyElements(s, obs, p);
  }

  /** The bucket half of `ApplyEffect`. */
  lemma ApplyBucket(s: State, obs: Option<Element>, p: ProfessionId, a: Aptitude)
    requires p in s
    ensures Get(Apply(s, obs), p, a) == Plus(Get(s, p, a), Contribution(obs, p, a))
  {
    var r := Apply(s, obs);
    ApplyAt(s, obs, p);
    assert Get(r, p, a) == BucketOf(r[p], a);
    assert Get(s, p, a) == BucketOf(s[p], a);
    match obs
    case None =>
      PlusEmpty(Get(s, p, a));
    case Some(e) =>
      if Claims(p, e.occCode) {
        CreditBucket(s[p], e, a);
        if a != e.aptitude {
          PlusEmpty(Get(s, p, a));
        }
      } else {
        PlusEmpty(Get(s, p, a));
      }
  }

  /** The element half of `ApplyEffect`. */
  lemma ApplyElements(s: State, obs: Option<Element>, p: ProfessionId)
    requires p in s
    ensures Elements(Apply(s, obs), p) == Elements(s, p) + Appended(obs, p)
  {
    ApplyAt(s, obs, p);
  }

  /** The entry of `p` after an observation: credited when `p` lists its code, unchanged otherwise. */
  lemma ApplyAt(s: State, obs: Option<Element>, p: ProfessionId)
    requires p in s
    ensures p in Apply(s, obs)
    ensures Apply(s, obs)[p] == if obs.Some? && Claims(p, obs.value.occCode) then Credit(s[p], obs.value) else s[p]
  {
  }

  /** Adding tallies is associative. */
  lemma PlusAssociative(x: Bucket, y: Bucket, z: Bucket)
    ensures Plus(Plus(x, y), z) == Plus(x, Plus(y, z))
  {
  }

  /** The empty bucket adds nothing. */
  lemma PlusEmpty(b: Bucket)
    ensures Plus(b, Empty) == b
  {
  }

  /** Every bucket that exists before an observation still exists after it. */
  lemma ApplyKeepsComplete(s: State, obs: Option<Element>)
    ensures Complete(s) ==> Complete(Apply(s, obs))
  {
  }

  /** `considerRecord`: credit the row's element, if it is accepted, to every profession listing its code. */
  function Consider(s: State, row: Row, num: string -> Option<real>): (r: State)
    ensures r.Keys == s.Keys
    ensures Skipped(row, num) ==> r == s
  {
    Apply(s, Accept(row, num))
  }

  /**
    An accepted row adds its base score and a count of one to the bucket of
    its aptitude in every profession listing its code; all other buckets
    keep their values.
   */
  lemma ConsiderBucket(s: State, row: Row, num: string -> Option<real>, p: ProfessionId, a: Aptitude)
    requires p in s && !Skipped(row, num)
    ensures var e := Accept(row, num).value;
      Get(Consider(s, row, num), p, a) ==
        (if Claims(p, e.occCode) && a == e.aptitude then Plus(Get(s, p, a), Bucket(e.baseScore, 1)) else Get(s, p, a))
  {
    ApplyBucket(s, Accept(row, num), p, a);
  }

  /** An accepted row is appended, once, to the elements of every profession listing its code. */
  lemma ConsiderElements(s: State, row: Row, num: string -> Option<real>, p: ProfessionId)
    requires p in s && !Skipped(row, num)
    ensures var e := Accept(row, num).value;
      Elements(Consider(s, row, num), p) == (if Claims(p, e.occCode) then Elements(s, p) + [e] else Elements(s, p))
  {
    ApplyElements(s, Accept(row, num), p);
  }

  // ----- The fold over all rows -----

  /** `Accept` for a fixed number parser, as a function of the row. */
  function AcceptWith(num: string -> Option<real>): Row -> Option<Element> {
    row => Accept(row, num)
  }

  /** The observations of the rows, in order. */
  function Observe(rows: seq<Row>, num: string -> Option<real>): (obs: seq<Option<Element>>)
    ensures |obs| == |rows|
    ensures forall i :: 0 <= i < |rows| ==> obs[i] == Accept(rows[i], num)
  {
    MapSeq(AcceptWith(num), rows)
  }

  /** The observations applied one after the other. */
  function ApplyAll(s: State, obs: seq<Option<Element>>): (r: State)
    ensures r.Keys == s.Keys
    ensures Complete(s) ==> Complete(r)
    decreases |obs|
  {
    if |obs| == 0 then s
    else
      ApplyKeepsComplete(s, obs[0]);
      ApplyAll(Apply(s, obs[0]), obs[1..])
  }

  /** The script's loop: every row considered in turn. */
  function Run(s: State, rows: seq<Row>, num: string -> Option<real>): (r: State)
    ensures r.Keys == s.Keys
    ensures Complete(s) ==> Complete(r)
  {
    ApplyAll(s, Observe(rows, num))
  }

  /** `Run` considers the first row and then the rest. */
  lemma RunStep(s: State, rows: seq<Row>, num: string -> Option<real>)
    requires |rows| > 0
    ensures Run(s, rows, num) == Run(Consider(s, rows[0], num), rows[1..], num)
  {
    assert Observe(rows, num)[1..] == Observe(rows[1..], num);
  }

  /** The sum of a sequence of tallies. */
  function Total(bs: seq<Bucket>): Bucket
    decreases |bs|
  {
    if |bs| == 0 then Empty else Plus(bs[0], Total(bs[1..]))
  }

  /** `Contribution` for a fixed bucket, as a function of the observation. */
  function ContributionTo(p: ProfessionId, a: Aptitude): Option<Element> -> Bucket {
    obs => Contribution(obs, p, a)
  }

  /** The total the observations add to the bucket of (`p`, `a`). */
  function Tally(obs: seq<Option<Element>>, p: ProfessionId, a: Aptitude): Bucket {
    Total(MapSeq(ContributionTo(p, a), obs))
  }

  /** A tally is the first observation's contribution plus the tally of the rest. */
  lemma TallyStep(obs: seq<Option<Element>>, p: ProfessionId, a: Aptitude)
    requires |obs| > 0
    ensures Tally(obs, p, a) == Plus(Contribution(obs[0], p, a), Tally(obs[1..], p, a))
  {
    var f := ContributionTo(p, a);
    assert MapSeq(f, obs)[1..] == MapSeq(f, obs[1..]);
  }

  /** The elements the observations append to profession `p`, in order. */
  function AppendedAll(obs: seq<Option<Element>>, p: ProfessionId): seq<Element>
    decreases |obs|
  {
    if |obs| == 0 then [] else Appended(obs[0], p) + AppendedAll(obs[1..], p)
  }

  /** Each final bucket is its starting value plus the tally of all observations. */
  lemma {:induction false} ApplyAllBucket(s: State, obs: seq<Option<Element>>, p: ProfessionId, a: Aptitude)
    requires p in s
    ensures Get(ApplyAll(s, obs), p, a) == Plus(Get(s, p, a), Tally(obs, p, a))
    decreases |obs|
  {
    if |obs| > 0 {
      var next := Apply(s, obs[0]);
      var c := Contribution(obs[0], p, a);
      var rest := Tally(obs[1..], p, a);
      assert ApplyAll(s, obs) == ApplyAll(next, obs[1..]);
      ApplyBucket(s, obs[0], p, a);
      TallyStep(obs, p, a);
      ApplyAllBucket(next, obs[1..], p, a);
      PlusAssociative(Get(s, p, a), c, rest);
    } else {
      assert |MapSeq(ContributionTo(p, a), obs)| == 0;
      PlusEmpty(Get(s, p, a));
    }
  }

  /** Each final element list is the starting list followed by the accepted observations, in order. */
  lemma {:induction false} ApplyAllElements(s: State, obs: seq<Option<Element>>, p: ProfessionId)
    requires p in s
    ensures Elements(ApplyAll(s, obs), p) == Elements(s, p) + AppendedAll(obs, p)
    decreases |obs|
  {
    if |obs| > 0 {
      var next := Apply(s, obs[0]);
      assert ApplyAll(s, obs) == ApplyAll(next, obs[1..]);
      ApplyElements(s, obs[0], p);
      ApplyAllElements(next, obs[1..], p);
    }
  }

  /** Totals add up over concatenations. */
  lemma {:induction false} TotalConcat(x: seq<Bucket>, y: seq<Bucket>)
    ensures Total(x + y) == Plus(Total(x), Total(y))
    decreases |x|
  {
    if |x| == 0 {
      assert x + y == y;
    } else {
      assert (x + y)[1..] == x[1..] + y;
      TotalConcat(x[1..], y);
    }
  }

  /** A total depends only on which tallies there are, not on their order. */
  lemma {:induction false} TotalPermutation(x: seq<Bucket>, y: seq<Bucket>)
    requires multiset(x) == multiset(y)
    ensures Total(x) == Total(y)
    decreases |x|
  {
    if |x| > 0 {
      assert x[0] in multiset(y);
      var j :| 0 <= j < |y| && y[j] == x[0];
      var rest := y[..j] + y[j + 1..];
      RemoveMatching(x, y, j);
      TotalPermutation(x[1..], rest);
      assert y == y[..j] + ([y[j]] + y[j + 1..]);
      TotalConcat(y[..j], [y[j]] + y[j + 1..]);
      assert ([y[j]] + y[j + 1..])[1..] == y[j + 1..];
      TotalConcat(y[..j], y[j + 1..]);
    }
  }

  /** A tally depends only on which observations there are, not on their order. */
  lemma TallyPermutation(x: seq<Option<Element>>, y: seq<Option<Element>>, p: ProfessionId, a: Aptitude)
    requires multiset(x) == multiset(y)
    ensures Tally(x, p, a) == Tally(y, p, a)
  {
    MapSeqPermutation(ContributionTo(p, a), x, y);
    TotalPermutation(MapSeq(ContributionTo(p, a), x), MapSeq(ContributionTo(p, a), y));
  }

  /** Final sums and counts do not depend on the order in which the rows are considered. */
  lemma OrderIrrelevant(s: State, x: seq<Row>, y: seq<Row>, num: string -> Option<real>, p: ProfessionId, a: Aptitude)
    requires p in s && multiset(x) == multiset(y)
    ensures Get(Run(s, x, num), p, a) == Get(Run(s, y, num), p, a)
  {
    MapSeqPermutation(AcceptWith(num), x, y);
    ApplyAllBucket(s, Observe(x, num), p, a);
    ApplyAllBucket(s, Observe(y, num), p, a);
    TallyPermutation(Observe(x, num), Observe(y, num), p, a);
  }

  // ----- Element counts -----

  /** The sum of the counts of `p`'s buckets for the aptitudes `apts`. */
  function CountOver(s: State, p: ProfessionId, apts: seq<Aptitude>): nat
    decreases |apts|
  {
    if |apts| == 0 then 0 else Get(s, p, apts[0]).count + CountOver(s, p, apts[1..])
  }

  /** No aptitude occurs twice. */
  predicate Distinct(apts: seq<Aptitude>) {
    forall i, j :: 0 <= i < j < |apts| ==> apts[i] != apts[j]
  }

  /** An observation raises the count of at most one aptitude, by one, and only when it is appended. */
  lemma ApplyCount(s: State, obs: Option<Element>, p: ProfessionId, apts: seq<Aptitude>)
    requires p in s && Distinct(apts)
    ensures CountOver(Apply(s, obs), p, apts) ==
      CountOver(s, p, apts) + (if obs.Some? && obs.value.aptitude in apts then |Appended(obs, p)| else 0)
  {
    var next := Apply(s, obs);
    forall a ensures Get(next, p, a).count == Get(s, p, a).count + Contribution(obs, p, a).count {
      ApplyBucket(s, obs, p, a);
    }
    CountShift(s, next, obs, p, apts);
  }

  /**
    When every bucket of `p` in `t` is its bucket in `s` plus the
    contribution of `obs`, the counts over `apts` grow by the number of
    appended elements exactly when the observation's aptitude is among them.
   */
  lemma {:induction false} CountShift(s: State, t: State, obs: Option<Element>, p: ProfessionId, apts: seq<Aptitude>)
    requires Distinct(apts)
    requires forall a :: Get(t, p, a).count == Get(s, p, a).count + Contribution(obs, p, a).count
    ensures CountOver(t, p, apts) ==
      CountOver(s, p, apts) + (if obs.Some? && obs.value.aptitude in apts then |Appended(obs, p)| else 0)
    decreases |apts|
  {
    if |apts| > 0 {
      var a, rest := apts[0], apts[1..];
      assert Distinct(rest);
      CountShift(s, t, obs, p, rest);
      assert CountOver(t, p, apts) == Get(t, p, a).count + CountOver(t, p, rest);
      assert CountOver(s, p, apts) == Get(s, p, a).count + CountOver(s, p, rest);
      ContributionCount(obs, p, a);
      if obs.Some? && obs.value.aptitude == a {
        assert obs.value.aptitude !in rest;
      } else {
        assert apts == [a] + rest;
      }
    }
  }

  /** An observation counts once in the bucket of its own aptitude for each profession it is appended to. */
  lemma ContributionCount(obs: Option<Element>, p: ProfessionId, a: Aptitude)
    ensures Contribution(obs, p, a).count == if obs.Some? && obs.value.aptitude == a then |Appended(obs, p)| else 0
  {
  }

  /** For every profession the number of elements equals the sum of its bucket counts. */
  predicate CountsMatch(s: State) {
    forall p :: p in s ==> |Elements(s, p)| == CountOver(s, p, AllAptitudes)
  }

  /** One observation keeps element lists as long as the counts add up to. */
  lemma ApplyKeepsCounts(s: State, obs: Option<Element>, p: ProfessionId)
    requires p in s && |Elements(s, p)| == CountOver(s, p, AllAptitudes)
    ensures |Elements(Apply(s, obs), p)| == CountOver(Apply(s, obs), p, AllAptitudes)
  {
    EveryAptitudeListed();
    ApplyElements(s, obs, p);
    ApplyCount(s, obs, p, AllAptitudes);
  }

  /** Applying observations keeps element lists as long as the counts add up to. */
  lemma {:induction false} ApplyAllKeepsCounts(s: State, obs: seq<Option<Element>>)
    requires CountsMatch(s)
    ensures CountsMatch(ApplyAll(s, obs))
    decreases |obs|
  {
    if |obs| > 0 {
      var next := Apply(s, obs[0]);
      forall p | p in next ensures |Elements(next, p)| == CountOver(next, p, AllAptitudes) {
        ApplyKeepsCounts(s, obs[0], p);
      }
      ApplyAllKeepsCounts(next, obs[1..]);
    }
  }

  /** The empty state has zero counts everywhere. */
  lemma {:induction false} InitCounts(p: ProfessionId, apts: seq<Aptitude>)
    ensures CountOver(Init(), p, apts) == 0
    decreases |apts|
  {
    if |apts| > 0 {
      InitCounts(p, apts[1..]);
    }
  }

  /**
    `meta.totalElements`: after any rows, each profession's number of
    elements equals the sum of its bucket counts over all aptitudes.
   */
  lemma TotalElementsIsTotalCount(rows: seq<Row>, num: string -> Option<real>, p: ProfessionId)
    ensures |Elements(Run(Init(), rows, num), p)| == CountOver(Run(Init(), rows, num), p, AllAptitudes)
  {
    forall q | q in Init() ensures |Elements(Init(), q)| == CountOver(Init(), q, AllAptitudes) {
      InitCounts(q, AllAptitudes);
    }
    ApplyAllKeepsCounts(Init(), Observe(rows, num));
  }

  // ----- Signs -----

  /**
    Every rating `considerRecord` accepts from `rows` is non-negative, as
    O*NET ratings are. The script does not check this; it is a property of
    the tables read, not of the number parser.
   */
  predicate RatingsNonNegative(rows: seq<Row>, num: string -> Option<real>) {
    forall i :: 0 <= i < |rows| && !Skipped(rows[i], num) ==> Accept(rows[i], num).value.importanceRaw >= 0.0
  }

  /** A non-negative rating divided by 5 or 7 gives a non-negative base score. */
  lemma AcceptNonNegative(row: Row, num: string -> Option<real>)
    requires !Skipped(row, num) && Accept(row, num).value.importanceRaw >= 0.0
    ensures Accept(row, num).value.baseScore >= 0.0
  {
    var e := Accept(row, num).value;
    if HasScale(row.file) {
      assert e.baseScore * 5.0 == e.importanceRaw;
    } else {
      assert e.baseScore * 7.0 == e.importanceRaw;
    }
  }

  /** A total of tallies with non-negative sums has a non-negative sum. */
  lemma {:induction false} TotalNonNegative(bs: seq<Bucket>)
    requires forall i :: 0 <= i < |bs| ==> bs[i].sum >= 0.0
    ensures Total(bs).sum >= 0.0
    decreases |bs|
  {
    if |bs| > 0 {
      TotalNonNegative(bs[1..]);
    }
  }

  /** When the rows' ratings are non-negative, every bucket sum stays non-negative. */
  lemma RunSumsNonNegative(rows: seq<Row>, num: string -> Option<real>, p: ProfessionId, a: Aptitude)
    requires RatingsNonNegative(rows, num)
    ensures Get(Run(Init(), rows, num), p, a).sum >= 0.0
  {
    var obs := Observe(rows, num);
    ApplyAllBucket(Init(), obs, p, a);
    var cs := MapSeq(ContributionTo(p, a), obs);
    forall i | 0 <= i < |cs| ensures cs[i].sum >= 0.0 {
      if obs[i].Some? {
        AcceptNonNegative(rows[i], num);
      }
    }
    TotalNonNegative(cs);
  }

  // ----- The whole accumulation -----

  /** The contents of the five table files; `None` for a file that does not exist. */
  datatype Inputs = Inputs(
    abilities: Option<string>,
    skills: Option<string>,
    knowledge: Option<string>,
    interests: Option<string>,
    workValues: Option<string>)

  /** The contents of one table's file. */
  function Contents(inputs: Inputs, f: FileLabel): Option<string> {
    match f
    case Abilities => inputs.abilities
    case Skills => inputs.skills
    case Knowledge => inputs.knowledge
    case Interests => inputs.interests
    case WorkValues => inputs.workValues
  }

  /** The records of one table, tagged with the table they come from. */
  function Tagged(f: FileLabel, recs: seq<Record>): (rows: seq<Row>)
    ensures |rows| == |recs|
    ensures forall i :: 0 <= i < |recs| ==> rows[i].file == f && rows[i].rec == recs[i]
  {
    seq(|recs|, i requires 0 <= i < |recs| => Row(f, recs[i]))
  }

  /**
    `onetData` walked in order: the rows of the tables `files`, table by
    table. Every row comes from a record of a listed table;
    `RowsOfComplete` shows that no record is missed, and `RowsOfConcat`
    with `RowsOfOne` fix the order.
   */
  function RowsOf(inputs: Inputs, files: seq<FileLabel>): (rows: seq<Row>)
    ensures forall r :: r in rows ==> r.file in files && r.rec in ParseTsv(Contents(inputs, r.file))
    decreases |files|
  {
    if |files| == 0 then []
    else
      var here := Tagged(files[0], ParseTsv(Contents(inputs, files[0])));
      var rest := RowsOf(inputs, files[1..]);
      assert forall r :: r in here ==> r.file == files[0] && r.rec in ParseTsv(Contents(inputs, files[0]));
      here + rest
  }

  /** Every record of every listed table is read as a row of that table. */
  lemma RowsOfComplete(inputs: Inputs, files: seq<FileLabel>, i: int, k: int)
    requires 0 <= i < |files| && 0 <= k < |ParseTsv(Contents(inputs, files[i]))|
    ensures Row(files[i], ParseTsv(Contents(inputs, files[i]))[k]) in RowsOf(inputs, files)
  {
    var f := files[i];
    var here := Tagged(f, ParseTsv(Contents(inputs, f)));
    var before, after := RowsOf(inputs, files[..i]), RowsOf(inputs, files[i + 1..]);
    assert RowsOf(inputs, files) == before + (here + after) by {
      SplitAround(files, i);
      RowsOfConcat(inputs, files[..i], [f] + files[i + 1..]);
      RowsOfConcat(inputs, [f], files[i + 1..]);
      RowsOfOne(inputs, f);
    }
    InMiddle(before, here, after, k);
  }

  /** The rows of one table: its records, in file order. */
  lemma RowsOfOne(inputs: Inputs, f: FileLabel)
    ensures RowsOf(inputs, [f]) == Tagged(f, ParseTsv(Contents(inputs, f)))
  {
    assert [f][1..] == [];
  }

  /** The rows of two lists of tables: those of the first list, then those of the second. */
  lemma {:induction false} RowsOfConcat(inputs: Inputs, fs: seq<FileLabel>, gs: seq<FileLabel>)
    ensures RowsOf(inputs, fs + gs) == RowsOf(inputs, fs) + RowsOf(inputs, gs)
    decreases |fs|
  {
    if |fs| == 0 {
      assert fs + gs == gs;
    } else {
      assert (fs + gs)[0] == fs[0];
      assert (fs + gs)[1..] == fs[1..] + gs;
      RowsOfConcat(inputs, fs[1..], gs);
    }
  }

  /** The accumulator after every row of every target table. */
  function Aggregate(inputs: Inputs, num: string -> Option<real>): (s: State)
    ensures Complete(s)
  {
    Run(Init(), RowsOf(inputs, TargetFiles), num)
  }

  /** Without any table file the accumulator stays empty. */
  lemma NoFilesNoData(num: string -> Option<real>)
    ensures Aggregate(Inputs(None, None, None, None, None), num) == Init()
  {
    var inputs := Inputs(None, None, None, None, None);
    forall f: FileLabel ensures Tagged(f, ParseTsv(Contents(inputs, f))) == [] {
    }
    assert RowsOf(inputs, TargetFiles[4..]) == [];
    assert RowsOf(inputs, TargetFiles[3..]) == [];
    assert RowsOf(inputs, TargetFiles[2..]) == [];
    assert RowsOf(inputs, TargetFiles[1..]) == [];
    assert RowsOf(inputs, TargetFiles) == [];
  }

  // ----- A worked row -----

  /** A Skills importance row rating "Mathematics" 4.0 for occupation 17-2141.00 (mechanical engineers). */
  function MathematicsRow(): Row {
    Row(Skills, map[
      "O*NET-SOC Code" := Some("17-2141.00"),
      "Scale ID" := Some("IM"),
      "Element Name" := Some("Mathematics"),
      "Data Value" := Some("4.0")])
  }

  /** The row is accepted as a mathematics element with base score 4/5. */
  lemma MathematicsRowAccepted(num: string -> Option<real>)
    requires num("4.0") == Some(4.0)
    ensures Accept(MathematicsRow(), num) == Some(Element(Skills, "17-2141.00", "Mathematics", Matematica, 4.0, 0.8))
  {
    MathematicsRowFields();
    MathematicsExample();
    AcceptedRow(MathematicsRow(), num, "17-2141.00", "Mathematics", "4.0", 4.0, Matematica);
  }

  /** The fields of the mathematics row. */
  lemma MathematicsRowFields()
    ensures Field(MathematicsRow().rec, "O*NET-SOC Code") == Some("17-2141.00")
    ensures Field(MathematicsRow().rec, "Scale ID") == Some("IM")
    ensures Field(MathematicsRow().rec, NameColumn(MathematicsRow().file)) == Some("Mathematics")
    ensures Field(MathematicsRow().rec, "Data Value") == Some("4.0")
  {
  }

  /** A row passing every test of `considerRecord` gives the element built from its fields. */
  lemma AcceptedRow(row: Row, num: string -> Option<real>, code: string, name: string, t: string, v: real, a: Aptitude)
    requires Field(row.rec, "O*NET-SOC Code") == Some(code) && code != ""
    requires !HasScale(row.file) || Field(row.rec, "Scale ID") == Some("IM")
    requires Field(row.rec, NameColumn(row.file)) == Some(name) && name != ""
    requires Field(row.rec, "Data Value") == Some(t) && num(t) == Some(v)
    requires Classify(name) == Some(a)
    ensures Accept(row, num) == Some(Element(row.file, code, name, a, v, v / Divisor(row.file)))
  {
  }

  /**
    The mathematics row fills the mechanical engineering bucket with 4/5
    from a single value and leaves computer science untouched.
   */
  lemma MathematicsRowCredited(num: string -> Option<real>)
    requires num("4.0") == Some(4.0)
    ensures Get(Consider(Init(), MathematicsRow(), num), EngenhariaMecanica, Matematica) == Bucket(0.8, 1)
    ensures Get(Consider(Init(), MathematicsRow(), num), CienciaComputacao, Matematica) == Empty
  {
    var row := MathematicsRow();
    MathematicsRowAccepted(num);
    MechanicalCode();
    var s := Init();
    assert EngenhariaMecanica in s && CienciaComputacao in s;
    assert Get(s, EngenhariaMecanica, Matematica) == Empty;
    assert Get(s, CienciaComputacao, Matematica) == Empty;
    ConsiderBucket(s, row, num, EngenhariaMecanica, Matematica);
    ConsiderBucket(s, row, num, CienciaComputacao, Matematica);
  }
}
