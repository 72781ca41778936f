/**
  The element classifier of the derivation script: an ordered list of
  case-insensitive patterns, each naming one internal aptitude. The first
  rule whose pattern matches an O*NET element name decides its aptitude.
 */
module Classifier {
  import opened Wrappers
  import opened Text

  /** The 22 internal aptitudes. */
  datatype Aptitude =
    | Logica | Matematica | Interpretacao | Escrita | Espacial | Detalhes
    | Memoria | Velocidade | Problemas | Criatividade | CoordFina | Artistica
    | Musica | Esportes | Natureza | Tecnologia | Organizacao | Lideranca
    | Didatica | Empreendedorismo | Curiosidade | Comunicacao

  /** The identifier the application uses for each aptitude. */
  function Id(a: Aptitude): string {
    match a
    case Logica => "logica"
    case Matematica => "matematica"
    case Interpretacao => "interpretacao"
    case Escrita => "escrita"
    case Espacial => "espacial"
    case Detalhes => "detalhes"
    case Memoria => "memoria"
    case Velocidade => "velocidade"
    case Problemas => "problemas"
    case Criatividade => "criatividade"
    case CoordFina => "coord_fina"
    case Artistica => "artistica"
    case Musica => "musica"
    case Esportes => "esportes"
    case Natureza => "natureza"
    case Tecnologia => "tecnologia"
    case Organizacao => "organizacao"
    case Lideranca => "lideranca"
    case Didatica => "didatica"
    case Empreendedorismo => "empreendedorismo"
    case Curiosidade => "curiosidade"
    case Comunicacao => "comunicacao"
  }

  /**
    Every aptitude once, in the order of the script's rule list. The script
    has exactly one rule per aptitude, so this is also the rule order, and
    the order of the aptitude set it builds from the rules.
   */
  const AllAptitudes: seq<Aptitude> := [
    Logica, Matematica, Interpretacao, Escrita, Espacial, Detalhes,
    Memoria, Velocidade, Problemas, Criatividade, CoordFina, Artistica,
    Musica, Esportes, Natureza, Tecnologia, Organizacao, Lideranca,
    Didatica, Empreendedorismo, Curiosidade, Comunicacao
  ]

  /** The position of an aptitude in `AllAptitudes`. */
  function Index(a: Aptitude): (i: nat)
    ensures i < |AllAptitudes| && AllAptitudes[i] == a
  {
    match a
    case Logica => 0
    case Matematica => 1
    case Interpretacao => 2
    case Escrita => 3
    case Espacial => 4
    case Detalhes => 5
    case Memoria => 6
    case Velocidade => 7
    case Problemas => 8
    case Criatividade => 9
    case CoordFina => 10
    case Artistica => 11
    case Musica => 12
    case Esportes => 13
    case Natureza => 14
    case Tecnologia => 15
    case Organizacao => 16
    case Lideranca => 17
    case Didatica => 18
    case Empreendedorismo => 19
    case Curiosidade => 20
    case Comunicacao => 21
  }

  /**
    One rule of `elementMapping`. Every pattern of the script is an
    unanchored alternation of literal words with the case-insensitive flag;
    it is kept here as the list of its alternatives, all in lower case.
   */
  datatype Rule = Rule(literals: seq<string>, aptitude: Aptitude)

  /** The alternatives of each pattern of `elementMapping`. */
  const LogicaLiterals: seq<string> := ["reasoning", "logic", "problem", "analysis", "analytical", "deductive", "inductive"]
  const MatematicaLiterals: seq<string> := ["mathemat", "number facility", "quantitative"]
  const InterpretacaoLiterals: seq<string> := ["written comprehension", "reading", "comprehension", "text", "interpretation"]
  const EscritaLiterals: seq<string> := ["written expression", "writing", "composition"]
  const EspacialLiterals: seq<string> := ["spatial", "visualization", "visual", "orient"]
  const DetalhesLiterals: seq<string> := ["attention", "detail", "focus", "order", "selective attention"]
  const MemoriaLiterals: seq<string> := ["memory", "memorization", "recall"]
  const VelocidadeLiterals: seq<string> := ["speed", "processing speed", "perceptual speed", "reaction time"]
  const ProblemasLiterals: seq<string> := ["problem solving", "solve", "troubleshoot", "critical thinking"]
  const CriatividadeLiterals: seq<string> := ["creativ", "originality", "innovation", "fluency of ideas"]
  const CoordFinaLiterals: seq<string> := ["finger", "manual dexterity", "arm-hand steadiness", "wrist-finger speed", "fine motor"]
  const ArtisticaLiterals: seq<string> := ["artistic", "design", "drawing", "graphic", "fine arts", "aesthetics", "visual arts"]
  const MusicaLiterals: seq<string> := ["music", "rhythm", "auditory attention", "hearing sensitivity", "sound", "musical", "audio"]
  const EsportesLiterals: seq<string> := ["physical", "stamina", "fitness", "body coordination", "gross body", "athletic", "sports", "strength", "endurance"]
  const NaturezaLiterals: seq<string> := ["nature", "biology", "environment", "ecology", "realistic", "natural", "outdoor", "plant", "animal"]
  const TecnologiaLiterals: seq<string> := ["technology", "computers", "programming", "software", "systems analysis", "technical", "digital", "hardware"]
  const OrganizacaoLiterals: seq<string> := ["organizing", "planning", "time management", "coordination", "systematization"]
  const LiderancaLiterals: seq<string> := ["leadership", "influencing", "persuasion", "supervision", "management", "guidance"]
  const DidaticaLiterals: seq<string> := ["teaching", "instructing", "training", "education", "pedagogy", "mentoring"]
  const EmpreendedorismoLiterals: seq<string> := ["initiative", "entrepreneur", "starting", "enterprising", "independence", "self-directed", "business", "sales", "marketing", "management", "administration", "negotiat", "supervis", "lead", "direct"]
  const CuriosidadeLiterals: seq<string> := ["curious", "learning", "updating knowledge", "research", "investigative", "exploration", "inquisitive"]
  const ComunicacaoLiterals: seq<string> := ["speaking", "oral expression", "communication", "oral comprehension", "social", "interpersonal", "verbal"]

  /** `elementMapping`, in the script's order. */
  const Rules: seq<Rule> := [
    Rule(LogicaLiterals, Logica),
    Rule(MatematicaLiterals, Matematica),
    Rule(InterpretacaoLiterals, Interpretacao),
    Rule(EscritaLiterals, Escrita),
    Rule(EspacialLiterals, Espacial),
    Rule(DetalhesLiterals, Detalhes),
    Rule(MemoriaLiterals, Memoria),
    Rule(VelocidadeLiterals, Velocidade),
    Rule(ProblemasLiterals, Problemas),
    Rule(CriatividadeLiterals, Criatividade),
    Rule(CoordFinaLiterals, CoordFina),
    Rule(ArtisticaLiterals, Artistica),
    Rule(MusicaLiterals, Musica),
    Rule(EsportesLiterals, Esportes),
    Rule(NaturezaLiterals, Natureza),
    Rule(TecnologiaLiterals, Tecnologia),
    Rule(OrganizacaoLiterals, Organizacao),
    Rule(LiderancaLiterals, Lideranca),
    Rule(DidaticaLiterals, Didatica),
    Rule(EmpreendedorismoLiterals, Empreendedorismo),
    Rule(CuriosidadeLiterals, Curiosidade),
    Rule(ComunicacaoLiterals, Comunicacao)
  ]

  /** Some literal of `lits` at index `j` or later occurs in `s`; the meaning is `AnyLiteralFromMeaning`. */
  function AnyLiteralFrom(s: string, lits: seq<string>, j: nat): bool
    decreases |lits| - j
  {
    if j >= |lits| then false else Contains(s, lits[j]) || AnyLiteralFrom(s, lits, j + 1)
  }

  /** The rule's pattern matches the (already lower-cased) name `s`. */
  predicate RuleMatches(rule: Rule, s: string) {
    AnyLiteralFrom(s, rule.literals, 0)
  }

  /** Rule `i` of `rules` matches `s` and no earlier rule does. */
  ghost predicate IsFirstMatch(rules: seq<Rule>, s: string, i: int) {
    && 0 <= i < |rules|
    && RuleMatches(rules[i], s)
    && forall j :: 0 <= j < i ==> !RuleMatches(rules[j], s)
  }

  /** No two rules select the same aptitude. */
  ghost predicate DistinctAptitudes(rules: seq<Rule>) {
    forall i, j :: 0 <= i < j < |rules| ==> rules[i].aptitude != rules[j].aptitude
  }

  /** The index of the first rule at index `i` or later that matches `s`, none being earlier. */
  function FirstMatchFrom(rules: seq<Rule>, s: string, i: nat): (r: Option<nat>)
    requires forall j :: 0 <= j < i && j < |rules| ==> !RuleMatches(rules[j], s)
    ensures r.None? <==> forall j :: 0 <= j < |rules| ==> !RuleMatches(rules[j], s)
    ensures r.Some? ==> IsFirstMatch(rules, s, r.value)
    decreases |rules| - i
  {
    if i >= |rules| then None
    else if RuleMatches(rules[i], s) then Some(i)
    else FirstMatchFrom(rules, s, i + 1)
  }

  /** The aptitude of the first rule of `rules` matching the lower-cased `name`, or none. */
  function FirstMatch(rules: seq<Rule>, name: string): (r: Option<Aptitude>)
    ensures r.None? <==> forall i :: 0 <= i < |rules| ==> !RuleMatches(rules[i], ToLowerAscii(name))
    ensures r.Some? ==> exists i :: IsFirstMatch(rules, ToLowerAscii(name), i) && rules[i].aptitude == r.value
  {
    match FirstMatchFrom(rules, ToLowerAscii(name), 0)
    case None => None
    case Some(i) => Some(rules[i].aptitude)
  }

  /**
    `mapElementToAptitude`: the aptitude of the first rule of the script's
    list whose pattern matches the element name case-insensitively, or none.
   */
  function Classify(name: string): (r: Option<Aptitude>)
    ensures r.None? <==> forall i :: 0 <= i < |Rules| ==> !RuleMatches(Rules[i], ToLowerAscii(name))
    ensures r.Some? ==> exists i :: IsFirstMatch(Rules, ToLowerAscii(name), i) && Rules[i].aptitude == r.value
  {
    FirstMatch(Rules, name)
  }

  // ----- Facts about the vocabulary -----

  /** `Index` inverts indexing into `AllAptitudes`. */
  lemma IndexOfPosition(i: int)
    requires 0 <= i < |AllAptitudes|
    ensures Index(AllAptitudes[i]) == i
  {
  }

  /** The aptitude of rule `i` sits at position `i` of `AllAptitudes`. */
  lemma IndexOfRule(i: int)
    requires 0 <= i < |Rules|
    ensures Index(Rules[i].aptitude) == i
  {
  }

  /**
    The rule list names all 22 aptitudes, each exactly once and in the order
    of `AllAptitudes`; so the classifier's result is always one of them.
   */
  lemma EachAptitudeHasOneRule()
    ensures |Rules| == |AllAptitudes| == 22
    ensures forall i :: 0 <= i < |Rules| ==> Rules[i].aptitude == AllAptitudes[i]
    ensures DistinctAptitudes(Rules)
    ensures forall a: Aptitude :: a in AllAptitudes
  {
    forall i | 0 <= i < |Rules| ensures Rules[i].aptitude == AllAptitudes[i] {
      IndexOfRule(i);
      IndexOfPosition(i);
    }
    forall i, j | 0 <= i < j < |Rules| ensures Rules[i].aptitude != Rules[j].aptitude {
      IndexOfRule(i);
      IndexOfRule(j);
    }
    EveryAptitudeListed();
  }

  /** Distinct aptitudes have distinct identifiers. */
  lemma IdInjective(a: Aptitude, b: Aptitude)
    ensures Id(a) == Id(b) ==> a == b
  {
  }

  /** `AllAptitudes` lists every aptitude, each once. */
  lemma EveryAptitudeListed()
    ensures forall a: Aptitude :: a in AllAptitudes
    ensures forall i, j :: 0 <= i < j < |AllAptitudes| ==> AllAptitudes[i] != AllAptitudes[j]
  {
    forall a: Aptitude ensures a in AllAptitudes {
      assert AllAptitudes[Index(a)] == a;
    }
    forall i, j | 0 <= i < j < |AllAptitudes| ensures AllAptitudes[i] != AllAptitudes[j] {
      IndexOfPosition(i);
      IndexOfPosition(j);
    }
  }

  // ----- The meaning of matching -----

  lemma {:induction false} AnyLiteralFromMeaning(s: string, lits: seq<string>, j: nat)
    ensures AnyLiteralFrom(s, lits, j) <==> exists k :: j <= k < |lits| && Contains(s, lits[k])
    decreases |lits| - j
  {
    if j < |lits| {
      AnyLiteralFromMeaning(s, lits, j + 1);
    }
  }

  /** A rule matches exactly when one of its literals is a substring of the name. */
  lemma RuleMatchesMeaning(rule: Rule, s: string)
    ensures RuleMatches(rule, s) <==> exists k :: 0 <= k < |rule.literals| && Contains(s, rule.literals[k])
  {
    AnyLiteralFromMeaning(s, rule.literals, 0);
  }

  /** `lit` occurs in `name` at offset `j` when ASCII letters are compared without case. */
  ghost predicate OccursIgnoringCaseAt(name: string, lit: string, j: int) {
    0 <= j && j + |lit| <= |name| && forall m :: 0 <= m < |lit| ==> LowerChar(name[j + m]) == LowerChar(lit[m])
  }

  /**
    A literal with no upper-case ASCII letter occurs in the lower-cased name
    exactly when it occurs in the name with ASCII letters compared without
    case, which is how the script's `/i` patterns treat their ASCII words.
   */
  lemma LowerCasedSearchIgnoresCase(name: string, lit: string)
    requires forall m :: 0 <= m < |lit| ==> !('A' <= lit[m] <= 'Z')
    ensures Contains(ToLowerAscii(name), lit) <==> exists j :: OccursIgnoringCaseAt(name, lit, j)
  {
    var s := ToLowerAscii(name);
    ContainsMeaning(s, lit);
    if Contains(s, lit) {
      var j: nat :| OccursAt(s, lit, j);
      forall m | 0 <= m < |lit| ensures LowerChar(name[j + m]) == LowerChar(lit[m]) {
        assert s[j..j + |lit|][m] == s[j + m];
      }
      assert OccursIgnoringCaseAt(name, lit, j);
    }
    if exists j :: OccursIgnoringCaseAt(name, lit, j) {
      var j :| OccursIgnoringCaseAt(name, lit, j);
      assert s[j..j + |lit|] == lit;
      assert OccursAt(s, lit, j);
    }
  }

  // ----- First match wins -----

  /** In any rule list, the first matching rule decides. */
  lemma FirstMatchDecides(rules: seq<Rule>, name: string, i: int)
    requires IsFirstMatch(rules, ToLowerAscii(name), i)
    ensures FirstMatch(rules, name) == Some(rules[i].aptitude)
  {
    var s := ToLowerAscii(name);
    var k :| IsFirstMatch(rules, s, k) && rules[k].aptitude == FirstMatch(rules, name).value;
  }

  /**
    In a rule list with one rule per aptitude, a later rule `j` never
    decides for a name that an earlier rule `i` already matches.
   */
  lemma EarlierRuleWinsIn(rules: seq<Rule>, name: string, i: int, j: int)
    requires DistinctAptitudes(rules)
    requires 0 <= i < j < |rules|
    requires RuleMatches(rules[i], ToLowerAscii(name))
    ensures FirstMatch(rules, name).Some?
    ensures FirstMatch(rules, name) != Some(rules[j].aptitude)
  {
    var s := ToLowerAscii(name);
    var r := FirstMatch(rules, name);
    assert r.Some? by {
      assert RuleMatches(rules[i], s);
    }
    var k :| IsFirstMatch(rules, s, k) && rules[k].aptitude == r.value;
    assert k <= i;
    assert rules[k].aptitude != rules[j].aptitude;
  }

  /**
    The script's classifier: when rule `i` matches, the aptitude of a later
    rule `j` is never the result.
   */
  lemma EarlierRuleWins(name: string, i: int, j: int)
    requires 0 <= i < j < |Rules|
    requires RuleMatches(Rules[i], ToLowerAscii(name))
    ensures Classify(name).Some?
    ensures Classify(name) != Some(Rules[j].aptitude)
  {
    EachAptitudeHasOneRule();
    EarlierRuleWinsIn(Rules, name, i, j);
  }

  // ----- Consequences of the script's rule order -----

  /** Literal `k` of rule `i` occurring in the lower-cased name makes rule `i` match. */
  lemma LiteralMatches(name: string, i: int, k: int)
    requires 0 <= i < |Rules| && 0 <= k < |Rules[i].literals|
    requires Contains(ToLowerAscii(name), Rules[i].literals[k])
    ensures RuleMatches(Rules[i], ToLowerAscii(name))
  {
    RuleMatchesMeaning(Rules[i], ToLowerAscii(name));
  }

  /**
    The first rule's bare word "problem" shadows the "problem solving" rule:
    every name mentioning a problem is counted as logic, never as problem solving.
   */
  lemma ProblemMeansLogic(name: string)
    requires Contains(ToLowerAscii(name), "problem")
    ensures Classify(name) == Some(Logica)
  {
    var s := ToLowerAscii(name);
    assert Rules[0].literals[2] == "problem";
    LiteralMatches(name, 0, 2);
    assert IsFirstMatch(Rules, s, 0);
    assert Rules[0].aptitude == Logica;
    FirstMatchDecides(Rules, name, 0);
  }

  /**
    "management" is listed under both leadership and entrepreneurship; the
    leadership rule comes first, so such a name never counts for entrepreneurship.
   */
  lemma ManagementNeverEntrepreneurship(name: string)
    requires Contains(ToLowerAscii(name), "management")
    ensures Classify(name).Some?
    ensures Classify(name) != Some(Empreendedorismo)
  {
    assert Rules[17].literals[4] == "management";
    assert Rules[19].aptitude == Empreendedorismo;
    LiteralMatches(name, 17, 4);
    EarlierRuleWins(name, 17, 19);
  }

  /**
    "auditory attention" is one of the music rule's literals, but the
    details rule matches "attention" first: such names never count for music.
   */
  lemma AttentionNeverMusic(name: string)
    requires Contains(ToLowerAscii(name), "attention")
    ensures Classify(name).Some?
    ensures Classify(name) != Some(Musica)
  {
    assert Rules[5].literals[0] == "attention";
    assert Rules[12].aptitude == Musica;
    LiteralMatches(name, 5, 0);
    EarlierRuleWins(name, 5, 12);
  }

  /** Likewise "visual arts" is caught by the spatial rule's "visual" before the artistic rule. */
  lemma VisualNeverArtistic(name: string)
    requires Contains(ToLowerAscii(name), "visual")
    ensures Classify(name).Some?
    ensures Classify(name) != Some(Artistica)
  {
    assert Rules[4].literals[2] == "visual";
    assert Rules[11].aptitude == Artistica;
    LiteralMatches(name, 4, 2);
    EarlierRuleWins(name, 4, 11);
  }

  /** The first four alternatives of the first rule do not occur in "mathematics". */
  lemma MathematicsAvoidsFirstLiterals()
    ensures !Contains("mathematics", "reasoning") && !Contains("mathematics", "logic")
    ensures !Contains("mathematics", "problem") && !Contains("mathematics", "analysis")
  {
    NotContainsByChar("mathematics", "reasoning", 'r');
    NotContainsByChar("mathematics", "logic", 'l');
    NotContainsByChar("mathematics", "problem", 'p');
    NotContainsByChar("mathematics", "analysis", 'n');
  }

  /** The remaining alternatives of the first rule do not occur in "mathematics". */
  lemma MathematicsAvoidsLastLiterals()
    ensures !Contains("mathematics", "analytical") && !Contains("mathematics", "deductive")
    ensures !Contains("mathematics", "inductive")
  {
    NotContainsByChar("mathematics", "analytical", 'n');
    NotContainsByChar("mathematics", "deductive", 'd');
    NotContainsByChar("mathematics", "inductive", 'n');
  }

  /** No alternative of the first rule occurs in "mathematics". */
  lemma MathematicsIsNotLogic()
    ensures !RuleMatches(Rules[0], "mathematics")
  {
    MathematicsAvoidsFirstLiterals();
    MathematicsAvoidsLastLiterals();
    assert Rules[0].literals == LogicaLiterals;
    RuleMatchesMeaning(Rules[0], "mathematics");
  }

  /** "mathematics" contains the first alternative of the second rule. */
  lemma MathematicsIsMathematics()
    ensures RuleMatches(Rules[1], "mathematics")
  {
    assert OccursAt("mathematics", "mathemat", 0);
    ContainsAt("mathematics", "mathemat", 0);
    assert Rules[1].literals[0] == "mathemat";
    RuleMatchesMeaning(Rules[1], "mathematics");
  }

  /** A name that the first rule misses and the second rule matches gets the second rule's aptitude. */
  lemma SecondRuleDecides(name: string)
    requires !RuleMatches(Rules[0], ToLowerAscii(name)) && RuleMatches(Rules[1], ToLowerAscii(name))
    ensures Classify(name) == Some(Rules[1].aptitude)
  {
    assert IsFirstMatch(Rules, ToLowerAscii(name), 1);
    FirstMatchDecides(Rules, name, 1);
  }

  /** The O*NET element "Mathematics" is classified as mathematics (case ignored). */
  lemma MathematicsExample()
    ensures Classify("Mathematics") == Some(Matematica)
  {
    assert ToLowerAscii("Mathematics") == "mathematics";
    MathematicsIsNotLogic();
    MathematicsIsMathematics();
    SecondRuleDecides("Mathematics");
    assert Rules[1].aptitude == Matematica;
  }
}
