/**
  The professions of the derivation script and the O*NET-SOC occupation
  codes each of them draws its observations from.
 */
module Occupations {
  import opened Text

  /** The 20 internal professions, in the order of the script's code table. */
  datatype ProfessionId =
    | Administracao | Biologia | CienciaComputacao | Economia | DesignGrafico
    | DesignInteriores | Direito | EducacaoFisica | EngenhariaMecanica | EngenhariaCivil
    | EngenhariaSoftware | Filosofia | Geografia | Historia | Letras
    | Medicina | Musica | Pedagogia | Psicologia | RelInternacionais

  /** The profession's identifier, the key of its entry in the output. */
  function Id(p: ProfessionId): string {
    match p
    case Administracao => "administracao"
    case Biologia => "biologia"
    case CienciaComputacao => "ciencia_computacao"
    case Economia => "economia"
    case DesignGrafico => "design_grafico"
    case DesignInteriores => "design_interiores"
    case Direito => "direito"
    case EducacaoFisica => "educacao_fisica"
    case EngenhariaMecanica => "engenharia_mecanica"
    case EngenhariaCivil => "engenharia_civil"
    case EngenhariaSoftware => "engenharia_software"
    case Filosofia => "filosofia"
    case Geografia => "geografia"
    case Historia => "historia"
    case Letras => "letras"
    case Medicina => "medicina"
    case Musica => "musica"
    case Pedagogia => "pedagogia"
    case Psicologia => "psicologia"
    case RelInternacionais => "rel_internacionais"
  }

  /** Every profession once, in table order. */
  const AllProfessions: seq<ProfessionId> := [
    Administracao, Biologia, CienciaComputacao, Economia, DesignGrafico,
    DesignInteriores, Direito, EducacaoFisica, EngenhariaMecanica, EngenhariaCivil,
    EngenhariaSoftware, Filosofia, Geografia, Historia, Letras,
    Medicina, Musica, Pedagogia, Psicologia, RelInternacionais
  ]

  /** `professionOnetCodes`, one entry per profession in table order. */
  const CodeTable: seq<seq<string>> := [
    ["11-3013", "11-1021"],
    ["19-1029", "19-1021"],
    ["15-1299", "15-1252"],
    ["19-3011", "19-3010"],
    ["27-1024"],
    ["27-1025"],
    ["23-1011", "23-1012"],
    ["27-2022", "27-2023"],
    ["17-2141"],
    ["17-2051"],
    ["15-1252"],
    ["25-1126"],
    ["25-1064"],
    ["25-1125"],
    ["25-1081"],
    ["29-1210", "29-1229"],
    ["27-2042"],
    ["25-2021"],
    ["19-3033"],
    ["19-3099", "11-1031"]
  ]

  /** The occupation codes listed for a profession. */
  function OnetCodes(p: ProfessionId): seq<string> {
    CodeTable[Position(p)]
  }

  /**
    `normalizeCode`: the part of an occupation code before its first '.',
    so that a detailed code such as "11-1011.00" meets its base code.
   */
  function NormalizeCode(code: string): (r: string)
    ensures '.' !in r
    ensures |r| <= |code| && r == code[..|r|]
    ensures |r| < |code| ==> code[|r|] == '.'
    ensures '.' !in code ==> r == code
  {
    Split(code, '.')[0]
  }

  /** The profession's code list with every code normalised. */
  function NormalizedCodes(p: ProfessionId): (r: seq<string>)
    ensures |r| == |OnetCodes(p)|
    ensures forall i :: 0 <= i < |r| ==> r[i] == NormalizeCode(OnetCodes(p)[i])
  {
    seq(|OnetCodes(p)|, i requires 0 <= i < |OnetCodes(p)| => NormalizeCode(OnetCodes(p)[i]))
  }

  /** Profession `p` takes the observations of a row whose occupation code is `occCode`. */
  predicate Claims(p: ProfessionId, occCode: string) {
    NormalizeCode(occCode) in NormalizedCodes(p)
  }

  /** Normalising a normalised code changes nothing. */
  lemma NormalizeIdempotent(code: string)
    ensures NormalizeCode(NormalizeCode(code)) == NormalizeCode(code)
  {
  }

  /**
    The normalised code is exactly the part before the first '.': any code
    `base + "." + tail` with a dot-free `base` normalises to `base`.
   */
  lemma {:induction false} NormalizeStripsSuffix(base: string, tail: string)
    requires '.' !in base
    ensures NormalizeCode(base + "." + tail) == base
  {
    var c := base + "." + tail;
    assert c[|base|] == '.';
    assert c[..|base|] == base;
  }

  /** No listed code has a fractional part, so normalising the table changes nothing. */
  lemma NormalizedTableIsTable(p: ProfessionId)
    ensures NormalizedCodes(p) == OnetCodes(p)
  {
    var codes := OnetCodes(p);
    TableDotFree(Position(p));
    var n := NormalizedCodes(p);
    assert forall i :: 0 <= i < |codes| ==> n[i] == codes[i];
  }

  /** No code of row `k` of the table has a '.'. */
  lemma TableDotFree(k: nat)
    requires k < |CodeTable|
    ensures forall i :: 0 <= i < |CodeTable[k]| ==> '.' !in CodeTable[k][i]
  {
  }

  /** A detailed code whose base is listed for `p` is claimed by `p`. */
  lemma {:induction false} ClaimsDetailed(p: ProfessionId, base: string, tail: string)
    requires '.' !in base && base in OnetCodes(p)
    ensures Claims(p, base + "." + tail)
  {
    NormalizeStripsSuffix(base, tail);
    var i :| 0 <= i < |OnetCodes(p)| && OnetCodes(p)[i] == base;
    assert NormalizedCodes(p)[i] == base;
  }

  /** A detailed code whose base is not listed for `p`, where no listed code has a '.', is not claimed by `p`. */
  lemma {:induction false} DisclaimsDetailed(p: ProfessionId, base: string, tail: string)
    requires '.' !in base && base !in OnetCodes(p)
    requires forall i :: 0 <= i < |OnetCodes(p)| ==> '.' !in OnetCodes(p)[i]
    ensures !Claims(p, base + "." + tail)
  {
    NormalizeStripsSuffix(base, tail);
    var n := NormalizedCodes(p);
    assert forall i :: 0 <= i < |n| ==> n[i] == OnetCodes(p)[i];
  }

  /**
    The code 15-1252 is listed for both computer science and software
    engineering, so one detailed row feeds both professions.
   */
  lemma SharedSoftwareCode()
    ensures NormalizeCode("15-1252.00") == "15-1252"
    ensures Claims(CienciaComputacao, "15-1252.00")
    ensures Claims(EngenhariaSoftware, "15-1252.00")
  {
    assert "15-1252" + "." + "00" == "15-1252.00";
    NormalizeStripsSuffix("15-1252", "00");
    assert OnetCodes(CienciaComputacao) == CodeTable[2] == ["15-1299", "15-1252"];
    assert OnetCodes(EngenhariaSoftware) == CodeTable[10] == ["15-1252"];
    ClaimsDetailed(CienciaComputacao, "15-1252", "00");
    ClaimsDetailed(EngenhariaSoftware, "15-1252", "00");
  }

  /** The position of a profession in `AllProfessions`. */
  function Position(p: ProfessionId): (i: nat)
    ensures i < |AllProfessions| && AllProfessions[i] == p
  {
    match p
    case Administracao => 0
    case Biologia => 1
    case CienciaComputacao => 2
    case Economia => 3
    case DesignGrafico => 4
    case DesignInteriores => 5
    case Direito => 6
    case EducacaoFisica => 7
    case EngenhariaMecanica => 8
    case EngenhariaCivil => 9
    case EngenhariaSoftware => 10
    case Filosofia => 11
    case Geografia => 12
    case Historia => 13
    case Letras => 14
    case Medicina => 15
    case Musica => 16
    case Pedagogia => 17
    case Psicologia => 18
    case RelInternacionais => 19
  }

  /** The profession at position `i` of `AllProfessions`, written out case by case. */
  function ProfessionAt(i: nat): ProfessionId
    requires i < 20
  {
    match i
    case 0 => Administracao
    case 1 => Biologia
    case 2 => CienciaComputacao
    case 3 => Economia
    case 4 => DesignGrafico
    case 5 => DesignInteriores
    case 6 => Direito
    case 7 => EducacaoFisica
    case 8 => EngenhariaMecanica
    case 9 => EngenhariaCivil
    case 10 => EngenhariaSoftware
    case 11 => Filosofia
    case 12 => Geografia
    case 13 => Historia
    case 14 => Letras
    case 15 => Medicina
    case 16 => Musica
    case 17 => Pedagogia
    case 18 => Psicologia
    case _ => RelInternacionais
  }

  /** Every profession sits at its own position. */
  lemma AtPosition(p: ProfessionId)
    ensures ProfessionAt(Position(p)) == p
  {
  }

  /** `ProfessionAt` agrees with the table order of `AllProfessions`. */
  lemma ProfessionAtIndex(i: nat)
    requires i < |AllProfessions|
    ensures ProfessionAt(i) == AllProfessions[i]
  {
    PositionOfIndex(i);
    AtPosition(AllProfessions[i]);
  }

  /** The professions are exactly the 20 table entries, each once. */
  lemma EachProfessionOnce()
    ensures |AllProfessions| == 20
    ensures forall p: ProfessionId :: p in AllProfessions
    ensures forall i, j :: 0 <= i < j < |AllProfessions| ==> AllProfessions[i] != AllProfessions[j]
  {
    forall p: ProfessionId ensures p in AllProfessions {
      assert AllProfessions[Position(p)] == p;
    }
    forall i, j | 0 <= i < j < |AllProfessions| ensures AllProfessions[i] != AllProfessions[j] {
      PositionOfIndex(i);
      PositionOfIndex(j);
    }
  }

  /** `Position` inverts indexing into `AllProfessions`. */
  lemma PositionOfIndex(i: int)
    requires 0 <= i < |AllProfessions|
    ensures Position(AllProfessions[i]) == i
  {
  }

  /** A detailed mechanical engineering code feeds that profession only, not computer science. */
  lemma MechanicalCode()
    ensures Claims(EngenhariaMecanica, "17-2141.00")
    ensures !Claims(CienciaComputacao, "17-2141.00")
  {
    assert "17-2141" + "." + "00" == "17-2141.00";
    MechanicalBase();
    ClaimsDetailed(EngenhariaMecanica, "17-2141", "00");
    DisclaimsDetailed(CienciaComputacao, "17-2141", "00");
  }

  /** Where the base code 17-2141 is listed and where it is not. */
  lemma MechanicalBase()
    ensures "17-2141" in OnetCodes(EngenhariaMecanica)
    ensures "17-2141" !in OnetCodes(CienciaComputacao)
    ensures forall i :: 0 <= i < |OnetCodes(CienciaComputacao)| ==> '.' !in OnetCodes(CienciaComputacao)[i]
  {
    assert OnetCodes(EngenhariaMecanica) == CodeTable[8] == ["17-2141"];
    assert OnetCodes(CienciaComputacao) == CodeTable[2] == ["15-1299", "15-1252"];
  }
}
