/** The fixed table of gene modules: their tags, the order of the module list,
    the prime attached to each, and their creation and upkeep costs. */
module Genes {
  import opened Primes

  /** One gene module: offense, defense, strength, autotrophy, hunting range,
      flight range, fertility, camouflage, digestion. */
  datatype Gene = Off | Def | Str | Aut | Hunt | Flee | Kids | Hide | Eat

  /** The module list, in the order the program declares it. */
  const Modules: seq<Gene> := [Off, Def, Str, Aut, Hunt, Flee, Kids, Hide, Eat]

  /** Position of a gene in the module list. */
  function ModuleIndex(g: Gene): (i: nat)
    ensures i < |Modules| && Modules[i] == g
  {
    match g
    case Off => 0
    case Def => 1
    case Str => 2
    case Aut => 3
    case Hunt => 4
    case Flee => 5
    case Kids => 6
    case Hide => 7
    case Eat => 8
  }

  /** The string tag the program stores in genome arrays. */
  function Tag(g: Gene): string
  {
    match g
    case Off => "off"
    case Def => "def"
    case Str => "str"
    case Aut => "aut"
    case Hunt => "hunt"
    case Flee => "flee"
    case Kids => "kids"
    case Hide => "hide"
    case Eat => "eat"
  }

  /** The default ordering of the program's array sort: code-unit by code-unit
      comparison of strings, a proper prefix coming first. */
  predicate StringLess(a: string, b: string)
  {
    if |a| == 0 then |b| > 0
    else if |b| == 0 then false
    else if a[0] != b[0] then a[0] < b[0]
    else StringLess(a[1..], b[1..])
  }

  /** The genes in alphabetical order of their tags. */
  const Alphabetical: seq<Gene> := [Aut, Def, Eat, Flee, Hide, Hunt, Kids, Off, Str]

  /** Position of a gene's tag in alphabetical order. */
  function AlphaRank(g: Gene): (r: nat)
    ensures r < |Alphabetical| && Alphabetical[r] == g
  {
    match g
    case Aut => 0
    case Def => 1
    case Eat => 2
    case Flee => 3
    case Hide => 4
    case Hunt => 5
    case Kids => 6
    case Off => 7
    case Str => 8
  }

  /** Sort key of the canonical genome order (alphabetical by tag). */
  function AlphaKey(g: Gene): real
  {
    AlphaRank(g) as real
  }

  /** Sort key of the module-list order. */
  function ModuleKey(g: Gene): real
  {
    ModuleIndex(g) as real
  }

  /** The fingerprint prime of each gene. */
  function Prime(g: Gene): int
  {
    match g
    case Off => 2
    case Def => 3
    case Str => 5
    case Aut => 7
    case Hunt => 11
    case Flee => 13
    case Kids => 17
    case Hide => 19
    case Eat => 23
  }

  /** The energy a gene represents at birth. */
  function CreationCostOf(g: Gene): real
  {
    match g
    case Off => 2.0
    case Def => 4.0
    case Str => 0.5
    case Aut => 1.0
    case Hunt => 0.5
    case Flee => 0.5
    case Kids => 2.0
    case Hide => 1.0
    case Eat => 1.0
  }

  /** The per-tick energy a gene costs (negative: it earns). */
  function UpkeepOf(g: Gene): real
  {
    match g
    case Off => 0.002
    case Def => 0.002
    case Str => 0.002
    case Aut => -0.008
    case Hunt => 0.0
    case Flee => 0.0
    case Kids => 0.002
    case Hide => 0.0
    case Eat => 0.0
  }

  /** Every module appears once in the module list. */
  lemma ModulesAreAllGenes()
    ensures forall i :: 0 <= i < |Modules| ==> ModuleIndex(Modules[i]) == i
    ensures forall g: Gene :: g in Modules
  {
    forall g: Gene
      ensures g in Modules
    {
      assert Modules[ModuleIndex(g)] == g;
    }
  }

  /** The program's string order is irreflexive. */
  lemma {:induction false} StringLessIrreflexive(a: string)
    ensures !StringLess(a, a)
  {
    if |a| > 0 {
      StringLessIrreflexive(a[1..]);
    }
  }

  /** The program's string order is transitive. */
  lemma {:induction false} StringLessTransitive(a: string, b: string, c: string)
    requires StringLess(a, b) && StringLess(b, c)
    ensures StringLess(a, c)
  {
    if |a| > 0 && |b| > 0 && |c| > 0 && a[0] == b[0] && b[0] == c[0] {
      StringLessTransitive(a[1..], b[1..], c[1..]);
    }
  }

  /** The program's string order is asymmetric. */
  lemma StringLessAsymmetric(a: string, b: string)
    requires StringLess(a, b)
    ensures !StringLess(b, a)
  {
    if StringLess(b, a) {
      StringLessTransitive(a, b, a);
      StringLessIrreflexive(a);
    }
  }

  /** Consecutive genes of the alphabetical list have increasing tags. */
  lemma AlphabeticalIsIncreasing(i: nat)
    requires i + 1 < |Alphabetical|
    ensures StringLess(Tag(Alphabetical[i]), Tag(Alphabetical[i + 1]))
  {
  }

  lemma {:induction false} AlphabeticalRankOrder(i: nat, j: nat)
    requires i < j < |Alphabetical|
    ensures StringLess(Tag(Alphabetical[i]), Tag(Alphabetical[j]))
    decreases j - i
  {
    AlphabeticalIsIncreasing(i);
    if i + 1 < j {
      AlphabeticalRankOrder(i + 1, j);
      StringLessTransitive(Tag(Alphabetical[i]), Tag(Alphabetical[i + 1]), Tag(Alphabetical[j]));
    }
  }

  /** The alphabetical rank orders genes exactly as the program's default sort
      orders their tags, so sorting by rank is sorting the tag strings. */
  lemma AlphaRankIsTagOrder(a: Gene, b: Gene)
    ensures AlphaRank(a) < AlphaRank(b) <==> StringLess(Tag(a), Tag(b))
  {
    if AlphaRank(a) < AlphaRank(b) {
      AlphabeticalRankOrder(AlphaRank(a), AlphaRank(b));
    } else if AlphaRank(b) < AlphaRank(a) {
      AlphabeticalRankOrder(AlphaRank(b), AlphaRank(a));
      StringLessAsymmetric(Tag(b), Tag(a));
    } else {
      StringLessIrreflexive(Tag(a));
    }
  }

  /** Both sort keys tell genes apart. */
  lemma KeysInjective()
    ensures forall a: Gene, b: Gene :: AlphaKey(a) == AlphaKey(b) ==> a == b
    ensures forall a: Gene, b: Gene :: ModuleKey(a) == ModuleKey(b) ==> a == b
  {
  }

  /** Every fingerprint prime is prime. */
  lemma PrimeIsPrime(g: Gene)
    ensures IsPrime(Prime(g))
  {
    match g
    case Off => PrimeByTrialDivision(2);
    case Def => PrimeByTrialDivision(3);
    case Str => PrimeByTrialDivision(5);
    case Aut => PrimeByTrialDivision(7);
    case Hunt => PrimeByTrialDivision(11);
    case Flee => PrimeByTrialDivision(13);
    case Kids => PrimeByTrialDivision(17);
    case Hide =>
      assert NoDivisorIn(19, 16, 19);
      assert NoDivisorIn(19, 12, 19);
      assert NoDivisorIn(19, 8, 19);
      assert NoDivisorIn(19, 4, 19);
      PrimeByTrialDivision(19);
    case Eat =>
      assert NoDivisorIn(23, 16, 23);
      assert NoDivisorIn(23, 9, 23);
      PrimeByTrialDivision(23);
  }

  /** Distinct genes have primes that do not divide one another. */
  lemma PrimesCoprime(g: Gene, h: Gene)
    requires g != h
    ensures !Divides(Prime(h), Prime(g))
  {
  }

  /** The primes grow along the module list. */
  lemma PrimeFollowsModuleOrder(g: Gene, h: Gene)
    ensures ModuleIndex(g) < ModuleIndex(h) <==> Prime(g) < Prime(h)
  {
  }

  /** Every gene costs at least half a unit to create. */
  lemma CreationCostAtLeastHalf(g: Gene)
    ensures CreationCostOf(g) >= 0.5
  {
  }
}
