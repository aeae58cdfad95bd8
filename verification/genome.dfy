/** Genomes: canonical gene sequences, mutation, the prime fingerprint and its
    memoised inverse, and the creation, upkeep and reproduction costs. */
module Genomes {
  import opened Util
  import opened Primes
  import opened Genes

  /** A genome is a sequence of genes; the simulation keeps it in canonical order. */
  type Genome = seq<Gene>

  /** Canonical order: the genes are in alphabetical order of their tags. */
  predicate Canonical(g: Genome)
  {
    SortedBy(g, AlphaKey)
  }

  /** A genome is canonical exactly when sorting it alphabetically leaves it
      as it is. */
  lemma CanonicalIsOwnSort(g: Genome)
    ensures Canonical(g) <==> Sort(g, AlphaKey) == g
  {
    if Canonical(g) {
      KeysInjective();
      SortOfSorted(g, AlphaKey);
    }
  }

  /** Two canonical genomes with the same genes are the same sequence. */
  lemma CanonicalUnique(a: Genome, b: Genome)
    requires Canonical(a) && Canonical(b)
    requires multiset(a) == multiset(b)
    ensures a == b
  {
    KeysInjective();
    SortedUnique(a, b, AlphaKey);
  }

  /** How many times `m` occurs in `g`, counted one gene at a time. */
  function InGenome(g: Genome, m: Gene): (n: nat)
    ensures n == multiset(g)[m]
  {
    if |g| == 0 then 0
    else
      assert g == [g[0]] + g[1..];
      (if g[0] == m then 1 else 0) + InGenome(g[1..], m)
  }

  // ---------------------------------------------------------------------------
  // Mutation

  /** The random choices of one mutation: which gene to remove (if any) and
      which module to append (if any). */
  datatype Mutation = Mutation(removeAt: Option<nat>, add: Option<Gene>)

  const NoMutation: Mutation := Mutation(None, None)

  /** A removal index must point into the genome. */
  predicate Applicable(m: Mutation, g: Genome)
  {
    m.removeAt.Some? ==> m.removeAt.value < |g|
  }

  /** The genes a mutation takes out of `g`. */
  function RemovedGenes(g: Genome, m: Mutation): multiset<Gene>
    requires Applicable(m, g)
  {
    if m.removeAt.Some? then multiset{g[m.removeAt.value]} else multiset{}
  }

  /** The genes a mutation puts in. */
  function AddedGenes(m: Mutation): multiset<Gene>
  {
    if m.add.Some? then multiset{m.add.value} else multiset{}
  }

  /** The copy of `g` with the chosen gene dropped and the chosen module
      appended, before sorting. */
  function Edited(g: Genome, m: Mutation): (r: Genome)
    requires Applicable(m, g)
    ensures multiset(r) == multiset(g) - RemovedGenes(g, m) + AddedGenes(m)
    ensures |r| == |g| - |RemovedGenes(g, m)| + |AddedGenes(m)|
  {
    var kept := if m.removeAt.Some? then Without(g, m.removeAt.value) else g;
    if m.add.Some? then kept + [m.add.value] else kept
  }

  /** Copies `g`, drops the chosen gene, appends the chosen module and sorts. */
  function Mutate(g: Genome, m: Mutation): (r: Genome)
    requires Applicable(m, g)
    ensures Canonical(r)
    ensures multiset(r) == multiset(g) - RemovedGenes(g, m) + AddedGenes(m)
    ensures |r| == |g| - |RemovedGenes(g, m)| + |AddedGenes(m)|
  {
    Sort(Edited(g, m), AlphaKey)
  }

  /** Mutation with no removal and no addition leaves a canonical genome as it is. */
  lemma MutateNothing(g: Genome)
    requires Canonical(g)
    ensures Mutate(g, NoMutation) == g
  {
    CanonicalUnique(Mutate(g, NoMutation), g);
  }

  /** The result of a mutation depends only on the genes of its input, not on their order. */
  lemma MutateIgnoresOrder(a: Genome, b: Genome, add: Option<Gene>)
    requires multiset(a) == multiset(b)
    ensures Mutate(a, Mutation(None, add)) == Mutate(b, Mutation(None, add))
  {
    CanonicalUnique(Mutate(a, Mutation(None, add)), Mutate(b, Mutation(None, add)));
  }

  const RemoveProbability: real := 0.05
  const AddProbability: real := 0.025

  predicate InUnit(r: real)
  {
    0.0 <= r < 1.0
  }

  /** One uniform random number, as `Math.random()` returns it. */
  type UnitDraw = r: real | InUnit(r) witness 0.0

  /** Four uniform draws: removal coin, removal index, addition coin, added module. */
  datatype MutationDraws = MutationDraws(remove: UnitDraw, at: UnitDraw, add: UnitDraw, which: UnitDraw)

  /** `Math.floor(r * n)` for a uniform draw `r`: an index below `n`. */
  function UnitIndex(r: real, n: nat): (i: nat)
    requires InUnit(r) && n > 0
    ensures i < n
    ensures i as real <= r * n as real < i as real + 1.0
  {
    assert r * n as real < n as real;
    var f := (r * n as real).Floor;
    assert f >= 0;
    f
  }

  /** The mutation the draws select for a genome of length `len`. */
  function Choice(len: nat, d: MutationDraws): (m: Mutation)
    ensures m.removeAt.Some? <==> len > 0 && d.remove < RemoveProbability
    ensures m.removeAt.Some? ==> m.removeAt.value < len
    ensures m.add.Some? <==> d.add < AddProbability
  {
    Mutation(
      if len > 0 && d.remove < RemoveProbability then Some(UnitIndex(d.at, len)) else None,
      if d.add < AddProbability then Some(Modules[UnitIndex(d.which, |Modules|)]) else None)
  }

  /** `mutate` with its random numbers made explicit. */
  function MutateDrawn(g: Genome, d: MutationDraws): (r: Genome)
    ensures Canonical(r)
    ensures |g| - 1 <= |r| <= |g| + 1
    ensures |g| == 0 ==> |r| <= 1
  {
    Mutate(g, Choice(|g|, d))
  }

  // ---------------------------------------------------------------------------
  // Fingerprints

  /** The fingerprint: the product of the genes' primes. It is positive, and
      exceeds one exactly when the genome is not empty. */
  function GenomePrime(g: Genome): (p: int)
    ensures p >= 1
    ensures |g| > 0 <==> p >= 2
  {
    PrimeProductBounds(g);
    Prod(g, Prime)
  }

  lemma PrimeAtLeastTwo(g: Gene)
    ensures Prime(g) >= 2
  {
  }

  /** A product of gene primes is positive, and exceeds one exactly when there is a gene. */
  lemma {:induction false} PrimeProductBounds(g: Genome)
    ensures Prod(g, Prime) >= 1
    ensures |g| > 0 <==> Prod(g, Prime) >= 2
  {
    if |g| > 0 {
      PrimeProductBounds(g[1..]);
      PrimeAtLeastTwo(g[0]);
      assert Prod(g, Prime) == Prime(g[0]) * Prod(g[1..], Prime);
      assert Prime(g[0]) * Prod(g[1..], Prime) >= Prime(g[0]) by {
        MulAtLeast(Prod(g[1..], Prime), Prime(g[0]));
      }
    }
  }

  /** The prime of a gene that is absent from `g` does not divide its fingerprint. */
  lemma {:induction false} AbsentPrimeDoesNotDivide(g: Genome, h: Gene)
    requires h !in g
    ensures !Divides(Prime(h), GenomePrime(g))
  {
    PrimeIsPrime(h);
    if |g| == 0 {
      assert GenomePrime(g) == 1;
    } else {
      assert h !in g[1..];
      AbsentPrimeDoesNotDivide(g[1..], h);
      PrimesCoprime(g[0], h);
      Euclid(Prime(h), Prime(g[0]), GenomePrime(g[1..]));
    }
  }

  /** The reverse lookup's loop, from module index `i` on, with `fact` left
      to factor; it stops as soon as `fact` is at most one. */
  function DecodeFrom(i: nat, fact: int): (r: Genome)
    ensures SortedBy(r, ModuleKey)
    ensures forall k :: 0 <= k < |r| ==> ModuleIndex(r[k]) >= i
    ensures fact <= 1 ==> r == []
    decreases |Modules| - i, fact
  {
    if i >= |Modules| || fact <= 1 then []
    else
      var p := Prime(Modules[i]);
      PrimeAtLeastTwo(Modules[i]);
      if fact % p == 0 then
        DivModUnique(fact, p, fact / p, 0);
        assert fact / p >= 1;
        assert fact / p < fact;
        var rest := DecodeFrom(i, fact / p);
        assert ModuleIndex(Modules[i]) == i by { ModulesAreAllGenes(); }
        [Modules[i]] + rest
      else
        DecodeFrom(i + 1, fact)
  }

  /** `genome_of_prime`: the genes whose primes divide `fact`, with their
      multiplicities, in module-list order; nothing for a number of at most one. */
  function GenomeOfPrime(fact: int): (r: Genome)
    ensures SortedBy(r, ModuleKey)
    ensures fact <= 1 ==> r == []
  {
    DecodeFrom(0, fact)
  }

  /** A gene's prime divides a fingerprint exactly when the gene is present;
      taking it out divides the fingerprint by that prime. */
  lemma PresentPrimeDivides(g: Genome, k: nat)
    requires k < |g|
    ensures Divides(Prime(g[k]), GenomePrime(g))
    ensures GenomePrime(g) / Prime(g[k]) == GenomePrime(Without(g, k))
  {
    var p, rest := Prime(g[k]), GenomePrime(Without(g, k));
    ProdWithout(g, k, Prime);
    assert GenomePrime(g) == p * rest;
    assert p * rest == rest * p;
    PrimeAtLeastTwo(g[k]);
    DivModUnique(GenomePrime(g), p, rest, 0);
  }

  /** Decoding, from index `i`, the fingerprint of a genome whose genes all sit
      at or after `i` in the module list gives back the same genes. */
  lemma {:induction false} DecodeFromFingerprint(i: nat, g: Genome)
    requires forall k :: 0 <= k < |g| ==> ModuleIndex(g[k]) >= i
    ensures GenomePrime(g) >= 1
    ensures multiset(DecodeFrom(i, GenomePrime(g))) == multiset(g)
    decreases |Modules| - i, |g|
  {
    if i >= |Modules| {
      assert |g| > 0 ==> ModuleIndex(g[0]) >= i;
    } else if GenomePrime(g) > 1 {
      var gene := Modules[i];
      assert ModuleIndex(gene) == i by { ModulesAreAllGenes(); }
      if gene in g {
        var k :| 0 <= k < |g| && g[k] == gene;
        DecodeTakesPresentGene(i, g, k);
      } else {
        AbsentPrimeDoesNotDivide(g, gene);
        forall k | 0 <= k < |g|
          ensures ModuleIndex(g[k]) >= i + 1
        {
          assert ModuleIndex(g[k]) != ModuleIndex(gene);
        }
        DecodeFromFingerprint(i + 1, g);
      }
    }
  }

  /** The case of `DecodeFromFingerprint` where the gene at index `i` is present. */
  lemma {:induction false} DecodeTakesPresentGene(i: nat, g: Genome, k: nat)
    requires i < |Modules| && k < |g| && g[k] == Modules[i]
    requires forall j :: 0 <= j < |g| ==> ModuleIndex(g[j]) >= i
    ensures GenomePrime(g) >= 1
    ensures multiset(DecodeFrom(i, GenomePrime(g))) == multiset(g)
    decreases |Modules| - i, |g|, 0
  {
    PresentPrimeDivides(g, k);
    var rest := Without(g, k);
    var fact, p := GenomePrime(g), Prime(Modules[i]);
    assert fact > 1 && fact % p == 0 && fact / p == GenomePrime(rest);
    assert forall j :: 0 <= j < |rest| ==> ModuleIndex(rest[j]) >= i;
    DecodeFromFingerprint(i, rest);
    assert DecodeFrom(i, fact) == [Modules[i]] + DecodeFrom(i, GenomePrime(rest));
    assert multiset(g) == multiset{Modules[i]} + multiset(rest);
  }

  /** The fingerprint round trip: decoding a fingerprint lists the genome's genes
      in module-list order. */
  lemma {:induction false} FingerprintRoundTrip(g: Genome)
    ensures GenomePrime(g) >= 1
    ensures GenomeOfPrime(GenomePrime(g)) == Sort(g, ModuleKey)
    ensures multiset(GenomeOfPrime(GenomePrime(g))) == multiset(g)
  {
    DecodeFromFingerprint(0, g);
    KeysInjective();
    SortedUnique(GenomeOfPrime(GenomePrime(g)), Sort(g, ModuleKey), ModuleKey);
  }

  /** Two genomes share a fingerprint exactly when they hold the same genes. */
  lemma FingerprintIdentifiesGenes(a: Genome, b: Genome)
    ensures GenomePrime(a) == GenomePrime(b) <==> multiset(a) == multiset(b)
  {
    if GenomePrime(a) == GenomePrime(b) {
      FingerprintRoundTrip(a);
      FingerprintRoundTrip(b);
    }
    if multiset(a) == multiset(b) {
      ProdPermutation(a, b, Prime);
    }
  }

  /** Canonical genomes are told apart by their fingerprints. */
  lemma FingerprintInjective(a: Genome, b: Genome)
    requires Canonical(a) && Canonical(b)
    requires GenomePrime(a) == GenomePrime(b)
    ensures a == b
  {
    FingerprintIdentifiesGenes(a, b);
    CanonicalUnique(a, b);
  }

  /** The reverse-lookup memo: fingerprints already decoded. */
  type FingerprintCache = map<int, Genome>

  /** Every memoised entry is what decoding would compute. */
  predicate CacheSound(cache: FingerprintCache)
  {
    forall f :: f in cache ==> cache[f] == GenomeOfPrime(f)
  }

  /** `genome_of_prime` with its memo made explicit: returns the genome and the updated memo. */
  function CachedGenomeOfPrime(cache: FingerprintCache, fact: int): (res: (Genome, FingerprintCache))
    requires CacheSound(cache)
    ensures res.0 == GenomeOfPrime(fact)
    ensures CacheSound(res.1)
    ensures fact in res.1 && cache.Keys <= res.1.Keys
    ensures forall f :: f in cache ==> res.1[f] == cache[f]
  {
    if fact in cache then (cache[fact], cache)
    else
      var g := GenomeOfPrime(fact);
      (g, cache[fact := g])
  }

  /** A memoised lookup of a genome's fingerprint yields its genes in module-list order. */
  lemma {:induction false} CachedLookupRoundTrip(cache: FingerprintCache, g: Genome)
    requires CacheSound(cache)
    ensures GenomePrime(g) >= 1
    ensures CachedGenomeOfPrime(cache, GenomePrime(g)).0 == Sort(g, ModuleKey)
  {
    FingerprintRoundTrip(g);
  }

  // ---------------------------------------------------------------------------
  // Costs

  const BirthMultiplier: real := 6.0
  const BaseCreationCost: real := 0.1
  const QuadraticUpkeepScale: real := 0.0001

  /** Sum of the per-gene creation costs. */
  function GeneCostSum(g: Genome): real
  {
    Sum(g, CreationCostOf)
  }

  /** Every gene adds at least half a unit to the creation cost. */
  lemma {:induction false} GeneCostSumAtLeast(g: Genome)
    ensures GeneCostSum(g) >= 0.5 * |g| as real
  {
    if |g| > 0 {
      GeneCostSumAtLeast(g[1..]);
      CreationCostAtLeastHalf(g[0]);
    }
  }

  /** `genome_creation_cost`: the larger of the base cost and the sum of gene costs. */
  function CreationCost(g: Genome): (c: real)
    ensures c >= BaseCreationCost
    ensures c >= GeneCostSum(g)
    ensures c == BaseCreationCost || c == GeneCostSum(g)
  {
    var sum := GeneCostSum(g);
    if sum > BaseCreationCost then sum else BaseCreationCost
  }

  /** The base cost only matters for the empty genome. */
  lemma CreationCostOfNonEmpty(g: Genome)
    ensures |g| > 0 ==> CreationCost(g) == GeneCostSum(g)
    ensures |g| == 0 ==> CreationCost(g) == BaseCreationCost
  {
    GeneCostSumAtLeast(g);
  }

  /** Costs do not depend on gene order. */
  lemma CostsIgnoreOrder(a: Genome, b: Genome)
    requires multiset(a) == multiset(b)
    ensures CreationCost(a) == CreationCost(b)
    ensures UpkeepCost(a) == UpkeepCost(b)
  {
    SumPermutation(a, b, CreationCostOf);
    SumPermutation(a, b, UpkeepOf);
    assert |a| == |multiset(a)| == |multiset(b)| == |b|;
  }

  /** A mutation changes the gene-cost sum by the cost of what it adds less
      the cost of what it removes. */
  lemma MutationCost(g: Genome, m: Mutation)
    requires Applicable(m, g)
    ensures GeneCostSum(Mutate(g, m)) ==
      GeneCostSum(g)
      - (if m.removeAt.Some? then CreationCostOf(g[m.removeAt.value]) else 0.0)
      + (if m.add.Some? then CreationCostOf(m.add.value) else 0.0)
  {
    var kept := if m.removeAt.Some? then Without(g, m.removeAt.value) else g;
    var grown := if m.add.Some? then kept + [m.add.value] else kept;
    if m.removeAt.Some? {
      SumWithout(g, m.removeAt.value, CreationCostOf);
    }
    if m.add.Some? {
      SumAppend(kept, [m.add.value], CreationCostOf);
    }
    SumPermutation(Mutate(g, m), grown, CreationCostOf);
  }

  /** `genome_upkeep_cost`: the squared gene count scaled, plus the per-gene
      upkeeps. Each gene adds at most 0.002 and each autotrophy gene takes away
      0.008, so only autotrophy can make the upkeep an income. */
  function UpkeepCost(g: Genome): (u: real)
    ensures var quadratic := (|g| * |g|) as real * QuadraticUpkeepScale;
      && quadratic - 0.008 * multiset(g)[Aut] as real <= u <= quadratic + 0.002 * |g| as real
      && (u < 0.0 ==> Aut in g)
  {
    UpkeepSumBounds(g);
    (|g| * |g|) as real * QuadraticUpkeepScale + Sum(g, UpkeepOf)
  }

  /** The per-gene upkeeps sum to at most 0.002 a gene and to at least -0.008
      an autotrophy gene. */
  lemma {:induction false} UpkeepSumBounds(g: Genome)
    ensures -0.008 * InGenome(g, Aut) as real <= Sum(g, UpkeepOf) <= 0.002 * |g| as real
  {
    if |g| > 0 {
      UpkeepSumBounds(g[1..]);
    }
  }

  /** `genome_for_kids`: the energy a parent must store before giving birth. */
  function ForKids(g: Genome): (e: real)
    ensures e >= BirthMultiplier * BaseCreationCost
  {
    CreationCost(g) * BirthMultiplier
  }
}
