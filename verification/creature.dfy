/** A creature: its genome, the traits derived from it once at conception,
    and the state that changes as it lives (position, energy, the egg and
    suffocation counters, whether it is alive and visible to collisions). */
module Creatures {
  import opened Util
  import opened Genes
  import opened Genomes
  import opened Geometry

  /** Steps to hatch for a creature of creation cost one. */
  const Maturity: real := 50.0
  /** Suffocation level at which a creature is taken out of the world. */
  const SuffocationLimit: nat := 80
  /** Energy taken per unit of offense in excess of the victim's defense. */
  const BiteSize: real := 1.0
  /** Energy a corpse loses per step. */
  const CarrionDecay: real := 0.05

  /** The transcendental functions the simulation uses: the Euclidean norm
      `sqrt(dx * dx + dy * dy)` and `x |-> 0.6 ^ x`. */
  datatype Maths = Maths(norm: (real, real) -> real, pow06: real -> real)

  /** Along an axis the Euclidean norm is the absolute value. */
  ghost predicate NormOnAxis(maths: Maths)
  {
    forall x :: maths.norm(x, 0.0) == Abs(x)
  }

  datatype Creature = Creature(
    pos: Point,
    genome: Genome,
    prime: int,
    suffocate: nat,
    egg: real,
    cost: real,
    energy: real,
    upkeep: real,
    alive: bool,
    offense: int,
    defense: int,
    speed: real,
    hunt: real,
    flee: real,
    hide: real,
    digest: real,
    sight: real,
    kids: nat,
    forkids: real,
    collide: bool)

  function Max(a: real, b: real): real
  {
    if a >= b then a else b
  }

  // Traits derived from a genome, one function per trait.

  function OffenseOf(g: Genome): int
  {
    InGenome(g, Off) * (1 + InGenome(g, Str))
  }

  function DefenseOf(g: Genome): int
  {
    InGenome(g, Def) * (1 + InGenome(g, Str))
  }

  /** Pixels per step: strength counts most, then hunting and flight, then offense. */
  function SpeedOf(g: Genome): real
  {
    (InGenome(g, Str) as real
      + 0.75 * InGenome(g, Hunt) as real
      + 0.75 * InGenome(g, Flee) as real
      + 0.5 * InGenome(g, Off) as real
      + 0.25) * (Radius / 8.0)
  }

  /** Range at which victims are noticed. */
  function HuntOf(g: Genome): real
  {
    20.0 + Radius + InGenome(g, Hunt) as real * 50.0
  }

  /** Range at which threats are noticed. */
  function FleeOf(g: Genome): real
  {
    3.0 * Radius + InGenome(g, Flee) as real * 50.0
  }

  /** How much closer others must be to notice this creature. */
  function HideOf(g: Genome): real
  {
    InGenome(g, Hide) as real * 40.0
  }

  /** Share of eaten energy that is kept. */
  function DigestOf(g: Genome, maths: Maths): real
  {
    1.0 - maths.pow06(1.0 + InGenome(g, Eat) as real - 0.5 * InGenome(g, Aut) as real)
  }

  /** Children born at once. */
  function KidsOf(g: Genome): nat
  {
    1 + InGenome(g, Kids)
  }

  /** The fields the constructor derives from the genome agree with it; a
      corpse has lost its offense and defense. */
  predicate Derived(c: Creature, maths: Maths)
  {
    var g := c.genome;
    && c.prime == GenomePrime(g)
    && c.cost == CreationCost(g)
    && c.upkeep == UpkeepCost(g)
    && c.forkids == ForKids(g)
    && c.speed == SpeedOf(g)
    && c.hunt == HuntOf(g)
    && c.flee == FleeOf(g)
    && c.hide == HideOf(g)
    && c.digest == DigestOf(g, maths)
    && c.sight == Max(FleeOf(g), HuntOf(g))
    && c.kids == KidsOf(g)
    && c.offense == (if c.alive then OffenseOf(g) else 0)
    && c.defense == (if c.alive then DefenseOf(g) else 0)
  }

  /** The invariant every creature keeps: its genome is canonical, the derived
      fields agree with it, the living have genes and the egg countdown is
      within its range. The position is free: `move` can leave the world. */
  predicate WellFormed(c: Creature, maths: Maths)
  {
    && Canonical(c.genome)
    && Derived(c, maths)
    && (c.alive ==> |c.genome| > 0)
    && 0.0 <= c.egg <= Maturity
  }

  /** Every well-formed creature has a positive creation cost. */
  lemma CostPositive(c: Creature, maths: Maths)
    requires WellFormed(c, maths)
    ensures c.cost > 0.0
  {
  }

  /** `die`: the creature becomes a corpse without offense or defense;
      nothing else about it changes. */
  function Die(c: Creature): (r: Creature)
    ensures !r.alive && r.offense == 0 && r.defense == 0
    ensures r.(alive := c.alive, offense := c.offense, defense := c.defense) == c
  {
    c.(alive := false, offense := 0, defense := 0)
  }

  /** Dying keeps the invariant. */
  lemma DieWellFormed(c: Creature, maths: Maths)
    requires WellFormed(c, maths)
    ensures WellFormed(Die(c), maths)
  {
  }

  /** The `creature` constructor: a child of a parent with genome `g`, placed
      at `at` and mutated by the draws `d`. The child keeps the energy its
      parent set aside for the unmutated genome, less its own creation cost.
      A child whose mutated genome is empty is stillborn. */
  function Create(g: Genome, at: Point, d: MutationDraws, maths: Maths): (r: Creature)
    ensures WellFormed(r, maths)
    ensures multiset(r.genome) == multiset(MutateDrawn(g, d))
    ensures r.energy + r.cost == ForKids(g)
    ensures r.egg == Maturity && r.suffocate == 0 && !r.collide
    ensures r.alive <==> |r.genome| > 0
    ensures InWorld(r.pos) && (InWorld(at) ==> r.pos == at)
  {
    var full := CreationCost(g) * BirthMultiplier;
    var child := MutateDrawn(g, d);
    var born := Creature(
      Fit(at), child, GenomePrime(child), 0, Maturity,
      CreationCost(child), full - CreationCost(child), UpkeepCost(child), true,
      OffenseOf(child), DefenseOf(child), SpeedOf(child),
      HuntOf(child), FleeOf(child), HideOf(child), DigestOf(child, maths),
      Max(FleeOf(child), HuntOf(child)), KidsOf(child), ForKids(child), false);
    if |child| == 0 then Die(born) else born
  }

  /** Litter size and sight of a well-formed creature: one child plus one per
      fertility gene, and the larger of the two detection ranges. */
  lemma SensingTraits(c: Creature, maths: Maths)
    requires Derived(c, maths)
    ensures c.kids == 1 + multiset(c.genome)[Kids]
    ensures c.sight >= c.hunt && c.sight >= c.flee
    ensures c.sight == c.hunt || c.sight == c.flee
  {
  }

  /** `key`: the species fingerprint of a living creature, nothing for a corpse. */
  function Key(c: Creature): (k: Option<int>)
    ensures k.Some? <==> c.alive
  {
    if c.alive then Some(c.prime) else None
  }

  /** Two living well-formed creatures share a key exactly when they have the
      same genome: the key identifies the species. */
  lemma KeyIdentifiesSpecies(a: Creature, b: Creature, maths: Maths)
    requires WellFormed(a, maths) && WellFormed(b, maths)
    requires a.alive && b.alive
    ensures Key(a) == Key(b) <==> a.genome == b.genome
  {
    if Key(a) == Key(b) {
      FingerprintInjective(a.genome, b.genome);
    }
  }
}
