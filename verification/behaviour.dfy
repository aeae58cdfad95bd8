/** One simulation step of one creature: recovering from suffocation,
    hatching, decaying as a corpse, starving, and otherwise scanning its
    neighbours, eating, moving, crowding and giving birth. The neighbours
    are supplied in the order the collision scan visits them, each with its
    distance; the step reports the creature's new state, the neighbours' new
    energies, whether to take it out of the world, and the children it bears. */
module Behaviour {
  import opened Util
  import opened Genes
  import opened Genomes
  import opened Geometry
  import opened Creatures

  /** The kill time assumed when no damage can be done. */
  const KillTimeSentinel: real := 1000000.0
  /** The initial "best so far" target distance. */
  const BestDistanceStart: real := 999999999.0
  /** Distance at which creatures touch: two radii. */
  const ContactDistance: real := 2.0 * Radius

  /** A creature met by the collision scan, with its distance. */
  datatype Neighbour = Neighbour(body: Creature, distance: real)

  /** Where a newborn is put and the random numbers of its mutation. */
  datatype Birth = Birth(at: Point, draws: MutationDraws)

  // ---------------------------------------------------------------------------
  // How one creature sees another

  predicate IsEgg(o: Creature)
  {
    o.egg != 0.0
  }

  predicate SameSpecies(c: Creature, o: Creature)
  {
    c.prime == o.prime && o.alive
  }

  /** Steps `c` needs to kill `o`. */
  function KillIn(c: Creature, o: Creature): real
  {
    if c.offense > o.defense then o.energy / (c.offense - o.defense) as real else KillTimeSentinel
  }

  /** Steps `o` needs to kill `c` while `c` holds `energy`. */
  function KilledIn(c: Creature, energy: real, o: Creature): real
  {
    if c.defense < o.offense then energy / (o.offense - c.defense) as real else KillTimeSentinel
  }

  /** What `c`, holding `energy`, makes of neighbour `nb`: prey it can hunt,
      a threat to flee from, or neither; never both. */
  datatype Stance = Stance(hunt: bool, flee: bool)

  function Assess(c: Creature, energy: real, nb: Neighbour): (s: Stance)
    ensures !(s.hunt && s.flee)
    ensures s.hunt ==> !SameSpecies(c, nb.body) && nb.distance < c.hunt - nb.body.hide
    ensures s.flee ==> !SameSpecies(c, nb.body) && nb.distance < c.flee - nb.body.hide
  {
    var o := nb.body;
    var killIn := KillIn(c, o);
    var killedIn := KilledIn(c, energy, o);
    var same := SameSpecies(c, o);
    Stance(
      killIn < killedIn && !same && nb.distance < c.hunt - o.hide,
      killIn > killedIn && !same && nb.distance < c.flee - o.hide)
  }

  /** `c` bites neighbour `nb`: touching, a hatched non-relative whose defense
      is below `c`'s offense. */
  predicate Bites(c: Creature, nb: Neighbour)
  {
    !IsEgg(nb.body) && nb.distance <= ContactDistance
    && c.offense > nb.body.defense && !SameSpecies(c, nb.body)
  }

  /** Energy `c` takes from `nb` in one bite (zero when it does not bite). */
  function BiteOf(c: Creature, nb: Neighbour): real
  {
    if Bites(c, nb) then BiteSize * (c.offense - nb.body.defense) as real else 0.0
  }

  /** `nb` counts towards `c`'s crowding: a hatched, living creature in contact. */
  predicate Contact(nb: Neighbour)
  {
    !IsEgg(nb.body) && nb.distance <= ContactDistance && nb.body.alive
  }

  /** `nb` pushes `c` away while `c` has no target: a visible, living, hatched
      creature at a positive distance. */
  predicate Repels(c: Creature, nb: Neighbour)
  {
    !IsEgg(nb.body) && nb.distance < c.flee - nb.body.hide && nb.distance > 0.0 && nb.body.alive
  }

  /** The push of `nb` on `c`, along each axis, falling with the squared distance. */
  function PushX(c: Creature, nb: Neighbour): real
  {
    if Repels(c, nb) then (c.pos.x - nb.body.pos.x) / (nb.distance * nb.distance) else 0.0
  }

  function PushY(c: Creature, nb: Neighbour): real
  {
    if Repels(c, nb) then (c.pos.y - nb.body.pos.y) / (nb.distance * nb.distance) else 0.0
  }

  // ---------------------------------------------------------------------------
  // The neighbour scan

  /** The state the scan carries from neighbour to neighbour. */
  datatype Scan = Scan(
    energy: real,
    flee: bool,
    best: real,
    target: Option<nat>,
    eating: bool,
    evade: Point,
    contacts: nat,
    others: seq<real>)

  function ScanStart(c: Creature): Scan
  {
    Scan(c.energy, true, BestDistanceStart, None, false, Point(0.0, 0.0), 0, [])
  }

  /** The callback the collision scan calls on the neighbour at index `i`. */
  function Visit(c: Creature, acc: Scan, nb: Neighbour, i: nat): Scan
  {
    var o := nb.body;
    if IsEgg(o) then acc.(others := acc.others + [o.energy])
    else
      var stance := Assess(c, acc.energy, nb);
      var better := (stance.hunt || stance.flee) && acc.best > nb.distance;
      var target := if better then Some(i) else acc.target;
      var push := if target.None? && Repels(c, nb)
        then Point(acc.evade.x + PushX(c, nb), acc.evade.y + PushY(c, nb))
        else acc.evade;
      var bites := Bites(c, nb);
      Scan(
        if bites then acc.energy + c.digest * BiteOf(c, nb) else acc.energy,
        if better then stance.flee else acc.flee,
        if better then nb.distance else acc.best,
        target,
        acc.eating || bites,
        push,
        if Contact(nb) then acc.contacts + 1 else acc.contacts,
        acc.others + [if bites then o.energy - BiteOf(c, nb) else o.energy])
  }

  /** The scan after visiting the first `n` neighbours. */
  function ScanPrefix(c: Creature, nbrs: seq<Neighbour>, n: nat): Scan
    requires n <= |nbrs|
  {
    if n == 0 then ScanStart(c) else Visit(c, ScanPrefix(c, nbrs, n - 1), nbrs[n - 1], n - 1)
  }

  /** The energy `c` gains from one neighbour: the digested share of its bite. */
  function Gain(c: Creature): Neighbour -> real
  {
    nb => c.digest * BiteOf(c, nb)
  }

  /** `c`'s energy before visiting neighbour `k`: its own plus the digested
      share of every bite taken from the earlier neighbours. */
  function EnergyBefore(c: Creature, nbrs: seq<Neighbour>, k: nat): real
    requires k <= |nbrs|
  {
    c.energy + Sum(nbrs[..k], Gain(c))
  }

  /** Neighbour `k` could become the target: prey or threat, seen with the
      energy `c` holds when it gets there, and nearer than the initial bound. */
  predicate Candidate(c: Creature, nbrs: seq<Neighbour>, k: nat)
    requires k < |nbrs|
  {
    var s := Assess(c, EnergyBefore(c, nbrs, k), nbrs[k]);
    !IsEgg(nbrs[k].body) && (s.hunt || s.flee) && nbrs[k].distance < BestDistanceStart
  }

  lemma SumSnoc<T>(s: seq<T>, k: nat, f: T -> real)
    requires k < |s|
    ensures Sum(s[..k + 1], f) == Sum(s[..k], f) + f(s[k])
  {
    assert s[..k + 1] == s[..k] + [s[k]];
    SumAppend(s[..k], [s[k]], f);
  }

  /** What visiting one neighbour changes, stated with the per-neighbour
      definitions above. */
  lemma VisitEffect(c: Creature, acc: Scan, nb: Neighbour, i: nat)
    ensures var s := Visit(c, acc, nb, i);
      && s.energy == acc.energy + c.digest * BiteOf(c, nb)
      && s.others == acc.others + [nb.body.energy - BiteOf(c, nb)]
      && s.eating == (acc.eating || Bites(c, nb))
      && s.contacts == acc.contacts + (if Contact(nb) then 1 else 0)
      && (acc.target.Some? ==> s.target.Some?)
      && (s.target.None? ==> s.evade == Point(acc.evade.x + PushX(c, nb), acc.evade.y + PushY(c, nb)))
  {
  }

  /** The scan's energy: every bite adds the digested share of what it takes. */
  lemma {:induction false} ScanEnergy(c: Creature, nbrs: seq<Neighbour>, n: nat)
    requires n <= |nbrs|
    ensures ScanPrefix(c, nbrs, n).energy == EnergyBefore(c, nbrs, n)
  {
    if n > 0 {
      ScanEnergy(c, nbrs, n - 1);
      ScanEnergyStep(c, nbrs, n);
      SumSnoc(nbrs, n - 1, Gain(c));
    } else {
      assert nbrs[..0] == [];
    }
  }

  lemma ScanEnergyStep(c: Creature, nbrs: seq<Neighbour>, n: nat)
    requires 0 < n <= |nbrs|
    ensures ScanPrefix(c, nbrs, n).energy == ScanPrefix(c, nbrs, n - 1).energy + Gain(c)(nbrs[n - 1])
  {
    VisitEffect(c, ScanPrefix(c, nbrs, n - 1), nbrs[n - 1], n - 1);
  }

  /** The neighbours' energies after the scan: each loses what `c` bites off it. */
  lemma {:induction false} ScanOthers(c: Creature, nbrs: seq<Neighbour>, n: nat)
    requires n <= |nbrs|
    ensures |ScanPrefix(c, nbrs, n).others| == n
    ensures forall j :: 0 <= j < n ==>
      ScanPrefix(c, nbrs, n).others[j] == nbrs[j].body.energy - BiteOf(c, nbrs[j])
  {
    if n > 0 {
      ScanOthers(c, nbrs, n - 1);
      VisitEffect(c, ScanPrefix(c, nbrs, n - 1), nbrs[n - 1], n - 1);
    }
  }

  /** `c` is eating exactly when it bites one of the neighbours. */
  lemma {:induction false} ScanEating(c: Creature, nbrs: seq<Neighbour>, n: nat)
    requires n <= |nbrs|
    ensures ScanPrefix(c, nbrs, n).eating <==> exists j :: 0 <= j < n && Bites(c, nbrs[j])
  {
    if n > 0 {
      ScanEating(c, nbrs, n - 1);
      VisitEffect(c, ScanPrefix(c, nbrs, n - 1), nbrs[n - 1], n - 1);
    }
  }

  /** The crowding count is the number of neighbours in contact. */
  lemma {:induction false} ScanContacts(c: Creature, nbrs: seq<Neighbour>, n: nat)
    requires n <= |nbrs|
    ensures ScanPrefix(c, nbrs, n).contacts == |Filter(nbrs[..n], Contact)|
  {
    if n > 0 {
      ScanContacts(c, nbrs, n - 1);
      VisitEffect(c, ScanPrefix(c, nbrs, n - 1), nbrs[n - 1], n - 1);
      assert nbrs[..n][..n - 1] == nbrs[..n - 1];
    }
  }

  /** How visiting one neighbour updates the choice of target. */
  lemma VisitChoice(c: Creature, acc: Scan, nb: Neighbour, i: nat)
    ensures var s := Visit(c, acc, nb, i);
      var st := Assess(c, acc.energy, nb);
      var better := !IsEgg(nb.body) && (st.hunt || st.flee) && acc.best > nb.distance;
      && s.target == (if better then Some(i) else acc.target)
      && s.best == (if better then nb.distance else acc.best)
      && s.flee == (if better then st.flee else acc.flee)
  {
  }

  /** The target is the nearest candidate, the earliest one among equals;
      there is none exactly when no neighbour is a candidate. The flee flag
      says whether the target is a threat. */
  lemma {:induction false} ScanTarget(c: Creature, nbrs: seq<Neighbour>, n: nat)
    requires n <= |nbrs|
    ensures var s := ScanPrefix(c, nbrs, n);
      && (s.target.None? <==> forall k :: 0 <= k < n ==> !Candidate(c, nbrs, k))
      && (s.target.None? ==> s.best == BestDistanceStart && s.flee)
      && (s.target.Some? ==>
            var j := s.target.value;
            && j < n && Candidate(c, nbrs, j)
            && s.best == nbrs[j].distance
            && s.flee == Assess(c, EnergyBefore(c, nbrs, j), nbrs[j]).flee
            && (forall k :: 0 <= k < j && Candidate(c, nbrs, k) ==> nbrs[k].distance > nbrs[j].distance)
            && (forall k :: j < k < n && Candidate(c, nbrs, k) ==> nbrs[k].distance >= nbrs[j].distance))
  {
    if n > 0 {
      var i := n - 1;
      var nb := nbrs[i];
      var acc := ScanPrefix(c, nbrs, i);
      var s := ScanPrefix(c, nbrs, n);
      ScanTarget(c, nbrs, i);
      ScanEnergy(c, nbrs, i);
      VisitChoice(c, acc, nb, i);
      assert s == Visit(c, acc, nb, i);
      var st := Assess(c, acc.energy, nb);
      assert Candidate(c, nbrs, i) <==> !IsEgg(nb.body) && (st.hunt || st.flee) && nb.distance < BestDistanceStart;
      var better := !IsEgg(nb.body) && (st.hunt || st.flee) && acc.best > nb.distance;
      if acc.target.None? {
        assert better <==> Candidate(c, nbrs, i);
      } else {
        var j := acc.target.value;
        if better {
          assert s.target == Some(i);
          forall k | 0 <= k < i && Candidate(c, nbrs, k)
            ensures nbrs[k].distance > nb.distance
          {
            if k < j {
              assert nbrs[k].distance > nbrs[j].distance;
            } else if k > j {
              assert nbrs[k].distance >= nbrs[j].distance;
            }
          }
        } else {
          assert s.target == Some(j);
          assert Candidate(c, nbrs, i) ==> nb.distance >= nbrs[j].distance;
        }
      }
    }
  }

  /** Without a target, the evasion vector sums the pushes of all neighbours. */
  lemma {:induction false} ScanEvade(c: Creature, nbrs: seq<Neighbour>, n: nat)
    requires n <= |nbrs|
    ensures ScanPrefix(c, nbrs, n).target.None? ==>
      ScanPrefix(c, nbrs, n).evade == Point(Sum(nbrs[..n], PushXOf(c)), Sum(nbrs[..n], PushYOf(c)))
  {
    if n > 0 {
      var acc := ScanPrefix(c, nbrs, n - 1);
      ScanEvade(c, nbrs, n - 1);
      VisitEffect(c, acc, nbrs[n - 1], n - 1);
      SumSnoc(nbrs, n - 1, PushXOf(c));
      SumSnoc(nbrs, n - 1, PushYOf(c));
    }
  }

  function PushXOf(c: Creature): Neighbour -> real
  {
    nb => PushX(c, nb)
  }

  function PushYOf(c: Creature): Neighbour -> real
  {
    nb => PushY(c, nb)
  }

  // ---------------------------------------------------------------------------
  // The step

  /** What a step produces: the creature's new state, the new energies of the
      neighbours (in scan order), whether the creature is removed from the
      thing list, and its newborn children. */
  datatype StepResult = StepResult(self: Creature, others: seq<real>, remove: bool, children: seq<Creature>)

  function Energies(nbrs: seq<Neighbour>): (e: seq<real>)
    ensures |e| == |nbrs|
    ensures forall j :: 0 <= j < |nbrs| ==> e[j] == nbrs[j].body.energy
  {
    seq(|nbrs|, j requires 0 <= j < |nbrs| => nbrs[j].body.energy)
  }

  /** Which branch of the step a creature takes, decided from its state
      before the step. */
  datatype Phase = Asphyxiated | Hatching | Carrion | Starving | Active

  function PhaseOf(c: Creature): Phase
  {
    if c.suffocate >= SuffocationLimit then Asphyxiated
    else if c.egg > 0.0 then Hatching
    else if !c.alive then Carrion
    else if c.energy - c.upkeep < 0.0 then Starving
    else Active
  }

  /** The suffocation counter after the slow recovery of one step. */
  function Recovered(c: Creature): nat
  {
    if c.suffocate > 0 then c.suffocate - 1 else 0
  }

  /** The creature as it enters the interaction phase: not yet visible,
      recovered a little, and having paid its upkeep. */
  function Prepared(c: Creature): Creature
  {
    c.(collide := false, suffocate := Recovered(c), energy := c.energy - c.upkeep)
  }

  /** The destination of the evasion move: the evasion vector plus the pushes
      away from the walls (quadratic within a tenth of the world from an edge),
      scaled to the creature's speed. A vector too short to normalise is
      used as it is. */
  function EvadeTarget(c: Creature, evade: Point, maths: Maths): Point
  {
    var tooLeft := Width * 0.1 - c.pos.x;
    var tooRight := c.pos.x - Width * 0.9;
    var tooUp := Height * 0.1 - c.pos.y;
    var tooDown := c.pos.y - Height * 0.9;
    var ex := evade.x
      + (if tooLeft > 0.0 then 0.00001 * tooLeft * tooLeft else 0.0)
      - (if tooRight > 0.0 then 0.00001 * tooRight * tooRight else 0.0);
    var ey := evade.y
      + (if tooUp > 0.0 then 0.00001 * tooUp * tooUp else 0.0)
      - (if tooDown > 0.0 then 0.00001 * tooDown * tooDown else 0.0);
    var d0 := maths.norm(ex, ey);
    var d := if d0 < 0.01 then 1.0 else d0;
    Point(ex * c.speed / d + c.pos.x, ey * c.speed / d + c.pos.y)
  }

  /** The `kids` children of a parent with genome `g`, each placed and mutated
      by its own birth. */
  function Children(g: Genome, kids: nat, births: nat -> Birth, maths: Maths): (r: seq<Creature>)
    ensures |r| == kids
    ensures forall i :: 0 <= i < kids ==> r[i] == Create(g, births(i).at, births(i).draws, maths)
  {
    seq(kids, i requires 0 <= i < kids => Create(g, births(i).at, births(i).draws, maths))
  }

  /** Where the creature heads after the scan: towards (or away from) its
      target, or along its evasion vector when it has none. */
  function Destination(p: Creature, s: Scan, nbrs: seq<Neighbour>, maths: Maths): Point
  {
    if s.target.Some? && s.target.value < |nbrs| then nbrs[s.target.value].body.pos
    else EvadeTarget(p, s.evade, maths)
  }

  /** The speed of the move after the scan: negative when fleeing from the target. */
  function SpeedAfter(p: Creature, s: Scan): real
  {
    if s.target.Some? && s.flee then -p.speed else p.speed
  }

  /** The distance from the creature to its destination. */
  function DistanceTo(p: Creature, target: Point, maths: Maths): real
  {
    maths.norm(target.x - p.pos.x, target.y - p.pos.y)
  }

  /** What the creature does once the scan `s` is complete: move with `move`
      unless eating, crowd, and give birth when fat enough. */
  function Settle(p: Creature, s: Scan, nbrs: seq<Neighbour>, births: nat -> Birth, maths: Maths): StepResult
  {
    var target := Destination(p, s, nbrs, maths);
    var pos := if s.eating then p.pos
      else Move(p.pos, target, SpeedAfter(p, s), DistanceTo(p, target, maths));
    Outcome(p, s, pos, births, maths)
  }

  /** The outcome of settling at `pos`: crowding, visibility, and birth when
      the energy exceeds the threshold. */
  function Outcome(p: Creature, s: Scan, pos: Point, births: nat -> Birth, maths: Maths): StepResult
  {
    var suffocate := if !s.eating && s.contacts > 1 then p.suffocate + 2 else p.suffocate;
    var birth := s.energy > p.forkids;
    StepResult(
      p.(pos := pos, suffocate := suffocate, collide := true,
         energy := if birth then s.energy - p.forkids else s.energy),
      s.others,
      false,
      if birth then Children(p.genome, p.kids, births, maths) else [])
  }

  /** `Settle` with the corrected `MoveInside` in place of `move`, keeping the
      promise of `move`'s comment that a creature never leaves the world. It
      differs from `Settle` in the position only, and only when `Settle`
      would land outside the world. */
  function SettleInside(p: Creature, s: Scan, nbrs: seq<Neighbour>, births: nat -> Birth, maths: Maths): (r: StepResult)
    ensures InWorld(p.pos) ==> InWorld(r.self.pos)
    ensures var w := Settle(p, s, nbrs, births, maths);
      && r == w.(self := w.self.(pos := r.self.pos))
      && (InWorld(p.pos) && InWorld(w.self.pos) ==> r == w)
  {
    var target := Destination(p, s, nbrs, maths);
    var speed := SpeedAfter(p, s);
    var d := DistanceTo(p, target, maths);
    var pos := if s.eating then p.pos else MoveInside(p.pos, target, speed, d);
    assert !s.eating && InWorld(p.pos) && InWorld(Move(p.pos, target, speed, d)) ==> pos == Move(p.pos, target, speed, d);
    Outcome(p, s, pos, births, maths)
  }

  /** With `move` as written, a creature inside the world leaves it only by
      landing exactly on a destination outside the world that is nearer than
      its speed, and never while eating. */
  lemma SettleLeavesOnlyByLanding(p: Creature, s: Scan, nbrs: seq<Neighbour>, births: nat -> Birth, maths: Maths)
    requires InWorld(p.pos)
    ensures var r := Settle(p, s, nbrs, births, maths);
      var t := Destination(p, s, nbrs, maths);
      InWorld(r.self.pos) || (!s.eating && r.self.pos == t && !InWorld(t)
                              && SpeedAfter(p, s) > DistanceTo(p, t, maths))
  {
  }

  /** The speed and flight range of a creature whose genome is one flight gene. */
  lemma FleeGeneTraits()
    ensures SpeedOf([Flee]) == 0.625 && FleeOf([Flee]) == 65.0
  {
    assert InGenome([Flee], Flee) == 1;
    assert InGenome([Flee], Str) == 0;
    assert InGenome([Flee], Hunt) == 0;
    assert InGenome([Flee], Off) == 0;
  }

  /** The step as written can take a creature out of the world. A flight-gene
      creature on the left edge, with a relative 16 to its right, is pushed
      left by 1/16 while the wall pushes it right by 0.05625. The evasion
      vector is then shorter than 0.01, so it is not normalised, and `move`
      lands on the destination 0.0039 to the left, outside the world. */
  lemma StepCanLeaveWorld(c: Creature, o: Creature, births: nat -> Birth, maths: Maths)
    requires NormOnAxis(maths)
    requires c.pos == Point(5.0, 300.0) && c.speed == SpeedOf([Flee]) && c.flee == FleeOf([Flee])
    requires c.alive && c.egg == 0.0 && c.suffocate == 0 && c.cost > 0.0
    requires 0.0 <= c.energy - c.upkeep <= c.forkids
    requires o.pos == Point(21.0, 300.0) && o.prime == c.prime && o.alive && o.egg == 0.0 && o.hide == 0.0
    ensures InWorld(c.pos)
    ensures Step(c, [Neighbour(o, 16.0)], births, maths).self.pos == Point(4.99609375, 300.0)
    ensures !InWorld(Step(c, [Neighbour(o, 16.0)], births, maths).self.pos)
  {
    FleeGeneTraits();
    var nbrs := [Neighbour(o, 16.0)];
    var p := Prepared(c);
    ActiveIsInteract(c, nbrs, births, maths);
    var s := ScanPrefix(p, nbrs, 1);
    assert ScanPrefix(p, nbrs, 0) == ScanStart(p);
    assert s == Visit(p, ScanStart(p), nbrs[0], 0);
    assert PushX(p, nbrs[0]) == -0.0625;
    assert s.target.None? && !s.eating && s.energy <= p.forkids;
    assert s.evade == Point(-0.0625, 0.0);
    assert maths.norm(-0.00625, 0.0) == 0.00625;
    var t := Destination(p, s, nbrs, maths);
    assert t == Point(4.99609375, 300.0);
    assert maths.norm(t.x - p.pos.x, t.y - p.pos.y) == 0.00390625;
  }

  /** The interaction phase of a creature that has paid its upkeep: scan the
      neighbours, then settle. */
  function Interact(p: Creature, nbrs: seq<Neighbour>, births: nat -> Birth, maths: Maths): StepResult
  {
    Settle(p, ScanPrefix(p, nbrs, |nbrs|), nbrs, births, maths)
  }

  /** `step`: one tick of creature `c`, which sees `nbrs`. */
  function Step(c: Creature, nbrs: seq<Neighbour>, births: nat -> Birth, maths: Maths): (r: StepResult)
    requires c.cost > 0.0
    ensures |r.others| == |nbrs|
    ensures r.self.genome == c.genome && r.self.prime == c.prime && r.self.cost == c.cost
    ensures r.remove ==> r.children == [] && r.others == Energies(nbrs)
  {
    var c1 := c.(collide := false);
    if c1.suffocate != 0 && c1.suffocate >= SuffocationLimit then
      StepResult(c1.(suffocate := c1.suffocate - 1), Energies(nbrs), true, [])
    else
      var c2 := c1.(suffocate := Recovered(c1));
      if c2.egg > 0.0 then
        var egg := c2.egg - 1.0 / c2.cost;
        StepResult(c2.(egg := if egg > 0.0 then egg else 0.0), Energies(nbrs), false, [])
      else if !c2.alive then
        var c3 := c2.(energy := c2.energy - CarrionDecay);
        if c3.energy + c3.cost < 0.0 then StepResult(c3, Energies(nbrs), true, [])
        else StepResult(c3.(collide := true), Energies(nbrs), false, [])
      else
        var c3 := c2.(energy := c2.energy - c2.upkeep);
        if c3.energy < 0.0 then StepResult(Die(c3), Energies(nbrs), false, [])
        else
          ScanOthers(c3, nbrs, |nbrs|);
          Interact(c3, nbrs, births, maths)
  }

  /** The step's outcome by phase: a creature is removed only when it
      has suffocated or when its corpse is used up; only an active creature
      touches its neighbours or gives birth; a creature becomes visible to
      collisions exactly when it is an active creature or a lasting corpse. */
  lemma StepPhases(c: Creature, nbrs: seq<Neighbour>, births: nat -> Birth, maths: Maths)
    requires c.cost > 0.0
    ensures var r := Step(c, nbrs, births, maths);
      && (r.remove <==> PhaseOf(c) == Asphyxiated
                        || (PhaseOf(c) == Carrion && c.energy - CarrionDecay + c.cost < 0.0))
      && (PhaseOf(c) != Active ==> r.others == Energies(nbrs) && r.children == [])
      && (r.self.collide <==> PhaseOf(c) == Active || (PhaseOf(c) == Carrion && !r.remove))
  {
  }

  /** A suffocated creature is removed, one suffocation level lower
      and out of collisions; nothing else changes. */
  lemma AsphyxiatedStep(c: Creature, nbrs: seq<Neighbour>, births: nat -> Birth, maths: Maths)
    requires c.cost > 0.0
    requires PhaseOf(c) == Asphyxiated
    ensures var r := Step(c, nbrs, births, maths);
      && r.remove && r.children == [] && r.others == Energies(nbrs)
      && r.self.suffocate == c.suffocate - 1 && !r.self.collide
      && r.self.(suffocate := c.suffocate, collide := c.collide) == c
  {
  }

  /** An egg only counts down, by the inverse of its creation cost and never
      below zero, and recovers from suffocation; nothing else changes. */
  lemma HatchingStep(c: Creature, nbrs: seq<Neighbour>, births: nat -> Birth, maths: Maths)
    requires c.cost > 0.0
    requires PhaseOf(c) == Hatching
    ensures var r := Step(c, nbrs, births, maths);
      && !r.remove && r.children == [] && !r.self.collide
      && r.self.egg == Max(0.0, c.egg - 1.0 / c.cost)
      && r.self.suffocate == Recovered(c)
      && r.self.(egg := c.egg, suffocate := c.suffocate, collide := c.collide) == c
  {
  }

  /** A corpse loses the carrion decay each step and is removed once its
      energy and cost together fall below zero. */
  lemma CarrionStep(c: Creature, nbrs: seq<Neighbour>, births: nat -> Birth, maths: Maths)
    requires c.cost > 0.0
    requires PhaseOf(c) == Carrion
    ensures var r := Step(c, nbrs, births, maths);
      && r.self.energy == c.energy - CarrionDecay
      && (r.remove <==> r.self.energy + c.cost < 0.0)
      && !r.self.alive
      && r.self.(energy := c.energy, suffocate := c.suffocate, collide := c.collide) == c
  {
  }

  /** A creature whose upkeep exhausts its energy dies but is not removed from the
      thing list. */
  lemma StarvingStep(c: Creature, nbrs: seq<Neighbour>, births: nat -> Birth, maths: Maths)
    requires c.cost > 0.0
    requires PhaseOf(c) == Starving
    ensures var r := Step(c, nbrs, births, maths);
      && !r.remove && !r.self.alive && r.self.offense == 0 && r.self.defense == 0
      && r.self.energy == c.energy - c.upkeep < 0.0
      && r.self == Die(Prepared(c))
  {
  }

  /** What settling does with the outcome of a scan. */
  lemma SettleResult(p: Creature, s: Scan, nbrs: seq<Neighbour>, births: nat -> Birth, maths: Maths)
    ensures var r := Settle(p, s, nbrs, births, maths);
      && !r.remove && r.self.collide
      && r.others == s.others
      && (s.eating ==> r.self.pos == p.pos)
      && r.self.suffocate == p.suffocate + (if !s.eating && s.contacts > 1 then 2 else 0)
      && r.self.energy == (if s.energy > p.forkids then s.energy - p.forkids else s.energy)
      && r.self == p.(pos := r.self.pos, suffocate := r.self.suffocate, collide := true, energy := r.self.energy)
      && r.children == (if s.energy > p.forkids then Children(p.genome, p.kids, births, maths) else [])
  {
  }

  lemma InteractResult(p: Creature, nbrs: seq<Neighbour>, births: nat -> Birth, maths: Maths)
    ensures var r := Interact(p, nbrs, births, maths);
      var s := ScanPrefix(p, nbrs, |nbrs|);
      && !r.remove && r.self.collide
      && r.others == s.others
      && (s.eating ==> r.self.pos == p.pos)
      && r.self.suffocate == p.suffocate + (if !s.eating && s.contacts > 1 then 2 else 0)
      && r.self.energy == (if s.energy > p.forkids then s.energy - p.forkids else s.energy)
      && r.self == p.(pos := r.self.pos, suffocate := r.self.suffocate, collide := true, energy := r.self.energy)
      && r.children == (if s.energy > p.forkids then Children(p.genome, p.kids, births, maths) else [])
  {
    SettleResult(p, ScanPrefix(p, nbrs, |nbrs|), nbrs, births, maths);
  }

  /** An active creature's step is the interaction phase of the prepared creature. */
  lemma ActiveIsInteract(c: Creature, nbrs: seq<Neighbour>, births: nat -> Birth, maths: Maths)
    requires c.cost > 0.0
    requires PhaseOf(c) == Active
    ensures Step(c, nbrs, births, maths) == Interact(Prepared(c), nbrs, births, maths)
    ensures Prepared(c).energy >= 0.0 && Prepared(c).alive
  {
  }

  /** In the interaction phase each neighbour loses exactly what `c` bites off
      it, and `c` stays where it is while it eats. */
  lemma ActiveBites(c: Creature, nbrs: seq<Neighbour>, births: nat -> Birth, maths: Maths)
    requires c.cost > 0.0
    requires PhaseOf(c) == Active
    ensures var r := Step(c, nbrs, births, maths);
      && !r.remove && r.self.collide && r.self.alive
      && (forall j :: 0 <= j < |nbrs| ==> r.others[j] == nbrs[j].body.energy - BiteOf(c, nbrs[j]))
      && ((exists j :: 0 <= j < |nbrs| && Bites(c, nbrs[j])) ==> r.self.pos == c.pos)
  {
    var p := Prepared(c);
    ActiveIsInteract(c, nbrs, births, maths);
    InteractResult(p, nbrs, births, maths);
    ScanOthers(p, nbrs, |nbrs|);
    ScanEating(p, nbrs, |nbrs|);
    SameBites(c, p, nbrs);
  }

  /** Biting depends only on the biter's offense and species. */
  lemma SameBites(c: Creature, p: Creature, nbrs: seq<Neighbour>)
    requires p.offense == c.offense && p.prime == c.prime
    ensures forall j :: 0 <= j < |nbrs| ==> (Bites(p, nbrs[j]) <==> Bites(c, nbrs[j]))
    ensures forall j :: 0 <= j < |nbrs| ==> BiteOf(p, nbrs[j]) == BiteOf(c, nbrs[j])
  {
  }

  /** Crowding: an active creature that is not eating and touches more than
      one living hatched creature gains two suffocation levels, after the
      recovery of one. */
  lemma ActiveCrowding(c: Creature, nbrs: seq<Neighbour>, births: nat -> Birth, maths: Maths)
    requires c.cost > 0.0
    requires PhaseOf(c) == Active
    ensures var r := Step(c, nbrs, births, maths);
      var eating := exists j :: 0 <= j < |nbrs| && Bites(c, nbrs[j]);
      r.self.suffocate == Recovered(c) + (if !eating && |Filter(nbrs, Contact)| > 1 then 2 else 0)
  {
    var p := Prepared(c);
    ActiveIsInteract(c, nbrs, births, maths);
    InteractResult(p, nbrs, births, maths);
    ScanEating(p, nbrs, |nbrs|);
    ScanContacts(p, nbrs, |nbrs|);
    SameBites(c, p, nbrs);
    assert nbrs[..|nbrs|] == nbrs;
  }

  /** Reproduction: after upkeep and the digested bites, a creature whose
      energy exceeds the threshold pays exactly the threshold and bears
      exactly `kids` children, each created from its own genome; otherwise it
      keeps all its energy and bears none. */
  lemma ActiveBirth(c: Creature, nbrs: seq<Neighbour>, births: nat -> Birth, maths: Maths)
    requires c.cost > 0.0
    requires PhaseOf(c) == Active
    ensures var r := Step(c, nbrs, births, maths);
      var energy := c.energy - c.upkeep + Sum(nbrs, Gain(c));
      && r.self.energy == (if energy > c.forkids then energy - c.forkids else energy)
      && |r.children| == (if energy > c.forkids then c.kids else 0)
      && (forall i :: 0 <= i < |r.children| ==>
            r.children[i] == Create(c.genome, births(i).at, births(i).draws, maths))
  {
    var p := Prepared(c);
    ActiveIsInteract(c, nbrs, births, maths);
    InteractResult(p, nbrs, births, maths);
    ScanEnergy(p, nbrs, |nbrs|);
    assert nbrs[..|nbrs|] == nbrs;
    SameGains(c, p, nbrs);
    SumCongruence(nbrs, Gain(p), Gain(c));
  }

  /** What a creature gains from its neighbours depends only on its offense,
      species and digestion. */
  lemma SameGains(c: Creature, p: Creature, nbrs: seq<Neighbour>)
    requires p.offense == c.offense && p.prime == c.prime && p.digest == c.digest
    ensures forall j :: 0 <= j < |nbrs| ==> Gain(p)(nbrs[j]) == Gain(c)(nbrs[j])
  {
    forall j | 0 <= j < |nbrs|
      ensures Gain(p)(nbrs[j]) == Gain(c)(nbrs[j])
    {
      var b := BiteOf(c, nbrs[j]);
      assert BiteOf(p, nbrs[j]) == b;
      assert Gain(p)(nbrs[j]) == p.digest * b;
    }
  }

  /** The interaction phase keeps the creature invariant. */
  lemma InteractKeepsWellFormed(p: Creature, nbrs: seq<Neighbour>, births: nat -> Birth, maths: Maths)
    requires WellFormed(p, maths)
    ensures var r := Interact(p, nbrs, births, maths);
      && WellFormed(r.self, maths)
      && forall i :: 0 <= i < |r.children| ==> WellFormed(r.children[i], maths)
  {
    var r := Interact(p, nbrs, births, maths);
    InteractResult(p, nbrs, births, maths);
    assert Derived(r.self, maths);
  }

  /** A step keeps the creature invariant, and every child is well formed. */
  lemma StepKeepsWellFormed(c: Creature, nbrs: seq<Neighbour>, births: nat -> Birth, maths: Maths)
    requires WellFormed(c, maths)
    ensures c.cost > 0.0
    ensures var r := Step(c, nbrs, births, maths);
      && WellFormed(r.self, maths)
      && forall i :: 0 <= i < |r.children| ==> WellFormed(r.children[i], maths)
  {
    if PhaseOf(c) == Active {
      ActiveIsInteract(c, nbrs, births, maths);
      InteractKeepsWellFormed(Prepared(c), nbrs, births, maths);
    } else {
      QuietStepKeepsWellFormed(c, nbrs, births, maths);
    }
  }

  /** The phases other than interaction keep the creature invariant. */
  lemma QuietStepKeepsWellFormed(c: Creature, nbrs: seq<Neighbour>, births: nat -> Birth, maths: Maths)
    requires WellFormed(c, maths)
    requires PhaseOf(c) != Active
    ensures c.cost > 0.0
    ensures var r := Step(c, nbrs, births, maths);
      WellFormed(r.self, maths) && r.children == []
  {
    CostPositive(c, maths);
    StepPhases(c, nbrs, births, maths);
    match PhaseOf(c)
    case Asphyxiated => AsphyxiatedKeepsWellFormed(c, nbrs, births, maths);
    case Hatching => HatchingKeepsWellFormed(c, nbrs, births, maths);
    case Carrion => CarrionKeepsWellFormed(c, nbrs, births, maths);
    case Starving => StarvingKeepsWellFormed(c, nbrs, births, maths);
  }

  /** Changing only the step counters, the energy and the visibility keeps
      the creature invariant. */
  lemma CountersKeepWellFormed(c: Creature, d: Creature, maths: Maths)
    requires WellFormed(c, maths)
    requires 0.0 <= d.egg <= Maturity
    requires d == c.(suffocate := d.suffocate, egg := d.egg, energy := d.energy, collide := d.collide)
    ensures WellFormed(d, maths)
  {
    assert d.genome == c.genome && d.pos == c.pos && d.alive == c.alive;
  }

  lemma AsphyxiatedKeepsWellFormed(c: Creature, nbrs: seq<Neighbour>, births: nat -> Birth, maths: Maths)
    requires WellFormed(c, maths) && c.cost > 0.0
    requires PhaseOf(c) == Asphyxiated
    ensures WellFormed(Step(c, nbrs, births, maths).self, maths)
  {
    AsphyxiatedStep(c, nbrs, births, maths);
    CountersKeepWellFormed(c, Step(c, nbrs, births, maths).self, maths);
  }

  lemma HatchingKeepsWellFormed(c: Creature, nbrs: seq<Neighbour>, births: nat -> Birth, maths: Maths)
    requires WellFormed(c, maths) && c.cost > 0.0
    requires PhaseOf(c) == Hatching
    ensures WellFormed(Step(c, nbrs, births, maths).self, maths)
  {
    HatchingStep(c, nbrs, births, maths);
    var d := Step(c, nbrs, births, maths).self;
    CountdownBounds(c.egg, c.cost);
    assert 0.0 <= d.egg <= Maturity;
    CountersKeepWellFormed(c, d, maths);
  }

  /** The egg countdown stays between zero and where it was. */
  lemma CountdownBounds(egg: real, cost: real)
    requires egg >= 0.0 && cost > 0.0
    ensures 0.0 <= Max(0.0, egg - 1.0 / cost) <= egg
  {
    assert 1.0 / cost > 0.0;
  }

  lemma CarrionKeepsWellFormed(c: Creature, nbrs: seq<Neighbour>, births: nat -> Birth, maths: Maths)
    requires WellFormed(c, maths) && c.cost > 0.0
    requires PhaseOf(c) == Carrion
    ensures WellFormed(Step(c, nbrs, births, maths).self, maths)
  {
    CarrionStep(c, nbrs, births, maths);
    CountersKeepWellFormed(c, Step(c, nbrs, births, maths).self, maths);
  }

  lemma StarvingKeepsWellFormed(c: Creature, nbrs: seq<Neighbour>, births: nat -> Birth, maths: Maths)
    requires WellFormed(c, maths) && c.cost > 0.0
    requires PhaseOf(c) == Starving
    ensures WellFormed(Step(c, nbrs, births, maths).self, maths)
  {
    StarvingStep(c, nbrs, births, maths);
    CountersKeepWellFormed(c, Prepared(c), maths);
    DieWellFormed(Prepared(c), maths);
  }

  /** A freshly laid egg is not removed, touches none of its neighbours,
      and gives no birth in its first step. */
  lemma NewbornStep(c: Creature, nbrs: seq<Neighbour>, births: nat -> Birth, maths: Maths)
    requires c.cost > 0.0
    requires c.egg > 0.0 && c.suffocate == 0
    ensures var r := Step(c, nbrs, births, maths);
      !r.remove && r.children == [] && r.others == Energies(nbrs)
  {
    StepPhases(c, nbrs, births, maths);
  }

  /** Every child a step bears is a freshly laid egg that has never
      suffocated and is not yet visible to collisions. */
  lemma StepChildrenFresh(c: Creature, nbrs: seq<Neighbour>, births: nat -> Birth, maths: Maths)
    requires c.cost > 0.0
    ensures var r := Step(c, nbrs, births, maths);
      forall i :: 0 <= i < |r.children| ==>
        r.children[i].egg == Maturity && r.children[i].suffocate == 0 && !r.children[i].collide
  {
    StepPhases(c, nbrs, births, maths);
    if PhaseOf(c) == Active {
      ActiveBirth(c, nbrs, births, maths);
    }
  }
}
