/** The universe: every thing, alive or dead, in the order it is stepped;
    the collidable things sorted by x at the start of each tick; the cursor
    of the thing being stepped; and the countdown to the next extinction.
    Things are named by identifiers so that the collidable list and the
    thing list can share them, as the program shares object references. */
module Universe {
  import opened Util
  import opened Genomes
  import opened Geometry
  import opened Creatures
  import opened Behaviour
  import opened Space

  /** Ticks before the first extinction. */
  const FirstExtinction: real := 1000.0
  /** The least number of ticks between two extinctions. */
  const ExtinctionPeriod: real := 500.0
  /** A coin below this kills its creature in an extinction. */
  const DeathChance: real := 0.5

  datatype World = World(
    heap: map<Id, Creature>,
    things: seq<Id>,
    collidable: seq<Id>,
    current: int,
    extinction: real,
    nextId: Id)

  /** The invariant of the universe: the lists name known things, no thing
      is listed twice, identifiers below `nextId` are the only ones in use,
      and every known thing is a well-formed creature. */
  predicate Valid(w: World, maths: Maths)
  {
    Listed(w) && AllWellFormed(w.heap, maths)
  }

  /** The lists of `w` name known things, each at most once, and only
      identifiers below `nextId` are in use. */
  predicate Listed(w: World)
  {
    && AllIn(w.heap, w.things)
    && AllIn(w.heap, w.collidable)
    && Distinct(w.things)
    && Distinct(w.collidable)
    && Issued(w.heap, w.nextId)
  }

  /** Only identifiers below `next` are in use. */
  predicate Issued(heap: map<Id, Creature>, next: Id)
  {
    forall id :: id in heap ==> id < next
  }

  /** Every entry of `heap` satisfies `P`. */
  predicate Every<T>(heap: map<Id, T>, P: T -> bool)
  {
    forall id {:trigger P(heap[id])} :: id in heap ==> P(heap[id])
  }

  /** Every known thing is a well-formed creature. */
  predicate AllWellFormed(heap: map<Id, Creature>, maths: Maths)
  {
    Every(heap, WellFormedWith(maths))
  }

  /** Every entry of `xs` satisfies `P`. */
  predicate All<T>(xs: seq<T>, P: T -> bool)
  {
    forall k :: 0 <= k < |xs| ==> P(xs[k])
  }

  /** `WellFormed` as a test on creatures. */
  function WellFormedWith(maths: Maths): Creature -> bool
  {
    c => WellFormed(c, maths)
  }

  /** Storing an entry that satisfies `P` keeps every entry satisfying it. */
  lemma EveryStore<T>(heap: map<Id, T>, id: Id, x: T, P: T -> bool)
    requires Every(heap, P) && P(x)
    ensures Every(heap[id := x], P)
  {
  }

  /** Appending an element not yet present keeps a list free of repetitions. */
  lemma DistinctSnoc<T>(s: seq<T>, x: T)
    requires Distinct(s) && x !in s
    ensures Distinct(s + [x])
  {
  }

  /** The `universe` constructor: nothing in it, the cursor at the start and
      the first extinction a thousand ticks away. */
  function Empty(): (w: World)
    ensures forall maths :: Valid(w, maths)
    ensures |w.things| == 0 && |w.collidable| == 0 && w.current == 0
    ensures w.extinction == FirstExtinction
  {
    World(map[], [], [], 0, FirstExtinction, 0)
  }

  // ---------------------------------------------------------------------------
  // remove and add

  /** `remove`: drops the thing at `pos` from the thing list, keeping the
      order of the others, and moves the cursor back when the dropped thing
      is at or before it, so that the things still to be stepped stay ahead
      of the cursor and those already stepped behind it. */
  function Remove(w: World, pos: nat): (r: World)
    requires pos < |w.things|
    ensures r.things == Without(w.things, pos)
    ensures multiset(r.things) == multiset(w.things) - multiset{w.things[pos]}
    ensures r.current == (if pos <= w.current then w.current - 1 else w.current)
    ensures pos <= w.current < |w.things| ==> r.things[r.current + 1..] == w.things[w.current + 1..]
    ensures -1 <= w.current < pos ==> r.things[..r.current + 1] == w.things[..w.current + 1]
    ensures r == w.(things := r.things, current := r.current)
  {
    w.(things := w.things[..pos] + w.things[pos + 1..],
       current := if pos <= w.current then w.current - 1 else w.current)
  }

  /** Removing keeps the universe invariant. */
  lemma RemoveKeepsValid(w: World, pos: nat, maths: Maths)
    requires Valid(w, maths) && pos < |w.things|
    ensures Valid(Remove(w, pos), maths)
  {
    WithoutDistinct(w.things, pos);
  }

  /** `add`: appends a brand new thing under a fresh identifier. */
  function Add(w: World, c: Creature): (r: World)
    ensures r.things == w.things + [w.nextId] && r.nextId == w.nextId + 1
    ensures r.heap == w.heap[w.nextId := c]
    ensures r == w.(heap := r.heap, things := r.things, nextId := r.nextId)
  {
    w.(heap := w.heap[w.nextId := c], things := w.things + [w.nextId], nextId := w.nextId + 1)
  }

  /** Adding a well-formed creature keeps the universe invariant, and the
      identifier it receives was not in use. */
  lemma AddKeepsValid(w: World, c: Creature, maths: Maths)
    requires Valid(w, maths) && WellFormed(c, maths)
    ensures w.nextId !in w.heap && w.nextId !in w.things
    ensures Valid(Add(w, c), maths)
  {
    AddKeepsListed(w, c);
    EveryStore(w.heap, w.nextId, c, WellFormedWith(maths));
  }

  /** Adding names the new thing once, under an identifier not yet in use. */
  lemma AddKeepsListed(w: World, c: Creature)
    requires Listed(w)
    ensures w.nextId !in w.heap && w.nextId !in w.things
    ensures Listed(Add(w, c))
  {
    assert w.nextId !in w.things by {
      assert forall k :: 0 <= k < |w.things| ==> w.things[k] < w.nextId;
    }
    DistinctSnoc(w.things, w.nextId);
  }

  /** Adds `cs` one after the other, as the births of one step do. */
  function AddAll(w: World, cs: seq<Creature>): (r: World)
    ensures r.things == w.things + Range(w.nextId, r.nextId)
    ensures r.nextId == w.nextId + |cs|
    ensures forall id :: id in r.heap <==> id in w.heap || w.nextId <= id < r.nextId
    ensures forall id :: id in w.heap && !(w.nextId <= id < r.nextId) ==> r.heap[id] == w.heap[id]
    ensures forall k :: 0 <= k < |cs| ==> r.heap[w.nextId + k] == cs[k]
    ensures r == w.(heap := r.heap, things := r.things, nextId := r.nextId)
    decreases |cs|
  {
    if |cs| == 0 then w
    else
      var r := AddAll(Add(w, cs[0]), cs[1..]);
      assert Range(w.nextId, r.nextId) == [w.nextId] + Range(w.nextId + 1, r.nextId);
      r
  }

  /** Adding creatures that are all well formed keeps the universe invariant. */
  lemma AddAllKeepsValid(w: World, cs: seq<Creature>, maths: Maths)
    requires Valid(w, maths)
    requires All(cs, WellFormedWith(maths))
    ensures Valid(AddAll(w, cs), maths)
  {
    AddAllKeepsListed(w, cs);
    AddAllKeepsCreatures(w, cs, maths);
  }

  /** Adding names each new thing once, under identifiers not yet in use. */
  lemma AddAllKeepsListed(w: World, cs: seq<Creature>)
    requires Listed(w)
    ensures Listed(AddAll(w, cs))
  {
    var r := AddAll(w, cs);
    assert forall k :: 0 <= k < |w.things| ==> w.things[k] < w.nextId;
    DistinctAppendRange(w.things, w.nextId, r.nextId);
  }

  /** Adding well-formed creatures keeps every known thing well formed. */
  lemma AddAllKeepsCreatures(w: World, cs: seq<Creature>, maths: Maths)
    requires AllWellFormed(w.heap, maths) && All(cs, WellFormedWith(maths))
    ensures AllWellFormed(AddAll(w, cs).heap, maths)
  {
    var r := AddAll(w, cs);
    AddAllFresh(w, cs);
    EveryExtend(w.heap, r.heap, w.nextId, cs, WellFormedWith(maths));
  }

  /** Where the entries added by `AddAll` are. */
  lemma AddAllFresh(w: World, cs: seq<Creature>)
    ensures var r := AddAll(w, cs);
      forall id :: id in r.heap ==>
        (id in w.heap && r.heap[id] == w.heap[id]) || (w.nextId <= id < w.nextId + |cs| && r.heap[id] == cs[id - w.nextId])
  {
    var r := AddAll(w, cs);
    forall id | id in r.heap && w.nextId <= id < r.nextId
      ensures r.heap[id] == cs[id - w.nextId]
    {
      assert id == w.nextId + (id - w.nextId);
    }
  }

  /** A map that keeps the entries of `before` and adds `xs` under the
      identifiers from `lo` on satisfies what they all satisfy. */
  lemma EveryExtend<T>(before: map<Id, T>, after: map<Id, T>, lo: Id, xs: seq<T>, P: T -> bool)
    requires Every(before, P) && All(xs, P)
    requires forall id :: id in after ==>
      (id in before && after[id] == before[id]) || (lo <= id < lo + |xs| && after[id] == xs[id - lo])
    ensures Every(after, P)
  {
  }

  // ---------------------------------------------------------------------------
  // One step of the universe

  /** The identifiers at positions `hits` of `ids`. */
  function Pick(ids: seq<Id>, hits: seq<nat>): (r: seq<Id>)
    requires forall k :: 0 <= k < |hits| ==> hits[k] < |ids|
    ensures |r| == |hits|
    ensures forall k :: 0 <= k < |hits| ==> r[k] == ids[hits[k]]
  {
    seq(|hits|, k requires 0 <= k < |hits| => ids[hits[k]])
  }

  /** Increasing positions of a list without repetitions name distinct things. */
  lemma PickDistinct(ids: seq<Id>, hits: seq<nat>)
    requires Distinct(ids)
    requires forall k :: 0 <= k < |hits| ==> hits[k] < |ids|
    requires forall k, l :: 0 <= k < l < |hits| ==> hits[k] < hits[l]
    ensures Distinct(Pick(ids, hits))
  {
  }

  /** Stores `update(heap[ids[k]], vals[k])` under each `ids[k]`, one after
      the other; the other entries are left as they are. */
  function WriteBack<T>(heap: map<Id, T>, ids: seq<Id>, vals: seq<real>, update: (T, real) -> T): (r: map<Id, T>)
    requires |ids| == |vals| && Distinct(ids)
    requires forall k :: 0 <= k < |ids| ==> ids[k] in heap
    ensures r.Keys == heap.Keys
    ensures forall id :: id in heap && id !in ids ==> r[id] == heap[id]
    ensures forall k :: 0 <= k < |ids| ==> r[ids[k]] == update(heap[ids[k]], vals[k])
  {
    if |ids| == 0 then heap
    else
      var n := |ids| - 1;
      var front := WriteBack(heap, ids[..n], vals[..n], update);
      assert forall k :: 0 <= k < n ==> ids[..n][k] == ids[k] && ids[k] != ids[n];
      front[ids[n] := update(heap[ids[n]], vals[n])]
  }

  /** `c` with energy `e`. */
  function SetEnergy(c: Creature, e: real): Creature
  {
    c.(energy := e)
  }

  /** A creature's invariant does not depend on its energy. */
  lemma EnergyKeepsWellFormed(c: Creature, e: real, maths: Maths)
    requires WellFormed(c, maths)
    ensures WellFormed(SetEnergy(c, e), maths)
  {
  }

  /** What a step's outcome `res` can be applied to: the cursor is on a
      thing, the lists name known things, and `hits` are increasing
      positions of the collidable list, other than the stepped thing, one per
      neighbour energy. */
  predicate Admissible(w: World, hits: seq<nat>, res: StepResult)
  {
    && 0 <= w.current < |w.things|
    && AllIn(w.heap, w.things) && AllIn(w.heap, w.collidable) && Issued(w.heap, w.nextId)
    && Distinct(w.collidable)
    && |hits| == |res.others|
    && (forall k :: 0 <= k < |hits| ==> hits[k] < |w.collidable|)
    && (forall k, l :: 0 <= k < l < |hits| ==> hits[k] < hits[l])
    && (forall k :: 0 <= k < |hits| ==> w.collidable[hits[k]] != w.things[w.current])
  }

  /** The things after the exchange of energy: each neighbour at a position
      of `hits` gets the energy the step left it, the stepped thing its new
      state, and nothing else changes. */
  function Exchange(w: World, hits: seq<nat>, res: StepResult): (heap: map<Id, Creature>)
    requires Admissible(w, hits, res)
    ensures heap.Keys == w.heap.Keys
    ensures heap[w.things[w.current]] == res.self
    ensures forall k :: 0 <= k < |hits| ==>
      heap[w.collidable[hits[k]]] == SetEnergy(w.heap[w.collidable[hits[k]]], res.others[k])
    ensures forall x :: x in w.heap && x != w.things[w.current] && x !in Pick(w.collidable, hits) ==>
      heap[x] == w.heap[x]
  {
    var ids := Pick(w.collidable, hits);
    PickDistinct(w.collidable, hits);
    WriteBack(w.heap, ids, res.others, SetEnergy)[w.things[w.current] := res.self]
  }

  /** What the universe does with the outcome `res` of stepping the thing
      under the cursor: exchange energy, then finish the step. */
  function Apply(w: World, hits: seq<nat>, res: StepResult): (r: World)
    requires Admissible(w, hits, res)
  {
    Finish(w.(heap := Exchange(w, hits, res)), res)
  }

  /** The rest of a universe step once energy is exchanged: add the children
      at the end of the thing list, drop the stepped thing if it asked to
      be, and move the cursor on. */
  function Finish(w: World, res: StepResult): (r: World)
    requires 0 <= w.current < |w.things|
  {
    var w2 := AddAll(w, res.children);
    var w3 := if res.remove then Remove(w2, w.current) else w2;
    w3.(current := w3.current + 1)
  }

  /** The cursor protocol of one universe step: the thing under the cursor
      joins the stepped things behind it unless it was removed, the things
      not yet stepped stay ahead of it in order, and the children follow
      them under fresh identifiers. */
  lemma ApplySchedule(w: World, hits: seq<nat>, res: StepResult)
    requires Admissible(w, hits, res)
    ensures var r := Apply(w, hits, res);
      && r.nextId == w.nextId + |res.children|
      && r.things == (if res.remove then Without(w.things, w.current) else w.things)
                     + Range(w.nextId, r.nextId)
      && r.current == (if res.remove then w.current else w.current + 1)
      && r.things[..r.current] == w.things[..w.current] + (if res.remove then [] else [w.things[w.current]])
      && r.things[r.current..] == w.things[w.current + 1..] + Range(w.nextId, r.nextId)
      && r.collidable == w.collidable && r.extinction == w.extinction
  {
    FinishSchedule(w.(heap := Exchange(w, hits, res)), res);
  }

  /** `Finish` keeps the cursor protocol; see `ApplySchedule`. */
  lemma FinishSchedule(w: World, res: StepResult)
    requires 0 <= w.current < |w.things|
    ensures var r := Finish(w, res);
      && r.nextId == w.nextId + |res.children|
      && r.things == (if res.remove then Without(w.things, w.current) else w.things)
                     + Range(w.nextId, r.nextId)
      && r.current == (if res.remove then w.current else w.current + 1)
      && r.things[..r.current] == w.things[..w.current] + (if res.remove then [] else [w.things[w.current]])
      && r.things[r.current..] == w.things[w.current + 1..] + Range(w.nextId, r.nextId)
      && r.collidable == w.collidable && r.extinction == w.extinction
  {
    var w2 := AddAll(w, res.children);
    var born := Range(w.nextId, w2.nextId);
    assert w2.things == w.things + born;
    if res.remove {
      var w3 := Remove(w2, w.current);
      assert w3.things == Without(w.things, w.current) + born;
      assert Finish(w, res) == w3.(current := w.current);
    } else {
      assert Finish(w, res) == w2.(current := w.current + 1);
    }
    CursorSplit(w.things, w.current, born, res.remove);
  }

  /** `Finish` adds identifiers only for the children and leaves every
      other thing alone. */
  lemma FinishHeap(w: World, res: StepResult)
    requires 0 <= w.current < |w.things|
    ensures var r := Finish(w, res);
      && (forall x :: x in r.heap <==> x in w.heap || w.nextId <= x < r.nextId)
      && (forall x :: x in w.heap && x < w.nextId ==> r.heap[x] == w.heap[x])
  {
  }

  /** `Finish` stores the children under the identifiers from `nextId` on,
      in order. */
  lemma FinishChildren(w: World, res: StepResult)
    requires 0 <= w.current < |w.things|
    ensures forall k :: 0 <= k < |res.children| ==> Finish(w, res).heap[w.nextId + k] == res.children[k]
  {
  }

  /** How the cursor splits the thing list after a step that appends `born`
      and perhaps removes the thing under the cursor. */
  lemma CursorSplit(t: seq<Id>, cur: nat, born: seq<Id>, remove: bool)
    requires cur < |t|
    ensures var t2 := (if remove then Without(t, cur) else t) + born;
      var c2 := if remove then cur else cur + 1;
      && t2[..c2] == t[..cur] + (if remove then [] else [t[cur]])
      && t2[c2..] == t[cur + 1..] + born
  {
    if remove {
      var t2 := Without(t, cur) + born;
      assert Without(t, cur) == t[..cur] + t[cur + 1..];
      assert t2 == t[..cur] + (t[cur + 1..] + born);
    } else {
      var t2 := t + born;
      assert t == t[..cur + 1] + t[cur + 1..];
      assert t[..cur + 1] == t[..cur] + [t[cur]];
      assert t2 == t[..cur + 1] + (t[cur + 1..] + born);
    }
  }

  /** What one universe step leaves alone: the identifiers in use are those
      before and the children's, and every thing other than the stepped one
      and its neighbours is untouched. */
  lemma ApplyUntouched(w: World, hits: seq<nat>, res: StepResult)
    requires Admissible(w, hits, res)
    ensures var r := Apply(w, hits, res);
      && r.nextId == w.nextId + |res.children|
      && (forall x :: x in r.heap <==> x in w.heap || w.nextId <= x < r.nextId)
      && (forall x :: x in w.heap && x != w.things[w.current] && x !in Pick(w.collidable, hits) ==>
            r.heap[x] == w.heap[x])
  {
    FinishHeap(w.(heap := Exchange(w, hits, res)), res);
  }

  /** What one universe step changes: the stepped thing has its new state
      and each neighbour the energy the step left it. */
  lemma ApplyHeap(w: World, hits: seq<nat>, res: StepResult)
    requires Admissible(w, hits, res)
    ensures var r := Apply(w, hits, res);
      && r.heap[w.things[w.current]] == res.self
      && (forall k :: 0 <= k < |hits| ==>
            r.heap[w.collidable[hits[k]]] == SetEnergy(w.heap[w.collidable[hits[k]]], res.others[k]))
  {
    FinishHeap(w.(heap := Exchange(w, hits, res)), res);
    assert forall k :: 0 <= k < |hits| ==> w.collidable[hits[k]] in w.heap;
  }

  /** Applying a step whose stepped thing and children are well formed keeps
      the universe invariant. */
  lemma ApplyKeepsValid(w: World, hits: seq<nat>, res: StepResult, maths: Maths)
    requires Valid(w, maths) && Admissible(w, hits, res)
    requires WellFormedWith(maths)(res.self)
    requires All(res.children, WellFormedWith(maths))
    ensures Valid(Apply(w, hits, res), maths)
  {
    ExchangeKeepsValid(w, hits, res, maths);
    FinishKeepsValid(w.(heap := Exchange(w, hits, res)), res, maths);
  }

  /** Finishing with well-formed children keeps the universe invariant. */
  lemma FinishKeepsValid(w: World, res: StepResult, maths: Maths)
    requires Valid(w, maths) && 0 <= w.current < |w.things|
    requires All(res.children, WellFormedWith(maths))
    ensures Valid(Finish(w, res), maths)
  {
    var w2 := AddAll(w, res.children);
    AddAllKeepsValid(w, res.children, maths);
    if res.remove {
      RemoveKeepsValid(w2, w.current, maths);
    }
  }

  /** The exchange of energy keeps the universe invariant: it changes no
      identifier, and energy is not part of a creature's invariant. */
  lemma ExchangeKeepsValid(w: World, hits: seq<nat>, res: StepResult, maths: Maths)
    requires Valid(w, maths) && Admissible(w, hits, res)
    requires WellFormedWith(maths)(res.self)
    ensures Valid(w.(heap := Exchange(w, hits, res)), maths)
  {
    ExchangeKeepsCreatures(w, hits, res, maths);
  }

  lemma ExchangeKeepsCreatures(w: World, hits: seq<nat>, res: StepResult, maths: Maths)
    requires AllWellFormed(w.heap, maths) && Admissible(w, hits, res)
    requires WellFormedWith(maths)(res.self)
    ensures AllWellFormed(Exchange(w, hits, res), maths)
  {
    var P := WellFormedWith(maths);
    var ids := Pick(w.collidable, hits);
    PickDistinct(w.collidable, hits);
    forall k | 0 <= k < |ids|
      ensures P(SetEnergy(w.heap[ids[k]], res.others[k]))
    {
      assert P(w.heap[ids[k]]);
      EnergyKeepsWellFormed(w.heap[ids[k]], res.others[k], maths);
    }
    EveryWriteBack(w.heap, ids, res.others, SetEnergy, P);
    var written := WriteBack(w.heap, ids, res.others, SetEnergy);
    EveryStore(written, w.things[w.current], res.self, P);
  }

  /** Writing back values whose updates keep `P` keeps every entry satisfying it. */
  lemma EveryWriteBack<T>(heap: map<Id, T>, ids: seq<Id>, vals: seq<real>, update: (T, real) -> T, P: T -> bool)
    requires |ids| == |vals| && Distinct(ids)
    requires forall k :: 0 <= k < |ids| ==> ids[k] in heap
    requires Every(heap, P)
    requires forall k :: 0 <= k < |ids| ==> P(update(heap[ids[k]], vals[k]))
    ensures Every(WriteBack(heap, ids, vals, update), P)
  {
  }

  /** Dropping one entry keeps a list free of repetitions. */
  lemma WithoutDistinct<T>(s: seq<T>, pos: nat)
    requires Distinct(s) && pos < |s|
    ensures Distinct(Without(s, pos))
  {
    var r := Without(s, pos);
    forall i, j | 0 <= i < j < |r|
      ensures r[i] != r[j]
    {
      var i' := if i < pos then i else i + 1;
      var j' := if j < pos then j else j + 1;
      assert r[i] == s[i'] && r[j] == s[j'];
    }
  }

  /** A list without repetitions whose entries are all below `lo` stays so
      when the identifiers `lo`, ..., `hi - 1` are appended. */
  lemma DistinctAppendRange(s: seq<Id>, lo: Id, hi: Id)
    requires Distinct(s)
    requires forall k :: 0 <= k < |s| ==> s[k] < lo
    ensures Distinct(s + Range(lo, hi))
  {
  }

  /** What the universe relies on about a creature step: a well-formed
      creature has a positive cost, its new state and its children are well
      formed, its children are newborns, and a newborn neither dies nor
      gives birth in its first step. */
  lemma StepWellFormed(c: Creature, nbrs: seq<Neighbour>, births: nat -> Birth, maths: Maths)
    requires WellFormedWith(maths)(c)
    ensures c.cost > 0.0
    ensures var res := Step(c, nbrs, births, maths);
      && WellFormedWith(maths)(res.self)
      && All(res.children, WellFormedWith(maths))
      && NewbornChildren(res)
      && (Newborn(c) ==> !res.remove && res.children == [])
  {
    StepKeepsWellFormed(c, nbrs, births, maths);
    StepChildrenFresh(c, nbrs, births, maths);
    if Newborn(c) {
      NewbornStep(c, nbrs, births, maths);
    }
  }

  /** Universe `step`: the thing under the cursor meets the things in view
      (`each_other`), steps, and the universe applies the outcome. Returns
      the scan's hits and neighbour records and the creature step's result. */
  method StepCurrent(w: World, births: nat -> Birth, maths: Maths)
    returns (r: World, hits: seq<nat>, nbrs: seq<Neighbour>, res: StepResult)
    requires Valid(w, maths) && 0 <= w.current < |w.things|
    ensures SoundHits(w.heap, w.collidable, w.things[w.current], hits, nbrs, maths)
    ensures Ascending(Xs(w.heap, w.collidable)) ==>
      forall j :: 0 <= j < |w.collidable| && InView(w.heap, w.things[w.current], w.collidable[j]) ==> j in hits
    ensures w.heap[w.things[w.current]].cost > 0.0
    ensures res == Step(w.heap[w.things[w.current]], nbrs, births, maths)
    ensures Admissible(w, hits, res) && r == Apply(w, hits, res)
    ensures Valid(r, maths)
    ensures NewbornChildren(res)
    ensures Newborn(w.heap[w.things[w.current]]) ==> !res.remove && res.children == []
  {
    var id := w.things[w.current];
    var c := w.heap[id];
    assert WellFormedWith(maths)(c);
    hits, nbrs := EachOther(w.heap, w.collidable, id, maths);
    StepWellFormed(c, nbrs, births, maths);
    res := Step(c, nbrs, births, maths);
    ApplyKeepsValid(w, hits, res, maths);
    r := Apply(w, hits, res);
  }

  /** What one universe step saw and decided: the positions in the
      collidable list of the things it met, their neighbour records, and
      the step's outcome. */
  datatype Pass = Pass(hits: seq<nat>, nbrs: seq<Neighbour>, res: StepResult)

  /** `b` is `a` after a universe step of `x`, the thing under the cursor,
      as recorded by `p`: its neighbours are things in view, all of them
      when the collidable list is in ascending x, its outcome is its step
      against them with the births `births`, and the universe applies that
      outcome. */
  predicate Passes(a: World, b: World, x: Id, p: Pass, births: nat -> Birth, maths: Maths)
  {
    && 0 <= a.current < |a.things| && x == a.things[a.current]
    && AllIn(a.heap, a.things) && AllIn(a.heap, a.collidable)
    && a.heap[x].cost > 0.0
    && SoundHits(a.heap, a.collidable, x, p.hits, p.nbrs, maths)
    && (Ascending(Xs(a.heap, a.collidable)) ==>
          forall j :: 0 <= j < |a.collidable| && InView(a.heap, x, a.collidable[j]) ==> j in p.hits)
    && p.res == Step(a.heap[x], p.nbrs, births, maths)
    && Admissible(a, p.hits, p.res) && b == Apply(a, p.hits, p.res)
  }

  /** `worlds` are the universes between the steps of the things `stepped`,
      in order, each step drawing its births from `births` by its rank, and
      `passes` record what each step saw and decided. */
  predicate Trace(worlds: seq<World>, stepped: seq<Id>, passes: seq<Pass>, births: nat -> nat -> Birth, maths: Maths)
  {
    && |worlds| == |stepped| + 1 && |passes| == |stepped|
    && forall n :: 0 <= n < |stepped| ==>
      Passes(worlds[n], worlds[n + 1], stepped[n], passes[n], births(n), maths)
  }

  /** The things whose steps asked to be removed. */
  function Removals(stepped: seq<Id>, passes: seq<Pass>): (r: set<Id>)
    requires |passes| == |stepped|
    ensures forall id :: id in r <==> exists n :: 0 <= n < |stepped| && passes[n].res.remove && stepped[n] == id
  {
    set n | 0 <= n < |stepped| && passes[n].res.remove :: stepped[n]
  }

  /** A trace grows by one step at its end. */
  lemma TraceSnoc(worlds: seq<World>, stepped: seq<Id>, passes: seq<Pass>, births: nat -> nat -> Birth,
                  maths: Maths, r: World, x: Id, pass: Pass)
    requires Trace(worlds, stepped, passes, births, maths)
    requires Passes(worlds[|stepped|], r, x, pass, births(|stepped|), maths)
    ensures Trace(worlds + [r], stepped + [x], passes + [pass], births, maths)
  {
  }

  /** The removals grow with the thing of the last step when it asked to be
      removed. */
  lemma RemovalsSnoc(stepped: seq<Id>, passes: seq<Pass>, x: Id, pass: Pass)
    requires |passes| == |stepped|
    ensures Removals(stepped + [x], passes + [pass])
         == if pass.res.remove then Removals(stepped, passes) + {x} else Removals(stepped, passes)
  {
    var stepped', passes' := stepped + [x], passes + [pass];
    forall id | id in Removals(stepped', passes')
      ensures id in Removals(stepped, passes) || (pass.res.remove && id == x)
    {
      var n :| 0 <= n < |stepped'| && passes'[n].res.remove && stepped'[n] == id;
      if n < |stepped| {
        assert passes[n].res.remove && stepped[n] == id;
      }
    }
    forall id | id in Removals(stepped, passes)
      ensures id in Removals(stepped', passes')
    {
      var n :| 0 <= n < |stepped| && passes[n].res.remove && stepped[n] == id;
      assert passes'[n].res.remove && stepped'[n] == id;
    }
    if pass.res.remove {
      assert passes'[|stepped|].res.remove && stepped'[|stepped|] == x;
    }
  }

  // ---------------------------------------------------------------------------
  // One tick: extinction, collidable rebuild, and a step of every thing

  /** The random numbers of one tick: a coin per listed thing for an
      extinction, the draw that sets the delay to the next one, and the
      births of each step, by the step's rank in the tick. */
  datatype Dice = Dice(coins: nat -> UnitDraw, reset: UnitDraw, births: nat -> nat -> Birth)

  /** What an extinction does to a creature whose coin came up `coin`. */
  function Doom(c: Creature, coin: real): Creature
  {
    if coin < DeathChance then Die(c) else c
  }

  /** The first `n` coins. */
  function Coins(n: nat, coins: nat -> UnitDraw): (r: seq<real>)
    ensures |r| == n
    ensures forall k :: 0 <= k < n ==> r[k] == coins(k)
  {
    seq(n, k requires 0 <= k < n => coins(k))
  }

  /** The extinction countdown of `loop`: one tick closer, and when it runs
      out every listed creature whose coin comes up below one half dies, and
      the next extinction is set between 500 and 1000 ticks away. Nothing
      else changes. */
  function Cull(w: World, dice: Dice): (r: World)
    requires AllIn(w.heap, w.things) && Distinct(w.things)
    ensures r == w.(heap := r.heap, extinction := r.extinction)
    ensures r.heap.Keys == w.heap.Keys
    ensures w.extinction - 1.0 > 0.0 ==> r.heap == w.heap && r.extinction == w.extinction - 1.0
    ensures w.extinction - 1.0 <= 0.0 ==>
      && ExtinctionPeriod <= r.extinction < 2.0 * ExtinctionPeriod
      && (forall k :: 0 <= k < |w.things| ==>
            r.heap[w.things[k]] == Doom(w.heap[w.things[k]], dice.coins(k)))
      && (forall id :: id in w.heap && id !in w.things ==> r.heap[id] == w.heap[id])
  {
    var left := w.extinction - 1.0;
    if left > 0.0 then w.(extinction := left)
    else
      w.(heap := WriteBack(w.heap, w.things, Coins(|w.things|, dice.coins), Doom),
         extinction := ExtinctionPeriod * (1.0 + dice.reset))
  }

  /** Who survives an extinction: a listed creature is alive afterwards
      exactly when it was alive and its coin came up at least one half; a
      victim keeps everything but its life, offense and defense. */
  lemma CullSurvivors(w: World, dice: Dice, k: nat)
    requires AllIn(w.heap, w.things) && Distinct(w.things)
    requires w.extinction - 1.0 <= 0.0 && k < |w.things|
    ensures var before := w.heap[w.things[k]];
      var after := Cull(w, dice).heap[w.things[k]];
      && (after.alive <==> before.alive && dice.coins(k) >= DeathChance)
      && after.(alive := before.alive, offense := before.offense, defense := before.defense) == before
  {
  }

  /** An extinction keeps the universe invariant: corpses are well formed. */
  lemma CullKeepsValid(w: World, dice: Dice, maths: Maths)
    requires Valid(w, maths)
    ensures Valid(Cull(w, dice), maths)
  {
    if w.extinction - 1.0 <= 0.0 {
      var P := WellFormedWith(maths);
      var coins := Coins(|w.things|, dice.coins);
      forall k | 0 <= k < |w.things|
        ensures P(Doom(w.heap[w.things[k]], coins[k]))
      {
        assert P(w.heap[w.things[k]]);
        DieWellFormed(w.heap[w.things[k]], maths);
      }
      EveryWriteBack(w.heap, w.things, coins, Doom, P);
    }
  }

  /** The key the collidable list is sorted by: the x-coordinate. */
  function XOf(heap: map<Id, Creature>): Id -> real
  {
    id => if id in heap then heap[id].pos.x else 0.0
  }

  /** Whether a thing takes part in collisions. */
  function Collides(heap: map<Id, Creature>): Id -> bool
  {
    id => id in heap && heap[id].collide
  }

  /** The rebuild of `loop`: the listed things that take part in collisions,
      each once, sorted by x. */
  function Collidable(heap: map<Id, Creature>, things: seq<Id>): (r: seq<Id>)
    requires AllIn(heap, things) && Distinct(things)
    ensures AllIn(heap, r) && Distinct(r)
    ensures Ascending(Xs(heap, r))
    ensures forall id :: id in r <==> id in things && heap[id].collide
  {
    CollidableMembers(heap, things);
    CollidableAscending(heap, things);
    CollidableDistinct(heap, things);
    Sort(Filter(things, Collides(heap)), XOf(heap))
  }

  /** The rebuilt list keeps the things that share an x in the order of the
      thing list, as the stable sort of `loop` does; this order decides the
      order in which a creature meets them. */
  lemma CollidableKeepsTies(heap: map<Id, Creature>, things: seq<Id>, x: real)
    requires AllIn(heap, things) && Distinct(things)
    ensures WithKey(Collidable(heap, things), XOf(heap), x)
         == WithKey(Filter(things, Collides(heap)), XOf(heap), x)
  {
    SortStable(Filter(things, Collides(heap)), XOf(heap), x);
  }

  /** The rebuilt list holds exactly the listed things that take part in
      collisions. */
  lemma CollidableMembers(heap: map<Id, Creature>, things: seq<Id>)
    ensures var sorted := Sort(Filter(things, Collides(heap)), XOf(heap));
      && (forall id :: id in sorted <==> id in things && Collides(heap)(id))
      && AllIn(heap, sorted)
  {
    var sorted := Sort(Filter(things, Collides(heap)), XOf(heap));
    SortFilterMembers(things, Collides(heap), XOf(heap));
    forall k | 0 <= k < |sorted|
      ensures sorted[k] in heap
    {
      assert Collides(heap)(sorted[k]);
    }
  }

  /** The rebuilt list is in ascending x. */
  lemma CollidableAscending(heap: map<Id, Creature>, things: seq<Id>)
    ensures var sorted := Sort(Filter(things, Collides(heap)), XOf(heap));
      AllIn(heap, sorted) && Ascending(Xs(heap, sorted))
  {
    CollidableMembers(heap, things);
    SortedXs(heap, Sort(Filter(things, Collides(heap)), XOf(heap)));
  }

  /** The rebuilt list names each thing once. */
  lemma CollidableDistinct(heap: map<Id, Creature>, things: seq<Id>)
    requires Distinct(things)
    ensures Distinct(Sort(Filter(things, Collides(heap)), XOf(heap)))
  {
    var visible := Filter(things, Collides(heap));
    FilterDistinct(things, Collides(heap));
    DistinctPermutation(visible, Sort(visible, XOf(heap)));
  }

  /** Sorted by `XOf`, a list of known things is ascending in x. */
  lemma SortedXs(heap: map<Id, Creature>, ids: seq<Id>)
    requires AllIn(heap, ids) && SortedBy(ids, XOf(heap))
    ensures Ascending(Xs(heap, ids))
  {
    var xs := Xs(heap, ids);
    forall i, j | 0 <= i < j < |xs|
      ensures xs[i] <= xs[j]
    {
      assert XOf(heap)(ids[i]) <= XOf(heap)(ids[j]);
    }
  }

  /** The prologue of `loop`: the cursor back at the start, the extinction
      countdown, and the collidable list rebuilt. */
  function Prelude(w: World, dice: Dice): (r: World)
    requires AllIn(w.heap, w.things) && Distinct(w.things)
    ensures r.things == w.things && r.nextId == w.nextId && r.current == 0
    ensures r.heap == Cull(w, dice).heap && r.extinction == Cull(w, dice).extinction
    ensures r.collidable == Collidable(r.heap, r.things)
  {
    var culled := Cull(w.(current := 0), dice);
    culled.(collidable := Collidable(culled.heap, culled.things))
  }

  /** The prologue keeps the universe invariant, and afterwards only listed
      things are collidable. */
  lemma PreludeKeepsValid(w: World, dice: Dice, maths: Maths)
    requires Valid(w, maths)
    ensures Valid(Prelude(w, dice), maths)
    ensures forall k :: 0 <= k < |Prelude(w, dice).collidable| ==> Prelude(w, dice).collidable[k] in w.things
  {
    CullKeepsValid(w.(current := 0), dice, maths);
  }

  /** A newborn that has not been stepped yet: an unhatched egg that never
      suffocated. */
  predicate Newborn(c: Creature)
  {
    c.egg > 0.0 && c.suffocate == 0
  }

  /** Every child of a step is a newborn. */
  predicate NewbornChildren(res: StepResult)
  {
    forall i :: 0 <= i < |res.children| ==> Newborn(res.children[i])
  }

  /** The test of which stepped things are still listed. */
  function Survives(removed: set<Id>): Id -> bool
  {
    id => id !in removed
  }

  /** What the loop of `loop` keeps while it steps the things: `stepped` are
      the things stepped so far, and together with the things ahead of the
      cursor they are the things listed at the start followed by every
      newborn; behind the cursor are the stepped things not removed;
      newborns are not collidable, and those not yet stepped are still
      unhatched eggs that never suffocated. */
  predicate Progress(w: World, start: seq<Id>, id0: Id, stepped: seq<Id>, removed: set<Id>)
  {
    match w
    case World(heap, things, collidable, current, _, nextId) =>
      && 0 <= current <= |things|
      && id0 <= nextId
      && Distinct(start) && (forall k :: 0 <= k < |start| ==> start[k] < id0)
      && stepped + things[current..] == start + Range(id0, nextId)
      && things[..current] == Filter(stepped, Survives(removed))
      && (forall id :: id in removed ==> id in stepped)
      && (forall k :: 0 <= k < |collidable| ==> collidable[k] < id0)
      && (forall id :: id0 <= id < nextId && id !in stepped ==> id in heap && Newborn(heap[id]))
  }

  /** The thing under the cursor has not been stepped yet; once the things
      listed at the start are all stepped, it is an unhatched newborn. */
  lemma Cursor(w: World, start: seq<Id>, id0: Id, stepped: seq<Id>, removed: set<Id>)
    requires Progress(w, start, id0, stepped, removed) && w.current < |w.things|
    ensures w.things[w.current] !in stepped && w.things[w.current] !in removed
    ensures |stepped| >= |start| ==>
      var x := w.things[w.current];
      id0 <= x < w.nextId && x in w.heap && Newborn(w.heap[x])
  {
    var order := start + Range(id0, w.nextId);
    DistinctAppendRange(start, id0, w.nextId);
    assert order[|stepped|] == w.things[w.current];
    assert stepped == order[..|stepped|];
    if |stepped| >= |start| {
      assert order[|stepped|] == Range(id0, w.nextId)[|stepped| - |start|];
    }
  }

  /** One universe step keeps the progress of the loop: the stepped thing
      joins the stepped things, and joins the removed ones when it asked to.
      Once the things listed at the start are all stepped, every step moves
      the cursor closer to the end. */
  lemma StepProgress(w: World, hits: seq<nat>, res: StepResult,
                     start: seq<Id>, id0: Id, stepped: seq<Id>, removed: set<Id>)
    requires Progress(w, start, id0, stepped, removed) && Admissible(w, hits, res)
    requires NewbornChildren(res)
    requires Newborn(w.heap[w.things[w.current]]) ==> !res.remove && res.children == []
    ensures var x := w.things[w.current];
      var r := Apply(w, hits, res);
      && Progress(r, start, id0, stepped + [x], if res.remove then removed + {x} else removed)
      && (|stepped| >= |start| ==> |r.things| - r.current < |w.things| - w.current)
  {
    var r := Apply(w, hits, res);
    var x := w.things[w.current];
    Cursor(w, start, id0, stepped, removed);
    ApplySchedule(w, hits, res);
    assert stepped + [x] + r.things[r.current..] == start + Range(id0, r.nextId) by {
      VisitNext(stepped, w.things, w.current, r.things, r.current,
                start + Range(id0, w.nextId), Range(w.nextId, r.nextId));
      ExtendRange(start, id0, w.nextId, r.nextId);
    }
    ProgressKept(w.things[..w.current], r.things[..r.current], stepped, removed, x, res.remove);
    ProgressEggs(w, hits, res, id0, stepped);
  }

  /** The things behind the cursor stay the stepped things not removed. */
  lemma ProgressKept(behind: seq<Id>, behind': seq<Id>, stepped: seq<Id>, removed: set<Id>, x: Id, remove: bool)
    requires behind == Filter(stepped, Survives(removed))
    requires x !in stepped && x !in removed
    requires behind' == behind + (if remove then [] else [x])
    ensures behind' == Filter(stepped + [x], Survives(if remove then removed + {x} else removed))
  {
    var removed' := if remove then removed + {x} else removed;
    FilterCongruence(stepped, Survives(removed), Survives(removed'));
    FilterSnoc(stepped, x, Survives(removed'));
  }

  /** Newborns not yet stepped stay unhatched eggs that never suffocated:
      a step touches only the stepped thing, its collidable neighbours and
      its children. */
  lemma ProgressEggs(w: World, hits: seq<nat>, res: StepResult, id0: Id, stepped: seq<Id>)
    requires Admissible(w, hits, res) && id0 <= w.nextId
    requires forall k :: 0 <= k < |w.collidable| ==> w.collidable[k] < id0
    requires forall id :: id0 <= id < w.nextId && id !in stepped ==>
      id in w.heap && Newborn(w.heap[id])
    requires NewbornChildren(res)
    ensures var r := Apply(w, hits, res);
      forall id :: id0 <= id < r.nextId && id !in stepped + [w.things[w.current]] ==>
        id in r.heap && Newborn(r.heap[id])
  {
    var w1 := w.(heap := Exchange(w, hits, res));
    ExchangeSparesNewborns(w, hits, res, id0);
    FinishEggs(w1, res, id0, stepped + [w.things[w.current]]);
  }

  /** The exchange of energy touches no thing from `id0` on other than the
      stepped one when every collidable thing is older. */
  lemma ExchangeSparesNewborns(w: World, hits: seq<nat>, res: StepResult, id0: Id)
    requires Admissible(w, hits, res)
    requires forall k :: 0 <= k < |w.collidable| ==> w.collidable[k] < id0
    ensures var heap := Exchange(w, hits, res);
      forall id :: id0 <= id && id in w.heap && id != w.things[w.current] ==>
        id in heap && heap[id] == w.heap[id]
  {
    var ids := Pick(w.collidable, hits);
    assert forall k :: 0 <= k < |ids| ==> ids[k] < id0;
  }

  /** Finishing keeps the unstepped newborns as they are and adds children
      that are newborns. */
  lemma FinishEggs(w: World, res: StepResult, id0: Id, done: seq<Id>)
    requires 0 <= w.current < |w.things| && id0 <= w.nextId
    requires forall id :: id0 <= id < w.nextId && id !in done ==> id in w.heap && Newborn(w.heap[id])
    requires NewbornChildren(res)
    ensures var r := Finish(w, res);
      forall id :: id0 <= id < r.nextId && id !in done ==> id in r.heap && Newborn(r.heap[id])
  {
    var r := Finish(w, res);
    FinishSchedule(w, res);
    FinishHeap(w, res);
    FinishChildren(w, res);
    forall id | id0 <= id < r.nextId && id !in done
      ensures id in r.heap && Newborn(r.heap[id])
    {
      if id >= w.nextId {
        assert r.heap[w.nextId + (id - w.nextId)] == res.children[id - w.nextId];
      }
    }
  }

  /** One pass of the loop of `loop`: a universe step of the thing under the
      cursor, which joins the stepped things, and the removed ones when its
      step asked to be removed. */
  method Advance(w: World, births: nat -> Birth, maths: Maths,
                 start: seq<Id>, id0: Id, stepped: seq<Id>, removed: set<Id>)
    returns (r: World, x: Id, remove: bool, pass: Pass)
    requires Valid(w, maths) && Progress(w, start, id0, stepped, removed) && w.current < |w.things|
    ensures x == w.things[w.current]
    ensures Passes(w, r, x, pass, births, maths)
    ensures remove == pass.res.remove
    ensures Valid(r, maths)
    ensures Progress(r, start, id0, stepped + [x], if remove then removed + {x} else removed)
    ensures r.collidable == w.collidable && r.extinction == w.extinction
    ensures |stepped| >= |start| ==> |r.things| - r.current < |w.things| - w.current
  {
    x := w.things[w.current];
    var hits, nbrs, res;
    r, hits, nbrs, res := StepCurrent(w, births, maths);
    StepProgress(w, hits, res, start, id0, stepped, removed);
    remove := res.remove;
    pass := Pass(hits, nbrs, res);
  }

  /** The loop of `loop`: one universe step after another until the cursor
      reaches the end of the thing list, which newborns join as they are
      born. Every thing listed at the start and every newborn is stepped
      exactly once, in that order, the step of rank `n` drawing its births
      from `births(n)`; `worlds` are the universes between the steps and
      `passes` what each step saw and decided. The things listed at the end
      are the stepped things not removed, in order. */
  method Sweep(w: World, births: nat -> nat -> Birth, maths: Maths)
    returns (r: World, stepped: seq<Id>, removed: set<Id>, ghost worlds: seq<World>, ghost passes: seq<Pass>)
    requires Valid(w, maths) && w.current == 0
    requires forall k :: 0 <= k < |w.collidable| ==> w.collidable[k] < w.nextId
    ensures Valid(r, maths)
    ensures stepped == w.things + Range(w.nextId, r.nextId)
    ensures Trace(worlds, stepped, passes, births, maths)
    ensures worlds[0] == w && worlds[|stepped|] == r
    ensures removed == Removals(stepped, passes)
    ensures r.things == Filter(stepped, Survives(removed))
    ensures forall id :: id in removed ==> id in stepped
    ensures r.current == |r.things|
    ensures r.collidable == w.collidable && r.extinction == w.extinction
  {
    var id0 := w.nextId;
    r, stepped, removed := w, [], {};
    worlds, passes := [w], [];
    assert r.things[r.current..] == w.things + Range(id0, id0);
    while r.current != |r.things|
      invariant Valid(r, maths)
      invariant Progress(r, w.things, id0, stepped, removed)
      invariant r.collidable == w.collidable && r.extinction == w.extinction
      invariant Trace(worlds, stepped, passes, births, maths)
      invariant worlds[0] == w && worlds[|stepped|] == r
      invariant removed == Removals(stepped, passes)
      decreases if |stepped| < |w.things| then |w.things| - |stepped| else 0, |r.things| - r.current
    {
      var x, remove, pass;
      r, x, remove, pass := Advance(r, births(|stepped|), maths, w.things, id0, stepped, removed);
      TraceSnoc(worlds, stepped, passes, births, maths, r, x, pass);
      RemovalsSnoc(stepped, passes, x, pass);
      if remove {
        removed := removed + {x};
      }
      stepped := stepped + [x];
      worlds := worlds + [r];
      passes := passes + [pass];
    }
    assert r.things[r.current..] == [];
  }

  /** `loop` without its rendering: the prologue, then the loop over every
      thing. Everything stepped is listed once. */
  method Tick(w: World, dice: Dice, maths: Maths)
    returns (r: World, stepped: seq<Id>, removed: set<Id>, ghost worlds: seq<World>, ghost passes: seq<Pass>)
    requires Valid(w, maths)
    ensures Valid(r, maths)
    ensures stepped == w.things + Range(w.nextId, r.nextId)
    ensures Distinct(stepped)
    ensures Trace(worlds, stepped, passes, dice.births, maths)
    ensures worlds[0] == Prelude(w, dice) && worlds[|stepped|] == r
    ensures removed == Removals(stepped, passes)
    ensures r.things == Filter(stepped, Survives(removed))
    ensures forall id :: id in removed ==> id in stepped
    ensures r.current == |r.things|
    ensures r.collidable == Prelude(w, dice).collidable && r.extinction == Prelude(w, dice).extinction
  {
    PreludeKeepsValid(w, dice, maths);
    var p := Prelude(w, dice);
    r, stepped, removed, worlds, passes := Sweep(p, dice.births, maths);
    DistinctAppendRange(w.things, w.nextId, r.nextId);
  }
}
