/** The collision scan `each_other`: a binary search for the first collidable
    thing whose x-coordinate can be in range, then a walk along the
    collidable list that keeps the things inside the square of half-side
    `sight` around the creature being stepped. */
module Space {
  import opened Util
  import opened Geometry
  import opened Creatures
  import opened Behaviour

  /** Things are named by identifiers; the heap maps each to its state. */
  type Id = nat

  /** Every identifier of `ids` has a state in `heap`. */
  predicate AllIn(heap: map<Id, Creature>, ids: seq<Id>)
  {
    forall k :: 0 <= k < |ids| ==> ids[k] in heap
  }

  /** The x-coordinates of the things `ids`, in order. */
  function Xs(heap: map<Id, Creature>, ids: seq<Id>): (xs: seq<real>)
    requires AllIn(heap, ids)
    ensures |xs| == |ids|
    ensures forall k :: 0 <= k < |ids| ==> xs[k] == heap[ids[k]].pos.x
  {
    seq(|ids|, k requires 0 <= k < |ids| && AllIn(heap, ids) => heap[ids[k]].pos.x)
  }

  /** `xs` is in ascending order. */
  predicate Ascending(xs: seq<real>)
  {
    forall i, j :: 0 <= i < j < |xs| ==> xs[i] <= xs[j]
  }

  /** The number of entries below `bound` in ascending `xs`: the index of the
      first entry that is not. */
  function LowerBound(xs: seq<real>, bound: real): (n: nat)
    ensures n <= |xs|
    ensures n < |xs| ==> xs[n] >= bound
    ensures forall j :: 0 <= j < n ==> xs[j] < bound
  {
    if |xs| == 0 || xs[0] >= bound then 0 else 1 + LowerBound(xs[1..], bound)
  }

  /** The binary search of `each_other`: it narrows `[i1, i2]` while the
      window holds more than three entries, keeping `i1` at the start or on
      an entry below `bound` and `i2` at the end or on an entry not below it.
      On ascending input the result is at most three places before the first
      entry not below `bound`, and never after it. */
  method SearchStart(xs: seq<real>, bound: real) returns (i1: nat)
    requires |xs| > 0
    ensures i1 < |xs|
    ensures i1 == 0 || xs[i1] < bound
    ensures Ascending(xs) ==> i1 <= LowerBound(xs, bound) <= i1 + 3
  {
    i1 := 0;
    var i2 := |xs| - 1;
    while i2 - i1 > 2
      invariant 0 <= i1 <= i2 < |xs|
      invariant i1 == 0 || xs[i1] < bound
      invariant i2 == |xs| - 1 || xs[i2] >= bound
      decreases i2 - i1
    {
      var m := (i1 + i2) / 2;
      if xs[m] < bound {
        i1 := m;
      } else {
        i2 := m;
      }
    }
    if Ascending(xs) {
      SearchBrackets(xs, bound, i1, i2);
    }
  }

  /** On ascending input, a bracket `[i1, i2]` kept by the search encloses the
      lower bound, up to one place past `i2` when every entry is below it. */
  lemma SearchBrackets(xs: seq<real>, bound: real, i1: nat, i2: nat)
    requires Ascending(xs)
    requires i1 <= i2 < |xs| && i2 - i1 <= 2
    requires i1 == 0 || xs[i1] < bound
    requires i2 == |xs| - 1 || xs[i2] >= bound
    ensures i1 <= LowerBound(xs, bound) <= i1 + 3
  {
  }

  /** The box of `each_other`: the square of half-side `c.sight` around `c`. */
  predicate InBox(c: Creature, t: Creature)
  {
    && c.pos.x - c.sight <= t.pos.x <= c.pos.x + c.sight
    && c.pos.y - c.sight <= t.pos.y <= c.pos.y + c.sight
  }

  /** The thing `id` is a neighbour of the thing being stepped, `cur`: it is
      another thing, visible to collisions and inside the box. */
  predicate InView(heap: map<Id, Creature>, cur: Id, id: Id)
    requires cur in heap && id in heap
  {
    id != cur && heap[id].collide && InBox(heap[cur], heap[id])
  }

  /** The neighbour record the scan passes on: the thing and its distance. */
  function NeighbourOf(c: Creature, t: Creature, maths: Maths): Neighbour
  {
    Neighbour(t, maths.norm(c.pos.x - t.pos.x, c.pos.y - t.pos.y))
  }

  /** `hits` are increasing positions of `ids` whose things are in view,
      and `nbrs` the matching neighbour records. */
  predicate SoundHits(heap: map<Id, Creature>, ids: seq<Id>, cur: Id, hits: seq<nat>,
                      nbrs: seq<Neighbour>, maths: Maths)
    requires cur in heap && AllIn(heap, ids)
  {
    && |hits| == |nbrs|
    && (forall k :: 0 <= k < |hits| ==> hits[k] < |ids|)
    && (forall k, l :: 0 <= k < l < |hits| ==> hits[k] < hits[l])
    && (forall k :: 0 <= k < |hits| ==>
          InView(heap, cur, ids[hits[k]])
          && nbrs[k] == NeighbourOf(heap[cur], heap[ids[hits[k]]], maths))
  }

  /** `each_other` for the thing `cur`: the positions in `collidable` of the
      things it meets and their neighbour records, in collidable order. Every
      hit is in view; when `collidable` is ascending in x, every thing in view
      is a hit. */
  method EachOther(heap: map<Id, Creature>, collidable: seq<Id>, cur: Id, maths: Maths)
    returns (hits: seq<nat>, nbrs: seq<Neighbour>)
    requires cur in heap && AllIn(heap, collidable)
    ensures SoundHits(heap, collidable, cur, hits, nbrs, maths)
    ensures Ascending(Xs(heap, collidable)) ==>
      forall j :: 0 <= j < |collidable| && InView(heap, cur, collidable[j]) ==> j in hits
  {
    if |collidable| == 0 {
      return [], [];
    }
    var c := heap[cur];
    var xs := Xs(heap, collidable);
    var i1 := SearchStart(xs, c.pos.x - c.sight);
    hits, nbrs := Walk(heap, collidable, cur, i1, maths);
    if Ascending(xs) {
      assert forall j :: 0 <= j < i1 ==> xs[j] <= xs[i1];
    }
  }

  /** The walk of `each_other` from position `i1` of `collidable`: it skips
      the things out of view and stops at the first thing past the right
      edge of the box that would otherwise be in view. Every hit is in view;
      when `collidable` is ascending in x, every thing in view from `i1` on
      is a hit. */
  method Walk(heap: map<Id, Creature>, collidable: seq<Id>, cur: Id, i1: nat, maths: Maths)
    returns (hits: seq<nat>, nbrs: seq<Neighbour>)
    requires cur in heap && AllIn(heap, collidable) && i1 <= |collidable|
    ensures SoundHits(heap, collidable, cur, hits, nbrs, maths)
    ensures Ascending(Xs(heap, collidable)) ==>
      forall j :: i1 <= j < |collidable| && InView(heap, cur, collidable[j]) ==> j in hits
  {
    var c := heap[cur];
    var minX, maxX := c.pos.x - c.sight, c.pos.x + c.sight;
    var minY, maxY := c.pos.y - c.sight, c.pos.y + c.sight;
    var xs := Xs(heap, collidable);
    hits, nbrs := [], [];
    var i := i1;
    while i < |collidable|
      invariant i1 <= i <= |collidable|
      invariant SoundHits(heap, collidable, cur, hits, nbrs, maths)
      invariant forall k :: 0 <= k < |hits| ==> hits[k] < i
      invariant forall j :: i1 <= j < i && InView(heap, cur, collidable[j]) ==> j in hits
    {
      var id := collidable[i];
      var t := heap[id];
      if id == cur || !t.collide || t.pos.x < minX || t.pos.y < minY || t.pos.y > maxY {
        i := i + 1;
        continue;
      }
      if t.pos.x > maxX {
        if Ascending(xs) {
          assert forall j :: i <= j < |collidable| ==> xs[j] > maxX;
        }
        break;
      }
      hits := hits + [i];
      nbrs := nbrs + [NeighbourOf(c, t, maths)];
      i := i + 1;
    }
  }
}
