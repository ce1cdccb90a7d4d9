/** Finding who stands on a cell (`getPersonOnPosition`) and the two
    `do … while` loops that draw candidate cells until a free one comes up.
    The loops draw from `Math.random()` without bound; here each is given
    a finite supply of draws and answers with the first free candidate, or
    `None` when the supply runs out (where the component would keep drawing,
    forever if no candidate can ever be free). */
module Occupancy {
  import opened Options
  import opened Agents

  /** The side of the square grid new persons are placed on. */
  const MaxWorldRows: int := 20

  predicate InGrid(p: Pos)
  {
    0 <= p.x < MaxWorldRows && 0 <= p.y < MaxWorldRows
  }

  /** Somebody in `persons` stands on `q`. */
  predicate Occupied(persons: seq<Person>, q: Pos)
  {
    exists i :: 0 <= i < |persons| && persons[i].position == q
  }

  /** The indices, from `from` on and in list order, of the persons standing
      on `q`: the `filter` in `getPersonOnPosition`. */
  function OnPosition(persons: seq<Person>, q: Pos, from: nat): (r: seq<nat>)
    requires from <= |persons|
    ensures forall k :: 0 <= k < |r| ==> from <= r[k] < |persons| && persons[r[k]].position == q
    ensures forall i :: from <= i < |persons| && persons[i].position == q ==> i in r
    ensures forall k, l :: 0 <= k < l < |r| ==> r[k] < r[l]
    decreases |persons| - from
  {
    if from == |persons| then []
    else if persons[from].position == q then [from] + OnPosition(persons, q, from + 1)
    else OnPosition(persons, q, from + 1)
  }

  /** `getPersonOnPosition`: the index of the first person standing on `q`,
      or `None` (`getPersonOnPosition`'s `null`) when nobody does. */
  function PersonOnPosition(persons: seq<Person>, q: Pos): (r: Option<nat>)
    ensures r.None? <==> !Occupied(persons, q)
    ensures r.Some? ==> r.value < |persons| && persons[r.value].position == q
    ensures r.Some? ==> forall i :: 0 <= i < r.value ==> persons[i].position != q
  {
    var hits := OnPosition(persons, q, 0);
    if |hits| < 1 then None else Some(hits[0])
  }

  /** When positions are pairwise distinct the first occupant is the only one. */
  lemma OccupantIsUnique(persons: seq<Person>, q: Pos, i: nat)
    requires forall a, b :: 0 <= a < b < |persons| ==> persons[a].position != persons[b].position
    requires i < |persons| && persons[i].position == q
    ensures PersonOnPosition(persons, q) == Some(i)
  {
  }

  /** The common shape of both retry loops: the index of the first candidate
      nobody stands on, testing them in order from `from`. */
  function FirstFree(persons: seq<Person>, cands: seq<Pos>, from: nat): (r: Option<nat>)
    requires from <= |cands|
    ensures r.None? <==> forall k :: from <= k < |cands| ==> Occupied(persons, cands[k])
    ensures r.Some? ==> from <= r.value < |cands| && !Occupied(persons, cands[r.value])
    ensures r.Some? ==> forall k :: from <= k < r.value ==> Occupied(persons, cands[k])
    decreases |cands| - from
  {
    if from == |cands| then None
    else if PersonOnPosition(persons, cands[from]) == None then Some(from)
    else FirstFree(persons, cands, from + 1)
  }

  /** The cells a sequence of `step` calls from `p` proposes. */
  function StepCandidates(p: Pos, tries: seq<DrawPair>): (r: seq<Pos>)
    ensures |r| == |tries|
    ensures forall k :: 0 <= k < |r| ==> r[k] == Step(p, tries[k])
  {
    seq(|tries|, k requires 0 <= k < |tries| => Step(p, tries[k]))
  }

  /** The `do { step = person.step() } while (occupied)` loop of both moves:
      the first proposed diagonal neighbour of `p` that is free. */
  function FreeStep(persons: seq<Person>, p: Pos, tries: seq<DrawPair>): (r: Option<Pos>)
    ensures r.Some? ==> Diagonal(p, r.value) && !Occupied(persons, r.value)
    ensures r.Some? ==> exists k :: 0 <= k < |tries| && r.value == Step(p, tries[k])
                          && forall k' :: 0 <= k' < k ==> Occupied(persons, Step(p, tries[k']))
    ensures r.None? <==> forall k :: 0 <= k < |tries| ==> Occupied(persons, Step(p, tries[k]))
  {
    var cands := StepCandidates(p, tries);
    match FirstFree(persons, cands, 0)
    case None => None
    case Some(k) => Some(cands[k])
  }

  /** With no draws the loop never gets a free cell. */
  lemma NoDrawsNoStep(persons: seq<Person>, p: Pos)
    ensures FreeStep(persons, p, []) == None
  {
  }

  /** A person whose four diagonal neighbours are all taken never finds a
      free step, whatever the draws: the component's loop spins forever. */
  lemma SurroundedNeverSteps(persons: seq<Person>, p: Pos, tries: seq<DrawPair>)
    requires forall q :: Diagonal(p, q) ==> Occupied(persons, q)
    ensures FreeStep(persons, p, tries) == None
  {
  }

  /** `Math.floor(Math.random() * maxWorldRows)`. */
  function GridCoordinate(r: Unit): (c: int)
    ensures 0 <= c < MaxWorldRows
  {
    (r * MaxWorldRows as real).Floor
  }

  /** The cells a sequence of `getUniquePosition` draws proposes. */
  function CellCandidates(draws: seq<DrawPair>): (r: seq<Pos>)
    ensures |r| == |draws|
    ensures forall k :: 0 <= k < |r| ==> InGrid(r[k])
  {
    seq(|draws|, k requires 0 <= k < |draws| => Pos(GridCoordinate(draws[k].rx), GridCoordinate(draws[k].ry)))
  }

  /** `getUniquePosition`: the first drawn grid cell nobody stands on. */
  function UniquePosition(persons: seq<Person>, draws: seq<DrawPair>): (r: Option<Pos>)
    ensures r.Some? ==> InGrid(r.value) && !Occupied(persons, r.value)
    ensures r.Some? ==> exists k :: 0 <= k < |draws| && r.value == CellCandidates(draws)[k]
                          && forall k' :: 0 <= k' < k ==> Occupied(persons, CellCandidates(draws)[k'])
    ensures r.None? <==> forall k :: 0 <= k < |draws| ==> Occupied(persons, CellCandidates(draws)[k])
  {
    var cands := CellCandidates(draws);
    match FirstFree(persons, cands, 0)
    case None => None
    case Some(k) => Some(cands[k])
  }

  /** Every grid cell is drawn by some pair of draws (so a free cell can
      always come up while the grid is not full). */
  lemma EveryCellCanBeDrawn(q: Pos)
    requires InGrid(q)
    ensures CellCandidates([DrawPair(q.x as real / 20.0, q.y as real / 20.0)])[0] == q
  {
  }
}
