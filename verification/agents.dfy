/** The agents of the simulation: `Person` (an abstract class with a
    position and a random diagonal step), its subclass `Patient`, and
    `Doctor`, whose own file is not part of this model and which is treated
    as a person without further state. */
module Agents {

  /** One draw of `Math.random()`: a real number in [0, 1). */
  type Unit = r: real | 0.0 <= r < 1.0

  /** A grid cell. Nothing bounds the coordinates: `step` never clamps. */
  datatype Pos = Pos(x: int, y: int)

  /** Two successive draws, the first used for x, the second for y. */
  datatype DrawPair = DrawPair(rx: Unit, ry: Unit)

  /** `Math.round`: rounds half-way values up. */
  function Round(r: real): int
  {
    (r + 0.5).Floor
  }

  /** A draw rounds to 0 exactly when it is below one half, and to 1 otherwise. */
  lemma RoundCoin(r: Unit)
    ensures Round(r) == 0 <==> r < 0.5
    ensures Round(r) == 0 || Round(r) == 1
  {
  }

  /** One coordinate of `step`: down by one when the draw rounds to 0, up by one otherwise. */
  function StepAxis(c: int, r: Unit): (n: int)
    ensures n == c - 1 <==> r < 0.5
    ensures n == c + 1 <==> r >= 0.5
  {
    RoundCoin(r);
    if Round(r) == 0 then c - 1 else c + 1
  }

  /** `q` is one of the four diagonal neighbours of `p`. */
  predicate Diagonal(p: Pos, q: Pos)
  {
    (q.x == p.x - 1 || q.x == p.x + 1) && (q.y == p.y - 1 || q.y == p.y + 1)
  }

  /** `Person.step`: proposes a diagonal neighbour of the current cell and
      changes nothing (it is a function of the position). */
  function Step(p: Pos, f: DrawPair): (q: Pos)
    ensures Diagonal(p, q)
    ensures q != p
    ensures q.x < p.x <==> f.rx < 0.5
    ensures q.y < p.y <==> f.ry < 0.5
  {
    Pos(StepAxis(p.x, f.rx), StepAxis(p.y, f.ry))
  }

  /** Every diagonal neighbour is reached by some pair of draws, and only by
      the pairs on its side of one half on each axis. */
  lemma StepReachesEveryDiagonal(p: Pos, q: Pos)
    requires Diagonal(p, q)
    ensures Step(p, DrawPair(if q.x < p.x then 0.0 else 0.5, if q.y < p.y then 0.0 else 0.5)) == q
  {
  }

  /** `step` does no bounds checking: from a corner cell it can leave the grid. */
  lemma StepMayLeaveGrid()
    ensures Step(Pos(0, 0), DrawPair(0.0, 0.0)) == Pos(-1, -1)
  {
  }

  /** A live agent. A `Patient` carries its death threshold, the number of
      cycles counted since creation or the last cure, and its health; the
      `infected` constructor argument is only used to set `healthy`. */
  datatype Person =
    | Patient(position: Pos, cyclesBeforeDeath: int, currentInfectionCycle: nat, healthy: bool)
    | Doctor(position: Pos)

  /** `Person.setPosition`: the new position is the only thing that changes. */
  function SetPosition(p: Person, q: Pos): (r: Person)
    ensures r.position == q
    ensures r.Patient? == p.Patient?
    ensures r.Patient? ==> r.cyclesBeforeDeath == p.cyclesBeforeDeath
                           && r.currentInfectionCycle == p.currentInfectionCycle
                           && r.healthy == p.healthy
  {
    p.(position := q)
  }

  /** The `Patient` constructor: infected as asked, nothing counted yet. */
  function NewPatient(position: Pos, cyclesBeforeDeath: int, infected: bool): (r: Person)
    ensures r.Patient? && r.position == position && r.cyclesBeforeDeath == cyclesBeforeDeath
    ensures IsInfected(r) == infected
    ensures r.currentInfectionCycle == 0
  {
    Patient(position, cyclesBeforeDeath, 0, !infected)
  }

  /** The `instanceof Patient && isInfected()` test the component applies:
      a doctor is never infected, a patient is infected when not healthy. */
  predicate IsInfected(p: Person)
  {
    p.Patient? && !p.healthy
  }

  /** `Patient.infectByPatient`: takes over the other patient's infection
      status; the counter and the death threshold are untouched. */
  function InfectByPatient(p: Person, other: Person): (r: Person)
    requires p.Patient? && other.Patient?
    ensures r.Patient? && r.position == p.position
    ensures IsInfected(r) == IsInfected(other)
    ensures r.currentInfectionCycle == p.currentInfectionCycle
    ensures r.cyclesBeforeDeath == p.cyclesBeforeDeath
  {
    p.(healthy := !IsInfected(other))
  }

  /** `Patient.cureByDoctor`: health becomes whatever `Doctor.curePatient`
      answered (`doctorSays`), the counter restarts from 0. */
  function CureByDoctor(p: Person, doctorSays: bool): (r: Person)
    requires p.Patient?
    ensures r.Patient? && r.position == p.position
    ensures IsInfected(r) == !doctorSays
    ensures r.currentInfectionCycle == 0
    ensures r.cyclesBeforeDeath == p.cyclesBeforeDeath
  {
    p.(healthy := doctorSays, currentInfectionCycle := 0)
  }

  /** `Patient.countInfectionCycle`: one more cycle, infected or not. */
  function CountInfectionCycle(p: Person): (r: Person)
    requires p.Patient?
    ensures r.Patient? && r.position == p.position
    ensures r.currentInfectionCycle == p.currentInfectionCycle + 1
    ensures r.healthy == p.healthy && r.cyclesBeforeDeath == p.cyclesBeforeDeath
  {
    p.(currentInfectionCycle := p.currentInfectionCycle + 1)
  }

  /** `Patient.isPassedAway`. */
  predicate IsPassedAway(p: Person)
    requires p.Patient?
  {
    p.currentInfectionCycle >= p.cyclesBeforeDeath
  }

  /** Counting cycles never brings a patient back: once passed away, it stays
      so however many more cycles are counted. */
  lemma {:induction false} PassedAwayIsStable(p: Person, n: nat)
    requires p.Patient? && IsPassedAway(p)
    ensures IsPassedAway(CountCycles(p, n))
    ensures CountCycles(p, n).currentInfectionCycle == p.currentInfectionCycle + n
  {
    if n > 0 {
      PassedAwayIsStable(p, n - 1);
    }
  }

  /** `n` calls of `countInfectionCycle` in a row. */
  function CountCycles(p: Person, n: nat): (r: Person)
    requires p.Patient?
    ensures r.Patient?
    decreases n
  {
    if n == 0 then p else CountInfectionCycle(CountCycles(p, n - 1))
  }

  /** A patient, infected or healthy, passes away after exactly enough
      counted cycles unless a cure intervenes: the counter ignores health. */
  lemma {:induction false} EveryPatientDiesUncured(p: Person)
    requires p.Patient? && p.currentInfectionCycle == 0 && p.cyclesBeforeDeath >= 0
    ensures IsPassedAway(CountCycles(p, p.cyclesBeforeDeath as nat))
    ensures forall n: nat :: n < p.cyclesBeforeDeath ==> !IsPassedAway(CountCycles(p, n))
  {
    CountCyclesAdds(p, p.cyclesBeforeDeath as nat);
    forall n: nat | n < p.cyclesBeforeDeath
      ensures !IsPassedAway(CountCycles(p, n))
    {
      CountCyclesAdds(p, n);
    }
  }

  lemma {:induction false} CountCyclesAdds(p: Person, n: nat)
    requires p.Patient?
    ensures CountCycles(p, n).currentInfectionCycle == p.currentInfectionCycle + n
    ensures CountCycles(p, n).healthy == p.healthy
    ensures CountCycles(p, n).cyclesBeforeDeath == p.cyclesBeforeDeath
    ensures CountCycles(p, n).position == p.position
  {
    if n > 0 {
      CountCyclesAdds(p, n - 1);
    }
  }

  /** Only a cure brings the counter back: after it, the patient is alive
      again unless its threshold is not positive. */
  lemma CureRevives(p: Person, doctorSays: bool)
    requires p.Patient? && IsPassedAway(p)
    ensures IsPassedAway(CureByDoctor(p, doctorSays)) <==> p.cyclesBeforeDeath <= 0
  {
  }
}
