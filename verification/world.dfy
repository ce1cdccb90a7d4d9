/** `WorldComponent`: the population, the counters, creating a run, and
    the per-cycle moves of patients and doctors. Every `Math.random()` the
    component (or `step`) would call is a draw passed in. */
module World {
  import opened Options
  import opened Agents
  import opened Occupancy
  import opened Config

  /** The component's state. `positions` is the display grid `createWorld`
      fills; `persons` the live patients and doctors in list order;
      `deceased` the patients that passed away, in order of death. */
  datatype World = World(
    positions: seq<seq<int>>,
    persons: seq<Person>,
    deceased: seq<Person>,
    cured: nat,
    infectionCycle: nat,
    infectiousness: int
  )

  /** The component as constructed. `infectiousness` is only read once a
      run has started and set it; 0 stands in for its initial `undefined`. */
  const Initial: World := World([], [], [], 0, 0, 0)

  /** No two live persons share a cell. */
  predicate DistinctPositions(persons: seq<Person>)
  {
    forall i, j :: 0 <= i < j < |persons| ==> persons[i].position != persons[j].position
  }

  /** Everybody in `deceased` is a patient that has passed away. */
  predicate AllPassedAway(deceased: seq<Person>)
  {
    forall i :: 0 <= i < |deceased| ==> deceased[i].Patient? && IsPassedAway(deceased[i])
  }

  /** What the component keeps true between cycles. */
  predicate Valid(w: World)
  {
    DistinctPositions(w.persons) && AllPassedAway(w.deceased)
  }

  /** No live patient has reached its threshold: a patient that has is in
      `deceased`, never in the population. */
  predicate AllAlive(persons: seq<Person>)
  {
    forall i :: 0 <= i < |persons| ==> persons[i].Patient? ==> !IsPassedAway(persons[i])
  }

  /** `q` is `p` still on its cell and, for a patient, with no cycle counted
      since: at most a doctor's cure happened to it. */
  predicate NotVisited(p: Person, q: Person)
  {
    && q.position == p.position && q.Patient? == p.Patient?
    && (p.Patient? ==> q.cyclesBeforeDeath == p.cyclesBeforeDeath && q.currentInfectionCycle <= p.currentInfectionCycle)
  }

  predicate NoDoctors(persons: seq<Person>)
  {
    forall i :: 0 <= i < |persons| ==> persons[i].Patient?
  }

  // ---------------------------------------------------------------------
  // Counters and getters

  /** The number of infected patients among `persons` (doctors never count). */
  function CountInfected(persons: seq<Person>): (n: nat)
    ensures n <= |persons|
    ensures n == 0 <==> forall i :: 0 <= i < |persons| ==> !IsInfected(persons[i])
  {
    if |persons| == 0 then 0
    else CountInfected(persons[..|persons| - 1]) + (if IsInfected(persons[|persons| - 1]) then 1 else 0)
  }

  /** The number of passed-away patients among `persons`. */
  function CountPassedAway(persons: seq<Person>): (n: nat)
    ensures n <= |persons|
    ensures n == |persons| <==> AllPassedAway(persons)
  {
    if |persons| == 0 then 0
    else
      var last := persons[|persons| - 1];
      CountPassedAway(persons[..|persons| - 1]) + (if last.Patient? && IsPassedAway(last) then 1 else 0)
  }

  /** `getNumberInfected`: zero exactly when no live patient is infected. */
  function NumberInfected(w: World): (n: nat)
    ensures n <= |w.persons|
    ensures n == 0 <==> forall i :: 0 <= i < |w.persons| ==> !IsInfected(w.persons[i])
  {
    CountInfected(w.persons)
  }

  /** `getNumberDeath`: it filters `deceased` again, which in a valid world
      keeps every entry. */
  function NumberDeath(w: World): (n: nat)
    ensures Valid(w) ==> n == |w.deceased|
  {
    CountPassedAway(w.deceased)
  }

  /** `shouldStopWorld`: the run is over once no live patient is infected. */
  function ShouldStopWorld(w: World): (stop: bool)
    ensures stop <==> forall i :: 0 <= i < |w.persons| ==> !IsInfected(w.persons[i])
  {
    NumberInfected(w) <= 0
  }

  /** `resetWorld`: empties the grid and the population and zeroes both
      counters; the last run's infectiousness is left as it was. */
  function ResetWorld(w: World): (r: World)
    ensures r.positions == [] && r.persons == [] && r.deceased == []
    ensures r.cured == 0 && r.infectionCycle == 0
    ensures Valid(r) && ShouldStopWorld(r)
    ensures r.infectiousness == w.infectiousness
  {
    World([], [], [], 0, 0, w.infectiousness)
  }

  // ---------------------------------------------------------------------
  // Starting a run

  /** Appending a person on a free cell keeps positions distinct. */
  lemma AppendFreeKeepsDistinct(persons: seq<Person>, next: seq<Person>)
    requires |next| == |persons| + 1 && persons <= next
    requires !Occupied(persons, next[|persons|].position)
    ensures DistinctPositions(next) <==> DistinctPositions(persons)
  {
  }

  /** One row of the display grid: the numbers 0 to `MaxWorldRows - 1`. */
  function GridRow(): (row: seq<int>)
    ensures |row| == MaxWorldRows
    ensures forall k :: 0 <= k < |row| ==> row[k] == k
  {
    seq(MaxWorldRows, k => k)
  }

  /** `createWorld`: appends `MaxWorldRows` rows to whatever grid there is
      (nothing clears it first, so starting twice doubles it). */
  function CreateWorld(w: World): (r: World)
    ensures |r.positions| == |w.positions| + MaxWorldRows
    ensures r.positions[..|w.positions|] == w.positions
    ensures forall k :: |w.positions| <= k < |r.positions| ==> r.positions[k] == GridRow()
    ensures r.persons == w.persons && r.deceased == w.deceased
    ensures r.cured == w.cured && r.infectionCycle == w.infectionCycle
    ensures r.infectiousness == w.infectiousness
  {
    w.(positions := w.positions + seq(MaxWorldRows, _ => GridRow()))
  }

  function Min(a: int, b: int): int { if a <= b then a else b }
  function Max(a: int, b: int): int { if a >= b then a else b }

  /** A sequence whose `j`-th person is infected exactly when `j <= m` holds
      `min(length, max(0, m + 1))` infected patients. */
  lemma {:induction false} InfectedPrefixCount(s: seq<Person>, m: int)
    requires forall j :: 0 <= j < |s| ==> (IsInfected(s[j]) <==> j <= m)
    ensures CountInfected(s) == Min(|s|, Max(0, m + 1))
  {
    if |s| > 0 {
      var init := s[..|s| - 1];
      assert forall j :: 0 <= j < |init| ==> init[j] == s[j];
      InfectedPrefixCount(init, m);
    }
  }

  /** `createPatients` from its `i`-th iteration on: patient `i` is placed on
      a fresh cell drawn with `draws[i]` and is infected exactly when
      `i <= nInfected`, so that a run starts with `min(n, nInfected + 1)`
      infected patients (none for a negative request). `None` when some placement ran out of draws. */
  function CreatePatients(persons: seq<Person>, n: int, nInfected: int, cycles: int,
                          draws: seq<seq<DrawPair>>, i: nat): (r: Option<seq<Person>>)
    requires n <= |draws|
    ensures r.Some? ==> |r.value| == |persons| + (if i < n then n - i else 0)
    ensures r.Some? ==> persons <= r.value
    ensures r.Some? ==> forall j :: |persons| <= j < |r.value| ==>
              && r.value[j].Patient? && InGrid(r.value[j].position)
              && r.value[j].cyclesBeforeDeath == cycles && r.value[j].currentInfectionCycle == 0
              && (IsInfected(r.value[j]) <==> i + (j - |persons|) <= nInfected)
    ensures r.Some? && DistinctPositions(persons) ==> DistinctPositions(r.value)
    ensures r.Some? ==> CountInfected(r.value[|persons|..]) == Min(|r.value| - |persons|, Max(0, nInfected - i + 1))
    decreases n - i
  {
    if i >= n then
      assert persons[|persons|..] == [];
      Some(persons)
    else
      match UniquePosition(persons, draws[i])
      case None => None
      case Some(q) =>
        var next := persons + [NewPatient(q, cycles, i <= nInfected)];
        AppendFreeKeepsDistinct(persons, next);
        var res := CreatePatients(next, n, nInfected, cycles, draws, i + 1);
        if res.None? then None
        else
          var created := res.value[|persons|..];
          assert forall j :: 0 <= j < |created| ==> created[j] == res.value[|persons| + j];
          InfectedPrefixCount(created, nInfected - i);
          res
  }

  /** `createDoctors` from its `i`-th iteration on. */
  function CreateDoctors(persons: seq<Person>, n: int, draws: seq<seq<DrawPair>>, i: nat): (r: Option<seq<Person>>)
    requires n <= |draws|
    ensures r.Some? ==> |r.value| == |persons| + (if i < n then n - i else 0)
    ensures r.Some? ==> persons <= r.value
    ensures r.Some? ==> forall j :: |persons| <= j < |r.value| ==>
              r.value[j].Doctor? && InGrid(r.value[j].position)
    ensures r.Some? && DistinctPositions(persons) ==> DistinctPositions(r.value)
    decreases n - i
  {
    if i >= n then Some(persons)
    else
      match UniquePosition(persons, draws[i])
      case None => None
      case Some(q) =>
        var next := persons + [Doctor(q)];
        AppendFreeKeepsDistinct(persons, next);
        CreateDoctors(next, n, draws, i + 1)
  }

  /** `createPersons`: the patients, then the doctors, appended to the
      population. */
  function CreatePersons(persons: seq<Person>, params: Params,
                         patientDraws: seq<seq<DrawPair>>, doctorDraws: seq<seq<DrawPair>>): (r: Option<seq<Person>>)
    requires params.patients.n <= |patientDraws| && params.doctors.n <= |doctorDraws|
    ensures r.Some? ==> persons <= r.value
    ensures r.Some? ==> |r.value| == |persons| + Max(params.patients.n, 0) + Max(params.doctors.n, 0)
    ensures r.Some? ==>
              var doctorsFrom := |persons| + Max(params.patients.n, 0);
              && (forall j :: |persons| <= j < |r.value| ==> InGrid(r.value[j].position))
              && (forall j :: |persons| <= j < doctorsFrom ==>
                    && r.value[j].Patient?
                    && r.value[j].cyclesBeforeDeath == params.cycles.n
                    && r.value[j].currentInfectionCycle == 0
                    && (IsInfected(r.value[j]) <==> j - |persons| <= params.infected.n))
              && (forall j :: doctorsFrom <= j < |r.value| ==> r.value[j].Doctor?)
    ensures r.Some? && DistinctPositions(persons) ==> DistinctPositions(r.value)
    ensures r.Some? && AllAlive(persons) && params.cycles.n >= 1 ==> AllAlive(r.value)
  {
    match CreatePatients(persons, params.patients.n, params.infected.n, params.cycles.n, patientDraws, 0)
    case None => None
    case Some(withPatients) =>
      match CreateDoctors(withPatients, params.doctors.n, doctorDraws, 0)
      case None => None
      case Some(all) =>
        assert forall j :: 0 <= j < |withPatients| ==> all[j] == withPatients[j];
        assert forall j :: 0 <= j < |persons| ==> all[j] == persons[j];
        Some(all)
  }

  /** `startWorld` up to the interval: builds the grid, creates the persons,
      and reads the infectiousness. Nothing is cleared and no counter is
      reset here; that is `resetWorld`'s job. */
  function StartWorld(w: World, params: Params,
                      patientDraws: seq<seq<DrawPair>>, doctorDraws: seq<seq<DrawPair>>): (r: Option<World>)
    requires params.patients.n <= |patientDraws| && params.doctors.n <= |doctorDraws|
    ensures r.Some? <==> CreatePersons(w.persons, params, patientDraws, doctorDraws).Some?
    ensures r.Some? ==> r.value.persons == CreatePersons(w.persons, params, patientDraws, doctorDraws).value
    ensures r.Some? ==> |r.value.positions| == |w.positions| + MaxWorldRows && w.positions <= r.value.positions
    ensures r.Some? ==> r.value.deceased == w.deceased && r.value.cured == w.cured
                        && r.value.infectionCycle == w.infectionCycle
    ensures r.Some? ==> r.value.infectiousness == params.infectiousness.n
    ensures r.Some? && Valid(w) ==> Valid(r.value)
    ensures r.Some? && AllAlive(w.persons) && params.cycles.n >= 1 ==> AllAlive(r.value.persons)
  {
    var w1 := CreateWorld(w);
    match CreatePersons(w1.persons, params, patientDraws, doctorDraws)
    case None => None
    case Some(all) => Some(w1.(persons := all, infectiousness := params.infectiousness.n))
  }

  /** A started run holds `min(patients, infected + 1)` infected patients
      among the ones it created: one more than the slider asks for whenever
      it asks for fewer than `patients`, and all of them otherwise. */
  lemma {:induction false} StartInfectedCount(w: World, params: Params,
                                              patientDraws: seq<seq<DrawPair>>, doctorDraws: seq<seq<DrawPair>>)
    requires params.patients.n <= |patientDraws| && params.doctors.n <= |doctorDraws|
    requires StartWorld(w, params, patientDraws, doctorDraws).Some?
    ensures var persons := StartWorld(w, params, patientDraws, doctorDraws).value.persons;
            CountInfected(persons[|w.persons|..|w.persons| + Max(params.patients.n, 0)])
              == Min(Max(params.patients.n, 0), Max(0, params.infected.n + 1))
  {
    var persons := StartWorld(w, params, patientDraws, doctorDraws).value.persons;
    var created := persons[|w.persons|..|w.persons| + Max(params.patients.n, 0)];
    assert forall j :: 0 <= j < |created| ==> created[j] == persons[|w.persons| + j];
    InfectedPrefixCount(created, params.infected.n);
  }

  // ---------------------------------------------------------------------
  // One move

  /** The draws one person's move uses: the first `step`, the infection
      roll, the `step`s of the retry loop, and what `Doctor.curePatient`
      answers (its file is not part of this model, so its answer is an input). */
  datatype MoveDraws = MoveDraws(proposal: DrawPair, roll: Unit, retries: seq<DrawPair>, doctorSays: bool)

  /** `Math.random() >= this.infectiousness / 10`. */
  predicate ShouldInfect(roll: Unit, infectiousness: int)
  {
    roll >= infectiousness as real / 10.0
  }

  /** The roll is compared with a tenth of the slider value and infects on
      the high side: a value of 0 or less always infects, a value of 10 or
      more never does, and raising the value never makes an infection more
      likely. */
  lemma InfectionRoll(roll: Unit, infectiousness: int, lower: int)
    ensures infectiousness <= 0 ==> ShouldInfect(roll, infectiousness)
    ensures infectiousness >= 10 ==> !ShouldInfect(roll, infectiousness)
    ensures lower <= infectiousness && ShouldInfect(roll, infectiousness) ==> ShouldInfect(roll, lower)
  {
  }

  /** The first occupant of `q` is an infected patient. */
  predicate FirstOccupantInfected(persons: seq<Person>, q: Pos)
  {
    var o := PersonOnPosition(persons, q);
    o.Some? && IsInfected(persons[o.value])
  }

  /** `markAsPassedAway`: takes the patient at `i` out of the population and
      appends it, as it now is, to `deceased`. */
  function MarkAsPassedAway(w: World, i: nat, p: Person): (r: World)
    requires i < |w.persons|
    ensures |r.persons| == |w.persons| - 1
    ensures forall j :: 0 <= j < i ==> r.persons[j] == w.persons[j]
    ensures forall j :: i <= j < |r.persons| ==> r.persons[j] == w.persons[j + 1]
    ensures |r.deceased| == |w.deceased| + 1
    ensures w.deceased <= r.deceased && r.deceased[|w.deceased|] == p
    ensures r.positions == w.positions && r.cured == w.cured
    ensures r.infectionCycle == w.infectionCycle && r.infectiousness == w.infectiousness
  {
    w.(persons := w.persons[..i] + w.persons[i + 1..], deceased := w.deceased + [p])
  }

  /** The exposure step of `doMovePatient`: when the proposed cell's first
      occupant is an infected patient and the roll says so, the mover takes
      over that occupant's (infected) status; otherwise nothing changes. */
  function Expose(persons: seq<Person>, mover: Person, proposed: Pos, roll: Unit, infectiousness: int): (r: Person)
    requires mover.Patient?
    ensures r.Patient? && r.position == mover.position
    ensures FirstOccupantInfected(persons, proposed) && ShouldInfect(roll, infectiousness) ==> IsInfected(r)
    ensures !(FirstOccupantInfected(persons, proposed) && ShouldInfect(roll, infectiousness)) ==> r.healthy == mover.healthy
    ensures r.currentInfectionCycle == mover.currentInfectionCycle && r.cyclesBeforeDeath == mover.cyclesBeforeDeath
  {
    match PersonOnPosition(persons, proposed)
    case None => mover
    case Some(j) =>
      if IsInfected(persons[j]) && ShouldInfect(roll, infectiousness) then InfectByPatient(mover, persons[j])
      else mover
  }

  /** `doMovePatient` for the patient at index `i`: count a cycle; if that
      was its last, it moves to `deceased` and does nothing else; otherwise
      it may catch the infection from whoever stands on its first proposed
      cell, and moves to the first free cell its retry draws propose. */
  function DoMovePatient(w: World, i: nat, d: MoveDraws): (r: Option<World>)
    requires i < |w.persons| && w.persons[i].Patient?
    ensures IsPassedAway(CountInfectionCycle(w.persons[i])) ==>
              && r.Some?
              && |r.value.persons| == |w.persons| - 1
              && (forall j :: 0 <= j < i ==> r.value.persons[j] == w.persons[j])
              && (forall j :: i <= j < |r.value.persons| ==> r.value.persons[j] == w.persons[j + 1])
              && r.value.deceased == w.deceased + [CountInfectionCycle(w.persons[i])]
    ensures !IsPassedAway(CountInfectionCycle(w.persons[i])) ==>
              (r.None? <==> forall k :: 0 <= k < |d.retries| ==> Occupied(w.persons, Step(w.persons[i].position, d.retries[k])))
    ensures !IsPassedAway(CountInfectionCycle(w.persons[i])) && r.Some? ==>
              && |r.value.persons| == |w.persons| && r.value.deceased == w.deceased
              && (forall j :: 0 <= j < |w.persons| && j != i ==> r.value.persons[j] == w.persons[j])
    ensures !IsPassedAway(CountInfectionCycle(w.persons[i])) && r.Some? && |r.value.persons| == |w.persons| ==>
              var p := w.persons[i];
              var p' := r.value.persons[i];
              var exposed := FirstOccupantInfected(w.persons, Step(p.position, d.proposal))
                             && ShouldInfect(d.roll, w.infectiousness);
              && p'.Patient? && p'.cyclesBeforeDeath == p.cyclesBeforeDeath
              && p'.currentInfectionCycle == p.currentInfectionCycle + 1
              && Diagonal(p.position, p'.position) && !Occupied(w.persons, p'.position)
              && (exposed ==> IsInfected(p'))
              && (!exposed ==> p'.healthy == p.healthy)
    ensures r.Some? ==> |r.value.persons| + |r.value.deceased| == |w.persons| + |w.deceased|
    ensures r.Some? ==> r.value.cured == w.cured && r.value.infectionCycle == w.infectionCycle
                        && r.value.infectiousness == w.infectiousness && r.value.positions == w.positions
    ensures r.Some? && Valid(w) ==> Valid(r.value)
  {
    var p := w.persons[i];
    var proposed := Step(p.position, d.proposal);
    var counted := CountInfectionCycle(p);
    if IsPassedAway(counted) then
      Some(MarkAsPassedAway(w, i, counted))
    else
      var exposed := Expose(w.persons, counted, proposed, d.roll, w.infectiousness);
      match FreeStep(w.persons, p.position, d.retries)
      case None => None
      case Some(q) => Some(w.(persons := w.persons[i := SetPosition(exposed, q)]))
  }

  /** The cure step of `doMoveDoctor`: when the proposed cell's first occupant
      is an infected patient, its health becomes the doctor's answer, its
      counter restarts, and `cured` goes up by one whatever the answer. */
  function Cure(w: World, proposed: Pos, doctorSays: bool): (r: World)
    ensures |r.persons| == |w.persons|
    ensures FirstOccupantInfected(w.persons, proposed) ==>
              var j := PersonOnPosition(w.persons, proposed).value;
              && r.cured == w.cured + 1
              && r.persons[j].Patient? && r.persons[j].position == proposed
              && r.persons[j].healthy == doctorSays && r.persons[j].currentInfectionCycle == 0
              && r.persons[j].cyclesBeforeDeath == w.persons[j].cyclesBeforeDeath
              && forall k :: 0 <= k < |w.persons| && k != j ==> r.persons[k] == w.persons[k]
    ensures !FirstOccupantInfected(w.persons, proposed) ==> r.persons == w.persons && r.cured == w.cured
    ensures r.deceased == w.deceased && r.positions == w.positions
    ensures r.infectionCycle == w.infectionCycle && r.infectiousness == w.infectiousness
  {
    match PersonOnPosition(w.persons, proposed)
    case None => w
    case Some(j) =>
      if IsInfected(w.persons[j]) then
        w.(persons := w.persons[j := CureByDoctor(w.persons[j], doctorSays)], cured := w.cured + 1)
      else w
  }

  /** A cure moves nobody: every person keeps its cell, so the same cells
      are occupied before and after. */
  lemma CureKeepsCells(w: World, proposed: Pos, doctorSays: bool)
    ensures |Cure(w, proposed, doctorSays).persons| == |w.persons|
    ensures forall j :: 0 <= j < |w.persons| ==> Cure(w, proposed, doctorSays).persons[j].position == w.persons[j].position
    ensures forall q :: Occupied(Cure(w, proposed, doctorSays).persons, q) <==> Occupied(w.persons, q)
  {
    var w1 := Cure(w, proposed, doctorSays);
    assert forall j :: 0 <= j < |w.persons| ==> w1.persons[j].position == w.persons[j].position;
    forall q ensures Occupied(w1.persons, q) <==> Occupied(w.persons, q) {
      if Occupied(w.persons, q) {
        var k :| 0 <= k < |w.persons| && w.persons[k].position == q;
        assert w1.persons[k].position == q;
      }
    }
  }

  /** `doMoveDoctor` for the doctor at index `i`: cure the infected patient
      first found on the proposed cell, if any, then move to the first free
      cell the retry draws propose. */
  function DoMoveDoctor(w: World, i: nat, d: MoveDraws): (r: Option<World>)
    requires i < |w.persons| && w.persons[i].Doctor?
    ensures r.None? <==> forall k :: 0 <= k < |d.retries| ==> Occupied(w.persons, Step(w.persons[i].position, d.retries[k]))
    ensures r.Some? ==> r.value.cured == w.cured + (if FirstOccupantInfected(w.persons, Step(w.persons[i].position, d.proposal)) then 1 else 0)
    ensures r.Some? ==>
              var proposed := Step(w.persons[i].position, d.proposal);
              var o := PersonOnPosition(w.persons, proposed);
              && |r.value.persons| == |w.persons|
              && r.value.persons[i].Doctor?
              && Diagonal(w.persons[i].position, r.value.persons[i].position)
              && !Occupied(w.persons, r.value.persons[i].position)
              && (forall j :: 0 <= j < |w.persons| && j != i && !(o == Some(j) && FirstOccupantInfected(w.persons, proposed))
                    ==> r.value.persons[j] == w.persons[j])
              && (FirstOccupantInfected(w.persons, proposed) ==>
                    && r.value.persons[o.value].Patient?
                    && r.value.persons[o.value].position == w.persons[o.value].position
                    && r.value.persons[o.value].currentInfectionCycle == 0
                    && r.value.persons[o.value].healthy == d.doctorSays
                    && r.value.persons[o.value].cyclesBeforeDeath == w.persons[o.value].cyclesBeforeDeath)
    ensures r.Some? ==> r.value.deceased == w.deceased && r.value.infectionCycle == w.infectionCycle
                        && r.value.infectiousness == w.infectiousness && r.value.positions == w.positions
    ensures r.Some? && Valid(w) ==> Valid(r.value)
  {
    var doctor := w.persons[i];
    var proposed := Step(doctor.position, d.proposal);
    var w1 := Cure(w, proposed, d.doctorSays);
    CureKeepsCells(w, proposed, d.doctorSays);
    match FreeStep(w1.persons, doctor.position, d.retries)
    case None => None
    case Some(q) => Some(w1.(persons := w1.persons[i := SetPosition(w1.persons[i], q)]))
  }

  /** `doMove`: dispatch on the kind of person. */
  function DoMove(w: World, i: nat, d: MoveDraws): (r: Option<World>)
    requires i < |w.persons|
    ensures r.Some? ==> |r.value.persons| + |r.value.deceased| == |w.persons| + |w.deceased|
    ensures r.Some? ==> |r.value.persons| <= |w.persons|
    ensures r.Some? ==> w.deceased <= r.value.deceased
    ensures r.Some? ==> r.value.cured >= w.cured && r.value.infectionCycle == w.infectionCycle
    ensures r.Some? && NoDoctors(w.persons) ==> r.value.cured == w.cured && NoDoctors(r.value.persons)
    ensures r.Some? && Valid(w) ==> Valid(r.value)
    ensures r.Some? && AllAlive(w.persons) ==> AllAlive(r.value.persons)
    ensures r.Some? ==> i <= |r.value.persons| && forall j :: 0 <= j < i ==> NotVisited(w.persons[j], r.value.persons[j])
    ensures r.Some? ==> r.value.infectiousness == w.infectiousness && r.value.positions == w.positions
  {
    if w.persons[i].Patient? then DoMovePatient(w, i, d) else DoMoveDoctor(w, i, d)
  }

  // ---------------------------------------------------------------------
  // One cycle

  /** `persons.forEach(doMove)` from index `i` on. `forEach` visits indices in
      increasing order against the live array, so when `markAsPassedAway`
      splices out the person at `i`, the one that slides into `i` is not
      visited this cycle. Person `i` uses `draws[i]`. */
  function RunFrom(w: World, draws: seq<MoveDraws>, i: nat): (r: Option<World>)
    requires |w.persons| <= |draws|
    ensures r.Some? ==> |r.value.persons| + |r.value.deceased| == |w.persons| + |w.deceased|
    ensures r.Some? ==> w.deceased <= r.value.deceased
    ensures r.Some? ==> r.value.cured >= w.cured && r.value.infectionCycle == w.infectionCycle
    ensures r.Some? && NoDoctors(w.persons) ==> r.value.cured == w.cured && NoDoctors(r.value.persons)
    ensures r.Some? && Valid(w) ==> Valid(r.value)
    ensures r.Some? && AllAlive(w.persons) ==> AllAlive(r.value.persons)
    ensures r.Some? ==> Min(i, |w.persons|) <= |r.value.persons|
    ensures r.Some? ==> forall j :: 0 <= j < i && j < |w.persons| ==> NotVisited(w.persons[j], r.value.persons[j])
    ensures r.Some? ==> r.value.infectiousness == w.infectiousness && r.value.positions == w.positions
    decreases |w.persons| - i
  {
    if i >= |w.persons| then Some(w)
    else
      match DoMove(w, i, draws[i])
      case None => None
      case Some(w') => RunFrom(w', draws, i + 1)
  }

  /** What one firing of the interval leaves: the world, and whether it
      asks to stop (`shouldStopWorld` after the moves). */
  datatype TickOutcome = TickOutcome(world: World, stop: bool)

  /** The body of the interval in `startWorld`: count the cycle, move every
      person, then evaluate the stop predicate. */
  function Tick(w: World, draws: seq<MoveDraws>): (r: Option<TickOutcome>)
    requires |w.persons| <= |draws|
    ensures r.Some? ==> r.value.world.infectionCycle == w.infectionCycle + 1
    ensures r.Some? ==> |r.value.world.persons| + |r.value.world.deceased| == |w.persons| + |w.deceased|
    ensures r.Some? ==> w.deceased <= r.value.world.deceased
    ensures r.Some? ==> r.value.world.cured >= w.cured
    ensures r.Some? && NoDoctors(w.persons) ==> r.value.world.cured == w.cured && NoDoctors(r.value.world.persons)
    ensures r.Some? && Valid(w) ==> Valid(r.value.world)
    ensures r.Some? && AllAlive(w.persons) ==> AllAlive(r.value.world.persons)
    ensures r.Some? ==> r.value.world.infectiousness == w.infectiousness && r.value.world.positions == w.positions
    ensures r.Some? ==> (r.value.stop <==> forall j :: 0 <= j < |r.value.world.persons| ==> !IsInfected(r.value.world.persons[j]))
  {
    match RunFrom(w.(infectionCycle := w.infectionCycle + 1), draws, 0)
    case None => None
    case Some(w') => Some(TickOutcome(w', ShouldStopWorld(w')))
  }
}
