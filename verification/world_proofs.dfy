/** Properties of whole runs: the infected count `createPatients` produces,
    the repeated interval until the stop predicate holds, and the person
    skipped after a death. */
module WorldProofs {
  import opened Options
  import opened Agents
  import opened World

  /** The interval of `startWorld`, firing once per element of `ticks` until a
      firing reports that the world should stop (the component then emits
      `stop`, which clears the interval). `None` when a retry loop ran out
      of draws. */
  function Simulate(w: World, ticks: seq<seq<MoveDraws>>): (r: Option<World>)
    requires forall k :: 0 <= k < |ticks| ==> |w.persons| <= |ticks[k]|
    ensures r.Some? ==> |r.value.persons| + |r.value.deceased| == |w.persons| + |w.deceased|
    ensures r.Some? ==> w.deceased <= r.value.deceased
    ensures r.Some? ==> w.infectionCycle <= r.value.infectionCycle <= w.infectionCycle + |ticks|
    ensures r.Some? ==> r.value.cured >= w.cured
    ensures r.Some? && NoDoctors(w.persons) ==> r.value.cured == w.cured
    ensures r.Some? && Valid(w) ==> Valid(r.value)
    ensures r.Some? && AllAlive(w.persons) ==> AllAlive(r.value.persons)
    ensures r.Some? ==> r.value.infectiousness == w.infectiousness && r.value.positions == w.positions
    decreases |ticks|
  {
    if |ticks| == 0 then Some(w)
    else
      var t := Tick(w, ticks[0]);
      if t.None? then None
      else if t.value.stop then Some(t.value.world)
      else
        var w' := t.value.world;
        var rest := ticks[1..];
        assert |w'.persons| <= |w.persons|;
        assert forall k :: 0 <= k < |rest| ==> |w'.persons| <= |rest[k]|;
        Simulate(w', rest)
  }

  /** A run started from `resetWorld` with no doctors never cures anybody,
      keeps positions distinct, and never loses or duplicates a patient. */
  lemma NoDoctorsNoCures(w: World, ticks: seq<seq<MoveDraws>>)
    requires forall k :: 0 <= k < |ticks| ==> |w.persons| <= |ticks[k]|
    requires Valid(w) && NoDoctors(w.persons) && w.cured == 0
    requires Simulate(w, ticks).Some?
    ensures Simulate(w, ticks).value.cured == 0
    ensures Valid(Simulate(w, ticks).value)
  {
  }

  /** When the patient at index `i` passes away during the walk, the person
      that slides into index `i` is not visited in that cycle: whatever the
      rest of the walk does, it ends on the same cell and, for a patient,
      has counted no cycle (only a doctor's cure may have touched it). */
  lemma {:induction false} SkipAfterDeath(w: World, draws: seq<MoveDraws>, i: nat)
    requires |w.persons| <= |draws|
    requires i + 1 < |w.persons| && w.persons[i].Patient?
    requires IsPassedAway(CountInfectionCycle(w.persons[i]))
    ensures var r := RunFrom(w, draws, i);
            r.Some? ==> i < |r.value.persons| && NotVisited(w.persons[i + 1], r.value.persons[i])
  {
    var w' := MarkAsPassedAway(w, i, CountInfectionCycle(w.persons[i]));
    assert DoMove(w, i, draws[i]) == Some(w');
    assert w'.persons[i] == w.persons[i + 1];
  }

  /** The same in a whole firing: a world whose first patient dies this
      cycle and whose second person follows it ends the firing with only
      that second person, unmoved and with no cycle counted. */
  lemma {:induction false} SkipAfterFirstDeath(dying: Person, next: Person, d0: MoveDraws, d1: MoveDraws)
    requires dying.Patient? && IsPassedAway(CountInfectionCycle(dying))
    ensures var w := Initial.(persons := [dying, next]);
            && Tick(w, [d0, d1]).Some?
            && Tick(w, [d0, d1]).value.world.persons == [next]
            && Tick(w, [d0, d1]).value.world.deceased == [CountInfectionCycle(dying)]
  {
    var w := Initial.(persons := [dying, next], infectionCycle := 1);
    var w1 := MarkAsPassedAway(w, 0, CountInfectionCycle(dying));
    assert w1.persons == [next];
    assert DoMove(w, 0, d0) == Some(w1);
    assert RunFrom(w1, [d0, d1], 1) == Some(w1);
    assert RunFrom(w, [d0, d1], 0) == Some(w1);
  }
}
