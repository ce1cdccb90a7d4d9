# Virus outbreak simulator — a Dafny model

This project models the core of a browser-based virus-outbreak simulator,
written in TypeScript, together with its frequency-table outcome predictor.

On a grid, patients and doctors take random diagonal steps. At each step:

- A patient whose first proposed cell holds an infected patient may catch
  the infection.
- A doctor whose proposed cell holds an infected patient cures it.
- Every patient counts at most one infection cycle per tick. It passes
  away once the counter reaches its threshold. The person that slides into
  the index of a patient who just passed away is skipped for that tick and
  counts nothing (`WorldProofs.SkipAfterDeath`).

A run ends when no live patient is infected. A naive-Bayes style service
keeps, per parameter vector, the list of outcomes it has been trained with,
and predicts an outcome by scanning candidate values for the highest score.
Nothing in the simulator calls its `train`.

The model is purely functional. Every `Math.random()` call becomes a draw
passed in as an input, a real in [0, 1) (`Agents.Unit`).

The modules follow the repository's files:

| module | file | models |
|---|---|---|
| `Agents` | agents.dfy | `Person.step`, `getPosition`/`setPosition`, the `Patient` class |
| `Occupancy` | occupancy.dfy | `getPersonOnPosition`, `getUniquePosition`, the `do … while` retry loops |
| `World` | world.dfy | `WorldComponent`: state, getters, `resetWorld`, `createWorld`, `startWorld`, `createPatients`/`createDoctors`, `doMove*`, `markAsPassedAway`, `shouldStopWorld`, one firing of the interval |
| `WorldProofs` | world_proofs.dfy | repeated firings of the interval, the person skipped after a death |
| `Json` | json.dfy | the key built by `getInputAsJSON`, and the proof that the key is injective |
| `Brains` | brains.dfy | `BrainsService`: `train`, `calculateLikelihood`, `calculatePriorProbability`, `calculatePredictor`, the scan of `predict` |
| `BrainsProofs` | brains_proofs.dfy | properties relating training and prediction |
| `Options`, `Config` | options.dfy, config.dfy | `Option`, and the five slider values, each a number or the string a moved slider reports |

Modelling choices that shape the contracts:

- **Retry loops.** Each `do … while` loop gets a finite sequence of draws.
  It answers with the first free candidate, or `None` when the draws run
  out; the component would keep drawing.
  - A move or a tick that meets `None` is itself `None`.
  - A person whose four diagonal cells are all taken gets `None` for every
    supply of draws (`Occupancy.SurroundedNeverSteps`). The component spins
    forever in that case.
- **One cycle.** `World.RunFrom` walks the population by index, against
  the live list. This is how `forEach` behaves when `markAsPassedAway`
  splices during the walk: the person that slides into a dead patient's
  index is not visited in that cycle (`WorldProofs.SkipAfterDeath`).
- **Doctors.** `Doctor` is not part of this model. The answer of
  `Doctor.curePatient()` is an input of each move (`doctorSays`). The
  `cured` counter goes up whatever that answer is, as in the code.
- **The predictor key.** It is modelled as the real string
  `{"infectiousness":…,"doctors":…,"patients":…,"infected":…,"cycles":…}`.
  A slider starts with a number, and holds the range input's string once
  the user has moved it (slider.component.ts, `change`). `JSON.stringify`
  writes the first bare and the second in quotes, while the component's
  arithmetic reads both as the same number (`Config.SliderValue`).
  `Json.InputAsJsonInjective` proves that two parameter vectors share a key
  exactly when all five values agree in number and in kind. So the same
  numbers can give two keys (`Json.MovedSliderChangesKey`).
- **Scores.** They are exact reals. Where JavaScript computes 0/0 (NaN),
  the score is `None`, which never beats the running maximum.
- **Getters.** `getNumberOfCured` and `getCycle` are the fields `cured`
  and `infectionCycle` of `World.World`.

Some behaviour of the code shapes the contracts and is easy to miss:

- The retry loops have no attempt bound: a person keeps drawing until a
  free cell comes up.
- Nothing caps the number of cycles. The run stops only when no live
  patient is infected.
- The placement grid is 20 × 20 (`maxWorldRows`).
- `startWorld` resets nothing. It appends 20 more rows to the display grid
  and appends the new persons to whatever population there is; clearing
  is `resetWorld`'s job.
- The first proposed step only decides whom the person meets. The move
  goes to a fresh step from the retry loop, even when the first cell was
  free.
- The exposure rule is applied only when the occupant is infected, so
  contact never cures a patient.
- The infection roll is `Math.random() >= infectiousness / 10`. A slider
  value of 10 or more never infects, and a higher value never infects more
  (`World.InfectionRoll`).
- Nothing in the component calls `train`.
- A doctor's cure depends on `Doctor.curePatient()`, whose answer is
  unknown here.
- Healthy patients count cycles too, so they also pass away once they have
  counted `cycles` cycles (`Agents.EveryPatientDiesUncured`). A patient
  skipped after a death counts no cycle in that tick
  (`WorldProofs.SkipAfterDeath`), so it can take more ticks than that.
- A patient that reaches its threshold leaves the population in the same
  move, so no live patient is ever at or past it (`World.AllAlive`, kept by
  `World.Tick` and established by `World.StartWorld` when `cycles >= 1`).
- The test `i <= nInfected` creates min(nPatients, nInfected + 1)
  infected patients: one more than asked for whenever `nInfected` is below
  `nPatients`, and every patient when it is not, as with both sliders at
  their default of 50 (`World.StartInfectedCount`).
- The predictor does not weigh how often an outcome was seen. With a single
  key, every observed value scores exactly 1 in exact arithmetic, so
  `predict` answers the smallest one: both 2, 2, 5 and 5, 5, 2 predict 2
  (`BrainsProofs.FrequencyDoesNotDecide`). In doubles the products can miss
  1 by a rounding step (see `Brains.Score` under "Left out").

## Model

| member | source | states |
|---|---|---|
| Agents.RoundCoin | src/app/world/models/person.ts:18 | `Math.round` of a draw is 0 exactly when the draw is below one half, and 1 otherwise |
| Agents.StepAxis | src/app/world/models/person.ts:17-21 | a coordinate goes down by one exactly when its draw is below one half, and up by one otherwise |
| Agents.Step | src/app/world/models/person.ts:16-24 | `step` proposes one of the four diagonal neighbours and never the current cell; the direction on each axis is decided by that axis's draw; being a function of the position, it changes nothing |
| Agents.StepReachesEveryDiagonal | src/app/world/models/person.ts:16-24 | each diagonal neighbour is proposed by some pair of draws |
| Agents.StepMayLeaveGrid | src/app/world/models/person.ts:16-24 | there is no clamping: from cell (0, 0), `step` can propose (-1, -1) |
| Agents.SetPosition | src/app/world/models/person.ts:8-14 | after `setPosition(q)` the position read back is `q`, and kind, counter, threshold and health are unchanged |
| Agents.NewPatient | src/app/world/models/patient.ts:6-14 | a new patient is infected exactly when constructed as infected, and its cycle counter is 0 |
| Agents.InfectByPatient | src/app/world/models/patient.ts:16-22 | `isInfected()` is the negation of `healthy`, so afterwards the patient is infected exactly when the other patient is; counter, threshold and position are untouched |
| Agents.CureByDoctor | src/app/world/models/patient.ts:24-27 | health becomes the doctor's answer, the counter restarts at 0, and the threshold never changes |
| Agents.CountInfectionCycle | src/app/world/models/patient.ts:29-31 | the counter goes up by exactly one, whether or not the patient is infected; nothing else changes |
| Agents.CountCyclesAdds | src/app/world/models/patient.ts:29-31 | `n` counted cycles raise the counter by exactly `n` and leave health, threshold and position alone |
| Agents.PassedAwayIsStable | src/app/world/models/patient.ts:29-35 | once `isPassedAway` holds, any number of further counted cycles keeps it true |
| Agents.EveryPatientDiesUncured | src/app/world/models/patient.ts:29-35 | a fresh patient, healthy or not, is alive for fewer than `cyclesBeforeDeath` counted cycles and passed away after exactly that many |
| Agents.CureRevives | src/app/world/models/patient.ts:24-35 | a cure brings a passed-away patient back to life unless its threshold is not positive |
| Occupancy.OnPosition | src/app/world/world.component.ts:223 | the filter yields exactly the indices of the persons on the cell, in increasing list order |
| Occupancy.PersonOnPosition | src/app/world/world.component.ts:222-228 | `None` (null) exactly when nobody stands on the cell; otherwise the first person in list order who does |
| Occupancy.OccupantIsUnique | src/app/world/world.component.ts:222-228 | when positions are pairwise distinct, the answer is the one person on the cell |
| Occupancy.FirstFree | src/app/world/world.component.ts:133-135 | the retry loop stops at the first candidate nobody occupies, with every earlier candidate occupied; it runs out exactly when all candidates are occupied |
| Occupancy.FreeStep | src/app/world/world.component.ts:133-137 | the committed step is the first proposed diagonal neighbour that nobody occupies, every earlier proposal being occupied; there is none exactly when every proposed cell is occupied |
| Occupancy.NoDrawsNoStep | src/app/world/world.component.ts:133-135 | with no draws, no free cell is found |
| Occupancy.SurroundedNeverSteps | src/app/world/world.component.ts:133-135 | a person whose four diagonal neighbours are taken never finds a free step, whatever the draws |
| Occupancy.GridCoordinate | src/app/world/world.component.ts:191-192 | `Math.floor(Math.random() * maxWorldRows)` lies in [0, 20) |
| Occupancy.CellCandidates | src/app/world/world.component.ts:190-193 | every cell drawn for placement lies on the grid |
| Occupancy.UniquePosition | src/app/world/world.component.ts:187-195 | the cell returned is the first drawn cell that nobody occupies, every earlier drawn cell being occupied, and it lies on the grid; there is none exactly when every drawn cell is taken |
| Occupancy.EveryCellCanBeDrawn | src/app/world/world.component.ts:191-192 | every grid cell is produced by some pair of draws |
| World.CountInfected | src/app/world/world.component.ts:49-51 | the infected count is zero exactly when no person is an infected patient, and never exceeds the population |
| World.NumberInfected | src/app/world/world.component.ts:49-51 | `getNumberInfected` is zero exactly when no live patient is infected |
| World.CountPassedAway | src/app/world/world.component.ts:53-55 | the count equals the list's length exactly when everybody in it is a passed-away patient |
| World.NumberDeath | src/app/world/world.component.ts:53-55 | in a valid world `getNumberDeath` equals the length of `deceased` |
| World.ShouldStopWorld | src/app/world/world.component.ts:216-220 | the run stops exactly when no live patient is infected |
| World.ResetWorld | src/app/world/world.component.ts:98-104 | grid, population and `deceased` are empty, both counters are 0, the world is valid, and it would stop at once |
| World.GridRow | src/app/world/world.component.ts:90-93 | a row holds 0 to 19 in order |
| World.CreateWorld | src/app/world/world.component.ts:88-96 | 20 rows are appended to the existing grid, and everything else is left as it was |
| World.CreatePatients | src/app/world/world.component.ts:168-178 | exactly `nPatients` patients are appended on fresh grid cells, with the given threshold and a zero counter; patient `i` is infected exactly when `i <= nInfected`, so a run starts with min(nPatients, nInfected + 1) infected patients (none when the request is negative), one more than asked for whenever nInfected < nPatients; positions stay distinct |
| World.CreateDoctors | src/app/world/world.component.ts:180-185 | exactly `nDoctors` doctors are appended on fresh grid cells; positions stay distinct |
| World.CreatePersons | src/app/world/world.component.ts:163-185 | the patients, then the doctors, are appended on grid cells: the first max(0, patients) new persons are patients with threshold `cycles` and counter 0, patient `k` infected exactly when `k <= infected`, and the rest are doctors; positions stay distinct; with `cycles >= 1` no new patient starts passed away |
| World.StartWorld | src/app/world/world.component.ts:65-69 | the grid grows by 20 rows, the population is extended as `createPersons` extends it, counters and `deceased` are untouched, the infectiousness is read, validity is kept, and with `cycles >= 1` no live patient has passed away |
| World.StartInfectedCount | src/app/world/world.component.ts:168-178 | a started run holds min(patients, infected + 1) infected new patients (none for a negative request): one more than the slider asks for whenever infected < patients, and all of them otherwise |
| World.InfectionRoll | src/app/world/world.component.ts:127 | the roll always infects for a slider value of 0 or less, never for 10 or more, and a higher value never infects where a lower one would not |
| World.MarkAsPassedAway | src/app/world/world.component.ts:157-161 | exactly the patient at the index leaves the population, in order, and is appended to `deceased`; nothing else changes |
| World.Expose | src/app/world/world.component.ts:123-131 | the mover ends up infected when the proposed cell's first occupant is an infected patient and the roll says so; otherwise its health is unchanged |
| World.DoMovePatient | src/app/world/world.component.ts:114-138 | a patient whose counted cycle is its last moves to `deceased` and neither steps nor is exposed; any other patient counts a cycle, is exposed as above, and moves to a free diagonal cell, with no other person changed; population plus deceased is conserved and validity kept |
| World.Cure | src/app/world/world.component.ts:142-148 | when the first occupant of the proposed cell is an infected patient, it stays a patient on that cell with the same threshold, its counter restarts at 0, its health becomes the doctor's answer (so it may stay infected), `cured` goes up by one, and every other person is unchanged; otherwise persons and `cured` are unchanged; nobody is added or removed |
| World.CureKeepsCells | src/app/world/world.component.ts:142-148 | a cure moves nobody, so the same cells are occupied before and after |
| World.DoMoveDoctor | src/app/world/world.component.ts:140-155 | `cured` goes up by exactly one when the proposed cell's first occupant is an infected patient and by 0 otherwise; that patient's counter is reset and its health set to the doctor's answer; the doctor moves to a free diagonal cell; nobody else changes |
| World.DoMove | src/app/world/world.component.ts:106-112 | a move keeps the infectiousness and the grid, conserves population plus deceased, only appends to `deceased`, never lowers `cured`, leaves `cured` alone when there are no doctors, keeps validity, and leaves no live patient at its threshold; nobody before the mover's index is moved or counts a cycle (at most a doctor cures it) |
| World.RunFrom | src/app/world/world.component.ts:74 | moving everybody in one walk keeps those same properties, the infectiousness and the grid included, and the walk never comes back to an index it has passed |
| World.Tick | src/app/world/world.component.ts:71-85 | a firing counts exactly one cycle, keeps the infectiousness (the roll threshold of every later move) and the grid, keeps the move properties (no live patient at or past its threshold among them), and reports stop exactly when no live patient is infected afterwards |
| World.InfectedPrefixCount | src/app/world/world.component.ts:173-177 | a list whose person `j` is infected exactly when `j <= m` holds min(length, max(0, m + 1)) infected patients |
| WorldProofs.Simulate | src/app/world/world.component.ts:71-85 | repeated firings until stop keep the infectiousness and the grid, conserve population plus deceased, only append to `deceased`, count at most one cycle per firing, never lower `cured`, keep validity, and never leave a live patient at or past its threshold |
| WorldProofs.NoDoctorsNoCures | src/app/world/world.component.ts:140-148 | without doctors, a valid world never cures anybody and stays valid |
| WorldProofs.SkipAfterDeath | src/app/world/world.component.ts:157-161 | when the patient at any index `i` passes away during the walk, the person sliding into index `i` ends the walk on its own cell with no cycle counted |
| WorldProofs.SkipAfterFirstDeath | src/app/world/world.component.ts:71-85 | a firing whose first patient dies leaves just the second person, as it was, and the dead patient in `deceased` |
| Json.NatRoundTrip | src/app/brains.service.ts:64 | decimal digits of a natural number read back as that number |
| Json.NumberRoundTrip | src/app/brains.service.ts:64 | `JSON.stringify` of an integer reads back as that integer |
| Json.NumberExamples | src/app/brains.service.ts:64 | 10, -7 and 0 are written as `10`, `-7` and `0`, and the string value 10 as `"10"` |
| Json.ValueDetermined | src/app/brains.service.ts:56-65 | a serialized slider value followed by the next field's comma or the closing brace determines the value, its kind included |
| Json.InputAsJsonInjective | src/app/brains.service.ts:56-65 | two parameter vectors have the same key exactly when all five values agree, in number and in kind |
| Json.MovedSliderChangesKey | src/app/brains.service.ts:56-65 | a slider holding the string of a number gives a different key than the same slider holding the number |
| Brains.Count | src/app/brains.service.ts:76 | the filter count is positive exactly when the value occurs, and equals the length exactly when every element is the value |
| Brains.Find | src/app/brains.service.ts:72 | `find` gives the first entry with the key, or nothing exactly when no entry has it |
| Brains.Train | src/app/brains.service.ts:22-31 | a new key gets one new entry holding just the output; an existing key's list gets the output appended, and no other entry changes; keys stay distinct |
| Brains.Likelihood | src/app/brains.service.ts:71-77 | the likelihood is 0 for an unseen key, and NaN only for an empty list |
| Brains.LikelihoodIsShare | src/app/brains.service.ts:71-77 | the likelihood lies in [0, 1]; it is positive exactly when the value was trained under the key, and 1 exactly when nothing else was |
| Brains.Prior | src/app/brains.service.ts:83-89 | the prior is never negative, 0 for an unseen key, and positive exactly when the key's list is not empty |
| Brains.Predictor | src/app/brains.service.ts:95-106 | the predictor is 0 exactly when no list holds the value, the one case that makes the score's division 0/0 |
| Brains.PredictorCoversEntry | src/app/brains.service.ts:95-106 | every list's count of a value is part of that value's predictor |
| Brains.Score | src/app/brains.service.ts:43-46 | a value never trained anywhere scores 0/0 (NaN); under an unseen key every trained value scores 0 |
| Brains.ScoreSign | src/app/brains.service.ts:43-47 | a score is never negative, and it is positive exactly for the values trained under the current key; a zero predictor always comes with a zero likelihood |
| Brains.QuotientSign | src/app/brains.service.ts:46 | a score is positive exactly when both the likelihood and the prior are |
| Brains.Consider | src/app/brains.service.ts:47-50 | candidate `v` replaces the best exactly when its score is present and strictly above the running maximum, which then becomes that score; otherwise best and maximum stay; afterwards the candidate's score does not exceed the maximum |
| BrainsProofs.TrainAddsOneOutput | src/app/brains.service.ts:22-31 | training stores exactly one more output and adds at most one entry |
| BrainsProofs.TrainPredictor | src/app/brains.service.ts:22-31 | training `o` raises the predictor of `o` by one and no other predictor |
| BrainsProofs.PredictorCountsAllOutputs | src/app/brains.service.ts:95-106 | `calculatePredictor(v)` is the number of occurrences of `v` over all trained lists |
| BrainsProofs.DistinctKeysCount | src/app/brains.service.ts:24-25 | with distinct keys, the number of entries is the number of keys |
| BrainsProofs.PriorOverDistinctKeys | src/app/brains.service.ts:83-89 | the prior is the key's list length over the number of distinct keys |
| BrainsProofs.PriorCanExceedOne | src/app/brains.service.ts:88 | the prior is not a probability: lists of 3 and 1 outputs give the first key 3/2 |
| Brains.Scan | src/app/brains.service.ts:42-51 | the loop keeps its invariant: no earlier score beats the maximum, and a positive maximum belongs to the lowest candidate that reaches it |
| Brains.Predict | src/app/brains.service.ts:38-54 | `predict` answers the lowest candidate in [0, max) with the highest score when that score is positive, and 0 otherwise; ties go to the lowest value; so the answer is 0 or a value in [0, max) trained under the current key |
| BrainsProofs.PredictUnseenKey | src/app/brains.service.ts:38-54 | on an empty table, or for a key never trained, `predict` answers 0 |
| BrainsProofs.PredictOnlyValue | src/app/brains.service.ts:38-54 | when every output under the current key is `o`, and `o` is a candidate, `predict` answers `o` whatever other keys hold |
| BrainsProofs.TrainTimesFromEmpty | src/app/brains.service.ts:22-31 | training one key `n` times with `o` from an empty table gives one entry holding `n` copies of `o` |
| BrainsProofs.TrainThenPredict | src/app/brains.service.ts:22-54 | training one parameter vector with the same outcome `n` times, then predicting for it, answers that outcome |
| BrainsProofs.SingleKeyParts | src/app/brains.service.ts:71-106 | in a one-entry table, the likelihood is count over length, the prior is length over 1, and the predictor is the count |
| BrainsProofs.SingleKeyScoresEqual | src/app/brains.service.ts:43-46 | in a one-entry table, every observed value scores exactly 1 |
| BrainsProofs.SingleKeyPredictsSmallestObserved | src/app/brains.service.ts:38-54 | in a one-entry table, `predict` answers the smallest observed value in [0, max), or 0 when there is none; frequency plays no part |
| BrainsProofs.TrainThree | src/app/brains.service.ts:22-31 | three trainings of one key from empty give one entry with the three outputs in order |
| BrainsProofs.FrequencyDoesNotDecide | src/app/brains.service.ts:22-54 | training 2, 2, 5 predicts 2, and so does training 5, 5, 2 |
| BrainsProofs.SmallestOfThree | src/app/brains.service.ts:38-54 | a single key holding 2, 2, 5 or 5, 5, 2 predicts 2 |

## Left out

- Angular plumbing is not modelled: the decorators, `EventEmitter`,
  `ngOnChanges`, `setInterval`/`clearInterval`, `alert` and `console`. It
  is lifecycle wiring with nothing to verify. The interval becomes
  `World.Tick`, and its repetition becomes `WorldProofs.Simulate`.
- Probabilities are out of scope. Draws are inputs; nothing is said about
  how often an outcome happens.
- Agents.Unit: draws are exact reals, not IEEE doubles. The comparisons
  `Math.random() >= infectiousness / 10` and `Math.round` are exact.
- Brains.Score: scores are exact reals. Ties that are exact here may not
  be exact in floating point: one key holding eighteen 3s and seven 9s
  gives (18/25)·25/18 = 1.0 but (7/25)·25/7 = 1.0000000000000002 in
  doubles, so `predict` answers 9 where the model answers 3. NaN (0/0) is `None`. A positive number over
  0 (Infinity) cannot arise (`Brains.ScoreSign`).
- Occupancy.FreeStep: the retry loop is given a finite supply of draws,
  because its termination is not provable. `None` stands for "ran out"
  where the component keeps drawing.
- Occupancy.UniquePosition: the placement loop has the same finite supply.
- `Doctor` (models/doctor.ts) is not part of this model. `curePatient()`
  is an input. A doctor is taken to have no state beyond its position and
  to step as `Person.step` does (`Agents.Person`'s `Doctor` case,
  `World.DoMoveDoctor`).
- The slider components, `ConfigService` and `AppComponent` are not part
  of this model. A slider value is a `Config.SliderValue`: a number, or the
  string a moved slider reports, which the component reads as the same
  number.
  `getMaxAmountOfSlider()` is the `maxValue` parameter of
  `Brains.Predict`; it is not defined in the `ConfigService` shown.
- Json.ValueToJson: a moved slider's string is taken to be the decimal
  digits of a whole number, which is what a range input with whole-number
  steps reports. Other strings, fractional numbers, and the exponent
  notation JavaScript uses from 1e21 upward are not modelled.
- `isPatientOnPosition`, `isDoctorOnPosition` and
  `isPersonOnPositionInfected` are not modelled, because nothing calls
  them.
- `getPosition` is the `position` field, and `getNumberOfCured`/`getCycle`
  are the `cured`/`infectionCycle` fields. They carry no contract of their
  own.
- The `state` the interval emits on stop, and the result `alert`, are not
  modelled. `WorldProofs.Simulate` stops at the first firing that asks to
  stop.
