# Liquid-handling protocol models

This project is a Dafny model of two liquid-handling robot protocols, with
proofs about the pipetting commands each one issues.

- **Plate copying (OT-1).** One source plate is copied, row by row, into the
  first `n` destination plates with an 8-channel pipette. Before anything is
  pipetted, two checks run:
  - the hood model of the robot cannot hold more than its capacity of
    destination plates;
  - 384-well plates can only be copied to and from 384-well plates.

  On 96-well plates, each row step distributes one source row into the same
  row of each of the first `n` destination plates. On 384-well plates, the row is reached as
  two interleaved groups of 8 wells, 2 apart, starting at the wells 'A' and
  'B'. This is the "alternating wells" trick.
- **Scheduled reactant addition (OT-2).** Stock solutions are added to the
  first three wells of a 6-well reactor plate. Each well receives:
  - 400 µL of stock A1;
  - five times 1000 µL of stock A2;
  - five times 250 µL of stock A3;
  - five times 250 µL of stock B1;
  - 400 µL of stock A1 again.

  Every transfer except the last is followed by a pause. The pause is 2
  minutes for the first two reactors and 1 minute for the third.

The vendor SDK is not modelled; it appears only as data:
- a loaded container becomes a `Plate` value with a format and a deck slot;
- a well group becomes a symbolic `WellGroup`;
- a `distribute`, `transfer` or `delay` call becomes a value that records the
  arguments the script passes.

Each protocol is written twice:
- as a pure function (`PlateCopying.Plan`, `ReactantAddition.Schedule`);
- as a method that follows the script's control flow (`RunCustomProtocol`,
  `RunProtocol`). Each method is proved to issue exactly what its function
  describes.

Modules:
- `Wrappers`: the `Result` type and the `Outcome` check type that model the
  script's exceptions.
- `PlateCopying`: protocols/plate_copying/plate_copying.ot1.py.
- `ReactantAddition`: protocols/1348-harvard-university/scheduled_reactant_addition.ot2.py.

The code counts the destination slots whose row digit is not 3. That gives a
hood capacity of 6 (A1, A2, B2, C2, D2, E2). `PlateCopying.HoodCapacityIsSix`
proves 6, and `Plan` fails with `CapacityExceeded(6, n)`.

All eleven destination plates are loaded, whatever `n` is, and the fourth is
loaded in C2, the slot of the source plate. Only the first `n` plates are
used, so that shared slot is used exactly when at least four plates are.

## Model

| member | source | states |
|---|---|---|
| Wrappers.Need | protocols/plate_copying/plate_copying.ot1.py:68-80 | a validation check passes exactly when its condition holds, and otherwise fails with the given error |
| PlateCopying.HoodSlots | protocols/plate_copying/plate_copying.ot1.py:19 | the hood filter never lengthens the slot list; which slots it keeps is stated by HoodSlotsMembers |
| PlateCopying.MaxPlatesForHood | protocols/plate_copying/plate_copying.ot1.py:11-19 | the hood capacity is exactly 6 destination plates |
| PlateCopying.HoodSlotsMembers | protocols/plate_copying/plate_copying.ot1.py:18-19 | a slot is kept for the hood exactly when it is a destination slot whose row is not 3 |
| PlateCopying.HoodSlotsUniform | protocols/plate_copying/plate_copying.ot1.py:19 | the row filter keeps a list with no row-3 slot unchanged and empties a list of row-3 slots only |
| PlateCopying.RowThreeDropped | protocols/plate_copying/plate_copying.ot1.py:11-19 | the five row-3 destination slots A3..E3 are all excluded on the hood |
| PlateCopying.RowsOneAndTwoKept | protocols/plate_copying/plate_copying.ot1.py:11-19 | the six destination slots of rows 1 and 2 are all kept, in order |
| PlateCopying.HoodCapacityIsSix | protocols/plate_copying/plate_copying.ot1.py:11-19 | the hood slots are exactly the first six destination slots, six in all |
| PlateCopying.DestSlotsDistinct | protocols/plate_copying/plate_copying.ot1.py:11-14 | no destination slot is listed twice |
| PlateCopying.HoodSlotsCount | protocols/plate_copying/plate_copying.ot1.py:19 | on a slot list without repeats, the filter keeps as many entries as there are distinct slots outside row 3 |
| PlateCopying.HoodCapacityCountsSlots | protocols/plate_copying/plate_copying.ot1.py:19 | the hood capacity equals the number of distinct destination slots outside row 3 |
| PlateCopying.PyTake | protocols/plate_copying/plate_copying.ot1.py:83 | slicing `[:n]` gives a prefix: of length n when 0 <= n <= length, the whole list when n is larger, and the list minus its last -n elements when n is negative |
| PlateCopying.PlatesUsed | protocols/plate_copying/plate_copying.ot1.py:83 | the number of destination plates used is n clamped to 0..11, with Python's negative-slice rule below 0 |
| PlateCopying.CheckCapacity | protocols/plate_copying/plate_copying.ot1.py:68-73 | the capacity check fails exactly for the hood model with more than 6 plates, and then reports (6, n) |
| PlateCopying.CheckFormats | protocols/plate_copying/plate_copying.ot1.py:75-80 | the format check fails exactly when one format is 384-well and the other is not, and then reports both formats |
| PlateCopying.Plan | protocols/plate_copying/plate_copying.ot1.py:68-86 | the protocol fails exactly when the hood gets more than 6 plates or exactly one of the two formats is 384-well; the capacity error comes first and reports (6, n); the format error reports both formats; a successful plan has one step per destination row |
| PlateCopying.AlternatingWells | protocols/plate_copying/plate_copying.ot1.py:43-51 | a row of a 384-well plate is reached as two series of 8 wells, 2 wells apart, in that row of that plate |
| PlateCopying.AlternatingWellsSplitRow | protocols/plate_copying/plate_copying.ot1.py:43-51 | the two series start at 'A' and 'B' and are 2 wells apart; they touch positions 2k and 2k+1, never the same well, and together cover exactly the 16 positions 0..15 |
| PlateCopying.AllDestPlates | protocols/plate_copying/plate_copying.ot1.py:62-66 | all eleven destination plates are loaded, no two in the same slot, and the fourth in C2, the slot of the source plate |
| PlateCopying.AlternatingRows | protocols/plate_copying/plate_copying.ot1.py:89-92 | the 384-well destination list holds, for each plate in order, its 'A' series and then its 'B' series |
| PlateCopying.UsedPlates | protocols/plate_copying/plate_copying.ot1.py:62-64 | the used destination plates are the first PlatesUsed(n) plates, plate k in slot k |
| PlateCopying.RowStep | protocols/plate_copying/plate_copying.ot1.py:86-99 | a row step has two source groups and two destination groups per plate for 384-well plates, and one of each otherwise |
| PlateCopying.CopySteps | protocols/plate_copying/plate_copying.ot1.py:82-99 | the plan has one step per destination row; each step has one destination group per used plate (two for 384-well plates), for as many plates as Python's `[:n]` keeps |
| PlateCopying.RowStepGroups | protocols/plate_copying/plate_copying.ot1.py:86-99 | every group of a row step lies in that row; sources lie on the source plate in C2, destinations on the used plates |
| PlateCopying.PlanStepsFollowRows | protocols/plate_copying/plate_copying.ot1.py:82-107 | an accepted configuration succeeds, and step i copies row i with the given volume, touch-tip on and no disposal volume; sources are on the source plate, destinations on plates of the destination format in the first PlatesUsed(n) slots |
| PlateCopying.StandardCopyLayout | protocols/plate_copying/plate_copying.ot1.py:96-99 | an accepted 96-well copy succeeds, and step i takes row i of the source plate and gives row i of each used destination plate, in slot order |
| PlateCopying.HighDensityCopyLayout | protocols/plate_copying/plate_copying.ot1.py:87-94 | an accepted 384-well copy succeeds, and step i takes the 'A' and 'B' series of source row i and gives, per used plate in slot order, its 'A' then 'B' series of row i |
| PlateCopying.MixedStandardFormatsAccepted | protocols/plate_copying/plate_copying.ot1.py:75-80 | copying between any two 96-well formats, the same or different, is accepted on either robot within capacity |
| PlateCopying.SourceSlotAmongUsedDestinations | protocols/plate_copying/plate_copying.ot1.py:62-83 | for every n, a destination plate is loaded in C2, the slot of the source plate; it is used exactly when at least four plates are used, so for every n >= 4 |
| PlateCopying.AlternatingRowsSnoc | protocols/plate_copying/plate_copying.ot1.py:89-92 | appending a plate to the list appends its two alternating groups to the destination list |
| PlateCopying.DestWells | protocols/plate_copying/plate_copying.ot1.py:87-97 | the destination list built plate by plate is the alternating-rows list for 384-well plates and the whole-rows list otherwise |
| PlateCopying.CopyRows | protocols/plate_copying/plate_copying.ot1.py:86-107 | the row loop issues one step per row, and step i is the row step for row i |
| PlateCopying.RunCustomProtocol | protocols/plate_copying/plate_copying.ot1.py:54-107 | the script's checks and row loop produce exactly the result of Plan, errors included |
| ReactantAddition.DelayMinutes | protocols/1348-harvard-university/scheduled_reactant_addition.ot2.py:28-31 | the pause is 2 minutes exactly for reactors 0 and 1, and 1 minute exactly for every later reactor |
| ReactantAddition.Cycles | protocols/1348-harvard-university/scheduled_reactant_addition.ot2.py:38-40 | count transfer-and-pause cycles are 2 * count commands |
| ReactantAddition.ReactorCommands | protocols/1348-harvard-university/scheduled_reactant_addition.ot2.py:33-53 | one reactor receives 33 commands |
| ReactantAddition.Reactors | protocols/1348-harvard-university/scheduled_reactant_addition.ot2.py:27 | count reactors receive 33 * count commands |
| ReactantAddition.Schedule | protocols/1348-harvard-university/scheduled_reactant_addition.ot2.py:27-53 | the protocol issues 33 commands per filled reactor well, at most three wells, so 99 commands on a plate of three or more wells |
| ReactantAddition.Transfers | protocols/1348-harvard-university/scheduled_reactant_addition.ot2.py:34-53 | the transfer view keeps exactly the transfer commands of the list, and is no longer than it |
| ReactantAddition.TransfersAppend | protocols/1348-harvard-university/scheduled_reactant_addition.ot2.py:34-53 | the transfers of a concatenation are the transfers of each part, in order |
| ReactantAddition.VolumeAppend | protocols/1348-harvard-university/scheduled_reactant_addition.ot2.py:34-53 | the volume into a reactor over a concatenation is the sum over the parts |
| ReactantAddition.DelaysAppend | protocols/1348-harvard-university/scheduled_reactant_addition.ot2.py:35-50 | the number and total length of pauses over a concatenation are the sums over the parts |
| ReactantAddition.CyclesTransfers | protocols/1348-harvard-university/scheduled_reactant_addition.ot2.py:38-40 | count cycles hold count transfers, each of the given volume, source and reactor |
| ReactantAddition.CyclesVolume | protocols/1348-harvard-university/scheduled_reactant_addition.ot2.py:38-40 | count cycles put count * volume into their reactor and nothing into any other |
| ReactantAddition.CyclesDelays | protocols/1348-harvard-university/scheduled_reactant_addition.ot2.py:38-40 | count cycles pause count times, count * minutes in all |
| ReactantAddition.CyclesAlternate | protocols/1348-harvard-university/scheduled_reactant_addition.ot2.py:38-40 | cycles alternate: even positions are the transfer, odd positions are the pause |
| ReactantAddition.CyclesPaced | protocols/1348-harvard-university/scheduled_reactant_addition.ot2.py:38-50 | cycles from a stock well are paced: transfers at even positions into the reactor, pauses of the given length at odd positions |
| ReactantAddition.PacedAppend | protocols/1348-harvard-university/scheduled_reactant_addition.ot2.py:33-53 | two paced command lists stay paced when concatenated, provided the first has even length |
| ReactantAddition.ReactorCommandsPaced | protocols/1348-harvard-university/scheduled_reactant_addition.ot2.py:33-53 | a reactor's commands alternate transfer and pause, ending with the final A1 transfer |
| ReactantAddition.ReactorCommandsShape | protocols/1348-harvard-university/scheduled_reactant_addition.ot2.py:28-53 | a reactor's 33 commands alternate transfer and pause; every transfer goes to that reactor from stock A1, A2, A3 or B1; every pause lasts that reactor's pause length; every transfer but the last is followed by a pause; the last command is the 400 µL A1 transfer |
| ReactantAddition.ReactorTransferOrder | protocols/1348-harvard-university/scheduled_reactant_addition.ot2.py:34-53 | a reactor's 17 transfers are, in order: 400 µL of A1, five of 1000 µL of A2, five of 250 µL of A3, five of 250 µL of B1, 400 µL of A1 |
| ReactantAddition.ReactorVolume | protocols/1348-harvard-university/scheduled_reactant_addition.ot2.py:34-53 | a reactor's commands add 8300 µL to it and nothing to any other well |
| ReactantAddition.ReactorDelays | protocols/1348-harvard-university/scheduled_reactant_addition.ot2.py:28-53 | a reactor's commands pause 16 times: 32 minutes for reactors 0 and 1, 16 minutes for reactor 2 |
| ReactantAddition.ReactorsAt | protocols/1348-harvard-university/scheduled_reactant_addition.ot2.py:27 | reactor i's commands occupy positions 33i..33i+32 of the schedule, in order |
| ReactantAddition.ScheduleTransfers | protocols/1348-harvard-university/scheduled_reactant_addition.ot2.py:27-53 | the schedule has 33 commands per filled reactor; the transfer at position p goes to reactor p / 33, which is one of the first three wells, from stock A1, A2, A3 or B1 |
| ReactantAddition.ScheduleOrder | protocols/1348-harvard-university/scheduled_reactant_addition.ot2.py:27 | reactors are served one after another: a later transfer never goes to an earlier reactor |
| ReactantAddition.SixWellPlate | protocols/1348-harvard-university/scheduled_reactant_addition.ot2.py:4-15 | on the 6-well reactor plate, exactly reactors 0, 1 and 2 are filled, in 99 commands |
| ReactantAddition.ReactorsVolume | protocols/1348-harvard-university/scheduled_reactant_addition.ot2.py:27-53 | over the first count reactors, each receives 8300 µL and no later well receives anything |
| ReactantAddition.ScheduleVolume | protocols/1348-harvard-university/scheduled_reactant_addition.ot2.py:27-53 | each filled reactor well receives 8300 µL over the whole protocol; every other well receives nothing |
| ReactantAddition.ReactorsDelays | protocols/1348-harvard-university/scheduled_reactant_addition.ot2.py:27-53 | over the first count reactors, there are 16 pauses per reactor; they total 32 minutes for each of the first two reactors and 16 for each later one |
| ReactantAddition.ScheduleDelays | protocols/1348-harvard-university/scheduled_reactant_addition.ot2.py:27-53 | the whole protocol pauses 48 times, 80 minutes in all |
| ReactantAddition.AppendCycles | protocols/1348-harvard-university/scheduled_reactant_addition.ot2.py:38-50 | a `for cycle in range(count)` loop appends exactly count transfer-and-pause cycles |
| ReactantAddition.AppendReactor | protocols/1348-harvard-university/scheduled_reactant_addition.ot2.py:28-53 | one iteration of the reactor loop appends exactly that reactor's commands |
| ReactantAddition.RunProtocol | protocols/1348-harvard-university/scheduled_reactant_addition.ot2.py:27-53 | the script's reactor loop issues exactly the schedule |

## Left out

- The vendor SDK is not modelled, only the arguments passed to it. This covers `containers.load`, `labware.load`, `labware.create` and `labware.list`, the pipette and tip-rack set-up, and the trash container. What `distribute` and `transfer` do physically is also out. That includes how `distribute` pairs source and destination groups, the tip handling, `touch_tip`, `disposal_vol`, and the splitting of a 1000 µL transfer into several aspirations of the 300 µL pipette.
- Labware geometry is not modelled. The row count of a container format is a parameter of `PlateCopying.Plan`, taken from the vendor's labware definitions. Whole rows stay symbolic. Alternating series are not checked against the real width of a 384-well row.
- `PlateCopying.Plan` treats the transfer volume as an opaque value. The script passes it through unchanged and never does arithmetic on it, so no floating-point semantics are needed.
- PlateCopying.HoodSlots: its own contract states only that the filter never lengthens the list. Which slots it keeps is proved separately by `HoodSlotsMembers`, because a quantified ensures on the filter itself makes every proof that unfolds the hood capacity much more expensive.
- The parameter defaults of `run_custom_protocol` are not modelled: transfer volume 20, robot model 'not hood', both formats '96-flat', and 4 destination plates. `Plan` and `RunCustomProtocol` take every argument explicitly.
- The `StringSelection` inputs become enumerations. The robot model is `Hood` or `NotHood`; the container format is one of the four container choices. Strings outside those choices cannot reach the script through its customizer.
- Deck slot labels are modelled as (column, row) pairs instead of strings. The hood filter looks only at the row character.
- In a 96-well copy, the source is a single row object, not a list. It is modelled as a one-element list of groups.
- What the OT-1 SDK does when two containers are loaded in one slot is not modelled. The model only shows that C2 holds both the source plate and the fourth destination plate, and when that plate is used.
- In the reactant addition script, the loop variable `reactor` shadows the reactor plate. This is harmless, because the slice `reactor.wells()[:3]` is computed before the loop starts. The model takes the number of wells of the reactor plate as a parameter. It is 6 for the custom plate.
- Real-time waiting, robot calibration, and the comments about calibrating the 'A' slots are not modelled.
- Idempotence and determinism are not stated as lemmas. The plan and the schedule are pure functions of their inputs, so they hold by construction.
