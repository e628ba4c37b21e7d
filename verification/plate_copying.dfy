/** The plate-copying protocol for the OT-1 robot: one source plate is copied,
    row by row, into the first `n` destination plates with an 8-channel pipette.

    The vendor SDK stays abstract. Loading a container becomes a `Plate` value
    that records its format and deck slot. A well group becomes a symbolic
    `WellGroup`. Each `distribute` call becomes a `Step` that records exactly
    the arguments the script passes. */
module PlateCopying {
  import opened Wrappers

  /** The container formats the user may choose from. */
  datatype Format = Flat96 | PcrTall96 | DeepWell96 | Plate384

  /** The OT-1 variants: the hood model has no third deck row. */
  datatype RobotModel = Hood | NotHood

  /** A deck slot, labelled by a column letter and a row digit ("C2" is
      column C, row 2). */
  datatype Slot = Slot(column: char, row: char)

  /** A container loaded on the deck. */
  datatype Plate = Plate(format: Format, slot: Slot)

  /** A group of wells that one 8-channel aspirate or dispense touches.
      `WholeRow(p, r)` is `p.rows(r)`. `Series(p, r, c, len, step)` is
      `p.rows(r).wells(c, length=len, step=step)`: `len` wells of row `r`,
      starting at the well named `c` and `step` wells apart. */
  datatype WellGroup =
    | WholeRow(plate: Plate, row: nat)
    | Series(plate: Plate, row: nat, start: char, length: nat, step: nat)

  /** One `distribute` call, with the arguments the script passes to it. */
  datatype Step<V> = Distribute(
    volume: V,
    sources: seq<WellGroup>,
    dests: seq<WellGroup>,
    touchTip: bool,
    disposalVolume: nat)

  /** The two configuration errors, with the values their messages report. */
  datatype Error =
    | CapacityExceeded(limit: nat, requested: int)
    | FormatMismatch(source: Format, destination: Format)

  // ---------------------------------------------------------------------------
  // Deck layout and hood capacity

  /** The destination deck slots, in the order plates are loaded and used.
      B1 is kept free because of the tip rack in D1. */
  const DestSlots: seq<Slot> := [
    Slot('A', '1'),
    Slot('A', '2'), Slot('B', '2'), Slot('C', '2'), Slot('D', '2'), Slot('E', '2'),
    Slot('A', '3'), Slot('B', '3'), Slot('C', '3'), Slot('D', '3'), Slot('E', '3')]

  /** The slot that holds the source plate. */
  const SourceSlot: Slot := Slot('C', '2')

  /** The slots outside deck row 3, in their original order. */
  function HoodSlots(slots: seq<Slot>): (r: seq<Slot>)
    ensures |r| <= |slots|
  {
    if |slots| == 0 then []
    else if slots[0].row != '3' then [slots[0]] + HoodSlots(slots[1..])
    else HoodSlots(slots[1..])
  }

  /** How many destination plates the hood model can hold. */
  function MaxPlatesForHood(): (c: nat)
    ensures c == 6
  {
    HoodCapacityIsSix();
    |HoodSlots(DestSlots)|
  }

  // ---------------------------------------------------------------------------
  // Validation

  /** A Python slice `s[:n]`. A negative `n` drops `-n` elements from the end. */
  function PyTake<T>(s: seq<T>, n: int): (r: seq<T>)
    ensures |r| <= |s| && r == s[..|r|]
    ensures 0 <= n <= |s| ==> |r| == n
    ensures n > |s| ==> r == s
    ensures n < 0 ==> |r| == if |s| + n < 0 then 0 else |s| + n
  {
    if n >= 0 then (if n <= |s| then s[..n] else s)
    else if |s| + n < 0 then []
    else s[..|s| + n]
  }

  /** How many destination plates `all_dest_plates[:n]` keeps. */
  function PlatesUsed(n: int): (c: nat)
    ensures c <= |DestSlots|
    ensures 0 <= n <= |DestSlots| ==> c == n
    ensures n > |DestSlots| ==> c == |DestSlots|
    ensures n < 0 ==> c == if |DestSlots| + n < 0 then 0 else |DestSlots| + n
  {
    |PyTake(DestSlots, n)|
  }

  /** The capacity check, made first: only the hood model with more than six
      plates fails it. */
  function CheckCapacity(model: RobotModel, n: int): (o: Outcome<Error>)
    ensures o.Fail? <==> model == Hood && n > 6
    ensures o.Fail? ==> o.error == CapacityExceeded(6, n)
  {
    Need(!(model == Hood && n > MaxPlatesForHood()),
         CapacityExceeded(MaxPlatesForHood(), n))
  }

  /** The format check: 96-to-96 and 384-to-384 copies are allowed; it fails
      exactly when the two densities differ. */
  function CheckFormats(src: Format, dst: Format): (o: Outcome<Error>)
    ensures o.Fail? <==> (src == Plate384) != (dst == Plate384)
    ensures o.Fail? ==> o.error == FormatMismatch(src, dst)
  {
    Need(!(Plate384 in [src, dst] && src != dst), FormatMismatch(src, dst))
  }

  // ---------------------------------------------------------------------------
  // Plan construction

  /** The two 8-well groups of one row of a 384-well plate that an 8-channel
      pipette can reach in one motion. */
  function AlternatingWells(plate: Plate, row: nat): (r: seq<WellGroup>)
    ensures |r| == 2
    ensures forall g :: g in r ==> g.Series? && g.plate == plate && g.row == row
    ensures forall g :: g in r ==> g.Series? && g.length == 8 && g.step == 2
  {
    [Series(plate, row, 'A', 8, 2), Series(plate, row, 'B', 8, 2)]
  }

  /** The destination plates: one per destination slot, all eleven loaded
      whatever the number of plates used. No two share a slot, but the fourth
      is loaded in C2, the slot of the source plate. */
  function AllDestPlates(dst: Format): (r: seq<Plate>)
    ensures |r| == 11
    ensures forall i, j :: 0 <= i < j < |r| ==> r[i].slot != r[j].slot
    ensures r[3].slot == SourceSlot
  {
    DestSlotsDistinct();
    seq(|DestSlots|, k requires 0 <= k < |DestSlots| => Plate(dst, DestSlots[k]))
  }

  /** The alternating groups of every plate, plate after plate. */
  function AlternatingRows(plates: seq<Plate>, row: nat): (r: seq<WellGroup>)
    ensures |r| == 2 * |plates|
    ensures forall m :: 0 <= m < |plates| ==>
              r[2 * m] == AlternatingWells(plates[m], row)[0] &&
              r[2 * m + 1] == AlternatingWells(plates[m], row)[1]
  {
    if |plates| == 0 then []
    else
      AlternatingWells(plates[0], row) + AlternatingRows(plates[1..], row)
  }

  /** The whole row `row` of every plate, in plate order. */
  function WholeRows(plates: seq<Plate>, row: nat): seq<WellGroup> {
    seq(|plates|, k requires 0 <= k < |plates| => WholeRow(plates[k], row))
  }

  /** The distribute call for row `row`. The branch looks at the destination
      format only; after validation the source has the same density. A
      384-well row is reached in two groups per plate, a 96-well row in one. */
  function RowStep<V>(volume: V, src: Format, dst: Format, used: seq<Plate>, row: nat): (r: Step<V>)
    ensures |r.sources| == if dst == Plate384 then 2 else 1
    ensures |r.dests| == (if dst == Plate384 then 2 else 1) * |used|
  {
    var source := Plate(src, SourceSlot);
    if dst == Plate384 then
      Distribute(volume, AlternatingWells(source, row), AlternatingRows(used, row), true, 0)
    else
      Distribute(volume, [WholeRow(source, row)], WholeRows(used, row), true, 0)
  }

  /** The steps after validation: one per row of the destination format, each
      reaching the first `n` destination plates (as Python's `[:n]` counts). */
  function CopySteps<V>(rowCount: Format -> nat, volume: V, src: Format, dst: Format, n: int): (r: seq<Step<V>>)
    ensures |r| == rowCount(dst)
    ensures forall i :: 0 <= i < |r| ==>
              |r[i].dests| == (if dst == Plate384 then 2 else 1) * PlatesUsed(n)
  {
    var used := PyTake(AllDestPlates(dst), n);
    assert |used| == PlatesUsed(n);
    seq(rowCount(dst), i requires 0 <= i < rowCount(dst) => RowStep(volume, src, dst, used, i))
  }

  /** The whole protocol: validate, then plan. `rowCount` gives the row count
      of a format, which the vendor's labware definitions supply. */
  function Plan<V>(rowCount: Format -> nat, volume: V, model: RobotModel,
                   src: Format, dst: Format, n: int): (r: Result<seq<Step<V>>, Error>)
    ensures r.Failure? <==>
              (model == Hood && n > 6) || ((src == Plate384) != (dst == Plate384))
    ensures (r.Failure? && r.error.CapacityExceeded?) <==> model == Hood && n > 6
    ensures r.Failure? && r.error.CapacityExceeded? ==> r.error == CapacityExceeded(6, n)
    ensures (r.Failure? && r.error.FormatMismatch?) <==>
              !(model == Hood && n > 6) && (src == Plate384) != (dst == Plate384)
    ensures r.Failure? && r.error.FormatMismatch? ==> r.error == FormatMismatch(src, dst)
    ensures r.Success? ==> |r.value| == rowCount(dst)
  {
    var capacity := CheckCapacity(model, n);
    var formats := CheckFormats(src, dst);
    if capacity.Fail? then Failure(capacity.error)
    else if formats.Fail? then Failure(formats.error)
    else Success(CopySteps(rowCount, volume, src, dst, n))
  }

  // ---------------------------------------------------------------------------
  // Hood capacity

  /** `HoodSlots` keeps exactly the slots outside row 3. */
  lemma {:induction false} HoodSlotsMembers(slots: seq<Slot>)
    ensures forall s :: s in HoodSlots(slots) <==> s in slots && s.row != '3'
  {
    if |slots| > 0 {
      HoodSlotsMembers(slots[1..]);
      assert slots == [slots[0]] + slots[1..];
    }
  }

  /** Filtering distributes over concatenation. */
  lemma {:induction false} HoodSlotsAppend(a: seq<Slot>, b: seq<Slot>)
    ensures HoodSlots(a + b) == HoodSlots(a) + HoodSlots(b)
  {
    if |a| > 0 {
      assert (a + b)[1..] == a[1..] + b;
      HoodSlotsAppend(a[1..], b);
    } else {
      assert a + b == b;
    }
  }

  /** Slots outside row 3 are all kept; slots in row 3 are all dropped. */
  lemma {:induction false} HoodSlotsUniform(slots: seq<Slot>)
    ensures (forall k :: 0 <= k < |slots| ==> slots[k].row != '3') ==> HoodSlots(slots) == slots
    ensures (forall k :: 0 <= k < |slots| ==> slots[k].row == '3') ==> HoodSlots(slots) == []
  {
    if |slots| > 0 {
      HoodSlotsUniform(slots[1..]);
      assert forall k :: 1 <= k < |slots| ==> slots[1..][k - 1] == slots[k];
      assert slots == [slots[0]] + slots[1..];
    }
  }

  /** The five row-3 slots are all dropped. */
  lemma RowThreeDropped()
    ensures HoodSlots(DestSlots[6..]) == []
  {
    assert forall k :: 0 <= k < 5 ==> DestSlots[6..][k].row == '3';
    HoodSlotsUniform(DestSlots[6..]);
  }

  /** The six slots of rows 1 and 2 are all kept. */
  lemma RowsOneAndTwoKept()
    ensures HoodSlots(DestSlots[..6]) == DestSlots[..6]
  {
    assert forall k :: 0 <= k < 6 ==> DestSlots[..6][k].row != '3';
    HoodSlotsUniform(DestSlots[..6]);
  }

  /** The hood holds the first six destination slots, A1, A2, B2, C2, D2 and
      E2, so at most six destination plates. */
  lemma HoodCapacityIsSix()
    ensures HoodSlots(DestSlots) == DestSlots[..6]
    ensures |HoodSlots(DestSlots)| == 6
  {
    RowThreeDropped();
    RowsOneAndTwoKept();
    assert DestSlots == DestSlots[..6] + DestSlots[6..];
    HoodSlotsAppend(DestSlots[..6], DestSlots[6..]);
  }

  /** No slot is listed twice. */
  predicate Distinct(slots: seq<Slot>) {
    forall i, j :: 0 <= i < j < |slots| ==> slots[i] != slots[j]
  }

  /** Dropping the head of a list without repeats leaves a list without
      repeats that no longer holds the head. */
  lemma DistinctTail(slots: seq<Slot>)
    requires |slots| > 0 && Distinct(slots)
    ensures Distinct(slots[1..]) && slots[0] !in slots[1..]
  {
    assert forall i :: 0 <= i < |slots| - 1 ==> slots[1..][i] == slots[i + 1];
  }

  /** The set of slots outside row 3, split into the head and the rest. */
  lemma KeptSetCons(slots: seq<Slot>)
    requires |slots| > 0
    ensures (set s | s in slots && s.row != '3') ==
            (if slots[0].row != '3' then {slots[0]} else {}) + (set s | s in slots[1..] && s.row != '3')
  {
    assert forall s :: s in slots <==> s == slots[0] || s in slots[1..] by {
      assert slots == [slots[0]] + slots[1..];
    }
  }

  /** On a list without repeats, the row filter keeps one entry per distinct
      slot outside row 3. */
  lemma {:induction false} HoodSlotsCount(slots: seq<Slot>)
    requires Distinct(slots)
    ensures |HoodSlots(slots)| == |set s | s in slots && s.row != '3'|
  {
    if |slots| > 0 {
      DistinctTail(slots);
      HoodSlotsCount(slots[1..]);
      KeptSetCons(slots);
      var there := set s | s in slots[1..] && s.row != '3';
      assert slots[0] !in there;
    }
  }

  /** No destination slot is listed twice. */
  lemma DestSlotsDistinct()
    ensures Distinct(DestSlots)
  {
    forall i, j | 0 <= i < j < |DestSlots|
      ensures DestSlots[i] != DestSlots[j]
    {
    }
  }

  /** The hood capacity is the number of destination slots outside row 3. */
  lemma HoodCapacityCountsSlots()
    ensures MaxPlatesForHood() == |set s | s in DestSlots && s.row != '3'|
  {
    DestSlotsDistinct();
    HoodSlotsCount(DestSlots);
    assert MaxPlatesForHood() == |HoodSlots(DestSlots)|;
  }

  // ---------------------------------------------------------------------------
  // Alternating wells

  /** Position of a well within its row, counted from the well named 'A'. */
  function Offset(c: char): int {
    c as int - 'A' as int
  }

  /** The positions, within the row, of the wells a `Series` group touches. */
  function Positions(g: WellGroup): (r: seq<int>)
    requires g.Series?
    ensures |r| == g.length
  {
    seq(g.length, k requires 0 <= k < g.length => Offset(g.start) + k * g.step)
  }

  /** The two alternating groups are 8 wells each, 2 positions apart, starting
      at 'A' and at 'B'; together they split positions 0..15 of the row into
      evens and odds, with no well in both. */
  lemma AlternatingWellsSplitRow(plate: Plate, row: nat)
    ensures var r := AlternatingWells(plate, row);
            && r[0].Series? && r[1].Series?
            && r[0].start == 'A' && r[1].start == 'B'
            && |Positions(r[0])| == 8 && |Positions(r[1])| == 8
            && (forall k :: 0 <= k < 8 ==> Positions(r[0])[k] == 2 * k)
            && (forall k :: 0 <= k < 8 ==> Positions(r[1])[k] == 2 * k + 1)
            && (forall p :: p in Positions(r[0]) ==> p !in Positions(r[1]))
            && (forall p :: p in Positions(r[0]) + Positions(r[1]) <==> 0 <= p < 16)
  {
    var r := AlternatingWells(plate, row);
    var a, b := Positions(r[0]), Positions(r[1]);
    assert Offset('A') == 0 && Offset('B') == 1;
    assert forall k :: 0 <= k < 8 ==> a[k] == 2 * k;
    assert forall k :: 0 <= k < 8 ==> b[k] == 2 * k + 1;
    forall p | 0 <= p < 16
      ensures p in a + b
    {
      if p % 2 == 0 {
        assert a[p / 2] == p;
      } else {
        assert b[p / 2] == p;
      }
    }
  }

  // ---------------------------------------------------------------------------
  // The copy plan

  /** The configurations both checks let through: the hood gets at most six
      plates, and the two formats have the same density. */
  predicate Accepted(model: RobotModel, src: Format, dst: Format, n: int) {
    !(model == Hood && n > 6) && (src == Plate384) == (dst == Plate384)
  }

  /** An accepted configuration is planned as the row-copy loop; any other
      is rejected. */
  lemma PlanSuccess<V>(rowCount: Format -> nat, volume: V, model: RobotModel,
                       src: Format, dst: Format, n: int)
    ensures Plan(rowCount, volume, model, src, dst, n).Success? <==> Accepted(model, src, dst, n)
    ensures Accepted(model, src, dst, n) ==>
              Plan(rowCount, volume, model, src, dst, n) == Success(CopySteps(rowCount, volume, src, dst, n))
  {
  }

  /** The used destination plates are the first `PlatesUsed(n)` ones. */
  lemma UsedPlates(dst: Format, n: int)
    ensures |PyTake(AllDestPlates(dst), n)| == PlatesUsed(n)
    ensures forall k :: 0 <= k < PlatesUsed(n) ==> PyTake(AllDestPlates(dst), n)[k] == Plate(dst, DestSlots[k])
  {
    var all := AllDestPlates(dst);
    var used := PyTake(all, n);
    assert |used| == |PyTake(DestSlots, n)|;
  }

  /** The groups of one row step lie in that row, on the given plates. */
  lemma RowStepGroups<V>(volume: V, src: Format, dst: Format, used: seq<Plate>, row: nat)
    ensures var step := RowStep(volume, src, dst, used, row);
            && (forall g :: g in step.sources ==> g.row == row && g.plate == Plate(src, SourceSlot))
            && (forall g :: g in step.dests ==> g.row == row && g.plate in used)
  {
    var step := RowStep(volume, src, dst, used, row);
    forall g | g in step.dests
      ensures g.row == row && g.plate in used
    {
      var j :| 0 <= j < |step.dests| && step.dests[j] == g;
      if dst == Plate384 {
        var m := j / 2;
        assert j == 2 * m || j == 2 * m + 1;
        assert g in AlternatingWells(used[m], row);
      }
    }
  }

  /** Every step copies one row, in increasing row order, with the same volume
      and options; its sources lie on the source plate in slot C2 and its
      destinations on the first `n` destination plates only. */
  lemma PlanStepsFollowRows<V>(rowCount: Format -> nat, volume: V, model: RobotModel,
                               src: Format, dst: Format, n: int)
    requires Accepted(model, src, dst, n)
    ensures Plan(rowCount, volume, model, src, dst, n).Success?
    ensures var steps := Plan(rowCount, volume, model, src, dst, n).value;
            forall i :: 0 <= i < |steps| ==>
              && steps[i].volume == volume
              && steps[i].touchTip
              && steps[i].disposalVolume == 0
              && (forall g :: g in steps[i].sources ==> g.row == i && g.plate == Plate(src, SourceSlot))
              && (forall g :: g in steps[i].dests ==>
                    g.row == i && g.plate.format == dst && g.plate.slot in DestSlots[..PlatesUsed(n)])
  {
    PlanSuccess(rowCount, volume, model, src, dst, n);
    UsedPlates(dst, n);
    var steps := CopySteps(rowCount, volume, src, dst, n);
    var used := PyTake(AllDestPlates(dst), n);
    forall i | 0 <= i < |steps|
      ensures steps[i].volume == volume && steps[i].touchTip && steps[i].disposalVolume == 0
      ensures forall g :: g in steps[i].sources ==> g.row == i && g.plate == Plate(src, SourceSlot)
      ensures forall g :: g in steps[i].dests ==>
                g.row == i && g.plate.format == dst && g.plate.slot in DestSlots[..PlatesUsed(n)]
    {
      assert steps[i] == RowStep(volume, src, dst, used, i);
      RowStepGroups(volume, src, dst, used, i);
      forall g | g in steps[i].dests
        ensures g.plate.format == dst && g.plate.slot in DestSlots[..PlatesUsed(n)]
      {
        var k :| 0 <= k < |used| && used[k] == g.plate;
        assert DestSlots[..PlatesUsed(n)][k] == DestSlots[k];
      }
    }
  }

  /** A 96-well copy: step `i` pairs row `i` of the source plate with row `i`
      of each used destination plate, in slot order. */
  lemma StandardCopyLayout<V>(rowCount: Format -> nat, volume: V, model: RobotModel,
                              src: Format, dst: Format, n: int)
    requires Accepted(model, src, dst, n) && dst != Plate384
    ensures Plan(rowCount, volume, model, src, dst, n).Success?
    ensures var steps := Plan(rowCount, volume, model, src, dst, n).value;
            forall i :: 0 <= i < |steps| ==>
              && steps[i].sources == [WholeRow(Plate(src, SourceSlot), i)]
              && |steps[i].dests| == PlatesUsed(n)
              && (forall k :: 0 <= k < PlatesUsed(n) ==>
                    steps[i].dests[k] == WholeRow(Plate(dst, DestSlots[k]), i))
  {
    PlanSuccess(rowCount, volume, model, src, dst, n);
    UsedPlates(dst, n);
    var steps := CopySteps(rowCount, volume, src, dst, n);
    var used := PyTake(AllDestPlates(dst), n);
    forall i | 0 <= i < |steps|
      ensures steps[i] == RowStep(volume, src, dst, used, i)
    {
    }
  }

  /** A 384-well copy: step `i` pairs the two alternating groups of row `i` of
      the source plate with the two groups of row `i` of each used destination
      plate; plates come in slot order, the 'A' group before the 'B' group. */
  lemma HighDensityCopyLayout<V>(rowCount: Format -> nat, volume: V, model: RobotModel,
                                 src: Format, dst: Format, n: int)
    requires Accepted(model, src, dst, n) && dst == Plate384
    ensures Plan(rowCount, volume, model, src, dst, n).Success?
    ensures var steps := Plan(rowCount, volume, model, src, dst, n).value;
            forall i :: 0 <= i < |steps| ==>
              && steps[i].sources == [Series(Plate(src, SourceSlot), i, 'A', 8, 2),
                                      Series(Plate(src, SourceSlot), i, 'B', 8, 2)]
              && |steps[i].dests| == 2 * PlatesUsed(n)
              && (forall m :: 0 <= m < PlatesUsed(n) ==>
                    && steps[i].dests[2 * m] == Series(Plate(dst, DestSlots[m]), i, 'A', 8, 2)
                    && steps[i].dests[2 * m + 1] == Series(Plate(dst, DestSlots[m]), i, 'B', 8, 2))
  {
    PlanSuccess(rowCount, volume, model, src, dst, n);
    UsedPlates(dst, n);
    var steps := CopySteps(rowCount, volume, src, dst, n);
    var used := PyTake(AllDestPlates(dst), n);
    forall i | 0 <= i < |steps|
      ensures steps[i] == RowStep(volume, src, dst, used, i)
    {
    }
  }

  /** Any two 96-well formats, the same or different, may be copied between,
      on either robot within its capacity. */
  lemma MixedStandardFormatsAccepted<V>(rowCount: Format -> nat, volume: V, model: RobotModel,
                                        src: Format, dst: Format, n: int)
    requires !(model == Hood && n > 6) && src != Plate384 && dst != Plate384
    ensures Plan(rowCount, volume, model, src, dst, n).Success?
  {
  }

  /** A destination plate is always loaded in C2, next to the source plate,
      whatever `n` is. It is also used exactly when at least four plates are
      used, which includes every `n >= 4`. */
  lemma SourceSlotAmongUsedDestinations(dst: Format, n: int)
    ensures exists k :: 0 <= k < |AllDestPlates(dst)| && AllDestPlates(dst)[k].slot == SourceSlot
    ensures SourceSlot in DestSlots[..PlatesUsed(n)] <==> PlatesUsed(n) >= 4
    ensures n >= 4 ==> SourceSlot in DestSlots[..PlatesUsed(n)]
  {
    assert AllDestPlates(dst)[3].slot == SourceSlot;
    DestSlotsDistinct();
    if PlatesUsed(n) >= 4 {
      assert DestSlots[..PlatesUsed(n)][3] == SourceSlot;
    } else {
      assert forall k :: 0 <= k < PlatesUsed(n) ==> DestSlots[..PlatesUsed(n)][k] == DestSlots[k] != DestSlots[3];
    }
  }

  // ---------------------------------------------------------------------------
  // The script's control flow

  /** Appending a plate appends its two groups. */
  lemma {:induction false} AlternatingRowsSnoc(plates: seq<Plate>, plate: Plate, row: nat)
    ensures AlternatingRows(plates + [plate], row) == AlternatingRows(plates, row) + AlternatingWells(plate, row)
  {
    if |plates| > 0 {
      assert (plates + [plate])[1..] == plates[1..] + [plate];
      AlternatingRowsSnoc(plates[1..], plate, row);
    } else {
      assert AlternatingRows([plate], row) == AlternatingWells(plate, row) + AlternatingRows([], row);
    }
  }

  /** The destination list of one iteration, built plate by plate as the
      script's list comprehensions do. */
  method DestWells(dst: Format, used: seq<Plate>, row: nat) returns (dests: seq<WellGroup>)
    ensures dst == Plate384 ==> dests == AlternatingRows(used, row)
    ensures dst != Plate384 ==> dests == WholeRows(used, row)
  {
    dests := [];
    var k := 0;
    while k < |used|
      invariant k <= |used|
      invariant dst == Plate384 ==> dests == AlternatingRows(used[..k], row)
      invariant dst != Plate384 ==> dests == WholeRows(used[..k], row)
    {
      assert used[..k + 1] == used[..k] + [used[k]];
      if dst == Plate384 {
        AlternatingRowsSnoc(used[..k], used[k], row);
        dests := dests + AlternatingWells(used[k], row);
      } else {
        dests := dests + [WholeRow(used[k], row)];
      }
      k := k + 1;
    }
    assert used[..k] == used;
  }

  /** The row loop: one `distribute` per row, rows in increasing order. */
  method CopyRows<V>(volume: V, src: Format, dst: Format, used: seq<Plate>, count: nat)
    returns (steps: seq<Step<V>>)
    ensures |steps| == count
    ensures forall i :: 0 <= i < count ==> steps[i] == RowStep(volume, src, dst, used, i)
  {
    var source := Plate(src, SourceSlot);
    steps := [];
    var row := 0;
    while row < count
      invariant row <= count
      invariant |steps| == row
      invariant forall i :: 0 <= i < row ==> steps[i] == RowStep(volume, src, dst, used, i)
    {
      var dests := DestWells(dst, used, row);
      var sources := if dst == Plate384 then AlternatingWells(source, row) else [WholeRow(source, row)];
      steps := steps + [Distribute(volume, sources, dests, true, 0)];
      row := row + 1;
    }
  }

  /** Steps built row by row over the used plates are the planned steps. */
  lemma RowByRow<V>(rowCount: Format -> nat, volume: V, src: Format, dst: Format, n: int,
                    steps: seq<Step<V>>)
    requires |steps| == rowCount(dst)
    requires forall i :: 0 <= i < |steps| ==>
               steps[i] == RowStep(volume, src, dst, PyTake(AllDestPlates(dst), n), i)
    ensures steps == CopySteps(rowCount, volume, src, dst, n)
  {
    var expected := CopySteps(rowCount, volume, src, dst, n);
    assert forall i :: 0 <= i < |steps| ==> steps[i] == expected[i];
  }

  /** The script as written: the capacity check, the format check, then the
      row loop over the first `n` destination plates. It emits exactly the
      steps `Plan` describes. */
  method RunCustomProtocol<V>(rowCount: Format -> nat, volume: V, model: RobotModel,
                              src: Format, dst: Format, n: int)
    returns (r: Result<seq<Step<V>>, Error>)
    ensures r == Plan(rowCount, volume, model, src, dst, n)
  {
    if model == Hood && n > MaxPlatesForHood() {
      return Failure(CapacityExceeded(MaxPlatesForHood(), n));
    }
    if Plate384 in [src, dst] && src != dst {
      return Failure(FormatMismatch(src, dst));
    }
    var used := PyTake(AllDestPlates(dst), n);
    var steps := CopyRows(volume, src, dst, used, rowCount(dst));
    RowByRow(rowCount, volume, src, dst, n, steps);
    assert CheckCapacity(model, n).Pass? && CheckFormats(src, dst).Pass?;
    return Success(steps);
  }
}
