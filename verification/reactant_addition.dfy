/** The scheduled reactant addition protocol for the OT-2 robot: stock
    solutions are added, a fixed volume at a time, to the first three wells of
    a reactor plate, with a pause after every transfer but the last.

    A `p300.transfer` call becomes a `Transfer` command and a `p300.delay`
    call becomes a `Delay` command; the protocol is the list of commands it
    issues, in order. */
module ReactantAddition {

  /** The wells of the custom 6-well plate (3 columns, 2 rows) that holds the
      stock solutions. */
  datatype StockWell = A1 | A2 | A3 | B1 | B2 | B3

  /** One pipetting command. `reactor` is the index of the destination in the
      reactor plate's well order; volumes are in microlitres. */
  datatype Command =
    | Transfer(volume: nat, source: StockWell, reactor: nat)
    | Delay(minutes: nat)

  /** How many reactor wells the protocol fills: `reactor.wells()[:3]`. */
  const ReactorsFilled: nat := 3

  /** Number of wells of the custom 6-well plate used as the reactor plate. */
  const ReactorPlateWells: nat := 6

  /** Commands issued for one reactor. */
  const CommandsPerReactor: nat := 33

  function Min(a: int, b: int): int {
    if a <= b then a else b
  }

  // ---------------------------------------------------------------------------
  // The schedule

  /** The pause, in minutes, after each transfer into reactor `index`. */
  function DelayMinutes(index: nat): (t: nat)
    ensures t == 2 <==> index < 2
    ensures t == 1 <==> index >= 2
  {
    if index < 2 then 2 else 1
  }

  /** `count` cycles of one transfer followed by one pause. */
  function Cycles(count: nat, volume: nat, source: StockWell, reactor: nat, minutes: nat): (r: seq<Command>)
    ensures |r| == 2 * count
  {
    if count == 0 then []
    else Cycles(count - 1, volume, source, reactor, minutes) + [Transfer(volume, source, reactor), Delay(minutes)]
  }

  /** Everything done for reactor `index`: stock A1, five times stock A2,
      five times stock A3, five times stock B1, stock A1 again; a pause after
      every transfer except the final one. */
  function ReactorCommands(index: nat): (r: seq<Command>)
    ensures |r| == CommandsPerReactor
  {
    var t := DelayMinutes(index);
    Cycles(1, 400, A1, index, t)
    + Cycles(5, 1000, A2, index, t)
    + Cycles(5, 250, A3, index, t)
    + Cycles(5, 250, B1, index, t)
    + [Transfer(400, A1, index)]
  }

  /** The commands for reactors `0 .. count - 1`, reactor by reactor. */
  function Reactors(count: nat): (r: seq<Command>)
    ensures |r| == CommandsPerReactor * count
  {
    if count == 0 then [] else Reactors(count - 1) + ReactorCommands(count - 1)
  }

  /** The whole protocol on a reactor plate with `wells` wells: only the first
      three are filled, in well order. */
  function Schedule(wells: nat): (r: seq<Command>)
    ensures |r| == CommandsPerReactor * Min(ReactorsFilled, wells)
    ensures wells >= ReactorsFilled ==> |r| == 99
  {
    Reactors(Min(ReactorsFilled, wells))
  }

  // ---------------------------------------------------------------------------
  // Views of a command list

  /** The transfers of `cmds`, in order. */
  function Transfers(cmds: seq<Command>): (r: seq<Command>)
    ensures |r| <= |cmds|
    ensures forall c :: c in r <==> c in cmds && c.Transfer?
  {
    assert |cmds| > 0 ==> cmds == [cmds[0]] + cmds[1..];
    if |cmds| == 0 then []
    else if cmds[0].Transfer? then [cmds[0]] + Transfers(cmds[1..])
    else Transfers(cmds[1..])
  }

  /** Total volume transferred into reactor `reactor`. */
  function VolumeInto(cmds: seq<Command>, reactor: nat): nat {
    if |cmds| == 0 then 0
    else (if cmds[0].Transfer? && cmds[0].reactor == reactor then cmds[0].volume else 0)
         + VolumeInto(cmds[1..], reactor)
  }

  /** Total pause time, in minutes. */
  function TotalDelay(cmds: seq<Command>): nat {
    if |cmds| == 0 then 0
    else (if cmds[0].Delay? then cmds[0].minutes else 0) + TotalDelay(cmds[1..])
  }

  /** Number of pauses. */
  function DelayCount(cmds: seq<Command>): nat {
    if |cmds| == 0 then 0
    else (if cmds[0].Delay? then 1 else 0) + DelayCount(cmds[1..])
  }

  // ---------------------------------------------------------------------------
  // The views distribute over concatenation

  lemma {:induction false} TransfersAppend(a: seq<Command>, b: seq<Command>)
    ensures Transfers(a + b) == Transfers(a) + Transfers(b)
  {
    if |a| == 0 {
      assert a + b == b;
    } else {
      assert (a + b)[1..] == a[1..] + b;
      TransfersAppend(a[1..], b);
    }
  }

  lemma {:induction false} VolumeAppend(a: seq<Command>, b: seq<Command>, reactor: nat)
    ensures VolumeInto(a + b, reactor) == VolumeInto(a, reactor) + VolumeInto(b, reactor)
  {
    if |a| == 0 {
      assert a + b == b;
    } else {
      assert (a + b)[1..] == a[1..] + b;
      VolumeAppend(a[1..], b, reactor);
    }
  }

  lemma {:induction false} DelaysAppend(a: seq<Command>, b: seq<Command>)
    ensures TotalDelay(a + b) == TotalDelay(a) + TotalDelay(b)
    ensures DelayCount(a + b) == DelayCount(a) + DelayCount(b)
  {
    if |a| == 0 {
      assert a + b == b;
    } else {
      assert (a + b)[1..] == a[1..] + b;
      DelaysAppend(a[1..], b);
    }
  }

  /** `count` cycles hold `count` identical transfers. */
  lemma {:induction false} CyclesTransfers(count: nat, volume: nat, source: StockWell, reactor: nat, minutes: nat)
    ensures var tr := Transfers(Cycles(count, volume, source, reactor, minutes));
            && |tr| == count
            && (forall k :: 0 <= k < count ==> tr[k] == Transfer(volume, source, reactor))
  {
    if count > 0 {
      var pair := [Transfer(volume, source, reactor), Delay(minutes)];
      CyclesTransfers(count - 1, volume, source, reactor, minutes);
      TransfersAppend(Cycles(count - 1, volume, source, reactor, minutes), pair);
      assert pair[1..][1..] == [];
      assert Transfers(pair) == [Transfer(volume, source, reactor)];
    }
  }

  /** `count` cycles put `count * volume` into their reactor and nothing
      into any other. */
  lemma {:induction false} CyclesVolume(count: nat, volume: nat, source: StockWell, reactor: nat, minutes: nat, into: nat)
    ensures VolumeInto(Cycles(count, volume, source, reactor, minutes), into) ==
              if into == reactor then count * volume else 0
  {
    if count > 0 {
      var pair := [Transfer(volume, source, reactor), Delay(minutes)];
      CyclesVolume(count - 1, volume, source, reactor, minutes, into);
      VolumeAppend(Cycles(count - 1, volume, source, reactor, minutes), pair, into);
      assert pair[1..][1..] == [];
      assert VolumeInto(pair[1..], into) == VolumeInto(pair[1..][1..], into) == 0;
      assert VolumeInto(pair, into) == if into == reactor then volume else 0;
      assert count * volume == volume + (count - 1) * volume;
    }
  }

  /** `count` cycles pause `count` times, `count * minutes` in all. */
  lemma {:induction false} CyclesDelays(count: nat, volume: nat, source: StockWell, reactor: nat, minutes: nat)
    ensures DelayCount(Cycles(count, volume, source, reactor, minutes)) == count
    ensures TotalDelay(Cycles(count, volume, source, reactor, minutes)) == count * minutes
  {
    if count > 0 {
      var pair := [Transfer(volume, source, reactor), Delay(minutes)];
      CyclesDelays(count - 1, volume, source, reactor, minutes);
      DelaysAppend(Cycles(count - 1, volume, source, reactor, minutes), pair);
      assert pair[1..][1..] == [];
      assert TotalDelay(pair) == TotalDelay(pair[1..]) == minutes + TotalDelay(pair[1..][1..]);
      assert DelayCount(pair) == DelayCount(pair[1..]) == 1 + DelayCount(pair[1..][1..]);
      assert count * minutes == minutes + (count - 1) * minutes;
    }
  }

  // ---------------------------------------------------------------------------
  // One reactor

  /** The stocks the protocol draws from. */
  predicate Drawn(source: StockWell) {
    source in {A1, A2, A3, B1}
  }

  /** `cmds` alternates transfer, pause, transfer, ... starting with a
      transfer; every transfer goes into `reactor` from a drawn stock and
      every pause lasts `minutes`. */
  predicate Paced(cmds: seq<Command>, reactor: nat, minutes: nat) {
    forall p :: 0 <= p < |cmds| ==>
      && (cmds[p].Transfer? <==> p % 2 == 0)
      && (cmds[p].Transfer? ==> cmds[p].reactor == reactor && Drawn(cmds[p].source))
      && (cmds[p].Delay? ==> cmds[p].minutes == minutes)
  }

  /** Position `k` of a cycle run is a transfer when `k` is even and a pause
      when it is odd. */
  lemma {:induction false} CyclesAlternate(count: nat, volume: nat, source: StockWell, reactor: nat, minutes: nat)
    ensures forall k :: 0 <= k < 2 * count ==>
              Cycles(count, volume, source, reactor, minutes)[k] ==
                if k % 2 == 0 then Transfer(volume, source, reactor) else Delay(minutes)
  {
    if count > 0 {
      var prev := Cycles(count - 1, volume, source, reactor, minutes);
      var r := prev + [Transfer(volume, source, reactor), Delay(minutes)];
      CyclesAlternate(count - 1, volume, source, reactor, minutes);
      forall k | 0 <= k < |r|
        ensures r[k] == if k % 2 == 0 then Transfer(volume, source, reactor) else Delay(minutes)
      {
        if k < |prev| {
          assert r[k] == prev[k];
        } else if k == |prev| {
          assert k % 2 == 0 && r[k] == Transfer(volume, source, reactor);
        } else {
          assert k % 2 == 1 && r[k] == Delay(minutes);
        }
      }
    }
  }

  lemma CyclesPaced(count: nat, volume: nat, source: StockWell, reactor: nat, minutes: nat)
    requires Drawn(source)
    ensures Paced(Cycles(count, volume, source, reactor, minutes), reactor, minutes)
  {
    CyclesAlternate(count, volume, source, reactor, minutes);
  }

  /** Pacing survives concatenation after an even-length prefix. */
  lemma PacedAppend(a: seq<Command>, b: seq<Command>, reactor: nat, minutes: nat)
    requires Paced(a, reactor, minutes) && |a| % 2 == 0 && Paced(b, reactor, minutes)
    ensures Paced(a + b, reactor, minutes)
  {
    forall p | |a| <= p < |a + b|
      ensures (a + b)[p] == b[p - |a|]
      ensures p % 2 == (p - |a|) % 2
    {
    }
  }

  /** The commands for one reactor are paced by that reactor's pause and end
      with the final transfer of stock A1. */
  lemma ReactorCommandsPaced(index: nat)
    ensures Paced(ReactorCommands(index), index, DelayMinutes(index))
    ensures ReactorCommands(index)[CommandsPerReactor - 1] == Transfer(400, A1, index)
  {
    var t := DelayMinutes(index);
    var c1, c2, c3, c4 := Cycles(1, 400, A1, index, t), Cycles(5, 1000, A2, index, t),
                          Cycles(5, 250, A3, index, t), Cycles(5, 250, B1, index, t);
    var last := [Transfer(400, A1, index)];
    CyclesPaced(1, 400, A1, index, t);
    CyclesPaced(5, 1000, A2, index, t);
    CyclesPaced(5, 250, A3, index, t);
    CyclesPaced(5, 250, B1, index, t);
    PacedAppend(c1, c2, index, t);
    PacedAppend(c1 + c2, c3, index, t);
    PacedAppend(c1 + c2 + c3, c4, index, t);
    assert Paced(last, index, t);
    PacedAppend(c1 + c2 + c3 + c4, last, index, t);
    assert ReactorCommands(index) == c1 + c2 + c3 + c4 + last;
  }

  /** The commands for one reactor alternate transfer, pause, transfer, ...;
      every transfer goes into that reactor from one of the stocks A1, A2, A3
      or B1; every pause lasts that reactor's duration; every transfer but the
      last is followed at once by a pause, and the last command is the final
      transfer of stock A1. */
  lemma ReactorCommandsShape(index: nat)
    ensures var rc := ReactorCommands(index);
            && |rc| == CommandsPerReactor
            && (forall p :: 0 <= p < |rc| ==> (rc[p].Transfer? <==> p % 2 == 0))
            && (forall p :: 0 <= p < |rc| && rc[p].Transfer? ==>
                  rc[p].reactor == index && rc[p].source in {A1, A2, A3, B1})
            && (forall p :: 0 <= p < |rc| && rc[p].Delay? ==> rc[p].minutes == DelayMinutes(index))
            && (forall p :: 0 <= p < |rc| - 1 && rc[p].Transfer? ==> rc[p + 1] == Delay(DelayMinutes(index)))
            && rc[|rc| - 1] == Transfer(400, A1, index)
  {
    ReactorCommandsPaced(index);
    var rc := ReactorCommands(index);
    forall p | 0 <= p < |rc| - 1 && rc[p].Transfer?
      ensures rc[p + 1] == Delay(DelayMinutes(index))
    {
      assert rc[p + 1].Delay?;
    }
  }

  /** Each reactor receives exactly 17 transfers: 400 from A1, five of 1000
      from A2, five of 250 from A3, five of 250 from B1, then 400 from A1. */
  lemma ReactorTransferOrder(index: nat)
    ensures var tr := Transfers(ReactorCommands(index));
            && |tr| == 17
            && tr[0] == Transfer(400, A1, index)
            && (forall k :: 1 <= k < 6 ==> tr[k] == Transfer(1000, A2, index))
            && (forall k :: 6 <= k < 11 ==> tr[k] == Transfer(250, A3, index))
            && (forall k :: 11 <= k < 16 ==> tr[k] == Transfer(250, B1, index))
            && tr[16] == Transfer(400, A1, index)
  {
    var t := DelayMinutes(index);
    var c1, c2, c3, c4 := Cycles(1, 400, A1, index, t), Cycles(5, 1000, A2, index, t),
                          Cycles(5, 250, A3, index, t), Cycles(5, 250, B1, index, t);
    var last := [Transfer(400, A1, index)];
    CyclesTransfers(1, 400, A1, index, t);
    CyclesTransfers(5, 1000, A2, index, t);
    CyclesTransfers(5, 250, A3, index, t);
    CyclesTransfers(5, 250, B1, index, t);
    TransfersAppend(c1, c2);
    TransfersAppend(c1 + c2, c3);
    TransfersAppend(c1 + c2 + c3, c4);
    TransfersAppend(c1 + c2 + c3 + c4, last);
    assert Transfers(last) == last by {
      assert last[1..] == [];
    }
    var t1, t2, t3, t4 := Transfers(c1), Transfers(c2), Transfers(c3), Transfers(c4);
    var tr := Transfers(ReactorCommands(index));
    assert tr == t1 + t2 + t3 + t4 + last;
    assert forall k :: 1 <= k < 6 ==> tr[k] == t2[k - 1];
    assert forall k :: 6 <= k < 11 ==> tr[k] == t3[k - 6];
    assert forall k :: 11 <= k < 16 ==> tr[k] == t4[k - 11];
  }

  /** Each reactor receives 8300 in all, and nothing meant for another reactor. */
  lemma ReactorVolume(index: nat, into: nat)
    ensures VolumeInto(ReactorCommands(index), into) == if into == index then 8300 else 0
  {
    var t := DelayMinutes(index);
    var c1, c2, c3, c4 := Cycles(1, 400, A1, index, t), Cycles(5, 1000, A2, index, t),
                          Cycles(5, 250, A3, index, t), Cycles(5, 250, B1, index, t);
    var last := [Transfer(400, A1, index)];
    CyclesVolume(1, 400, A1, index, t, into);
    CyclesVolume(5, 1000, A2, index, t, into);
    CyclesVolume(5, 250, A3, index, t, into);
    CyclesVolume(5, 250, B1, index, t, into);
    VolumeAppend(c1, c2, into);
    VolumeAppend(c1 + c2, c3, into);
    VolumeAppend(c1 + c2 + c3, c4, into);
    VolumeAppend(c1 + c2 + c3 + c4, last, into);
    assert last[1..] == [];
    assert VolumeInto(last, into) == if into == index then 400 else 0;
  }

  /** Each reactor waits 16 times: 32 minutes in all for reactors 0 and 1,
      16 minutes for reactor 2. */
  lemma ReactorDelays(index: nat)
    ensures DelayCount(ReactorCommands(index)) == 16
    ensures TotalDelay(ReactorCommands(index)) == 16 * DelayMinutes(index)
    ensures index < 2 ==> TotalDelay(ReactorCommands(index)) == 32
    ensures index == 2 ==> TotalDelay(ReactorCommands(index)) == 16
  {
    var t := DelayMinutes(index);
    var c1, c2, c3, c4 := Cycles(1, 400, A1, index, t), Cycles(5, 1000, A2, index, t),
                          Cycles(5, 250, A3, index, t), Cycles(5, 250, B1, index, t);
    var last := [Transfer(400, A1, index)];
    CyclesDelays(1, 400, A1, index, t);
    CyclesDelays(5, 1000, A2, index, t);
    CyclesDelays(5, 250, A3, index, t);
    CyclesDelays(5, 250, B1, index, t);
    DelaysAppend(c1, c2);
    DelaysAppend(c1 + c2, c3);
    DelaysAppend(c1 + c2 + c3, c4);
    DelaysAppend(c1 + c2 + c3 + c4, last);
    assert last[1..] == [];
    assert TotalDelay(last) == 0 && DelayCount(last) == 0;
  }

  // ---------------------------------------------------------------------------
  // The whole schedule

  /** Reactor `i`'s commands occupy positions `33 * i .. 33 * i + 32`. */
  lemma {:induction false} ReactorsAt(count: nat, i: nat, j: nat)
    requires i < count && j < CommandsPerReactor
    ensures Reactors(count)[CommandsPerReactor * i + j] == ReactorCommands(i)[j]
  {
    if i < count - 1 {
      ReactorsAt(count - 1, i, j);
    }
  }

  /** Every transfer at position `p` of the schedule goes into reactor
      `p / 33`, one of the first three wells (fewer if the plate has fewer),
      from one of the stocks A1, A2, A3 or B1. */
  lemma ScheduleTransfers(wells: nat)
    ensures var s := Schedule(wells);
            && |s| == CommandsPerReactor * Min(ReactorsFilled, wells)
            && (forall p :: 0 <= p < |s| && s[p].Transfer? ==>
                  && s[p].reactor == p / CommandsPerReactor
                  && s[p].reactor < Min(ReactorsFilled, wells)
                  && s[p].source in {A1, A2, A3, B1})
  {
    var count := Min(ReactorsFilled, wells);
    var s := Schedule(wells);
    forall p | 0 <= p < |s| && s[p].Transfer?
      ensures s[p].reactor == p / CommandsPerReactor
      ensures s[p].reactor < count
      ensures Drawn(s[p].source)
    {
      var i, j := p / CommandsPerReactor, p % CommandsPerReactor;
      assert p == CommandsPerReactor * i + j;
      ReactorsAt(count, i, j);
      ReactorCommandsPaced(i);
    }
  }

  /** Reactors are served one after the other: all of reactor `i`'s transfers
      come before any of reactor `i + 1`'s. */
  lemma ScheduleOrder(wells: nat)
    ensures var s := Schedule(wells);
            forall p, q :: 0 <= p < q < |s| && s[p].Transfer? && s[q].Transfer? ==>
              s[p].reactor <= s[q].reactor
  {
    ScheduleTransfers(wells);
    var s := Schedule(wells);
    forall p, q | 0 <= p < q < |s| && s[p].Transfer? && s[q].Transfer?
      ensures s[p].reactor <= s[q].reactor
    {
      assert p / CommandsPerReactor <= q / CommandsPerReactor;
    }
  }

  /** On the protocol's 6-well reactor plate, reactors 0, 1 and 2 are filled
      and the schedule has 99 commands. */
  lemma SixWellPlate()
    ensures Schedule(ReactorPlateWells) == Reactors(3)
    ensures |Schedule(ReactorPlateWells)| == 99
  {
  }

  /** Volume into each reactor across the whole schedule: 8300 for every
      filled reactor, nothing for any other well. */
  lemma {:induction false} ReactorsVolume(count: nat, into: nat)
    ensures VolumeInto(Reactors(count), into) == if into < count then 8300 else 0
  {
    if count > 0 {
      ReactorsVolume(count - 1, into);
      VolumeAppend(Reactors(count - 1), ReactorCommands(count - 1), into);
      ReactorVolume(count - 1, into);
    }
  }

  lemma ScheduleVolume(wells: nat, into: nat)
    ensures VolumeInto(Schedule(wells), into) == if into < Min(ReactorsFilled, wells) then 8300 else 0
  {
    ReactorsVolume(Min(ReactorsFilled, wells), into);
  }

  /** Pauses across reactors `0 .. count - 1`: 16 per reactor, 32 minutes
      for each of reactors 0 and 1 and 16 for every later one. */
  lemma {:induction false} ReactorsDelays(count: nat)
    ensures DelayCount(Reactors(count)) == 16 * count
    ensures TotalDelay(Reactors(count)) == if count <= 2 then 32 * count else 80 + 16 * (count - 3)
  {
    if count > 0 {
      ReactorsDelays(count - 1);
      DelaysAppend(Reactors(count - 1), ReactorCommands(count - 1));
      ReactorDelays(count - 1);
    }
  }

  /** The whole protocol on a plate of at least three wells pauses 48 times,
      80 minutes in all (32 + 32 + 16). */
  lemma ScheduleDelays(wells: nat)
    requires wells >= ReactorsFilled
    ensures DelayCount(Schedule(wells)) == 48
    ensures TotalDelay(Schedule(wells)) == 80
  {
    ReactorsDelays(ReactorsFilled);
  }

  // ---------------------------------------------------------------------------
  // The script's control flow

  /** Appends `count` transfer-and-pause cycles, as the script's
      `for cycle in range(5)` loops do. */
  method AppendCycles(cmds: seq<Command>, count: nat, volume: nat, source: StockWell, reactor: nat, minutes: nat)
    returns (out: seq<Command>)
    ensures out == cmds + Cycles(count, volume, source, reactor, minutes)
  {
    out := cmds;
    var cycle := 0;
    while cycle < count
      invariant cycle <= count
      invariant out == cmds + Cycles(cycle, volume, source, reactor, minutes)
    {
      out := out + [Transfer(volume, source, reactor)];
      out := out + [Delay(minutes)];
      cycle := cycle + 1;
    }
  }

  /** One iteration of the reactor loop: pick the pause length from the
      reactor's index, then issue its transfers and pauses in order. */
  method AppendReactor(cmds: seq<Command>, index: nat) returns (out: seq<Command>)
    ensures out == cmds + ReactorCommands(index)
  {
    var time := if index < 2 then 2 else 1;
    ghost var c1, c2, c3, c4 := Cycles(1, 400, A1, index, time), Cycles(5, 1000, A2, index, time),
                                Cycles(5, 250, A3, index, time), Cycles(5, 250, B1, index, time);
    var first := cmds + [Transfer(400, A1, index), Delay(time)];
    assert first == cmds + c1 by {
      assert c1 == [Transfer(400, A1, index), Delay(time)];
    }
    var second := AppendCycles(first, 5, 1000, A2, index, time);
    var third := AppendCycles(second, 5, 250, A3, index, time);
    var fourth := AppendCycles(third, 5, 250, B1, index, time);
    out := fourth + [Transfer(400, A1, index)];
    assert ReactorCommands(index) == c1 + c2 + c3 + c4 + [Transfer(400, A1, index)];
    assert out == cmds + c1 + c2 + c3 + c4 + [Transfer(400, A1, index)];
  }

  /** The script as written: the reactor loop over the first three reactor
      wells. It issues exactly the commands of `Schedule`. */
  method RunProtocol(wells: nat) returns (cmds: seq<Command>)
    ensures cmds == Schedule(wells)
  {
    cmds := [];
    var filled := Min(ReactorsFilled, wells);
    var index := 0;
    while index < filled
      invariant index <= filled
      invariant cmds == Reactors(index)
    {
      cmds := AppendReactor(cmds, index);
      index := index + 1;
    }
  }
}
