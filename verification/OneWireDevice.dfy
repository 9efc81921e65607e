/** The device iterator of `owb/onewire_device.c`. */
module OneWireDevice {
  import opened ByteBits
  import opened OneWireCrc
  import opened RomOrder
  import opened RomSearch
  import opened OneWireBus

  /** How one bit of a pass ends. */
  datatype BitResult = Walked | NoParticipants | Failed

  datatype SearchResult = Ok | InvalidCrc | NotFound | BusError

  class DeviceIter {
    const bus: Bus
    var lastDiscrepancy: nat
    var isLastDevice: bool
    const romNumber: array<bv8>
    /** How many devices have been reported so far. */
    ghost var reported: nat

    ghost predicate Valid()
      reads this, romNumber
    {
      && romNumber.Length == 8
      && SearchAt(bus.devices, reported, romNumber[..], lastDiscrepancy, isLastDevice)
    }

    constructor (bus: Bus)
      ensures Valid() && this.bus == bus && reported == 0 && fresh(romNumber)
    {
      this.bus := bus;
      lastDiscrepancy, isLastDevice := 0, false;
      romNumber := new bv8[8](_ => 0);
      reported := 0;
    }

    /** Bit `i` of `rom_number` becomes `direction`. */
    method SetRomBit(i: nat, direction: bool)
      requires i < 64 && romNumber.Length == 8
      modifies romNumber
      ensures Bit(romNumber[..], i) == direction
      ensures forall j: nat :: j < 64 && j != i ==> Bit(romNumber[..], j) == old(Bit(romNumber[..], j))
    {
      hide BitOf, Mask;
      ghost var before := romNumber[..];
      PutBit(before, i, direction);
      romNumber[i / 8] := PutBitOf(romNumber[i / 8], i % 8, direction);
      assert romNumber[..] == before[i / 8 := PutBitOf(before[i / 8], i % 8, direction)];
    }

    /** The walk along the next code of the search order, `i` bits in. */
    ghost predicate Walking(i: nat, lastZero: nat)
      requires i <= 64
      reads this, romNumber
    {
      && Valid()
      && !isLastDevice
      && reported < |SearchOrder(bus.devices)|
      && Agree(SearchOrder(bus.devices)[reported], romNumber[..], i)
      && lastZero == LastZero(bus.devices, SearchOrder(bus.devices)[reported], i)
    }

    /** The participants are the survivors of the walk, unless a lossy write has dropped them all. */
    ghost predicate BusFollows(i: nat)
      requires i <= 64 && romNumber.Length == 8
      reads this, romNumber, bus
    {
      && bus.phase == SendBit
      && bus.pos == i
      && (bus.active == {} || bus.active == Survivors(bus.devices, romNumber[..], i))
    }

    /** The loop body: bit `i` of a pass. */
    method SearchBit(i: nat, lastZero0: nat) returns (r: BitResult, lastZero: nat)
      requires i < 64 && Walking(i, lastZero0) && BusFollows(i)
      modifies romNumber, bus
      ensures bus.ops > old(bus.ops) && Valid() && bus.sent == old(bus.sent)
      ensures r.Walked? ==> Walking(i + 1, lastZero) && BusFollows(i + 1)
      ensures r.Walked? && bus.active == {} ==> bus.faults(bus.ops - 1) == Lossy
      ensures r.NoParticipants? <==> r != Failed && old(bus.active) == {}
      ensures r.Failed? ==> exists n: nat :: old(bus.ops) <= n < bus.ops && bus.faults(n) != Fine
    {
      hide Mask, BitOf, SearchAt, Agree, LastZero, Reachable, SearchOrder, Sorted, ZeroBranch, AgreeOnBit0, Survivors;
      ghost var S, k, rom := bus.devices, reported, romNumber[..];
      StepTowardsSurvivor(S, k, rom, i);
      lastZero := lastZero0;
      var ok, romBit := bus.ReadBit();
      if !ok {
        return Failed, lastZero;
      }
      var romBitComplement;
      ok, romBitComplement := bus.ReadBit();
      if !ok {
        return Failed, lastZero;
      }
      if romBit && romBitComplement {
        return NoParticipants, lastZero;
      }
      DirectionIsTargetBit(S, k, rom, lastDiscrepancy, i, romBit, romBitComplement);
      var searchDirection;
      if romBit != romBitComplement {
        searchDirection := romBit;
      } else {
        if i < lastDiscrepancy {
          searchDirection := BitOf(romNumber[i / 8], i % 8);
        } else {
          searchDirection := i == lastDiscrepancy;
        }
        if !searchDirection {
          lastZero := i;
        }
      }
      SetRomBit(i, searchDirection);
      StepKeepsSearch(S, k, rom, romNumber[..], lastDiscrepancy, i);
      ok := bus.WriteBit(searchDirection);
      if !ok {
        return Failed, lastZero;
      }
      StepTowardsSurvivor(S, k, romNumber[..], i + 1);
      r := Walked;
    }

    method GetNext() returns (res: SearchResult, address: Rom)
      requires Valid()
      modifies this, romNumber, bus
      ensures Valid()
      ensures bus.ops >= old(bus.ops) && bus.sent == old(bus.sent)
      // a completed pass reports the next code of the search order, once
      ensures res.Ok? || res.InvalidCrc? ==>
                && old(reported) < |SearchOrder(bus.devices)|
                && reported == old(reported) + 1
                && romNumber[..] == SearchOrder(bus.devices)[old(reported)]
                && (res.Ok? <==> FrameOk(romNumber[..]))
      ensures res.Ok? ==> address == romNumber[..]
      // an abandoned pass leaves the search where it was
      ensures res.NotFound? || res.BusError? ==> reported == old(reported)
      ensures res.BusError? ==> exists n: nat :: old(bus.ops) <= n < bus.ops && bus.faults(n) != Fine
      ensures res.NotFound? && old(reported) < |SearchOrder(bus.devices)| ==>
                exists n: nat :: old(bus.ops) <= n < bus.ops && bus.faults(n) == Lossy
      ensures old(reported) == |SearchOrder(bus.devices)| && bus.faults(old(bus.ops)) == Fine ==> res.NotFound?
    {
      hide Mask, BitOf, Bit, SearchAt, Agree, LastZero, Survivors, Reachable, SearchOrder, Sorted, ZeroBranch,
           AgreeOnBit0, CrcBytes, Table;
      ghost var S, k := bus.devices, reported;
      PassStarts(S, k, romNumber[..], lastDiscrepancy, isLastDevice);
      address := [0, 0, 0, 0, 0, 0, 0, 0];
      if isLastDevice {
        return NotFound, address;
      }
      var presence := bus.Reset();
      if presence == Absent {
        return NotFound, address;
      }
      if presence == ResetFailed {
        return BusError, address;
      }
      var ok := bus.StartSearch();
      if !ok {
        return BusError, address;
      }
      var lastZero := 0;
      var i := 0;
      while i < 64
        invariant i <= 64 && unchanged(this)
        invariant bus.ops > old(bus.ops) && bus.sent == old(bus.sent)
        invariant Walking(i, lastZero) && BusFollows(i)
        invariant bus.active == {} ==> exists n: nat :: old(bus.ops) <= n < bus.ops && bus.faults(n) == Lossy
      {
        var r;
        r, lastZero := SearchBit(i, lastZero);
        match r
        case Failed => return BusError, address;
        case NoParticipants => return NotFound, address;
        case Walked => i := i + 1;
      }
      PassCompletes(S, k, romNumber[..]);
      lastDiscrepancy := lastZero;
      if lastDiscrepancy == 0 {
        isLastDevice := true;
      }
      reported := reported + 1;
      var crc := Crc8Fast(0, romNumber, 7);
      if crc != romNumber[7] {
        return InvalidCrc, address;
      }
      return Ok, romNumber[..];
    }
  }

  /** One code the search reports, and whether its CRC byte is right. */
  datatype Report = Report(code: Rom, ok: bool)

  /**
   * A caller's search loop on a bus without faults: it reports the codes of the search order and stops. These are all
   * the devices of the bus if and only if the codes agree on their first bit.
   */
  method EnumerateDevices(bus: Bus) returns (reports: seq<Report>, passes: nat)
    requires bus.AllFine(bus.ops)
    modifies bus
    ensures reports == seq(|SearchOrder(bus.devices)|, i requires 0 <= i < |SearchOrder(bus.devices)| =>
                             Report(SearchOrder(bus.devices)[i], FrameOk(SearchOrder(bus.devices)[i])))
    ensures passes == |reports| && (passes == |bus.devices| <==> AgreeOnBit0(bus.devices))
    ensures (forall c :: c in bus.devices ==> Report(c, FrameOk(c)) in reports) <==> AgreeOnBit0(bus.devices)
  {
    hide SearchOrder, FrameOk, AgreeOnBit0;
    ghost var order := SearchOrder(bus.devices);
    var iter := new DeviceIter(bus);
    reports, passes := [], 0;
    var searchResult := SearchResult.Ok;
    while searchResult != NotFound
      invariant fresh(iter) && fresh(iter.romNumber) && iter.bus == bus && iter.Valid() && bus.ops >= old(bus.ops)
      invariant passes == |reports| == iter.reported <= |order|
      invariant forall i :: 0 <= i < passes ==> reports[i] == Report(order[i], FrameOk(order[i]))
      invariant searchResult == NotFound ==> passes == |order|
      decreases searchResult != NotFound, |order| - iter.reported
    {
      var address;
      searchResult, address := iter.GetNext();
      if searchResult != NotFound {
        reports := reports + [Report(iter.romNumber[..], searchResult == SearchResult.Ok)];
        passes := passes + 1;
      }
    }
    EnumeratesAllIff(bus.devices);
    OrderLength(bus.devices);
    assert forall c :: c in order ==> Report(c, FrameOk(c)) in reports;
  }

  /** As many passes as devices means all devices. */
  lemma OrderLength(S: set<Rom>)
    ensures |SearchOrder(S)| == |S| <==> AgreeOnBit0(S)
  {
    var R := Reachable(S);
    if !AgreeOnBit0(S) {
      var a, b :| a in S && b in S && Bit(a, 0) != Bit(b, 0);
      var c := if Bit(a, 0) then b else a;
      assert R <= S - {c};
      SubsetSmaller(R, S - {c});
    }
  }

  lemma {:induction false} SubsetSmaller(A: set<Rom>, B: set<Rom>)
    requires A <= B
    ensures |A| <= |B|
  {
    if A != {} {
      var a :| a in A;
      SubsetSmaller(A - {a}, B - {a});
    }
  }
}
