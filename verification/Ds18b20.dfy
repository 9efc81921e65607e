/** The DS18B20 start-up scan of `owb/ds18b20.c`: search the bus, keep the sensors, configure each. */
module Ds18b20 {
  import opened ByteBits
  import opened OneWireCrc
  import opened RomOrder
  import opened RomSearch
  import opened OneWireBus
  import opened OneWireDevice

  const MAX_TEMP_DEVICES: nat := 20
  const FAMILY: bv8 := 0x28
  const CMD_MATCH_ROM: bv8 := 0x55
  const CMD_WRITE_SCRATCHPAD: bv8 := 0x4E

  datatype Resolution = R9 | R10 | R11 | R12

  datatype Device = Device(addr: Rom, resolution: Resolution)

  /** A code the scan keeps: good CRC and the DS18B20 family code. */
  predicate IsSensor(c: Rom) {
    FrameOk(c) && c[0] == FAMILY
  }

  /** The sensors among the codes of a search, in search order. */
  function Sensors(found: seq<Rom>): seq<Rom> {
    if found == [] then []
    else
      var n := |found| - 1;
      Sensors(found[..n]) + (if IsSensor(found[n]) then [found[n]] else [])
  }

  function ResolutionByte(res: Resolution): bv8 {
    match res
    case R9 => 0x1F
    case R10 => 0x3F
    case R11 => 0x5F
    case R12 => 0x7F
  }

  /** The two frames that set a sensor's resolution: address and command, then the scratchpad bytes. */
  function Configuration(addr: Rom, res: Resolution): seq<Bytes> {
    [[CMD_MATCH_ROM] + addr + [CMD_WRITE_SCRATCHPAD], [0, 0, ResolutionByte(res)]]
  }

  /** The frames that configure all of `codes`, in this order. */
  function Configurations(codes: seq<Rom>, res: Resolution): seq<Bytes> {
    if codes == [] then []
    else Configurations(codes[..|codes| - 1], res) + Configuration(codes[|codes| - 1], res)
  }

  // ---------------------------------------------------------------- what the frames tell a sensor

  /** The bits of a temperature at a resolution. */
  function Bits(res: Resolution): nat {
    match res
    case R9 => 9
    case R10 => 10
    case R11 => 11
    case R12 => 12
  }

  /** The low temperature bits that a reading ignores, by the two resolution bits of the configuration register. */
  function LsbMask(index: bv8): bv8 {
    if index == 0 then 0x07 else if index == 1 then 0x03 else if index == 2 then 0x01 else 0x00
  }

  /** The mask covers exactly the `n` lowest bits. */
  ghost predicate Blanks(mask: bv8, n: int) {
    forall k: nat :: k < 8 ==> (BitOf(mask, k) <==> k < n)
  }

  /** A scratchpad frame after which a reading uses `bits` bits: exactly the `12 - bits` lowest are ignored. */
  ghost predicate SetsBits(frame: Bytes, bits: nat) {
    && |frame| == 3 && frame[0] == 0 && frame[1] == 0
    && frame[2] & 0x1F == 0x1F && frame[2] & 0x80 == 0
    && Blanks(LsbMask(frame[2] >> 5), 12 - bits)
  }

  /** A sensor's two frames: match ROM, its address and write scratchpad; then its configuration. */
  ghost predicate SensorFrames(addr: Rom, select: Bytes, scratchpad: Bytes, bits: nat) {
    addr[0] == 0x28 && select == [0x55] + addr + [0x4E] && SetsBits(scratchpad, bits)
  }

  /** The frames of each sensor in turn. */
  ghost predicate Configures(frames: seq<Bytes>, addrs: seq<Rom>, bits: nat) {
    && |frames| == 2 * |addrs|
    && forall i :: 0 <= i < |addrs| ==> SensorFrames(addrs[i], frames[2 * i], frames[2 * i + 1], bits)
  }

  lemma ResolutionMeans(res: Resolution)
    ensures SetsBits([0, 0, ResolutionByte(res)], Bits(res))
  {}

  lemma {:induction false} ConfigurationsMean(codes: seq<Rom>, res: Resolution)
    requires forall i :: 0 <= i < |codes| ==> codes[i][0] == FAMILY
    ensures Configures(Configurations(codes, res), codes, Bits(res))
    decreases |codes|
  {
    hide SetsBits;
    if codes != [] {
      var n := |codes| - 1;
      ConfigurationsMean(codes[..n], res);
      ResolutionMeans(res);
    }
  }

  /** The sensors a complete scan of the bus stores: the search stops when the table is full. */
  ghost function Scanned(S: set<Rom>): seq<Rom> {
    var found := Sensors(SearchOrder(S));
    if |found| <= MAX_TEMP_DEVICES then found else found[..MAX_TEMP_DEVICES]
  }

  /** Every sensor of the bus is reported: none is hidden by a device whose first bit is one. */
  ghost predicate NoneHidden(S: set<Rom>) {
    forall c, d :: c in S && d in S && IsSensor(c) ==> !Bit(d, 0)
  }

  ghost function SensorsOf(S: set<Rom>): set<Rom> {
    set c | c in S && IsSensor(c)
  }

  class SensorTable {
    const slots: array<Device>
    var num: nat

    constructor ()
      ensures slots.Length == MAX_TEMP_DEVICES && fresh(slots) && num == 0
    {
      slots := new Device[MAX_TEMP_DEVICES](_ => Device([0, 0, 0, 0, 0, 0, 0, 0], R12));
      num := 0;
    }

    /** Slots `0..num-1` hold exactly the given codes, configured to `res`. */
    ghost predicate Holds(codes: seq<Rom>, res: Resolution)
      reads this, slots
    {
      && num == |codes| <= slots.Length
      && forall i :: 0 <= i < num ==> slots[i] == Device(codes[i], res)
    }

    ghost predicate HasSlot(c: Rom)
      requires num <= slots.Length
      reads this, slots
    {
      exists i :: 0 <= i < num && slots[i].addr == c
    }

    lemma HoldsNothing(res: Resolution)
      requires num == 0
      ensures Holds([], res)
    {}

    /** Writes the scratchpad of the sensor in slot `n`; false when the bus reports an error. */
    method SetResolution(bus: Bus, n: nat, res: Resolution) returns (ok: bool)
      requires n < slots.Length
      modifies slots, bus
      ensures bus.ops > old(bus.ops)
      ensures ok ==> slots[n] == old(slots[n]).(resolution := res)
      ensures ok ==> bus.sent == old(bus.sent) + Configuration(old(slots[n]).addr, res)
      ensures forall i :: 0 <= i < slots.Length && i != n ==> slots[i] == old(slots[i])
      ensures !ok ==> bus.devices == {} || exists k: nat :: old(bus.ops) <= k < bus.ops && bus.faults(k) != Fine
    {
      var presence := bus.Reset();
      if presence != Present {
        return false;
      }
      ok := bus.WriteBytes([CMD_MATCH_ROM] + slots[n].addr + [CMD_WRITE_SCRATCHPAD]);
      if !ok {
        return false;
      }
      ok := bus.WriteBytes([0, 0, ResolutionByte(res)]);
      if !ok {
        return false;
      }
      slots[n] := slots[n].(resolution := res);
    }

    /** `ds18b20_new_device`: a code of the right family becomes a device in slot `num`. */
    method NewDevice(address: Rom) returns (ok: bool)
      requires num < slots.Length
      modifies slots
      ensures ok <==> address[0] == FAMILY
      ensures ok ==> slots[num] == Device(address, R12)
      ensures forall i :: 0 <= i < num ==> slots[i] == old(slots[i])
    {
      if address[0] != FAMILY {
        return false;
      }
      slots[num] := Device(address, R12);
      ok := true;
    }

    /** One reported code: skipped, or stored and configured; false when the configuration fails. */
    method Register(bus: Bus, address: Rom, res: Resolution, ghost codes: seq<Rom>) returns (ok: bool)
      requires num < slots.Length && Holds(codes, res)
      requires FrameOk(address)
      modifies this, slots, bus
      ensures bus.ops >= old(bus.ops)
      ensures ok ==> bus.sent == old(bus.sent) + (if IsSensor(address) then Configuration(address, res) else [])
      ensures Holds(if ok && IsSensor(address) then codes + [address] else codes, res)
      ensures num == if ok && IsSensor(address) then |codes| + 1 else |codes|
      ensures !ok ==> bus.devices == {} || exists k: nat :: old(bus.ops) <= k < bus.ops && bus.faults(k) != Fine
    {
      var isSensor := NewDevice(address);
      if isSensor {
        ok := SetResolution(bus, num, res);
        if !ok {
          return;
        }
        num := num + 1;
      }
      ok := true;
    }

    /** The sensors among the first `m` codes of the search are stored, configured and nothing else is sent. */
    ghost predicate Stored(bus: Bus, base: seq<Bytes>, m: nat, res: Resolution)
      reads this, slots, bus
    {
      && m <= |SearchOrder(bus.devices)|
      && var codes := Sensors(SearchOrder(bus.devices)[..m]);
      num == |codes| && Holds(codes, res) && bus.sent == base + Configurations(codes, res)
    }

    /** One turn of the scan's loop: a search pass and, for a good code, its registration. */
    method ScanPass(bus: Bus, iter: DeviceIter, res: Resolution, ghost base: seq<Bytes>)
      returns (searchResult: SearchResult, ok: bool)
      requires iter.bus == bus && iter.Valid() && num < slots.Length && Stored(bus, base, iter.reported, res)
      requires slots as object != iter.romNumber as object
      modifies this, slots, bus, iter, iter.romNumber
      ensures iter.Valid() && bus.ops >= old(bus.ops)
      ensures old(iter.reported) <= iter.reported <= |SearchOrder(bus.devices)|
      ensures ok ==> Stored(bus, base, iter.reported, res)
      ensures !ok ==> Holds(Sensors(SearchOrder(bus.devices)[..old(iter.reported)]), res)
      ensures !ok ==> iter.reported > old(iter.reported)
      ensures !ok ==> exists n: nat :: old(bus.ops) <= n < bus.ops && bus.faults(n) != Fine
      ensures num <= old(num) + 1
      ensures searchResult != NotFound && searchResult != BusError ==> iter.reported > old(iter.reported)
      ensures searchResult == BusError ==> exists n: nat :: old(bus.ops) <= n < bus.ops && bus.faults(n) != Fine
      ensures searchResult == NotFound && iter.reported < |SearchOrder(bus.devices)| ==>
                exists n: nat :: old(bus.ops) <= n < bus.ops && bus.faults(n) == Lossy
    {
      hide FrameOk, IsSensor, Sensors, SearchOrder, Holds, Configuration, Configurations;
      ghost var order, before := SearchOrder(bus.devices), iter.reported;
      ghost var codes := Sensors(order[..before]);
      var address;
      searchResult, address := iter.GetNext();
      if iter.reported > before {
        SensorsStep(order, before);
      }
      ok := true;
      if searchResult == SearchResult.Ok {
        ConfigurationsStep(codes, address, res);
        label Found:
        ok := Register(bus, address, res, codes);
        OrderEmptyIff(bus.devices);
      }
    }

    /** The scan. `done` is false when a configuration error aborts it. From operation `quiet` on the bus is fine. */
    method Init(bus: Bus, res: Resolution, ghost quiet: nat) returns (done: bool)
      requires slots.Length == MAX_TEMP_DEVICES
      requires bus.AllFine(quiet)
      modifies this, slots, bus
      ensures num <= |Sensors(SearchOrder(bus.devices))| && Holds(Sensors(SearchOrder(bus.devices))[..num], res)
      ensures
        done && (forall n: nat :: old(bus.ops) <= n < bus.ops ==> bus.faults(n) != Lossy) ==>
          && Holds(Scanned(bus.devices), res)
          && ((forall c :: c in bus.devices && IsSensor(c) ==> HasSlot(c))
              <==> NoneHidden(bus.devices) && |SensorsOf(bus.devices)| <= MAX_TEMP_DEVICES)
      ensures bus.AllFine(old(bus.ops)) ==> done
      ensures done ==> bus.sent == old(bus.sent) + Configurations(Sensors(SearchOrder(bus.devices))[..num], res)
      ensures done ==> Configures(bus.sent[|old(bus.sent)|..], Sensors(SearchOrder(bus.devices))[..num], Bits(res))
    {
      hide FrameOk, IsSensor, Sensors, SearchOrder, Holds, Configuration, Configurations, NoneHidden, SensorsOf,
           Scanned, Configures;
      ghost var order := SearchOrder(bus.devices);
      num := 0;
      SensorsNil(order[..0]);
      HoldsNothing(res);
      ConfigurationsNil(res);
      var iter := new DeviceIter(bus);
      var searchResult := SearchResult.Ok;
      while searchResult != NotFound
        invariant fresh(iter) && fresh(iter.romNumber) && iter.bus == bus && iter.Valid()
        invariant num < MAX_TEMP_DEVICES && Stored(bus, old(bus.sent), iter.reported, res)
        invariant bus.ops >= old(bus.ops)
        invariant searchResult == NotFound && iter.reported < |order| ==>
                    exists n: nat :: old(bus.ops) <= n < bus.ops && bus.faults(n) == Lossy
        decreases searchResult != NotFound, |order| - iter.reported, quiet - bus.ops
      {
        ghost var before := iter.reported;
        var ok;
        searchResult, ok := ScanPass(bus, iter, res, old(bus.sent));
        if !ok {
          SensorsPrefix(order, before);
          StoredPrefix(order, before, res);
          return false;
        }
        if num >= MAX_TEMP_DEVICES {
          break;
        }
      }
      SensorsPrefix(order, iter.reported);
      StoredPrefix(order, iter.reported, res);
      assert order[..|order|] == order;
      done := true;
      ScanConfigures(order, num, res);
      assert bus.sent[|old(bus.sent)|..] == Configurations(Sensors(order)[..num], res);
      if forall n: nat :: old(bus.ops) <= n < bus.ops ==> bus.faults(n) != Lossy {
        ScannedPrefix(bus.devices, num);
        EverySensorHasSlotIff(bus.devices, res);
      }
    }

    lemma StoredPrefix(order: seq<Rom>, m: nat, res: Resolution)
      requires m <= |order| && Holds(Sensors(order[..m]), res) && Sensors(order[..m]) <= Sensors(order)
      ensures num == |Sensors(order[..m])| <= |Sensors(order)| && Sensors(order)[..num] == Sensors(order[..m])
    {}

    lemma EverySensorHasSlotIff(S: set<Rom>, res: Resolution)
      requires Holds(Scanned(S), res)
      ensures (forall c :: c in S && IsSensor(c) ==> HasSlot(c))
              <==> NoneHidden(S) && |SensorsOf(S)| <= MAX_TEMP_DEVICES
    {
      ScanFindsEverySensorIff(S);
      hide FrameOk, IsSensor, NoneHidden, SensorsOf, Scanned;
      assert forall c :: HasSlot(c) <==> c in Scanned(S);
    }
  }

  lemma SensorsNil(found: seq<Rom>)
    requires found == []
    ensures Sensors(found) == []
  {}

  lemma SensorsStep(found: seq<Rom>, m: nat)
    requires m < |found|
    ensures Sensors(found[..m + 1]) ==
            if IsSensor(found[m]) then Sensors(found[..m]) + [found[m]] else Sensors(found[..m])
    ensures !FrameOk(found[m]) ==> !IsSensor(found[m])
  {
    assert found[..m + 1][..m] == found[..m];
  }

  lemma OrderEmptyIff(S: set<Rom>)
    ensures SearchOrder(S) == [] <==> S == {}
  {
    ReachableNonEmpty(S);
  }

  lemma {:induction false} SensorsPrefix(found: seq<Rom>, m: nat)
    requires m <= |found|
    ensures Sensors(found[..m]) <= Sensors(found)
  {
    hide IsSensor;
    if m < |found| {
      var n := |found| - 1;
      assert found[..n][..m] == found[..m];
      SensorsPrefix(found[..n], m);
    } else {
      assert found[..m] == found;
    }
  }

  lemma {:induction false} SensorsAre(found: seq<Rom>)
    ensures forall c :: c in Sensors(found) <==> c in found && IsSensor(c)
  {
    hide IsSensor;
    if found != [] {
      var n := |found| - 1;
      SensorsAre(found[..n]);
      assert found == found[..n] + [found[n]];
    }
  }

  lemma ConfigurationsNil(res: Resolution)
    ensures Configurations([], res) == []
  {}

  lemma ConfigurationsStep(codes: seq<Rom>, c: Rom, res: Resolution)
    ensures Configurations(codes + [c], res) == Configurations(codes, res) + Configuration(c, res)
  {
    assert (codes + [c])[..|codes|] == codes;
  }

  lemma ScanConfigures(order: seq<Rom>, num: nat, res: Resolution)
    requires num <= |Sensors(order)|
    ensures Configures(Configurations(Sensors(order)[..num], res), Sensors(order)[..num], Bits(res))
  {
    SensorsAre(order);
    hide FrameOk, Configures, Configurations, Sensors;
    var codes := Sensors(order)[..num];
    forall i | 0 <= i < num ensures codes[i][0] == FAMILY { assert codes[i] in Sensors(order); }
    ConfigurationsMean(codes, res);
  }

  /** The first `num` sensors of the search are those of a complete scan when the table is full or nothing is left. */
  lemma ScannedPrefix(S: set<Rom>, num: nat)
    requires num <= |Sensors(SearchOrder(S))| && num <= MAX_TEMP_DEVICES
    requires num == |Sensors(SearchOrder(S))| || num == MAX_TEMP_DEVICES
    ensures Sensors(SearchOrder(S))[..num] == Scanned(S)
  {
    hide Sensors, SearchOrder;
  }

  lemma {:induction false} SensorsDistinct(found: seq<Rom>)
    requires Distinct(found)
    ensures Distinct(Sensors(found))
  {
    hide IsSensor;
    if found != [] {
      var n := |found| - 1;
      SensorsDistinct(found[..n]);
      SensorsAre(found[..n]);
      assert found[n] !in found[..n];
    }
  }

  ghost predicate Distinct(s: seq<Rom>) {
    forall i, j :: 0 <= i < j < |s| ==> s[i] != s[j]
  }

  /** A listing without repetition is as long as the set it lists. */
  lemma {:induction false} ListingLength(s: seq<Rom>, A: set<Rom>)
    requires Distinct(s) && forall c :: c in s <==> c in A
    ensures |s| == |A|
    decreases |s|
  {
    if s == [] {
      assert A == {};
    } else {
      var n := |s| - 1;
      assert s == s[..n] + [s[n]];
      assert s[n] in s && s[n] !in s[..n];
      ListingLength(s[..n], A - {s[n]});
    }
  }

  /** The search reports each reachable sensor once. */
  lemma SensorsReported(S: set<Rom>)
    ensures Distinct(Sensors(SearchOrder(S)))
    ensures forall c :: c in Sensors(SearchOrder(S)) <==> c in Reachable(S) && IsSensor(c)
    ensures |Sensors(SearchOrder(S))| == |SensorsOf(Reachable(S))|
  {
    hide FrameOk, IsSensor, Sensors, SearchOrder, Reachable;
    var order := SearchOrder(S);
    OrderListsReachable(S);
    SensorsDistinct(order);
    SensorsAre(order);
    ListingLength(Sensors(order), SensorsOf(Reachable(S)));
  }

  lemma FamilyBit0(c: Rom)
    requires c[0] == FAMILY
    ensures !Bit(c, 0)
  {}

  /** The family code 0x28 has a zero first bit: beside a device whose first bit is one no sensor is reported at all. */
  lemma HiddenSensors(S: set<Rom>)
    ensures NoneHidden(S) ==> SensorsOf(Reachable(S)) == SensorsOf(S)
    ensures !NoneHidden(S) ==> Sensors(SearchOrder(S)) == [] && SensorsOf(S) != {}
  {
    SensorsReported(S);
    hide FrameOk, Bit, Sensors, SearchOrder;
    forall c | c in S && IsSensor(c) ensures !Bit(c, 0) { FamilyBit0(c); }
    if !NoneHidden(S) {
      var c, d :| c in S && d in S && IsSensor(c) && Bit(d, 0);
      assert !AgreeOnBit0(S) && c in SensorsOf(S);
      assert forall x :: x !in Sensors(SearchOrder(S));
    } else if c :| c in S && IsSensor(c) {
      assert AgreeOnBit0(S);
    }
  }

  /**
   * A complete scan stores every sensor of the bus if and only if no device beside a sensor has first bit one and there
   * are no more sensors than slots. In the first case that fails it stores none, in the second a full table.
   */
  lemma ScanFindsEverySensorIff(S: set<Rom>)
    ensures (forall c :: c in S && IsSensor(c) ==> c in Scanned(S))
            <==> NoneHidden(S) && |SensorsOf(S)| <= MAX_TEMP_DEVICES
    ensures !NoneHidden(S) ==> Scanned(S) == []
    ensures NoneHidden(S) && |SensorsOf(S)| > MAX_TEMP_DEVICES ==> |Scanned(S)| == MAX_TEMP_DEVICES
  {
    HiddenSensors(S);
    SensorsReported(S);
    hide FrameOk, IsSensor, Sensors, SearchOrder, NoneHidden, Reachable;
    var found := Sensors(SearchOrder(S));
    if NoneHidden(S) {
      assert forall c :: c in SensorsOf(S) <==> c in found;
      if |found| > MAX_TEMP_DEVICES {
        assert found[MAX_TEMP_DEVICES] in SensorsOf(S);
        assert found[MAX_TEMP_DEVICES] !in Scanned(S);
      }
    } else {
      var c :| c in SensorsOf(S);
      assert c !in Scanned(S);
    }
  }
}
