/** What the stateful search of `owb/onewire_device.c` enumerates, and why its three state fields suffice. */
module RomSearch {
  import opened ByteBits
  import opened RomOrder

  ghost predicate AgreeOnBit0(S: set<Rom>) {
    forall a, b :: a in S && b in S ==> Bit(a, 0) == Bit(b, 0)
  }

  /** Index 0 also stands for "no discrepancy yet", so a first-bit discrepancy always takes the one branch. */
  ghost function Reachable(S: set<Rom>): set<Rom> {
    if AgreeOnBit0(S) then S else set c | c in S && Bit(c, 0)
  }

  /** The order in which the search reports the devices of `S`. */
  ghost function SearchOrder(S: set<Rom>): seq<Rom> {
    Sorted(Reachable(S))
  }

  /** The devices still taking part after `k` bits of a pass that has walked along `rom`. */
  ghost function Survivors(S: set<Rom>, rom: Rom, k: nat): set<Rom>
    requires k <= 64
  {
    set c | c in S && Agree(c, rom, k)
  }

  /** At bit `i` the walk along `t` took the zero branch of a discrepancy. */
  ghost predicate ZeroBranch(S: set<Rom>, t: Rom, i: nat)
    requires i < 64
  {
    !Bit(t, i) && exists c :: c in Survivors(S, t, i) && Bit(c, i)
  }

  /** Last zero branch of the walk along `t` within the first `n` bits, 0 if there is none. */
  ghost function LastZero(S: set<Rom>, t: Rom, n: nat): (z: nat)
    requires n <= 64
    ensures z == 0 || (z < n && ZeroBranch(S, t, z))
    ensures forall j: nat :: z < j < n ==> !ZeroBranch(S, t, j)
  {
    if n == 0 then 0
    else if ZeroBranch(S, t, n - 1) then n - 1
    else LastZero(S, t, n - 1)
  }

  /** The iterator state once `k` devices have been reported: what a finished pass leaves and an aborted pass keeps. */
  ghost predicate SearchAt(S: set<Rom>, k: nat, rom: Rom, lastDiscrepancy: nat, isLastDevice: bool) {
    && k <= |SearchOrder(S)|
    && lastDiscrepancy < 64
    && (k == 0 ==> lastDiscrepancy == 0 && !isLastDevice)
    && (k > 0 ==>
          var p := SearchOrder(S)[k - 1];
          && lastDiscrepancy == LastZero(S, p, 64)
          && Agree(rom, p, lastDiscrepancy)
          && isLastDevice == (lastDiscrepancy == 0))
  }

  /** The branch the search takes at a discrepancy. */
  predicate DiscrepancyBranch(rom: Rom, lastDiscrepancy: nat, i: nat)
    requires i < 64
  {
    if i < lastDiscrepancy then Bit(rom, i) else i == lastDiscrepancy
  }

  // ---------------------------------------------------------------- the successor lemma

  /** Survivors of a walk along a reachable code are reachable once bit 0 has been walked. */
  lemma SurvivorsReachable(S: set<Rom>, t: Rom, c: Rom, i: nat)
    requires t in Reachable(S) && 0 < i <= 64 && c in Survivors(S, t, i)
    ensures c in Reachable(S)
  {}

  lemma LargerMakesZeroBranch(S: set<Rom>, p: Rom, t: Rom) returns (e: nat)
    requires p in Reachable(S) && t in Reachable(S) && Less(p, t)
    ensures 0 < e < 64 && SplitAt(p, t, e) && ZeroBranch(S, p, e)
  {
    e :| e < 64 && SplitAt(p, t, e);
    assert t in Survivors(S, p, e);
  }

  /** Where the successor leaves its predecessor is exactly the recorded last discrepancy. */
  lemma SuccessorSplitsAtLastZero(S: set<Rom>, p: Rom, t: Rom)
    requires p in Reachable(S) && IsNext(Reachable(S), p, t)
    ensures LastZero(S, p, 64) > 0 && SplitAt(p, t, LastZero(S, p, 64))
  {
    var d := LastZero(S, p, 64);
    var e := LargerMakesZeroBranch(S, p, t);
    assert e <= d;
    if e < d {
      var c :| c in Survivors(S, p, d) && Bit(c, d);
      SurvivorsReachable(S, p, c, d);
      assert SplitAt(p, c, d);
      assert Less(p, c);
      assert SplitAt(c, t, e);
      LessIrreflexive(c, t);
      assert false;
    }
  }

  /** The recorded last discrepancy is 0 exactly when no reachable code is larger. */
  lemma NoZeroBranchIsLast(S: set<Rom>, p: Rom)
    requires p in Reachable(S)
    ensures LastZero(S, p, 64) == 0 <==> forall c :: c in Reachable(S) ==> !Less(p, c)
  {
    var d := LastZero(S, p, 64);
    if d > 0 {
      var c :| c in Survivors(S, p, d) && Bit(c, d);
      SurvivorsReachable(S, p, c, d);
      assert SplitAt(p, c, d);
      assert Less(p, c);
    } else {
      forall c | c in Reachable(S) ensures !Less(p, c) {
        if Less(p, c) {
          var e := LargerMakesZeroBranch(S, p, c);
        }
      }
    }
  }

  /** `isLastDevice` is set exactly after the last reachable code. */
  lemma FinishedIffAllVisited(S: set<Rom>, k: nat, rom: Rom, lastDiscrepancy: nat, isLastDevice: bool)
    requires SearchAt(S, k, rom, lastDiscrepancy, isLastDevice) && S != {}
    ensures isLastDevice <==> k == |SearchOrder(S)|
  {
    hide Less, LastZero, Agree, Reachable, Sorted;
    var R := Reachable(S);
    if k == 0 {
      ReachableNonEmpty(S);
    } else {
      var p := Sorted(R)[k - 1];
      NoZeroBranchIsLast(S, p);
      if k < |R| {
        SortedNext(R, k);
      } else {
        forall c | c in R ensures !Less(p, c) {
          var j :| 0 <= j < |R| && Sorted(R)[j] == c;
          if j < k - 1 { SortedIncreasing(R, j, k - 1); LessIrreflexive(c, p); }
          if Less(p, c) { LessIrreflexive(p, c); }
        }
      }
    }
  }

  lemma ReachableNonEmpty(S: set<Rom>)
    ensures Reachable(S) == {} <==> S == {}
  {}

  /** At every bit the search steers towards the next code of the search order. */
  lemma StepTowardsTarget(S: set<Rom>, k: nat, rom: Rom, lastDiscrepancy: nat, i: nat)
    requires i < 64 && k < |SearchOrder(S)|
    requires SearchAt(S, k, rom, lastDiscrepancy, false)
    requires Agree(SearchOrder(S)[k], rom, i)
    ensures
      var t := SearchOrder(S)[k];
      var A := Survivors(S, rom, i);
      && ((forall c :: c in A ==> Bit(c, i) == Bit(t, i)) || Bit(t, i) == DiscrepancyBranch(rom, lastDiscrepancy, i))
  {
    var R := Reachable(S);
    var t := SearchOrder(S)[k];
    var A := Survivors(S, rom, i);
    SortedNext(R, k);
    assert t in R;
    if c :| c in A && Bit(c, i) != Bit(t, i) {
      if k == 0 {
        if i > 0 {
          assert c in Survivors(S, t, i);
          SurvivorsReachable(S, t, c, i);
          SmallestSplit(R, t, c, i);
        }
      } else {
        var p := SearchOrder(S)[k - 1];
        SuccessorSplitsAtLastZero(S, p, t);
        if i > lastDiscrepancy {
          assert c in Survivors(S, t, i);
          SurvivorsReachable(S, t, c, i);
          assert SplitAt(p, c, lastDiscrepancy);
          assert Less(p, c);
          if Bit(t, i) {
            assert SplitAt(c, t, i);
            LessIrreflexive(c, t);
          }
        }
      }
    }
  }

  lemma SmallestSplit(R: set<Rom>, t: Rom, c: Rom, i: nat)
    requires i < 64 && IsFirst(R, t) && c in R && Agree(c, t, i) && Bit(c, i) != Bit(t, i)
    ensures !Bit(t, i)
  {}

  /** The branch taken after the two read slots of bit `i`. */
  predicate SearchDirection(rom: Rom, lastDiscrepancy: nat, i: nat, romBit: bool, romBitComplement: bool)
    requires i < 64
  {
    if romBit != romBitComplement then romBit else DiscrepancyBranch(rom, lastDiscrepancy, i)
  }

  /** With the survivors answering, a bit is never "1 and 1", and the branch taken is the target's. */
  lemma DirectionIsTargetBit(S: set<Rom>, k: nat, rom: Rom, lastDiscrepancy: nat, i: nat,
                             romBit: bool, romBitComplement: bool)
    requires i < 64 && k < |SearchOrder(S)|
    requires SearchAt(S, k, rom, lastDiscrepancy, false)
    requires Agree(SearchOrder(S)[k], rom, i)
    requires romBit <==> forall c :: c in Survivors(S, rom, i) ==> Bit(c, i)
    requires romBitComplement <==> forall c :: c in Survivors(S, rom, i) ==> !Bit(c, i)
    ensures !(romBit && romBitComplement)
    ensures SearchDirection(rom, lastDiscrepancy, i, romBit, romBitComplement) == Bit(SearchOrder(S)[k], i)
    ensures LastZero(S, SearchOrder(S)[k], i + 1) ==
            if !romBit && !romBitComplement && !Bit(SearchOrder(S)[k], i) then i else LastZero(S, SearchOrder(S)[k], i)
  {
    hide Less, Sorted, SearchAt, Agree;
    var t := SearchOrder(S)[k];
    StepTowardsSurvivor(S, k, rom, i);
    StepTowardsTarget(S, k, rom, lastDiscrepancy, i);
    SameSurvivors(S, t, rom, i);
    assert ZeroBranch(S, t, i) <==> !romBit && !romBitComplement && !Bit(t, i);
  }

  lemma SameSurvivors(S: set<Rom>, a: Rom, b: Rom, i: nat)
    requires i <= 64 && Agree(a, b, i)
    ensures Survivors(S, a, i) == Survivors(S, b, i)
  {}

  /** Writing the target's bit into `rom` keeps the search state and halves the survivors accordingly. */
  lemma StepKeepsSearch(S: set<Rom>, k: nat, rom: Rom, rom': Rom, lastDiscrepancy: nat, i: nat)
    requires i < 64 && k < |SearchOrder(S)|
    requires SearchAt(S, k, rom, lastDiscrepancy, false)
    requires Agree(SearchOrder(S)[k], rom, i)
    requires Bit(rom', i) == Bit(SearchOrder(S)[k], i)
    requires forall j: nat :: j < 64 && j != i ==> Bit(rom', j) == Bit(rom, j)
    ensures Agree(SearchOrder(S)[k], rom', i + 1)
    ensures SearchAt(S, k, rom', lastDiscrepancy, false)
    ensures Survivors(S, rom', i + 1) == set c | c in Survivors(S, rom, i) && Bit(c, i) == Bit(rom', i)
  {
    hide Reachable, Sorted, LastZero, BitOf;
    if k > 0 {
      var p := SearchOrder(S)[k - 1];
      SortedNext(Reachable(S), k);
      SuccessorSplitsAtLastZero(S, p, SearchOrder(S)[k]);
    }
  }

  lemma StepTowardsSurvivor(S: set<Rom>, k: nat, rom: Rom, i: nat)
    requires i <= 64 && k < |SearchOrder(S)| && Agree(SearchOrder(S)[k], rom, i)
    ensures SearchOrder(S)[k] in Survivors(S, rom, i)
  {}

  /** A pass has somewhere to go unless the bus is empty or the last device has been reported. */
  lemma PassStarts(S: set<Rom>, k: nat, rom: Rom, lastDiscrepancy: nat, isLastDevice: bool)
    requires SearchAt(S, k, rom, lastDiscrepancy, isLastDevice)
    ensures k <= |SearchOrder(S)|
    ensures k < |SearchOrder(S)| <==> S != {} && !isLastDevice
    ensures k < |SearchOrder(S)| ==>
              Agree(SearchOrder(S)[k], rom, 0) && LastZero(S, SearchOrder(S)[k], 0) == 0 && Survivors(S, rom, 0) == S
  {
    ReachableNonEmpty(S);
    if S != {} {
      FinishedIffAllVisited(S, k, rom, lastDiscrepancy, isLastDevice);
    }
  }

  /** A walk of all 64 bits ends on the target itself, and the state it leaves is that of one more device. */
  lemma PassCompletes(S: set<Rom>, k: nat, rom: Rom)
    requires k < |SearchOrder(S)| && Agree(SearchOrder(S)[k], rom, 64)
    ensures
      var t := SearchOrder(S)[k];
      && rom == t
      && SearchAt(S, k + 1, rom, LastZero(S, t, 64), LastZero(S, t, 64) == 0)
  {
    BytesExtensional(SearchOrder(S)[k], rom);
  }

  // ---------------------------------------------------------------- which devices are found

  /** The search reports reachable devices only, each once, in increasing order. */
  lemma OrderListsReachable(S: set<Rom>)
    ensures forall c :: c in SearchOrder(S) <==> c in Reachable(S)
    ensures forall i: nat, j: nat :: i < j < |SearchOrder(S)| ==> SearchOrder(S)[i] != SearchOrder(S)[j]
  {
    forall i: nat, j: nat | i < j < |SearchOrder(S)| ensures SearchOrder(S)[i] != SearchOrder(S)[j] {
      SortedIncreasing(Reachable(S), i, j);
      LessIrreflexive(SearchOrder(S)[i], SearchOrder(S)[j]);
    }
  }

  /** Every device of the bus is enumerated exactly when all codes agree on their first bit. */
  lemma EnumeratesAllIff(S: set<Rom>)
    ensures (forall c :: c in S ==> c in SearchOrder(S)) <==> AgreeOnBit0(S)
  {}

  /** A DS18B20 beside a device of family 0x01: the sensor, whose first bit is zero, is never reported. */
  lemma MixedBusExample(sensor: Rom, other: Rom)
    requires sensor[0] == 0x28 && other[0] == 0x01
    ensures SearchOrder({sensor, other}) == [other]
  {}
}
