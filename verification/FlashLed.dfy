/** The LED flasher of `utils/utils.c`: periods rounded to powers of two, toggling by a bit of the tick counter. */
module FlashLed {

  const NO_FLASH_LEDS: nat := 5

  // ---------------------------------------------------------------- rounding

  predicate IsPowerOf2(x: bv32) {
    x != 0 && x & (x - 1) == 0
  }

  /** `r` is what `n` is rounded to: the least power of two from `n` on, 0 where 32 bits have none. */
  ghost predicate RoundedTo(n: bv32, r: bv32) {
    if 1 <= n <= 0x8000_0000 then IsPowerOf2(r) && n <= r && forall x :: IsPowerOf2(x) && n <= x ==> r <= x
    else r == 0
  }

  method NextPowerOf2(n0: bv32) returns (r: bv32)
    ensures RoundedTo(n0, r)
  {
    hide IsPowerOf2;
    if n0 == 0 {
      return 0;
    }
    var n := n0 - 1;
    n := n | (n >> 1);
    n := n | (n >> 2);
    n := n | (n >> 4);
    n := n | (n >> 8);
    n := n | (n >> 16);
    r := n + 1;
    Smeared(n0 - 1);
    if n0 <= 0x8000_0000 {
      forall x | IsPowerOf2(x) && n0 <= x ensures r <= x {
        LeastPowerOf2(n0, r, x);
      }
    }
  }

  /** Smearing the highest set bit downwards. */
  function Smear(n: bv32): bv32 {
    var n1 := n | (n >> 1);
    var n2 := n1 | (n1 >> 2);
    var n3 := n2 | (n2 >> 4);
    var n4 := n3 | (n3 >> 8);
    n4 | (n4 >> 16)
  }

  lemma Smeared(n: bv32)
    ensures
      var r := Smear(n) + 1;
      if n < 0x8000_0000 then IsPowerOf2(r) && n < r && (r >> 1) <= n else r == 0
  {}

  /** No power of two lies strictly between the half of a power of two and itself. */
  lemma LeastPowerOf2(n: bv32, r: bv32, x: bv32)
    requires n > 0 && IsPowerOf2(r) && n <= r && (r >> 1) < n
    requires IsPowerOf2(x) && n <= x
    ensures r <= x
  {}

  // ---------------------------------------------------------------- the tick

  /** One LED slot; pin 0 marks a free slot, period 0 a LED that does not flash. */
  datatype Led = Led(pin: nat, period: bv32, state: bool)

  predicate Due(period: bv32, tick: bv32) {
    tick & period == 0
  }

  /** A slot after the timer callback for `tick`. */
  function Flash(led: Led, tick: bv32): Led {
    if led.pin != 0 && led.period != 0 && Due(led.period, tick) then led.(state := !led.state) else led
  }

  /** What `gpio_set_level` is called with. */
  datatype Level = Level(pin: nat, state: bool)

  /** The pin levels the callback writes for the first `n` slots: the state each slot had before it toggles. */
  function Levels(slots: seq<Led>, tick: bv32, n: nat): seq<Level>
    requires n <= |slots|
  {
    if n == 0 then []
    else Levels(slots, tick, n - 1)
         + FlashLevel(slots[n - 1], tick)
  }

  function FlashLevel(led: Led, tick: bv32): seq<Level> {
    if Flash(led, tick) != led then [Level(led.pin, led.state)] else []
  }

  /** The first slot that holds `pin` or is free; `|slots|` if there is none. */
  function SlotFor(slots: seq<Led>, pin: nat): (i: nat)
    ensures i <= |slots|
    ensures i < |slots| ==> slots[i].pin == pin || slots[i].pin == 0
    ensures forall j :: 0 <= j < i ==> slots[j].pin != pin && slots[j].pin != 0
  {
    if slots == [] || slots[0].pin == pin || slots[0].pin == 0 then 0 else 1 + SlotFor(slots[1..], pin)
  }

  /** Used slots come first and no pin has two slots. */
  ghost predicate WellKept(slots: seq<Led>) {
    && (forall i, j :: 0 <= i < j < |slots| && slots[j].pin != 0 ==> slots[i].pin != 0)
    && (forall i, j :: 0 <= i < j < |slots| && slots[i].pin != 0 ==> slots[i].pin != slots[j].pin)
  }

  datatype SetResult = Set | NotAnOutput | NoFreeSlot

  class Flasher {
    const ledSt: array<Led>
    var tickCount: bv32
    var levels: seq<Level>

    ghost predicate Valid()
      reads this, ledSt
    {
      ledSt.Length == NO_FLASH_LEDS && WellKept(ledSt[..])
    }

    constructor ()
      ensures Valid() && fresh(ledSt) && tickCount == 0 && levels == []
      ensures forall i :: 0 <= i < NO_FLASH_LEDS ==> ledSt[i] == Led(0, 0, false)
    {
      ledSt := new Led[NO_FLASH_LEDS](_ => Led(0, 0, false));
      tickCount, levels := 0, [];
    }

    /** The loop body of the callback, for slot `i`. */
    method FlashSlot(i: nat)
      requires i < ledSt.Length
      modifies ledSt, this`levels
      ensures ledSt[i] == Flash(old(ledSt[i]), tickCount)
      ensures forall j :: 0 <= j < ledSt.Length && j != i ==> ledSt[j] == old(ledSt[j])
      ensures levels == old(levels) + FlashLevel(old(ledSt[i]), tickCount)
    {
      hide Due;
      if ledSt[i].pin != 0 && ledSt[i].period != 0 {
        if Due(ledSt[i].period, tickCount) {
          levels := levels + [Level(ledSt[i].pin, ledSt[i].state)];
          ledSt[i] := ledSt[i].(state := !ledSt[i].state);
        }
      }
    }

    /** `flash_timer_callback`. */
    method Tick()
      requires Valid()
      modifies this, ledSt
      ensures Valid()
      ensures tickCount == old(tickCount) + 1
      ensures forall i :: 0 <= i < ledSt.Length ==> ledSt[i] == Flash(old(ledSt[i]), tickCount)
      ensures levels == old(levels) + Levels(old(ledSt[..]), tickCount, NO_FLASH_LEDS)
    {
      hide Flash, WellKept, FlashLevel;
      tickCount := tickCount + 1;
      ghost var before := ledSt[..];
      for i := 0 to NO_FLASH_LEDS
        invariant tickCount == old(tickCount) + 1
        invariant forall j :: 0 <= j < i ==> ledSt[j] == Flash(before[j], tickCount)
        invariant forall j :: i <= j < ledSt.Length ==> ledSt[j] == before[j]
        invariant levels == old(levels) + Levels(before, tickCount, i)
      {
        FlashSlot(i);
      }
      FlashKeeps(before, ledSt[..], tickCount);
    }

    /** The timer callback `n` times over. */
    method TickAll(n: nat)
      requires Valid()
      modifies this, ledSt
      ensures Valid()
      ensures tickCount == After(old(tickCount), n)
      ensures forall i :: 0 <= i < ledSt.Length ==> ledSt[i] == FlashRun(old(ledSt[i]), old(tickCount), n)
      ensures old(levels) <= levels
      ensures forall i :: 0 <= i < ledSt.Length && old(ledSt[i]).pin != 0 ==>
                PinLevels(levels[|old(levels)|..], old(ledSt[i]).pin) == SlotLevels(old(ledSt[i]), old(tickCount), n)
    {
      hide Flash, WellKept, PinLevels, SlotLevels, Levels, FlashLevel, FlashRun, After;
      ghost var before, t := ledSt[..], tickCount;
      assert levels[|old(levels)|..] == [];
      NoTicks(t);
      for k := 0 to n
        invariant Valid() && old(levels) <= levels
        invariant tickCount == After(t, k)
        invariant forall i :: 0 <= i < ledSt.Length ==> ledSt[i] == FlashRun(before[i], t, k)
        invariant forall i :: 0 <= i < ledSt.Length && before[i].pin != 0 ==>
                    PinLevels(levels[|old(levels)|..], before[i].pin) == SlotLevels(before[i], t, k)
      {
        ghost var now, written := ledSt[..], levels[|old(levels)|..];
        Tick();
        OneMoreTick(t, k);
        assert levels[|old(levels)|..] == written + Levels(now, tickCount, NO_FLASH_LEDS);
        forall i | 0 <= i < ledSt.Length && before[i].pin != 0
          ensures PinLevels(levels[|old(levels)|..], before[i].pin) == SlotLevels(before[i], t, k + 1)
        {
          OneMoreLevels(written, now, before[i], i, t, k);
        }
      }
    }

    static lemma NoTicks(t: bv32)
      ensures After(t, 0) == t
      ensures forall led: Led :: FlashRun(led, t, 0) == led
      ensures forall led: Led, pin: nat :: PinLevels([], pin) == SlotLevels(led, t, 0)
    {}

    static lemma OneMoreTick(t: bv32, n: nat)
      ensures After(t, n + 1) == After(t, n) + 1
      ensures forall led: Led :: FlashRun(led, t, n + 1) == Flash(FlashRun(led, t, n), After(t, n + 1))
    {
      hide Flash;
    }

    /**
     * `set_flash_led`; `isOutput` is what the pin's hardware registers say. Pin 0 matches the first free slot, is not
     * checked to be an output, and leaves the slot free.
     */
    method SetFlashLed(pin: nat, state: bool, tick: bv32, isOutput: bool) returns (r: SetResult)
      requires Valid()
      modifies ledSt, this`levels
      ensures Valid()
      ensures
        var i := SlotFor(old(ledSt[..]), pin);
        && (r == NoFreeSlot <==> i == NO_FLASH_LEDS)
        && (r == NotAnOutput <==> i < NO_FLASH_LEDS && old(ledSt[..])[i].pin == 0 && pin != 0 && !isOutput)
        && (forall j :: 0 <= j < ledSt.Length && (r != Set || j != i) ==> ledSt[j] == old(ledSt[j]))
        && (r == Set ==> ledSt[i].pin == pin && ledSt[i].state == state && RoundedTo(tick, ledSt[i].period))
        && levels == old(levels) + (if r == Set then [Level(pin, state)] else [])
    {
      var normalized := NextPowerOf2(tick);
      hide RoundedTo;
      ghost var before := ledSt[..];
      var i := 0;
      while i < NO_FLASH_LEDS && ledSt[i].pin != pin && ledSt[i].pin != 0
        invariant i <= NO_FLASH_LEDS
        invariant SlotFor(before, pin) == i + SlotFor(before[i..], pin)
      {
        assert before[i..][1..] == before[i + 1..];
        i := i + 1;
      }
      assert i == SlotFor(before, pin);
      if i == NO_FLASH_LEDS {
        return NoFreeSlot;
      }
      if ledSt[i].pin != pin && !isOutput {
        return NotAnOutput;
      }
      ledSt[i] := Led(pin, normalized, state);
      assert ledSt[..] == before[i := Led(pin, normalized, state)];
      OneMoreKept(before, i, Led(pin, normalized, state));
      levels := levels + [Level(pin, state)];
      r := Set;
    }
  }

  lemma FlashKeeps(before: seq<Led>, after: seq<Led>, tick: bv32)
    requires WellKept(before) && |after| == |before|
    requires forall j :: 0 <= j < |before| ==> after[j] == Flash(before[j], tick)
    ensures WellKept(after)
  {}

  lemma OneMoreKept(slots: seq<Led>, i: nat, led: Led)
    requires WellKept(slots) && i == SlotFor(slots, led.pin) < |slots|
    ensures WellKept(slots[i := led])
  {}

  // ---------------------------------------------------------------- how often a LED toggles

  /** 32-bit addition with wrap-around. */
  function Plus(t: bv32, p: bv32): bv32 {
    t + p
  }

  lemma PlusSwap(t: bv32, p: bv32)
    requires IsPowerOf2(p)
    ensures Plus(Plus(t, p), 1) == Plus(Plus(t, 1), p)
  {
    PlusAssociates(t, p, 1);
    PlusAssociates(t, 1, p);
    PlusCommutes(p, 1);
  }

  lemma PlusAssociates(a: bv32, b: bv32, c: bv32)
    ensures Plus(Plus(a, b), c) == Plus(a, Plus(b, c))
  {
    SumInPlace(a, b, c);
    SumOfThree(a, b, c);
    hide Plus;
  }

  lemma SumInPlace(a: bv32, b: bv32, c: bv32)
    ensures Plus(Plus(a, b), c) == Plus(a + b, c) && Plus(a, Plus(b, c)) == Plus(a, b + c)
  {}

  lemma SumOfThree(a: bv32, b: bv32, c: bv32)
    ensures Plus(a + b, c) == Plus(a, b + c)
  {}

  lemma PlusCommutes(a: bv32, b: bv32)
    ensures Plus(a, b) == Plus(b, a)
  {}

  /** The counter `n` ticks after `t`. */
  function After(t: bv32, n: nat): bv32 {
    if n == 0 then t else Plus(After(t, n - 1), 1)
  }

  /** How often a LED of the given period is due in the `n` ticks that follow `t`. */
  function Toggles(period: bv32, t: bv32, n: nat): nat {
    if n == 0 then 0 else Toggles(period, t, n - 1) + (if Due(period, After(t, n)) then 1 else 0)
  }

  /** The ticks a power of two stands for. */
  function Ticks(p: bv32): nat
    decreases p
  {
    if p <= 1 then 1 else 2 * Ticks(p >> 1)
  }

  lemma {:induction false} AfterSum(t: bv32, a: nat, b: nat)
    ensures After(t, a + b) == After(After(t, a), b)
    decreases b
  {
    hide Plus;
    if b > 0 {
      AfterSum(t, a, b - 1);
    }
  }

  lemma HalfPower(p: bv32)
    requires IsPowerOf2(p) && p > 1
    ensures IsPowerOf2(p >> 1)
  {}

  /** `Ticks(p)` single ticks advance the counter by `p`. */
  lemma {:induction false} AfterTicks(t: bv32, p: bv32)
    requires IsPowerOf2(p)
    ensures After(t, Ticks(p)) == Plus(t, p)
    decreases p
  {
    hide IsPowerOf2, Plus;
    if p > 1 {
      var h := p >> 1;
      HalfPower(p);
      AfterTicks(t, h);
      AfterTicks(Plus(t, h), h);
      AfterSum(t, Ticks(h), Ticks(h));
      PlusTwice(t, p);
    } else {
      PowerNotZero(p);
      assert After(t, 1) == Plus(After(t, 0), 1);
    }
  }

  lemma PowerNotZero(p: bv32)
    requires IsPowerOf2(p)
    ensures p != 0
  {}

  lemma PlusTwice(t: bv32, p: bv32)
    requires IsPowerOf2(p) && p > 1
    ensures Plus(Plus(t, p >> 1), p >> 1) == Plus(t, p)
  {
    PlusAssociates(t, p >> 1, p >> 1);
    Halves(p);
    hide Plus;
  }

  lemma Halves(p: bv32)
    requires IsPowerOf2(p) && p > 1
    ensures Plus(p >> 1, p >> 1) == p
  {}

  /** Advancing the counter by the period flips the bit that decides. */
  lemma PeriodFlips(p: bv32, t: bv32)
    requires IsPowerOf2(p)
    ensures Due(p, Plus(t, p)) <==> !Due(p, t)
  {}

  lemma {:induction false} AfterShift(t: bv32, p: bv32, n: nat)
    requires IsPowerOf2(p)
    ensures After(Plus(t, p), n) == Plus(After(t, n), p)
    decreases n
  {
    hide Plus, IsPowerOf2;
    if n > 0 {
      AfterShift(t, p, n - 1);
      PlusSwap(After(t, n - 1), p);
    }
  }

  lemma {:induction false} TogglesFlip(p: bv32, t: bv32, n: nat)
    requires IsPowerOf2(p)
    ensures Toggles(p, Plus(t, p), n) == n - Toggles(p, t, n)
    decreases n
  {
    hide Due, IsPowerOf2, Plus;
    if n > 0 {
      TogglesFlip(p, t, n - 1);
      AfterShift(t, p, n);
      PeriodFlips(p, After(t, n));
    }
  }

  lemma {:induction false} TogglesSum(p: bv32, t: bv32, a: nat, b: nat)
    ensures Toggles(p, t, a + b) == Toggles(p, t, a) + Toggles(p, After(t, a), b)
    decreases b
  {
    hide Due, Plus;
    if b > 0 {
      TogglesSum(p, t, a, b - 1);
      AfterSum(t, a, b);
    }
  }

  /** In every window of twice its period, wherever it starts, a LED toggles as many times as its period has ticks. */
  lemma TogglesPerWindow(p: bv32, t: bv32)
    requires IsPowerOf2(p)
    ensures Toggles(p, t, 2 * Ticks(p)) == Ticks(p)
  {
    hide IsPowerOf2, Plus, Due;
    var n := Ticks(p);
    TogglesSum(p, t, n, n);
    AfterTicks(t, p);
    TogglesFlip(p, t, n);
  }

  /** A slot after the `n` ticks that follow `t`. */
  function FlashRun(led: Led, t: bv32, n: nat): Led {
    if n == 0 then led else Flash(FlashRun(led, t, n - 1), After(t, n))
  }

  /** A flashing LED has toggled once for every due tick, and nothing else about its slot changes. */
  lemma {:induction false} StateCountsToggles(led: Led, t: bv32, n: nat)
    requires led.pin != 0 && led.period != 0
    ensures FlashRun(led, t, n) == led.(state := if Toggles(led.period, t, n) % 2 == 0 then led.state else !led.state)
    decreases n
  {
    hide Due, Plus;
    if n > 0 {
      StateCountsToggles(led, t, n - 1);
    }
  }

  lemma TicksParity(p: bv32)
    requires IsPowerOf2(p)
    ensures Ticks(p) % 2 == 0 <==> p != 1
  {}

  /** Over twice its period a LED toggles once per period tick; unless the period is 1 it ends as it began. */
  lemma FlashWindow(led: Led, t: bv32)
    requires led.pin != 0 && IsPowerOf2(led.period)
    ensures
      var n := 2 * Ticks(led.period);
      && Toggles(led.period, t, n) == Ticks(led.period)
      && FlashRun(led, t, n) == if led.period == 1 then led.(state := !led.state) else led
  {
    hide Due, Plus, Toggles, FlashRun, IsPowerOf2, Ticks;
    TogglesPerWindow(led.period, t);
    PowerNotZero(led.period);
    TicksParity(led.period);
    StateCountsToggles(led, t, 2 * Ticks(led.period));
  }

  // ---------------------------------------------------------------- the levels written

  /** The levels written to one pin. */
  function PinLevels(levels: seq<Level>, pin: nat): seq<Level> {
    if levels == [] then []
    else
      var n := |levels| - 1;
      PinLevels(levels[..n], pin) + (if levels[n].pin == pin then [levels[n]] else [])
  }

  /** The levels a slot writes in the `n` ticks that follow `t`. */
  function SlotLevels(led: Led, t: bv32, n: nat): seq<Level> {
    if n == 0 then [] else SlotLevels(led, t, n - 1) + FlashLevel(FlashRun(led, t, n - 1), After(t, n))
  }

  lemma {:induction false} PinLevelsAppend(a: seq<Level>, b: seq<Level>, pin: nat)
    ensures PinLevels(a + b, pin) == PinLevels(a, pin) + PinLevels(b, pin)
    decreases |b|
  {
    if b == [] {
      assert a + b == a;
    } else {
      var n := |b| - 1;
      assert (a + b)[..|a + b| - 1] == a + b[..n];
      PinLevelsAppend(a, b[..n], pin);
    }
  }

  lemma {:induction false} SamePin(led: Led, t: bv32, n: nat)
    ensures FlashRun(led, t, n).pin == led.pin
  {
    hide Due, Plus;
    if n > 0 { SamePin(led, t, n - 1); }
  }

  lemma LevelOfSlot(led: Led, tick: bv32, pin: nat)
    ensures PinLevels(FlashLevel(led, tick), pin) == if led.pin == pin then FlashLevel(led, tick) else []
  {
    hide Flash, PinLevels;
    PinOfOne(FlashLevel(led, tick), pin);
  }

  /** In one tick a slot is alone in writing its pin. */
  lemma {:induction false} OneTickLevels(slots: seq<Led>, tick: bv32, n: nat, i: nat)
    requires WellKept(slots) && i < |slots| && n <= |slots| && slots[i].pin != 0
    ensures PinLevels(Levels(slots, tick, n), slots[i].pin) == if i < n then FlashLevel(slots[i], tick) else []
    decreases n
  {
    hide FlashLevel, PinLevels;
    if n == 0 {
      PinOfOne([], slots[i].pin);
    } else {
      OneTickLevels(slots, tick, n - 1, i);
      PinLevelsAppend(Levels(slots, tick, n - 1), FlashLevel(slots[n - 1], tick), slots[i].pin);
      LevelOfSlot(slots[n - 1], tick, slots[i].pin);
    }
  }

  /** One more tick adds the same levels to a pin and to the account of its slot. */
  lemma OneMoreLevels(written: seq<Level>, now: seq<Led>, led: Led, i: nat, t: bv32, k: nat)
    requires WellKept(now) && i < |now| && led.pin != 0 && now[i] == FlashRun(led, t, k)
    requires PinLevels(written, led.pin) == SlotLevels(led, t, k)
    ensures PinLevels(written + Levels(now, After(t, k + 1), |now|), led.pin) == SlotLevels(led, t, k + 1)
  {
    hide WellKept, PinLevels, Levels, FlashLevel, FlashRun, After;
    var tick := After(t, k + 1);
    SamePin(led, t, k);
    PinLevelsAppend(written, Levels(now, tick, |now|), led.pin);
    OneTickLevels(now, tick, |now|, i);
  }

  lemma PinOfOne(levels: seq<Level>, pin: nat)
    requires |levels| <= 1
    ensures PinLevels(levels, pin) == if levels != [] && levels[0].pin == pin then levels else []
  {
    if levels != [] { assert levels[..0] == []; }
  }

  /** The levels a flashing LED is given alternate, beginning with the state it was set to, one for each due tick. */
  lemma {:induction false} LevelsAlternate(led: Led, t: bv32, n: nat)
    requires led.pin != 0 && led.period != 0
    ensures |SlotLevels(led, t, n)| == Toggles(led.period, t, n)
    ensures forall i :: 0 <= i < |SlotLevels(led, t, n)| ==>
              SlotLevels(led, t, n)[i] == Level(led.pin, if i % 2 == 0 then led.state else !led.state)
    decreases n
  {
    hide Due, Plus;
    if n > 0 {
      LevelsAlternate(led, t, n - 1);
      StateCountsToggles(led, t, n - 1);
    }
  }
}
