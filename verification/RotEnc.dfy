/** The rotary encoder's event loop of `utils/rot_enc.c`: what its user interface queue is sent. */
module RotEnc {
  import opened CTypes
  import opened Wrappers

  const PUSH_TIME_SHORT: nat := 100000
  const PUSH_TIME_LONG: nat := 2000000
  const PUSH_TIME_LONGLONG: nat := 10000000
  const PUSH_KEY_REPEAT: nat := 500000

  /** The command queue: knob edge, key edge with its time stamp, key timer expiry, inactivity. */
  datatype Event = Rotation(s1: bool, s2: bool) | Key(pressed: bool, ts: UInt64) | Timer | Inactivity(seconds: nat)

  datatype Ui = RotRight | RotLeft | Down(count: nat) | Press(time: nat) | Up | Idle(seconds: nat)

  datatype Machine = Machine(pressed: bool, pressTime: nat, keyCount: nat, lastKeyTime: UInt64)

  function Initial(level: bool): Machine {
    Machine(level, PUSH_TIME_SHORT, 0, 0)
  }

  /** Unsigned 64-bit difference of two time stamps. */
  function Gap(now: UInt64, before: UInt64): UInt64 {
    (now - before) % 0x1_0000_0000_0000_0000
  }

  function Step(m: Machine, e: Event): (Machine, seq<Ui>) {
    match e
    case Rotation(s1, s2) => (m, if s1 && !s2 then [RotRight] else if s1 && s2 then [RotLeft] else [])
    case Key(pressed, ts) =>
      if !pressed then (if m.pressed then (m.(pressed := false), [Up]) else (m, []))
      else if m.pressed then (m, [])
      else
        var count := if Gap(ts, m.lastKeyTime) < PUSH_KEY_REPEAT then m.keyCount + 1 else 0;
        (Machine(true, PUSH_TIME_SHORT, count, ts), [Down(count)])
    case Timer =>
      if !m.pressed then (m, [])
      else if m.pressTime == PUSH_TIME_SHORT then (m.(pressTime := PUSH_TIME_LONG), [Press(PUSH_TIME_SHORT)])
      else if m.pressTime == PUSH_TIME_LONG then (m.(pressTime := PUSH_TIME_LONGLONG), [Press(PUSH_TIME_LONG)])
      else if m.pressTime == PUSH_TIME_LONGLONG then (m, [Press(PUSH_TIME_LONGLONG)])
      else (m, [])
    case Inactivity(seconds) => (m, [Idle(seconds)])
  }

  function Run(m: Machine, events: seq<Event>): (Machine, seq<Ui>) {
    if events == [] then (m, [])
    else
      var (before, out) := Run(m, events[..|events| - 1]);
      var (after, more) := Step(before, events[|events| - 1]);
      (after, out + more)
  }

  class KeyMachine {
    var keyState: bool
    var pressTime: nat
    var keyCount: nat
    var lastKeyEventTime: UInt64
    /** Everything sent to the user interface queue. */
    var sent: seq<Ui>

    function View(): Machine
      reads this
    {
      Machine(keyState, pressTime, keyCount, lastKeyEventTime)
    }

    /** `init_rotenc` with the key at `level`, and the start of the event loop. */
    constructor (level: bool)
      ensures View() == Initial(level) && sent == []
    {
      keyState, pressTime, keyCount, lastKeyEventTime, sent := level, PUSH_TIME_SHORT, 0, 0, [];
    }

    /** One turn of the event loop. */
    method Handle(msg: Event)
      modifies this
      ensures View() == Step(old(View()), msg).0
      ensures sent == old(sent) + Step(old(View()), msg).1
    {
      match msg
      case Rotation(s1, s2) =>
        if s1 && !s2 {
          sent := sent + [RotRight];
        } else if s1 && s2 {
          sent := sent + [RotLeft];
        }
      case Key(pressed, ts) =>
        if !pressed {
          if keyState {
            keyState := false;
            sent := sent + [Up];
          }
        } else if !keyState {
          pressTime := PUSH_TIME_SHORT;
          if Gap(ts, lastKeyEventTime) < PUSH_KEY_REPEAT {
            keyCount := keyCount + 1;
          } else {
            keyCount := 0;
          }
          lastKeyEventTime := ts;
          keyState := true;
          sent := sent + [Down(keyCount)];
        }
      case Timer =>
        if keyState {
          if pressTime == PUSH_TIME_SHORT {
            sent := sent + [Press(PUSH_TIME_SHORT)];
            pressTime := PUSH_TIME_LONG;
          } else if pressTime == PUSH_TIME_LONG {
            sent := sent + [Press(PUSH_TIME_LONG)];
            pressTime := PUSH_TIME_LONGLONG;
          } else if pressTime == PUSH_TIME_LONGLONG {
            sent := sent + [Press(PUSH_TIME_LONGLONG)];
          }
        }
      case Inactivity(seconds) =>
        sent := sent + [Idle(seconds)];
    }

    /** The loop over the events that arrive. */
    method HandleAll(events: seq<Event>)
      modifies this
      ensures View() == Run(old(View()), events).0
      ensures sent == old(sent) + Run(old(View()), events).1
    {
      hide Step;
      ghost var m := View();
      for i := 0 to |events|
        invariant View() == Run(m, events[..i]).0
        invariant sent == old(sent) + Run(m, events[..i]).1
      {
        assert events[..i + 1][..i] == events[..i];
        Handle(events[i]);
      }
      assert events[..|events|] == events;
    }
  }

  // ---------------------------------------------------------------- the output language

  predicate IsKeyEvent(u: Ui) {
    u.Down? || u.Press? || u.Up?
  }

  function KeyEvents(out: seq<Ui>): seq<Ui> {
    if out == [] then []
    else
      var n := |out| - 1;
      KeyEvents(out[..n]) + (if IsKeyEvent(out[n]) then [out[n]] else [])
  }

  /** One time the key was down: its repeat count and the number of timer expiries seen. */
  datatype Session = Session(count: nat, presses: nat)

  /** SHORT, then LONG, then any number of LONGLONG. */
  function Presses(n: nat): seq<Ui> {
    seq(n, i requires 0 <= i < n => Press(PressTime(i)))
  }

  function OpenText(s: Session): seq<Ui> {
    [Down(s.count)] + Presses(s.presses)
  }

  function ClosedTexts(done: seq<Session>): seq<Ui> {
    if done == [] then [] else ClosedTexts(done[..|done| - 1]) + OpenText(done[|done| - 1]) + [Up]
  }

  /** A prefix of (K_DOWN (SHORT (LONG LONGLONG*)?)? K_UP)*. */
  ghost predicate InLanguage(s: seq<Ui>) {
    exists done: seq<Session>, open: Option<Session> :: s == LanguageText(done, open)
  }

  function LanguageText(done: seq<Session>, open: Option<Session>): seq<Ui> {
    ClosedTexts(done) + (if open.Some? then OpenText(open.value) else [])
  }

  /** The key's history: finished sessions, the one in progress, and the times of all accepted presses. */
  datatype History = History(done: seq<Session>, open: Option<Session>, times: seq<UInt64>)

  function Gaps(times: seq<UInt64>, i: nat): UInt64
    requires i < |times|
  {
    Gap(times[i], if i == 0 then 0 else times[i - 1])
  }

  /** How many gaps in a row, the last one included, are short. */
  function RunLength(times: seq<UInt64>): (r: nat)
    ensures r <= |times|
  {
    if times == [] || Gaps(times, |times| - 1) >= PUSH_KEY_REPEAT then 0 else 1 + RunLength(times[..|times| - 1])
  }

  function Advance(h: History, e: Event): History {
    match e
    case Key(true, ts) =>
      if h.open.Some? then h
      else History(h.done, Some(Session(RunLength(h.times + [ts]), 0)), h.times + [ts])
    case Key(false, _) => if h.open.Some? then h.(done := h.done + [h.open.value], open := None) else h
    case Timer => if h.open.Some? then h.(open := Some(h.open.value.(presses := h.open.value.presses + 1))) else h
    case _ => h
  }

  /** What the events mean for the key, without any machine state. */
  function KeyHistory(events: seq<Event>): History {
    if events == [] then History([], None, []) else Advance(KeyHistory(events[..|events| - 1]), events[|events| - 1])
  }

  function PressTime(n: nat): nat {
    if n == 0 then PUSH_TIME_SHORT else if n == 1 then PUSH_TIME_LONG else PUSH_TIME_LONGLONG
  }

  ghost predicate Tracks(m: Machine, h: History) {
    && (m.pressed <==> h.open.Some?)
    && (h.open.Some? ==> m.pressTime == PressTime(h.open.value.presses))
    && m.keyCount == RunLength(h.times)
    && m.lastKeyTime == if h.times == [] then 0 else h.times[|h.times| - 1]
  }

  lemma KeyEventsOf(out: seq<Ui>, more: seq<Ui>)
    requires |more| <= 1
    ensures KeyEvents(out + more) == KeyEvents(out) + (if |more| == 1 && IsKeyEvent(more[0]) then more else [])
  {
    if more == [] {
      assert out + more == out;
    } else {
      assert (out + more)[..|out|] == out && more == [more[0]];
    }
  }

  lemma OnePressMore(s: Session)
    ensures OpenText(s.(presses := s.presses + 1)) == OpenText(s) + [Press(PressTime(s.presses))]
  {}

  lemma OneSessionMore(done: seq<Session>, s: Session)
    ensures ClosedTexts(done + [s]) == ClosedTexts(done) + OpenText(s) + [Up]
  {}

  lemma RunLengthSnoc(times: seq<UInt64>, ts: UInt64)
    ensures
      var before := if times == [] then 0 else times[|times| - 1];
      RunLength(times + [ts]) == if Gap(ts, before) < PUSH_KEY_REPEAT then RunLength(times) + 1 else 0
  {}

  lemma StepIsHistory(m: Machine, out: seq<Ui>, h: History, e: Event)
    requires Tracks(m, h) && KeyEvents(out) == LanguageText(h.done, h.open)
    ensures
      var (after, more) := Step(m, e);
      var h' := Advance(h, e);
      Tracks(after, h') && KeyEvents(out + more) == LanguageText(h'.done, h'.open)
  {
    hide Gap, OpenText, ClosedTexts, RunLength, KeyEvents;
    KeyEventsOf(out, Step(m, e).1);
    match e
    case Key(true, ts) =>
      RunLengthSnoc(h.times, ts);
      FreshSession(RunLength(h.times + [ts]));
    case Key(false, _) =>
      if h.open.Some? { OneSessionMore(h.done, h.open.value); }
    case Timer =>
      if h.open.Some? { OnePressMore(h.open.value); }
    case _ =>
  }

  lemma FreshSession(count: nat)
    ensures OpenText(Session(count, 0)) == [Down(count)]
  {}

  /**
   * From a released key, for every sequence of events, the key events sent are the sessions the events make up: each
   * K_DOWN with the length of its run of short gaps, then SHORT, LONG and LONGLONG in that order, then K_UP.
   */
  lemma {:induction false} SentIsHistory(events: seq<Event>)
    ensures
      var (m, out) := Run(Initial(false), events);
      var h := KeyHistory(events);
      Tracks(m, h) && KeyEvents(out) == LanguageText(h.done, h.open)
    decreases |events|
  {
    hide Step, Advance, LanguageText;
    if events != [] {
      var n := |events| - 1;
      SentIsHistory(events[..n]);
      var (m, out) := Run(Initial(false), events[..n]);
      StepIsHistory(m, out, KeyHistory(events[..n]), events[n]);
    } else {
      NothingSent();
    }
  }

  lemma NothingSent()
    ensures LanguageText([], None) == []
  {}

  lemma {:induction false} TextStartsWithDown(done: seq<Session>, open: Option<Session>)
    ensures LanguageText(done, open) != [] ==> LanguageText(done, open)[0].Down?
    decreases |done|
  {
    if done != [] {
      TextStartsWithDown(done[..|done| - 1], None);
    }
  }

  lemma UpFirstIsForeign()
    ensures !InLanguage([Up])
  {
    forall done: seq<Session>, open: Option<Session> ensures LanguageText(done, open) != [Up] {
      TextStartsWithDown(done, open);
    }
  }

  /** Every run keeps to the language exactly when the key is released at start-up. */
  lemma LanguageIffReleased(level: bool)
    ensures (forall events: seq<Event> :: InLanguage(KeyEvents(Run(Initial(level), events).1))) <==> !level
  {
    if level {
      var events := [Key(false, 0)];
      var out := Run(Initial(true), events).1;
      assert events[..0] == [] && Run(Initial(true), []).1 == [];
      assert out == [Up];
      assert out[..0] == [] && KeyEvents(out) == [Up];
      UpFirstIsForeign();
      assert !InLanguage(KeyEvents(Run(Initial(level), events).1));
    } else {
      hide Run, KeyEvents, LanguageText;
      forall events: seq<Event> ensures InLanguage(KeyEvents(Run(Initial(false), events).1)) {
        SentIsHistory(events);
      }
    }
  }

  // ---------------------------------------------------------------- what a repeat count means

  function RunLengthAt(times: seq<UInt64>, i: nat): nat
    requires i < |times|
  {
    RunLength(times[..i + 1])
  }

  /** The repeat counts of the sessions are the run lengths at their presses. */
  lemma {:induction false} CountsAreRunLengths(events: seq<Event>)
    ensures
      var h := KeyHistory(events);
      var all := if h.open.Some? then h.done + [h.open.value] else h.done;
      |all| == |h.times| && forall i :: 0 <= i < |all| ==> all[i].count == RunLengthAt(h.times, i)
    decreases |events|
  {
    hide RunLength;
    if events != [] {
      var n := |events| - 1;
      CountsAreRunLengths(events[..n]);
      var h := KeyHistory(events[..n]);
      match events[n]
      case Key(true, ts) =>
        forall i: nat | i < |h.times| ensures RunLengthAt(h.times + [ts], i) == RunLengthAt(h.times, i) {
          assert (h.times + [ts])[..i + 1] == h.times[..i + 1];
        }
        assert (h.times + [ts])[..|h.times| + 1] == h.times + [ts];
      case _ =>
    }
  }

  /** A run length counts the short gaps that end the sequence, up to the first long one or the very first press. */
  lemma {:induction false} RunLengthMeans(times: seq<UInt64>)
    ensures
      var r := RunLength(times);
      && (forall i :: |times| - r <= i < |times| ==> Gaps(times, i) < PUSH_KEY_REPEAT)
      && (r < |times| ==> Gaps(times, |times| - r - 1) >= PUSH_KEY_REPEAT)
    decreases |times|
  {
    hide Gap;
    if times != [] && Gaps(times, |times| - 1) < PUSH_KEY_REPEAT {
      var front := times[..|times| - 1];
      RunLengthMeans(front);
      assert forall i :: 0 <= i < |front| ==> Gaps(front, i) == Gaps(times, i);
    }
  }

  // ---------------------------------------------------------------- knob and inactivity

  function OtherEvents(out: seq<Ui>): seq<Ui> {
    if out == [] then []
    else
      var n := |out| - 1;
      OtherEvents(out[..n]) + (if IsKeyEvent(out[n]) then [] else [out[n]])
  }

  /** What knob edges and inactivity amount to: a turn for each edge with S1 high, to the right when S2 is low. */
  function Others(events: seq<Event>): seq<Ui> {
    if events == [] then []
    else
      var front := Others(events[..|events| - 1]);
      match events[|events| - 1]
      case Rotation(true, false) => front + [RotRight]
      case Rotation(true, true) => front + [RotLeft]
      case Inactivity(seconds) => front + [Idle(seconds)]
      case _ => front
  }

  lemma OtherEventsOf(out: seq<Ui>, more: seq<Ui>)
    requires |more| <= 1
    ensures OtherEvents(out + more) == OtherEvents(out) + (if |more| == 1 && !IsKeyEvent(more[0]) then more else [])
  {
    if more == [] {
      assert out + more == out;
    } else {
      assert (out + more)[..|out|] == out && more == [more[0]];
    }
  }

  /** From any state, all that is sent besides the key events are the turns and inactivity reports, in order. */
  lemma {:induction false} OthersInOrder(m: Machine, events: seq<Event>)
    ensures OtherEvents(Run(m, events).1) == Others(events)
    decreases |events|
  {
    hide Gap, OtherEvents;
    if events == [] {
      NothingElse();
    } else {
      var n := |events| - 1;
      OthersInOrder(m, events[..n]);
      var (before, out) := Run(m, events[..n]);
      OtherEventsOf(out, Step(before, events[n]).1);
    }
  }

  lemma NothingElse()
    ensures OtherEvents([]) == []
  {}

  // ---------------------------------------------------------------- times

  /** Between two time stamps: the time passed, with one wrap-around of the 64-bit clock if the later one is smaller. */
  lemma GapMeans(now: UInt64, before: UInt64)
    ensures Gap(now, before) == if before <= now then now - before else now + 0x1_0000_0000_0000_0000 - before
  {}

  /** The time of the press before the `i`-th; 0 before the first. */
  function Before(times: seq<UInt64>, i: nat): UInt64
    requires i <= |times|
  {
    if i == 0 then 0 else times[i - 1]
  }

  /**
   * With time stamps that never go back, the repeat count of a press is the length of the run of gaps below half a
   * second that ends with it, the first gap being counted from time 0.
   */
  lemma RepeatCount(times: seq<UInt64>)
    requires forall i, j :: 0 <= i < j < |times| ==> times[i] <= times[j]
    ensures
      var r := RunLength(times);
      && (forall i: nat :: |times| - r <= i < |times| ==> times[i] - Before(times, i) < 500_000)
      && (r < |times| ==> times[|times| - r - 1] - Before(times, |times| - r - 1) >= 500_000)
  {
    RunLengthMeans(times);
    hide Gap, RunLength;
    forall i: nat | i < |times| ensures Gaps(times, i) == times[i] - Before(times, i) {
      GapMeans(times[i], Before(times, i));
    }
  }

  /** What a session reports: 0.1 s first, then 2 s, then 10 s again and again. */
  lemma PressLabels(n: nat)
    ensures forall i :: 0 <= i < n ==>
              Presses(n)[i] == Press(if i == 0 then 100_000 else if i == 1 then 2_000_000 else 10_000_000)
  {}
}
