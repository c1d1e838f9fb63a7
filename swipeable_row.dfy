/** The swipe-to-delete row: a `visibility` state (Visible, Removing, Hidden),
    a `countdown` that starts at 3, and an interval that, once the row is
    swiped left, lowers the countdown once per tick until it reaches 0, at
    which point the row hides itself and calls `handleRemove` with its id.

    The pure functions below give one step of the state machine each; the
    class `Row` holds the component's state and is proved against them.
    The interval's 1000 ms period is one `Tick`; the 70 ms timeout before
    `handleRemove` is folded into the step that schedules it. */
module SwipeableRow {

  datatype Visibility = Visible | Removing | Hidden

  /** The countdown's initial value, and the value it is reset to. */
  const CountdownStart: int := 3

  /** `visibility`, `countdown`, and whether `intervalId.current` holds an
      interval that has not been cleared. */
  datatype RowState = RowState(visibility: Visibility, countdown: int, intervalActive: bool)

  /** A step's new state and whether it called `handleRemove`. */
  datatype Outcome = Outcome(state: RowState, removed: bool)

  function Initial(): (s: RowState)
    ensures s.visibility == Visible && s.countdown == 3 && !s.intervalActive
  {
    RowState(Visible, CountdownStart, false)
  }

  /** The states the row can be in between events: the interval runs exactly
      while the row is Removing, and the countdown is 3 outside Removing and
      between 1 and 3 inside it. */
  predicate Valid(s: RowState)
  {
    && 1 <= s.countdown <= CountdownStart
    && (s.intervalActive <==> s.visibility == Removing)
    && (s.visibility != Removing ==> s.countdown == CountdownStart)
  }

  /** The effect, run after every change of `visibility` or `countdown`:
      entering Removing with a full countdown starts the interval; a countdown
      of 0 clears it, hides the row, resets the countdown and removes the
      row. */
  function Effect(s: RowState): (o: Outcome)
    ensures o.removed <==> s.countdown == 0
    ensures o.removed ==> o.state == RowState(Hidden, CountdownStart, false)
    ensures !o.removed ==> o.state.visibility == s.visibility && o.state.countdown == s.countdown
    ensures !o.removed ==>
      o.state.intervalActive == (s.intervalActive || (s.visibility == Removing && s.countdown == CountdownStart))
  {
    var started :=
      if s.visibility == Removing && s.countdown == CountdownStart then s.(intervalActive := true) else s;
    if started.countdown == 0 then
      Outcome(RowState(Hidden, CountdownStart, false), true)
    else
      Outcome(started, false)
  }

  /** Running the effect once reaches a state on which it does nothing more:
      the re-render caused by its own state updates is quiet. */
  lemma EffectSettles(s: RowState)
    ensures Effect(Effect(s).state) == Outcome(Effect(s).state, false)
  {
  }

  /** `onSwipeLeft`: the row becomes Removing. Setting the state it already
      has does not re-render, so a row already Removing is left alone. */
  function SwipeLeft(s: RowState): (o: Outcome)
    ensures s.visibility == Removing ==> o == Outcome(s, false)
    ensures Valid(s) ==> Valid(o.state) && !o.removed && o.state.visibility == Removing
    ensures Valid(s) && s.visibility != Removing ==> o.state == RowState(Removing, CountdownStart, true)
  {
    if s.visibility == Removing then Outcome(s, false)
    else Effect(s.(visibility := Removing))
  }

  /** One firing of the interval, `setCountdown(c => c - 1)`, followed by the
      effect. Without a running interval nothing happens. */
  function Tick(s: RowState): (o: Outcome)
    ensures !s.intervalActive ==> o == Outcome(s, false)
    ensures Valid(s) ==> Valid(o.state)
    ensures Valid(s) && s.intervalActive && s.countdown > 1 ==>
      o == Outcome(s.(countdown := s.countdown - 1), false)
    ensures Valid(s) && s.intervalActive && s.countdown == 1 ==>
      o == Outcome(RowState(Hidden, CountdownStart, false), true)
  {
    if !s.intervalActive then Outcome(s, false)
    else Effect(s.(countdown := s.countdown - 1))
  }

  /** The state after `n` ticks and how many of them called `handleRemove`. */
  function Ticks(s: RowState, n: nat): (RowState, nat)
    decreases n
  {
    if n == 0 then (s, 0)
    else
      var o := Tick(s);
      var (t, k) := Ticks(o.state, n - 1);
      (t, k + if o.removed then 1 else 0)
  }

  /** A Removing row with countdown `c` calls `handleRemove` on none of the
      first `c - 1` ticks and exactly once on tick `c`, which leaves it Hidden
      with no interval and the countdown back at 3. */
  lemma {:induction false} CountdownRemovesOnLastTick(s: RowState)
    requires Valid(s) && s.visibility == Removing
    ensures Ticks(s, s.countdown - 1) == (s.(countdown := 1), 0)
    ensures Ticks(s, s.countdown) == (RowState(Hidden, CountdownStart, false), 1)
    decreases s.countdown
  {
    if s.countdown > 1 {
      var next := s.(countdown := s.countdown - 1);
      assert Tick(s) == Outcome(next, false);
      CountdownRemovesOnLastTick(next);
      assert next.(countdown := 1) == s.(countdown := 1);
    } else {
      assert s.(countdown := 1) == s;
      assert Ticks(Tick(s).state, 0) == (RowState(Hidden, CountdownStart, false), 0);
    }
  }

  /** Without an interval (Visible or Hidden) ticks change nothing and never
      call `handleRemove`. */
  lemma {:induction false} QuietWithoutInterval(s: RowState, n: nat)
    requires Valid(s) && s.visibility != Removing
    ensures Ticks(s, n) == (s, 0)
    decreases n
  {
    if n > 0 {
      QuietWithoutInterval(s, n - 1);
    }
  }

  /** From the initial state, a left swipe followed by ticks removes the row
      on the third tick and at no other: two ticks remove nothing, three
      remove it once, and any further ticks change nothing. */
  lemma RemovedExactlyOnThirdTick(extra: nat)
    ensures var swiped := SwipeLeft(Initial()).state;
      Ticks(swiped, 2).1 == 0 &&
      Ticks(swiped, 3) == (RowState(Hidden, CountdownStart, false), 1) &&
      Ticks(RowState(Hidden, CountdownStart, false), extra) == (RowState(Hidden, CountdownStart, false), 0)
  {
    var swiped := SwipeLeft(Initial()).state;
    CountdownRemovesOnLastTick(swiped);
    QuietWithoutInterval(RowState(Hidden, CountdownStart, false), extra);
  }

  /** The component: its state, the interval handle, and the calls made to
      `handleRemove` so far. */
  class Row {
    const id: int
    var visibility: Visibility
    var countdown: int
    var intervalActive: bool
    var removeCalls: seq<int>

    function State(): RowState
      reads this
    {
      RowState(visibility, countdown, intervalActive)
    }

    constructor (id: int)
      ensures this.id == id && State() == Initial() && removeCalls == []
    {
      this.id := id;
      visibility := Visible;
      countdown := CountdownStart;
      intervalActive := false;
      removeCalls := [];
    }

    /** The effect body. */
    method RunEffect()
      modifies this
      ensures State() == Effect(old(State())).state
      ensures removeCalls == old(removeCalls) + if Effect(old(State())).removed then [id] else []
    {
      if visibility == Removing && countdown == CountdownStart {
        intervalActive := true;
      }
      if countdown == 0 {
        intervalActive := false;
        visibility := Hidden;
        countdown := CountdownStart;
        removeCalls := removeCalls + [id];
      }
    }

    /** `onSwipeLeft`, with the effect run if the state changed. */
    method OnSwipeLeft()
      modifies this
      ensures State() == SwipeLeft(old(State())).state
      ensures removeCalls == old(removeCalls) + if SwipeLeft(old(State())).removed then [id] else []
    {
      if visibility != Removing {
        visibility := Removing;
        RunEffect();
      }
    }

    /** One firing of the interval, with the effect run afterwards. */
    method OnTick()
      modifies this
      ensures State() == Tick(old(State())).state
      ensures removeCalls == old(removeCalls) + if Tick(old(State())).removed then [id] else []
    {
      if intervalActive {
        countdown := countdown - 1;
        RunEffect();
      }
    }
  }

  /** A row swiped left and left alone for three ticks has called
      `handleRemove` once, with its own id, and is Hidden. */
  method SwipeAndWait(id: int) returns (row: Row)
    ensures row.removeCalls == [id]
    ensures row.visibility == Hidden && row.countdown == CountdownStart && !row.intervalActive
  {
    row := new Row(id);
    row.OnSwipeLeft();
    row.OnTick();
    row.OnTick();
    assert row.removeCalls == [];
    row.OnTick();
  }
}
