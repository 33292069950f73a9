/** The user button: user_button_isr and the hold indicator of main.c, with
    button_press_classifier.c and button_action.c.

    Edges alternate and carry the uptime at which the interrupt runs; a handler runs to
    completion; the delayable work that lights the indicator runs on its deadline, before
    any edge of the same millisecond. */
module UserButton {
  import opened Words

  const SHORT_MAX_MS: nat := 1000
  const LONG_MIN_MS: nat := 3000
  const INT32_MAX: int := 0x7fff_ffff

  datatype PressKind = Neither | Short | Long

  datatype Action = NoAction | Join | Wake | FactoryReset

  function Classify(shortMaxMs: nat, longMinMs: nat, durationMs: nat): PressKind {
    if durationMs == 0 then Neither
    else if durationMs < shortMaxMs then Short
    else if durationMs >= longMinMs then Long
    else Neither
  }

  function ActionFor(kind: PressKind, joined: bool): Action {
    match kind
    case Short => if joined then Wake else Join
    case Long => FactoryReset
    case Neither => NoAction
  }

  /** button_dispatch_thread's decision. */
  function Decide(durationMs: nat, joined: bool): Action {
    ActionFor(Classify(SHORT_MAX_MS, LONG_MIN_MS, durationMs), joined)
  }

  /** `arm`: deadline of the long_press_hold_arm work. `hold`: the indicator has been
      requested and not yet cancelled. */
  datatype Button = Button(pressStartMs: int, arm: Option<int>, hold: bool, durationMs: nat)

  /** Time reaches `now`: the armed work has run if its deadline is over. */
  function Until(b: Button, now: int): Button {
    if b.arm.Some? && b.arm.value <= now then b.(arm := None, hold := true) else b
  }

  function Pressed(b: Button, now: int): Button {
    b.(pressStartMs := now, arm := Some(now + LONG_MIN_MS))
  }

  function Clamped(d: int): nat {
    if d < 0 then 0 else if d > INT32_MAX then INT32_MAX else d
  }

  function Released(b: Button, now: int): Button {
    b.(arm := None, hold := false, durationMs := Clamped(now - b.pressStartMs))
  }

  /** A press and the join state at the time it is dispatched. */
  datatype Press = Press(downAt: int, upAt: int, joined: bool)

  predicate InOrder(from: int, ps: seq<Press>)
    decreases |ps|
  {
    ps == [] || (from <= ps[0].downAt <= ps[0].upAt && InOrder(ps[0].upAt, ps[1..]))
  }

  /** What the user sees and gets for one press: was the indicator lit at release, and what
      does the dispatch thread do. */
  datatype Result = Result(holdShown: bool, action: Action)

  function BeforeRelease(b: Button, p: Press): Button {
    Until(Pressed(Until(b, p.downAt), p.downAt), p.upAt)
  }

  function AfterPress(b: Button, p: Press): Button {
    Released(BeforeRelease(b, p), p.upAt)
  }

  function ResultOf(b: Button, p: Press): Result {
    Result(BeforeRelease(b, p).hold, Decide(AfterPress(b, p).durationMs, p.joined))
  }

  function Play(b: Button, ps: seq<Press>): seq<Result>
    decreases |ps|
  {
    if ps == [] then [] else [ResultOf(b, ps[0])] + Play(AfterPress(b, ps[0]), ps[1..])
  }

  predicate Idle(b: Button) { b.arm.None? && !b.hold }

  /** The indicator promises what the release will do: over any sequence of presses of any
      lengths, it is lit at release exactly for those that reset the device. Presses of
      1000 to 2999 ms, and of no measurable length, do nothing. */
  lemma {:induction false} IndicatorAgreesWithReset(b: Button, from: int, ps: seq<Press>)
    requires Idle(b) && InOrder(from, ps)
    ensures |Play(b, ps)| == |ps|
    ensures forall i | 0 <= i < |ps| ::
      var r, held := Play(b, ps)[i], ps[i].upAt - ps[i].downAt;
      && (r.holdShown <==> r.action == FactoryReset)
      && (r.action == FactoryReset <==> held >= 3000)
      && (r.action == NoAction <==> held == 0 || 1000 <= held < 3000)
      && (0 < held < 1000 ==> r.action == if ps[i].joined then Wake else Join)
    decreases |ps|
  {
    if ps != [] {
      IndicatorAgreesWithReset(AfterPress(b, ps[0]), ps[0].upAt, ps[1..]);
      assert forall i | 1 <= i < |ps| :: Play(b, ps)[i] == Play(AfterPress(b, ps[0]), ps[1..])[i - 1];
    }
  }

  /** What is handed to the dispatch thread fits a signed 32-bit word, is the true duration
      wherever that does, and never changes the action. */
  lemma DurationFits(b: Button, now: int, joined: bool)
    ensures var d, exact := Released(b, now).durationMs, now - b.pressStartMs;
            && d <= 0x7fff_ffff && (0 <= exact <= 0x7fff_ffff ==> d == exact)
            && Decide(d, joined) == if exact <= 0 then NoAction else Decide(exact, joined)
  {
  }

  class ButtonState {
    var pressStartMs: int
    var arm: Option<int>
    var hold: bool
    var durationMs: nat

    function State(): Button
      reads this
    {
      Button(pressStartMs, arm, hold, durationMs)
    }

    constructor ()
      ensures Idle(State())
    {
      pressStartMs, arm, hold, durationMs := 0, None, false, 0;
    }

    /** user_button_isr; `active` is the level read from the pin. */
    method Isr(active: bool, now: int)
      modifies this
      ensures State() == if active then Pressed(old(State()), now) else Released(old(State()), now)
    {
      if active {
        pressStartMs := now;
        arm := Some(now + LONG_MIN_MS);
      } else {
        arm := None;
        hold := false;
        var duration := now - pressStartMs;
        if duration < 0 {
          duration := 0;
        }
        if duration > INT32_MAX {
          duration := INT32_MAX;
        }
        durationMs := duration;
      }
    }

    /** Time passes; long_press_hold_arm_handler runs when its deadline is reached. */
    method AdvanceTo(now: int)
      modifies this
      ensures State() == Until(old(State()), now)
    {
      if arm.Some? && arm.value <= now {
        arm := None;
        hold := true;
      }
    }
  }
}
