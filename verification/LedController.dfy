/** led_controller.c: the arbiter composed with a renderer that has one work item.

    Every locked section is one step. `due` is the deadline of the pending work item.
    The handler can run because the deadline was reached (`Fire`), or late, after the
    item it was queued for has been cancelled (`StaleTick`): it then acts on whatever
    is rendered at that moment. */
module LedController {
  import opened Words
  import opened LedPriority

  const BUTTON_ACK_ON_MS := 100
  const JOINING_HALF_PERIOD_MS := 500
  const JOIN_SUCCESS_ON_MS := 2000
  const JOIN_FAIL_HALF_PERIOD_MS := 200
  const JOIN_FAIL_TICKS: nat := 5
  const ERASE_CONFIRM_HALF_PERIOD_MS := 150
  const ERASE_CONFIRM_TICKS: nat := 7
  const HEARTBEAT_ON_MS := 50
  const FATAL_PULSE_ON_MS: nat := 100
  const FATAL_PULSE_OFF_MS: nat := 100
  const FATAL_CYCLE_MS: nat := 5000
  const FATAL_COLLAPSE_AFTER_MS: nat := 10 * 60 * 1000
  const FATAL_COLLAPSE_ON_MS: nat := 100
  const FATAL_COLLAPSE_OFF_MS: nat := 9900

  const PRIO_FATAL := 1

  datatype Rgb = Rgb(red: bool, green: bool, blue: bool)

  const DARK := Rgb(false, false, false)
  const RED := Rgb(true, false, false)
  const GREEN := Rgb(false, true, false)
  const WHITE := Rgb(true, true, true)

  function RedIf(on: bool): Rgb { Rgb(on, false, false) }

  function BlueIf(on: bool): Rgb { Rgb(false, false, on) }

  /** `halted`: the handler divided by zero, and nothing runs any more. */
  datatype Led = Led(
    arbiter: Arbiter, rendered: int, joiningOn: bool, joinFailLeft: nat, eraseLeft: nat,
    fatalCount: nat, fatalPhase: nat, fatalStart: int, rgb: Rgb, due: Option<int>, now: int, halted: bool)

  // ----- the locked sections -----

  function RenderStart(s: Led, pattern: int): Led {
    if pattern == BUTTON_ACK then s.(rgb := WHITE, due := Some(s.now + BUTTON_ACK_ON_MS))
    else if pattern == JOINING then
      s.(joiningOn := true, rgb := BlueIf(true), due := Some(s.now + JOINING_HALF_PERIOD_MS))
    else if pattern == JOIN_SUCCESS then s.(rgb := GREEN, due := Some(s.now + JOIN_SUCCESS_ON_MS))
    else if pattern == JOIN_FAIL then
      s.(joinFailLeft := JOIN_FAIL_TICKS, rgb := RED, due := Some(s.now + JOIN_FAIL_HALF_PERIOD_MS))
    else if pattern == LONG_PRESS_HOLD then s.(rgb := RED, due := None)
    else if pattern == ERASE_CONFIRM then
      s.(eraseLeft := ERASE_CONFIRM_TICKS, rgb := RED,
         due := Some(s.now + ERASE_CONFIRM_HALF_PERIOD_MS))
    else if pattern == FATAL then
      s.(fatalPhase := 0, rgb := RED, due := Some(s.now + FATAL_PULSE_ON_MS))
    else if pattern == HEARTBEAT then s.(rgb := GREEN, due := Some(s.now + HEARTBEAT_ON_MS))
    else s.(rgb := DARK, due := None)
  }

  function Reselect(s: Led): Led {
    if s.arbiter.active == s.rendered then s
    else RenderStart(s.(rendered := s.arbiter.active), s.arbiter.active)
  }

  function Requested(s: Led, pattern: int, prio: int): Led {
    Reselect(s.(arbiter := Request(s.arbiter, pattern, prio)))
  }

  function Cancelled(s: Led, pattern: int): Led {
    Reselect(s.(arbiter := Cancel(s.arbiter, pattern)))
  }

  function ClampFlashes(n: nat): nat { if n < 1 then 1 else if n > 5 then 5 else n }

  function FatalRequested(s: Led, flashes: nat): Led {
    Requested(s.(fatalCount := ClampFlashes(flashes), fatalStart := s.now), FATAL, PRIO_FATAL)
  }

  /** The tail of a cycle is what the 2 count - 1 phases of 100 ms before it leave over. */
  function FatalDelay(count: nat, phase: nat): int {
    if phase % 2 == 0 then FATAL_PULSE_ON_MS
    else if phase < 2 * count - 1 then FATAL_PULSE_OFF_MS
    else FATAL_CYCLE_MS - (2 * count - 1) * 100
  }

  /** A fatal pattern that no led_request_fatal gave a flash count, before the collapse. */
  predicate Uncounted(s: Led) {
    s.rendered == FATAL && s.fatalCount == 0 && s.now - s.fatalStart < FATAL_COLLAPSE_AFTER_MS
  }

  function FatalTick(s: Led): Led {
    if s.now - s.fatalStart >= FATAL_COLLAPSE_AFTER_MS then
      var phase := (s.fatalPhase + 1) % 2;
      if phase == 0
      then s.(fatalPhase := phase, rgb := RED, due := Some(s.now + FATAL_COLLAPSE_ON_MS))
      else s.(fatalPhase := phase, rgb := DARK, due := Some(s.now + FATAL_COLLAPSE_OFF_MS))
    else if s.fatalCount == 0 then s.(halted := true)
    else
      var phase := (s.fatalPhase + 1) % (2 * s.fatalCount);
      s.(fatalPhase := phase, rgb := RedIf(phase % 2 == 0),
         due := Some(s.now + FatalDelay(s.fatalCount, phase)))
  }

  /** tick_handler */
  function Ticked(s: Led): Led {
    if s.rendered == BUTTON_ACK || s.rendered == JOIN_SUCCESS || s.rendered == HEARTBEAT then
      Cancelled(s, s.rendered)
    else if s.rendered == JOINING then
      s.(joiningOn := !s.joiningOn, rgb := BlueIf(!s.joiningOn),
         due := Some(s.now + JOINING_HALF_PERIOD_MS))
    else if s.rendered == JOIN_FAIL then
      if s.joinFailLeft == 0 then Cancelled(s, JOIN_FAIL)
      else s.(rgb := RedIf(s.joinFailLeft % 2 == 0), joinFailLeft := s.joinFailLeft - 1,
              due := Some(s.now + JOIN_FAIL_HALF_PERIOD_MS))
    else if s.rendered == ERASE_CONFIRM then
      if s.eraseLeft == 0 then Cancelled(s, ERASE_CONFIRM)
      else s.(rgb := RedIf(s.eraseLeft % 2 == 0), eraseLeft := s.eraseLeft - 1,
              due := Some(s.now + ERASE_CONFIRM_HALF_PERIOD_MS))
    else if s.rendered == FATAL then FatalTick(s)
    else s
  }

  datatype Event =
    | LedRequest(pattern: int, prio: int)
    | LedCancel(pattern: int)
    | LedFatal(flashes: nat)
    | Fire                 // the pending work item runs, at its deadline or late
    | StaleTick            // the handler runs although its item was cancelled
    | Wait(ms: nat)

  // ----- the invariant -----

  predicate Timed(pattern: int) { pattern != NONE && pattern != LONG_PRESS_HOLD }

  /** What the LEDs show for each pattern, in terms of its counter. */
  function Appearance(s: Led): Rgb {
    if s.rendered == LONG_PRESS_HOLD then RED
    else if s.rendered == BUTTON_ACK then WHITE
    else if s.rendered == JOINING then BlueIf(s.joiningOn)
    else if s.rendered == JOIN_SUCCESS || s.rendered == HEARTBEAT then GREEN
    else if s.rendered == JOIN_FAIL then RedIf(s.joinFailLeft % 2 == 1)
    else if s.rendered == ERASE_CONFIRM then RedIf(s.eraseLeft % 2 == 1)
    else if s.rendered == FATAL then RedIf(s.fatalPhase % 2 == 0)
    else DARK
  }

  predicate Consistent(s: Led) {
    && s.rendered == s.arbiter.active && 0 <= s.rendered < COUNT
    && (s.arbiter.active == NONE ==> s.arbiter == IDLE)
    && s.rgb == Appearance(s)
    && s.fatalCount <= 5
  }

  /** The arbiter's choice is what is rendered, the LEDs show it, and while the handler
      lives a work item is pending exactly for the patterns that need one. */
  predicate LedInv(s: Led) {
    Consistent(s) && (s.halted || (s.due.Some? <==> Timed(s.rendered)))
  }

  predicate Live(s: Led) { LedInv(s) && !s.halted }

  /** A fatal pattern has its flash count. */
  predicate Counted(s: Led) { Live(s) && (s.rendered == FATAL ==> s.fatalCount > 0) }

  lemma ReselectEstablishes(s: Led)
    requires 0 <= s.arbiter.active < COUNT && (s.arbiter.active == NONE ==> s.arbiter == IDLE)
    requires s.fatalCount <= 5
    requires s.rendered == s.arbiter.active
             ==> s.rgb == Appearance(s) && (s.due.Some? <==> Timed(s.rendered))
    ensures LedInv(Reselect(s))
  {
  }

  lemma CancelKeepsLedInv(s: Led, pattern: int)
    requires Consistent(s)
    requires pattern == s.rendered != NONE || (s.due.Some? <==> Timed(s.rendered))
    ensures LedInv(Cancelled(s, pattern))
  {
    ReselectEstablishes(s.(arbiter := Cancel(s.arbiter, pattern)));
  }

  lemma FatalTickKeepsLedInv(s: Led)
    requires Consistent(s) && s.rendered == FATAL
    ensures LedInv(FatalTick(s))
  {
  }

  /** A handler run restores the invariant even though its own work item is gone. */
  lemma TickKeepsLedInv(s: Led)
    requires Consistent(s) && (s.due.Some? ==> Timed(s.rendered))
    ensures LedInv(Ticked(s))
  {
    if s.rendered == FATAL {
      FatalTickKeepsLedInv(s);
    } else {
      CancelKeepsLedInv(s, s.rendered);
    }
  }

  function Max(a: int, b: int): int { if a <= b then b else a }

  /** The state in which the handler of a pending work item begins. */
  function Fired(s: Led): Led
    requires s.due.Some?
  {
    s.(due := None, now := Max(s.now, s.due.value))
  }

  function Step(s: Led, e: Event): (r: Led)
    requires LedInv(s)
    ensures LedInv(r)
  {
    if s.halted then s
    else
      match e
      case LedRequest(p, prio) =>
        ReselectEstablishes(s.(arbiter := Request(s.arbiter, p, prio)));
        Requested(s, p, prio)
      case LedCancel(p) =>
        CancelKeepsLedInv(s, p);
        Cancelled(s, p)
      case LedFatal(n) =>
        var f := s.(fatalCount := ClampFlashes(n), fatalStart := s.now);
        ReselectEstablishes(f.(arbiter := Request(f.arbiter, FATAL, PRIO_FATAL)));
        FatalRequested(s, n)
      case Fire =>
        if s.due.None? then s
        else
          TickKeepsLedInv(Fired(s));
          Ticked(Fired(s))
      case StaleTick =>
        TickKeepsLedInv(s);
        Ticked(s)
      case Wait(ms) => s.(now := s.now + ms)
  }

  function Run(s: Led, t: seq<Event>): Led
    requires LedInv(s)
    decreases |t|
  {
    if t == [] then s else Run(Step(s, t[0]), t[1..])
  }

  /** After led_controller_init. */
  const DARK_LED: Led := Led(IDLE, NONE, false, 0, 0, 0, 0, 0, DARK, None, 0, false)

  /** Over every sequence of requests, cancels, fatals, waits and ticks, stale ones included:
      what is rendered is what the arbiter selects, the LEDs are dark when nothing is, and
      they never stay lit without a tick to end them unless the long-press indicator is on
      or the handler has halted. */
  lemma {:induction false} RunKeepsLedInv(s: Led, t: seq<Event>)
    requires LedInv(s)
    ensures LedInv(Run(s, t))
    ensures var r := Run(s, t);
            && r.rendered == r.arbiter.active
            && (r.rgb != Rgb(false, false, false) && r.due.None? ==> r.rendered == LONG_PRESS_HOLD || r.halted)
            && (r.rendered == LONG_PRESS_HOLD ==> r.rgb == Rgb(true, false, false))
            && (r.rendered == NONE ==> r.rgb == Rgb(false, false, false) && (r.due.None? || r.halted))
    decreases |t|
  {
    if t != [] {
      RunKeepsLedInv(Step(s, t[0]), t[1..]);
    }
  }

  lemma InitKeepsLedInv()
    ensures Counted(DARK_LED)
  {
  }

  // ----- a fatal pattern without a flash count -----

  /** The handler runs on such a pattern. */
  predicate HaltsAt(s: Led, e: Event)
    requires LedInv(s)
  {
    !s.halted && match e
                 case Fire => s.due.Some? && Uncounted(Fired(s))
                 case StaleTick => Uncounted(s)
                 case _ => false
  }

  predicate HaltsAlong(s: Led, t: seq<Event>)
    requires LedInv(s)
    decreases |t|
  {
    t != [] && (HaltsAt(s, t[0]) || HaltsAlong(Step(s, t[0]), t[1..]))
  }

  lemma StepHaltsIff(s: Led, e: Event)
    requires LedInv(s)
    ensures Step(s, e).halted <==> s.halted || HaltsAt(s, e)
  {
  }

  lemma {:induction false} HaltedStays(s: Led, t: seq<Event>)
    requires LedInv(s) && s.halted
    ensures Run(s, t) == s && !HaltsAlong(s, t)
    decreases |t|
  {
    if t != [] {
      HaltedStays(s, t[1..]);
    }
  }

  /** led_request accepts FATAL like any pattern. The renderer divides by zero if and only
      if its handler runs on a FATAL that was requested that way, with no flash count ever
      set and less than ten minutes since `fatal_start_ms`. */
  lemma {:induction false} HaltsIffUncounted(s: Led, t: seq<Event>)
    requires Live(s)
    ensures Run(s, t).halted <==> HaltsAlong(s, t)
    decreases |t|
  {
    if t != [] {
      StepHaltsIff(s, t[0]);
      if HaltsAt(s, t[0]) {
        HaltedStays(Step(s, t[0]), t[1..]);
      } else {
        HaltsIffUncounted(Step(s, t[0]), t[1..]);
      }
    }
  }

  /** From initialisation on, FATAL is asked for through led_request_fatal first. */
  predicate FatalCountedFirst(t: seq<Event>)
  {
    t == [] || t[0].LedFatal?
    || (!(t[0].LedRequest? && t[0].pattern == FATAL) && FatalCountedFirst(t[1..]))
  }

  lemma CountedTick(s: Led)
    requires !s.halted && (s.rendered == FATAL ==> s.fatalCount > 0) && s.rendered == s.arbiter.active
    ensures var r := Ticked(s);
            !r.halted && r.fatalCount == s.fatalCount && (r.rendered == s.rendered || r.rendered == NONE)
  {
  }

  lemma CountedStep(s: Led, e: Event)
    requires Counted(s) && (s.fatalCount > 0 || e.LedFatal? || !(e.LedRequest? && e.pattern == FATAL))
    ensures Counted(Step(s, e)) && (s.fatalCount > 0 || e.LedFatal? ==> Step(s, e).fatalCount > 0)
  {
    match e
    case Fire =>
      if s.due.Some? {
        CountedTick(Fired(s));
      }
    case StaleTick => CountedTick(s);
    case _ =>
  }

  /** Which every caller does: then the handler never divides by zero. */
  lemma {:induction false} CallersNeverHalt(s: Led, t: seq<Event>)
    requires Counted(s) && (s.fatalCount > 0 || FatalCountedFirst(t))
    ensures Counted(Run(s, t))
    decreases |t|
  {
    if t != [] {
      CountedStep(s, t[0]);
      CallersNeverHalt(Step(s, t[0]), t[1..]);
    }
  }

  /** A caller that did not: FATAL by led_request, and the first tick halts. */
  lemma UncountedFatalHalts()
    ensures Run(DARK_LED, [LedRequest(FATAL, PRIO_FATAL), Fire]).halted
  {
    var r := Step(DARK_LED, LedRequest(FATAL, PRIO_FATAL));
    assert Run(DARK_LED, [LedRequest(FATAL, PRIO_FATAL), Fire]) == Run(r, [Fire]) == Run(Step(r, Fire), []);
  }

  // ----- patterns that end by themselves -----

  predicate EndsByItself(pattern: int) {
    pattern != JOINING && pattern != LONG_PRESS_HOLD && pattern != FATAL
  }

  /** Handler runs until everything is dark. */
  function TicksLeft(s: Led): nat {
    if s.rendered == NONE then 0
    else if s.rendered == JOIN_FAIL then s.joinFailLeft + 1
    else if s.rendered == ERASE_CONFIRM then s.eraseLeft + 1
    else 1
  }

  function FireN(s: Led, n: nat): Led
    requires LedInv(s)
    decreases n
  {
    if n == 0 then s else FireN(Step(s, Fire), n - 1)
  }

  lemma TickCountsDown(s: Led)
    requires Consistent(s) && !s.halted && EndsByItself(s.rendered) && s.rendered != NONE
    ensures var r := Ticked(s);
            !r.halted && EndsByItself(r.rendered) && TicksLeft(r) == TicksLeft(s) - 1
  {
  }

  /** Each run of the handler, timely or stale, brings the end one step closer. */
  lemma EveryTickCountsDown(s: Led, e: Event)
    requires Live(s) && EndsByItself(s.rendered) && s.rendered != NONE
    requires e.Fire? || e.StaleTick?
    ensures Live(Step(s, e)) && EndsByItself(Step(s, e).rendered) && TicksLeft(Step(s, e)) == TicksLeft(s) - 1
  {
    TickCountsDown(if e.Fire? then Fired(s) else s);
  }

  lemma {:induction false} ReachesDark(s: Led)
    requires Live(s) && EndsByItself(s.rendered)
    ensures var r := FireN(s, TicksLeft(s));
            r.rendered == NONE && r.rgb == DARK && r.due.None? && r.arbiter == IDLE
    decreases TicksLeft(s)
  {
    if s.rendered != NONE {
      EveryTickCountsDown(s, Fire);
      ReachesDark(Step(s, Fire));
    }
  }

  /** Of the phases between n firings, how many are lit, and for how long. */
  function LitPhases(s: Led, n: nat): nat
    requires LedInv(s)
    decreases n
  {
    if n == 0 then 0 else (if s.rgb != DARK then 1 else 0) + LitPhases(Step(s, Fire), n - 1)
  }

  function LitMs(s: Led, n: nat): int
    requires LedInv(s)
    decreases n
  {
    if n == 0 then 0
    else (if s.rgb != DARK && s.due.Some? then s.due.value - s.now else 0)
         + LitMs(Step(s, Fire), n - 1)
  }

  predicate Punctual(s: Led, period: int) { s.due == Some(s.now + period) }

  lemma {:induction false} JoinFailBlinks(s: Led)
    requires Live(s) && s.rendered == JOIN_FAIL && Punctual(s, JOIN_FAIL_HALF_PERIOD_MS)
    ensures var n := s.joinFailLeft + 1;
            && LitPhases(s, n) == n / 2 && LitMs(s, n) == n / 2 * JOIN_FAIL_HALF_PERIOD_MS
            && FireN(s, n).now == s.now + n * JOIN_FAIL_HALF_PERIOD_MS
            && FireN(s, n).rendered == NONE
    decreases s.joinFailLeft
  {
    if s.joinFailLeft > 0 {
      JoinFailBlinks(Step(s, Fire));
    }
  }

  lemma {:induction false} EraseConfirmBlinks(s: Led)
    requires Live(s) && s.rendered == ERASE_CONFIRM && Punctual(s, ERASE_CONFIRM_HALF_PERIOD_MS)
    ensures var n := s.eraseLeft + 1;
            && LitPhases(s, n) == n / 2 && LitMs(s, n) == n / 2 * ERASE_CONFIRM_HALF_PERIOD_MS
            && FireN(s, n).now == s.now + n * ERASE_CONFIRM_HALF_PERIOD_MS
            && FireN(s, n).rendered == NONE
    decreases s.eraseLeft
  {
    if s.eraseLeft > 0 {
      EraseConfirmBlinks(Step(s, Fire));
    }
  }

  /** A request that wins shows exactly three red blinks in 1.2 s for a failed join, four
      in 1.2 s for an erase, and then darkness. */
  lemma {:induction false} BlinkCounts(s: Led, prio: int)
    requires Live(s) && (s.rendered == NONE || prio < s.arbiter.prio)
    ensures var f := Step(s, LedRequest(JOIN_FAIL, prio));
            s.rendered != JOIN_FAIL ==>
              && LitPhases(f, 6) == 3 && f.rgb == Rgb(true, false, false) && FireN(f, 6).now == s.now + 1200
              && FireN(f, 6).rendered == NONE && FireN(f, 6).rgb == DARK
    ensures var e := Step(s, LedRequest(ERASE_CONFIRM, prio));
            s.rendered != ERASE_CONFIRM ==>
              && LitPhases(e, 8) == 4 && e.rgb == Rgb(true, false, false) && FireN(e, 8).now == s.now + 1200
              && FireN(e, 8).rendered == NONE && FireN(e, 8).rgb == DARK
  {
    if s.rendered != JOIN_FAIL {
      JoinFailBlinks(Step(s, LedRequest(JOIN_FAIL, prio)));
    }
    if s.rendered != ERASE_CONFIRM {
      EraseConfirmBlinks(Step(s, LedRequest(ERASE_CONFIRM, prio)));
    }
  }

  /** The one-shots, from the request that wins to the dark: white for 100 ms, green for 2 s
      after a join, green for 50 ms at a report. */
  lemma {:induction false} OneShotsShow(s: Led, pattern: int, prio: int)
    requires Live(s) && (s.rendered == NONE || prio < s.arbiter.prio) && pattern != s.rendered
    requires pattern in {4, 7, 8}
    ensures var f := Step(s, LedRequest(pattern, prio));
            && f.rgb == (if pattern == 7 then Rgb(true, true, true) else Rgb(false, true, false))
            && LitMs(f, 1) == (if pattern == 7 then 100 else if pattern == 8 then 50 else 2000)
            && FireN(f, 1).rendered == NONE && FireN(f, 1).rgb == Rgb(false, false, false)
            && FireN(f, 1).now == s.now + LitMs(f, 1)
  {
    var f := Step(s, LedRequest(pattern, prio));
    assert FireN(f, 1) == FireN(Step(f, Fire), 0);
    assert LitMs(Step(f, Fire), 0) == 0;
  }

  // ----- what leaves the LEDs alone -----

  /** The request that takes the arbiter: of a pattern from 1 to 8, when it is idle or holds a
      weaker priority. */
  predicate Wins(s: Led, pattern: int, prio: int) {
    1 <= pattern <= 8 && (s.rendered == NONE || prio < s.arbiter.prio)
  }

  /** A request shows its pattern if it wins, and changes nothing if it does not; one that wins
      again for the pattern shown does not restart it. */
  lemma RequestShowsIffItWins(s: Led, pattern: int, prio: int)
    requires Live(s)
    ensures var r := Step(s, LedRequest(pattern, prio));
            && (Wins(s, pattern, prio) ==> r.rendered == pattern && r.arbiter.prio == prio)
            && (!Wins(s, pattern, prio) ==> r == s)
            && (pattern == s.rendered ==> r == s.(arbiter := r.arbiter))
  {
  }

  /** A cancel ends the pattern shown and no other. */
  lemma CancelEndsOnlyItsOwn(s: Led, pattern: int)
    requires Live(s)
    ensures var r := Step(s, LedCancel(pattern));
            && (pattern != s.rendered ==> r == s)
            && (pattern == s.rendered ==> r.rendered == NONE && r.rgb == Rgb(false, false, false) && r.due.None?)
  {
  }

  lemma JoiningStarts(s: Led, prio: int)
    requires Live(s) && (s.rendered == NONE || prio < s.arbiter.prio) && s.rendered != JOINING
    ensures var r := Step(s, LedRequest(JOINING, prio));
            r.rendered == JOINING && r.joiningOn && r.rgb == BlueIf(true) && Punctual(r, 500) && r.now == s.now
  {
  }

  lemma {:induction false} JoiningToggles(s: Led, n: nat)
    requires Live(s) && s.rendered == JOINING && Punctual(s, 500)
    ensures var r := FireN(s, n);
            && r.rendered == JOINING && Punctual(r, 500) && r.now == s.now + 500 * n
            && r.rgb == BlueIf(if n % 2 == 0 then s.joiningOn else !s.joiningOn)
    decreases n
  {
    if n > 0 {
      JoiningToggles(Step(s, Fire), n - 1);
    }
  }

  /** The joining blink that a winning request starts never ends by itself: blue is on at
      first and changes every 500 ms, for ever. */
  lemma {:induction false} JoiningBlinksForEver(s: Led, prio: int, n: nat)
    requires Live(s) && (s.rendered == NONE || prio < s.arbiter.prio) && s.rendered != JOINING
    ensures var r := FireN(Step(s, LedRequest(JOINING, prio)), n);
            && r.rendered == JOINING && r.now == s.now + 500 * n && r.rgb == Rgb(false, false, n % 2 == 0)
  {
    JoiningStarts(s, prio);
    JoiningToggles(Step(s, LedRequest(JOINING, prio)), n);
  }

  /** A handler that runs late counts its next half period from when it ran. */
  lemma LateTickPushesBack(s: Led, ms: nat)
    requires Live(s) && s.rendered == JOINING && s.due.Some?
    ensures var r := Step(Step(s, Wait(ms)), Fire);
            && r.now == (if s.now + ms >= s.due.value then s.now + ms else s.due.value)
            && r.due == Some(r.now + 500) && r.joiningOn == !s.joiningOn
  {
  }

  /** The comment in render_start_locked expects a stale tick to find its case gone and do
      nothing. It does nothing exactly when what is rendered has no timer: otherwise it
      runs the case of the pattern now shown, early. */
  lemma StaleTickIsHarmlessIff(s: Led)
    requires Live(s)
    ensures Step(s, StaleTick) == s <==> !Timed(s.rendered)
  {
  }

  /** One that finds a later pattern: the joining blink is cancelled with its tick about to
      run, an acknowledgement of 100 ms takes over, and the tick turns it off at once. */
  lemma StaleTickCanCut()
    ensures var cancelled := Step(Step(DARK_LED, LedRequest(JOINING, JOINING)), LedCancel(JOINING));
            var r := Step(cancelled, LedRequest(BUTTON_ACK, BUTTON_ACK));
            && r.rgb == WHITE && r.due == Some(r.now + 100)
            && Step(r, StaleTick).rgb == DARK && Step(r, StaleTick).now == r.now
  {
  }

  // ----- the file-scope state of led_controller.c -----

  class Controller {
    const state: PriorityState
    var rendered: int
    var joiningPhaseOn: bool
    var joinFailTicksRemaining: nat
    var eraseConfirmTicksRemaining: nat
    var fatalFlashCount: nat
    var fatalPhaseIndex: nat
    var fatalStartMs: int
    var leds: Rgb
    var tickWork: Option<int>   // deadline of the delayable work item
    var uptime: int

    function State(): Led
      reads this, state
    {
      Led(state.State(), rendered, joiningPhaseOn, joinFailTicksRemaining, eraseConfirmTicksRemaining,
          fatalFlashCount, fatalPhaseIndex, fatalStartMs, leds, tickWork, uptime, false)
    }

    constructor ()
      ensures State() == DARK_LED
      ensures fresh(state)
    {
      state := new PriorityState();
      rendered, joiningPhaseOn := NONE, false;
      joinFailTicksRemaining, eraseConfirmTicksRemaining := 0, 0;
      fatalFlashCount, fatalPhaseIndex, fatalStartMs := 0, 0, 0;
      leds, tickWork, uptime := DARK, None, 0;
    }

    /** k_work_reschedule */
    method Reschedule(ms: int)
      modifies `tickWork
      ensures tickWork == Some(uptime + ms)
    {
      tickWork := Some(uptime + ms);
    }

    method RenderStartLocked(pattern: int)
      modifies this
      ensures State() == RenderStart(old(State()), pattern)
    {
      tickWork := None;
      if pattern == BUTTON_ACK {
        leds := WHITE;
        Reschedule(BUTTON_ACK_ON_MS);
      } else if pattern == JOINING {
        joiningPhaseOn := true;
        leds := BlueIf(true);
        Reschedule(JOINING_HALF_PERIOD_MS);
      } else if pattern == JOIN_SUCCESS {
        leds := GREEN;
        Reschedule(JOIN_SUCCESS_ON_MS);
      } else if pattern == JOIN_FAIL {
        joinFailTicksRemaining := JOIN_FAIL_TICKS;
        leds := RED;
        Reschedule(JOIN_FAIL_HALF_PERIOD_MS);
      } else if pattern == LONG_PRESS_HOLD {
        leds := RED;
      } else if pattern == ERASE_CONFIRM {
        eraseConfirmTicksRemaining := ERASE_CONFIRM_TICKS;
        leds := RED;
        Reschedule(ERASE_CONFIRM_HALF_PERIOD_MS);
      } else if pattern == FATAL {
        fatalPhaseIndex := 0;
        leds := RED;
        Reschedule(FATAL_PULSE_ON_MS);
      } else if pattern == HEARTBEAT {
        leds := GREEN;
        Reschedule(HEARTBEAT_ON_MS);
      } else {
        leds := DARK;
      }
    }

    method ReselectIfChangedLocked()
      modifies this
      ensures State() == Reselect(old(State()))
    {
      var selected := state.active;
      if selected == rendered {
        return;
      }
      rendered := selected;
      RenderStartLocked(selected);
    }

    method RequestLed(pattern: int, prio: int)
      requires LedInv(State())
      modifies this, state
      ensures State() == Step(old(State()), LedRequest(pattern, prio))
    {
      var _ := state.RequestPattern(pattern, prio);
      ReselectIfChangedLocked();
    }

    method CancelLed(pattern: int)
      modifies this, state
      ensures State() == Cancelled(old(State()), pattern)
    {
      state.CancelPattern(pattern);
      ReselectIfChangedLocked();
    }

    method RequestFatal(flashCount: nat)
      requires LedInv(State())
      modifies this, state
      ensures State() == Step(old(State()), LedFatal(flashCount))
    {
      fatalFlashCount := if flashCount < 1 then 1 else if flashCount > 5 then 5 else flashCount;
      fatalStartMs := uptime;
      var _ := state.RequestPattern(FATAL, PRIO_FATAL);
      ReselectIfChangedLocked();
    }

    method FatalTickLocked()
      requires rendered == FATAL && !Uncounted(State())
      modifies this
      ensures State() == FatalTick(old(State()))
    {
      var elapsed := uptime - fatalStartMs;
      if elapsed >= FATAL_COLLAPSE_AFTER_MS {
        fatalPhaseIndex := (fatalPhaseIndex + 1) % 2;
        if fatalPhaseIndex == 0 {
          leds := RED;
          Reschedule(FATAL_COLLAPSE_ON_MS);
        } else {
          leds := DARK;
          Reschedule(FATAL_COLLAPSE_OFF_MS);
        }
      } else {
        var phases := 2 * fatalFlashCount;
        fatalPhaseIndex := (fatalPhaseIndex + 1) % phases;
        var on := fatalPhaseIndex % 2 == 0;
        leds := RedIf(on);
        var delay;
        if on {
          delay := FATAL_PULSE_ON_MS;
        } else if fatalPhaseIndex < phases - 1 {
          delay := FATAL_PULSE_OFF_MS;
        } else {
          delay := FATAL_CYCLE_MS - (2 * fatalFlashCount - 1) * FATAL_PULSE_ON_MS;
        }
        Reschedule(delay);
      }
    }

    /** tick_handler, whatever the reason it runs; see HaltsIffUncounted for the case left out. */
    method TickHandler()
      requires !Uncounted(State())
      modifies this, state
      ensures State() == Ticked(old(State()))
    {
      if rendered == BUTTON_ACK || rendered == JOIN_SUCCESS || rendered == HEARTBEAT {
        CancelLed(rendered);
      } else if rendered == JOINING {
        joiningPhaseOn := !joiningPhaseOn;
        leds := BlueIf(joiningPhaseOn);
        Reschedule(JOINING_HALF_PERIOD_MS);
      } else if rendered == JOIN_FAIL {
        if joinFailTicksRemaining == 0 {
          CancelLed(JOIN_FAIL);
        } else {
          leds := RedIf(joinFailTicksRemaining % 2 == 0);
          joinFailTicksRemaining := joinFailTicksRemaining - 1;
          Reschedule(JOIN_FAIL_HALF_PERIOD_MS);
        }
      } else if rendered == ERASE_CONFIRM {
        if eraseConfirmTicksRemaining == 0 {
          CancelLed(ERASE_CONFIRM);
        } else {
          leds := RedIf(eraseConfirmTicksRemaining % 2 == 0);
          eraseConfirmTicksRemaining := eraseConfirmTicksRemaining - 1;
          Reschedule(ERASE_CONFIRM_HALF_PERIOD_MS);
        }
      } else if rendered == FATAL {
        FatalTickLocked();
      }
    }
  }
}
