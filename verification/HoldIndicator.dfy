/** The long-press indicator on the LEDs: the button interrupt and the hold work of main.c,
    side by side with everything else that drives the renderer. */
module HoldIndicator {
  import opened Words
  import opened LedPriority
  import opened UserButton
  import Leds = LedController
  import JoinFeedback

  /** `down`: between the edges of a press. `now`: uptime of the last button event. */
  datatype Panel = Panel(button: Button, down: bool, now: int, led: Leds.Led)

  datatype Event =
    | Down(at: int)
    | Reached(at: int)             // time passes; the hold work runs if it is due
    | Up(at: int, joined: bool)    // release, and the join state when it is dispatched
    | Other(e: Leds.Event)         // everything else that drives the LEDs

  /** The rest of the firmware neither asks for the indicator nor takes it away, asks for
      FATAL through led_request_fatal only, and never cancels it. */
  predicate Elsewhere(e: Leds.Event) {
    && (e.LedRequest? ==> e.prio == e.pattern && e.pattern != LONG_PRESS_HOLD && e.pattern != FATAL)
    && (e.LedCancel? ==> e.pattern != LONG_PRESS_HOLD && e.pattern != FATAL)
  }

  /** Edges alternate and time does not run backwards. */
  predicate Next(s: Panel, e: Event) {
    match e
    case Down(at) => !s.down && s.now <= at
    case Reached(at) => s.now <= at
    case Up(at, _) => s.down && s.now <= at
    case Other(x) => Elsewhere(x)
  }

  /** The hold work runs on its deadline, before an edge of the same millisecond. */
  function Arrive(s: Panel, at: int): Panel
    requires Leds.LedInv(s.led)
  {
    Panel(Until(s.button, at), s.down, at,
          if s.button.arm.Some? && s.button.arm.value <= at
          then Leds.Step(s.led, Leds.LedRequest(LONG_PRESS_HOLD, LONG_PRESS_HOLD)) else s.led)
  }

  function Step(s: Panel, e: Event): (r: Panel)
    requires Leds.LedInv(s.led)
    ensures Leds.LedInv(r.led)
  {
    match e
    case Down(at) => var a := Arrive(s, at); a.(button := Pressed(a.button, at), down := true)
    case Reached(at) => Arrive(s, at)
    case Up(at, _) =>
      var a := Arrive(s, at);
      a.(button := Released(a.button, at), down := false,
         led := Leds.Step(a.led, Leds.LedCancel(LONG_PRESS_HOLD)))
    case Other(x) => s.(led := Leds.Step(s.led, x))
  }

  predicate InOrder(s: Panel, t: seq<Event>)
    requires Leds.LedInv(s.led)
    decreases |t|
  {
    t == [] || (Next(s, t[0]) && InOrder(Step(s, t[0]), t[1..]))
  }

  /** What the user sees at the moment of a release, and gets for it. */
  datatype Release = Release(lit: bool, fatal: bool, held: int, action: Action)

  function AtRelease(s: Panel, at: int, joined: bool): Release
    requires Leds.LedInv(s.led)
  {
    var a := Arrive(s, at);
    Release(a.led.rendered == LONG_PRESS_HOLD && a.led.rgb == Leds.Rgb(true, false, false), a.led.rendered == FATAL,
            at - s.button.pressStartMs, Decide(Released(a.button, at).durationMs, joined))
  }

  function Releases(s: Panel, t: seq<Event>): seq<Release>
    requires Leds.LedInv(s.led)
    decreases |t|
  {
    if t == [] then []
    else (if t[0].Up? then [AtRelease(s, t[0].at, t[0].joined)] else []) + Releases(Step(s, t[0]), t[1..])
  }

  /** The indicator is requested once the hold time is over, and is rendered from then on
      unless FATAL is; between presses it is not. */
  predicate PanelInv(s: Panel) {
    && JoinFeedback.Canonical(s.led)
    && (s.led.rendered == LONG_PRESS_HOLD ==> s.button.hold)
    && (s.button.hold ==> s.led.rendered == LONG_PRESS_HOLD || s.led.rendered == FATAL)
    && (if !s.down then Idle(s.button)
        else
          && s.button.pressStartMs <= s.now
          && (s.button.hold <==> s.now - s.button.pressStartMs >= LONG_MIN_MS)
          && s.button.arm == if s.button.hold then None else Some(s.button.pressStartMs + LONG_MIN_MS))
  }

  lemma ArriveKeepsInv(s: Panel, at: int)
    requires PanelInv(s) && s.now <= at
    ensures PanelInv(Arrive(s, at))
  {
    JoinFeedback.LedStepStaysCanonical(s.led, Leds.LedRequest(LONG_PRESS_HOLD, LONG_PRESS_HOLD));
  }

  lemma OtherKeepsInv(s: Panel, x: Leds.Event)
    requires PanelInv(s) && Elsewhere(x)
    ensures PanelInv(Step(s, Other(x)))
  {
    JoinFeedback.LedStepStaysCanonical(s.led, x);
  }

  lemma StepKeepsInv(s: Panel, e: Event)
    requires PanelInv(s) && Next(s, e)
    ensures PanelInv(Step(s, e))
  {
    match e
    case Down(at) => ArriveKeepsInv(s, at);
    case Reached(at) => ArriveKeepsInv(s, at);
    case Up(at, _) =>
      ArriveKeepsInv(s, at);
      JoinFeedback.LedStepStaysCanonical(Arrive(s, at).led, Leds.LedCancel(LONG_PRESS_HOLD));
    case Other(x) => OtherKeepsInv(s, x);
  }

  lemma ReleaseIsHonest(s: Panel, at: int, joined: bool)
    requires PanelInv(s) && s.down && s.now <= at
    ensures var r := AtRelease(s, at, joined);
            && (r.lit <==> r.action == FactoryReset && !r.fatal)
            && (r.action == FactoryReset <==> r.held >= 3000)
  {
    ArriveKeepsInv(s, at);
  }

  lemma {:induction false} ReleasesAreHonest(s: Panel, t: seq<Event>)
    requires PanelInv(s) && InOrder(s, t)
    ensures forall r | r in Releases(s, t) ::
      && (r.lit <==> r.action == FactoryReset && !r.fatal)
      && (r.action == FactoryReset <==> r.held >= 3000)
    decreases |t|
  {
    if t != [] {
      StepKeepsInv(s, t[0]);
      ReleasesAreHonest(Step(s, t[0]), t[1..]);
      if t[0].Up? {
        ReleaseIsHonest(s, t[0].at, t[0].joined);
      }
    }
  }

  // ----- from initialisation on -----

  /** What main() does to the LEDs before it arms the button: requests of its own priorities,
      an erase indicator among them that it takes away again. */
  predicate Bootable(boot: seq<Leds.Event>) {
    forall e | e in boot :: e.LedRequest? ==> e.prio == e.pattern && e.pattern != FATAL
  }

  lemma {:induction false} BootStaysCanonical(led: Leds.Led, boot: seq<Leds.Event>)
    requires JoinFeedback.Canonical(led) && Bootable(boot)
    ensures JoinFeedback.Canonical(Leds.Run(led, boot))
    decreases |boot|
  {
    if boot != [] {
      JoinFeedback.LedStepStaysCanonical(led, boot[0]);
      BootStaysCanonical(Leds.Step(led, boot[0]), boot[1..]);
    }
  }

  /** The panel when main() arms the button. */
  function Armed(boot: seq<Leds.Event>, b: Button, now: int): (s: Panel)
    ensures Leds.LedInv(s.led)
  {
    Leds.RunKeepsLedInv(Leds.DARK_LED, boot);
    Panel(b, false, now, Leds.Run(Leds.DARK_LED, boot))
  }

  /** From initialisation, over any boot that has taken its own erase indicator away, and then
      any interleaving of presses, requests, cancels, fatals, timely and stale ticks: at release
      the hold indicator is what the LEDs show if and only if letting go resets the device and
      no fatal pattern is showing. */
  lemma {:induction false} LitIffReset(boot: seq<Leds.Event>, b: Button, now: int, t: seq<Event>)
    requires Bootable(boot) && Leds.Run(Leds.DARK_LED, boot).rendered != LONG_PRESS_HOLD
    requires Idle(b) && InOrder(Armed(boot, b, now), t)
    ensures forall r | r in Releases(Armed(boot, b, now), t) ::
      && (r.lit <==> r.action == FactoryReset && !r.fatal)
      && (r.action == FactoryReset <==> r.held >= 3000)
  {
    BootStaysCanonical(Leds.DARK_LED, boot);
    ReleasesAreHonest(Armed(boot, b, now), t);
  }
}
