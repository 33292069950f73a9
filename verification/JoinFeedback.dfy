/** The join lifecycle on the LEDs: zigbee_app_start_join marks a steering as the user's,
    and zboss_signal_handler paints the outcome of such a steering only. The former is two
    steps, because the stack's thread can preempt the one it runs on; the latter is one.
    Every caller passes LED_PRIO_X along with LED_PATTERN_X, and the two enums number the
    patterns alike. */
module JoinFeedback {
  import opened Words
  import opened LedPriority
  import Leds = LedController

  /** `asking`: zigbee_app_start_join has set its flag and not yet asked for the blink.
      `joins` and `outcomes` count user joins and outcome patterns requested. */
  datatype Join = Join(led: Leds.Led, joined: bool, inFlight: bool, asking: bool, joins: nat, outcomes: nat)

  datatype Event =
    | SetFlag                   // zigbee_app_start_join marks the join as the user's
    | AskBlink                  // and then asks for the joining blink
    | Steering(ok: bool)
    | Reattach(ok: bool)
    | Leave
    | OtherLed(e: Leds.Event)   // everything else that drives the LEDs

  /** After initialisation. */
  const START: Join := Join(Leds.DARK_LED, false, false, false, 0, 0)

  /** The rest of the firmware requests neither JOINING nor, except through
      led_request_fatal, FATAL. */
  predicate Elsewhere(e: Leds.Event) {
    e.LedRequest? ==> e.prio == e.pattern && e.pattern != JOINING && e.pattern != FATAL
  }

  /** Only the button thread joins, so the two steps of a join alternate. */
  predicate InTurn(asking: bool, t: seq<Event>)
    decreases |t|
  {
    t == [] || match t[0]
               case SetFlag => !asking && InTurn(true, t[1..])
               case AskBlink => asking && InTurn(false, t[1..])
               case OtherLed(x) => Elsewhere(x) && InTurn(asking, t[1..])
               case _ => InTurn(asking, t[1..])
  }

  predicate Canonical(led: Leds.Led) {
    Leds.Counted(led) && (led.rendered != NONE ==> led.arbiter.prio == led.rendered)
  }

  predicate JoinInv(s: Join) {
    Canonical(s.led) && s.outcomes + (if s.inFlight then 1 else 0) <= s.joins
  }

  function Outcome(ok: bool): int { if ok then JOIN_SUCCESS else JOIN_FAIL }

  function Painted(led: Leds.Led, ok: bool): Leds.Led
    requires Leds.LedInv(led)
  {
    Leds.Step(Leds.Step(led, Leds.LedCancel(JOINING)), Leds.LedRequest(Outcome(ok), Outcome(ok)))
  }

  function Step(s: Join, e: Event): Join
    requires JoinInv(s)
  {
    match e
    case SetFlag => s.(inFlight := true, asking := true, joins := s.joins + 1)
    case AskBlink => s.(asking := false, led := Leds.Step(s.led, Leds.LedRequest(JOINING, JOINING)))
    case Steering(ok) =>
      if !s.inFlight then s.(joined := ok)
      else s.(joined := ok, inFlight := false, outcomes := s.outcomes + 1, led := Painted(s.led, ok))
    case Reattach(ok) => if ok then s.(joined := true) else s
    case Leave => s.(joined := false)
    case OtherLed(x) => s.(led := Leds.Step(s.led, x))
  }

  predicate Reaches(led: Leds.Led, e: Leds.Event, p: int) {
    p == led.rendered || p == NONE || (e.LedRequest? && p == e.pattern) || (e.LedFatal? && p == FATAL)
  }

  lemma TickStaysCanonical(led: Leds.Led)
    requires Leds.Consistent(led) && !led.halted && (led.rendered == FATAL ==> led.fatalCount > 0)
    requires led.rendered != NONE ==> led.arbiter.prio == led.rendered
    ensures var r := Leds.Ticked(led);
            && !r.halted && r.fatalCount == led.fatalCount
            && (r.rendered != NONE ==> r.arbiter.prio == r.rendered)
            && (r.rendered == led.rendered || r.rendered == NONE)
  {
  }

  lemma LedStepStaysCanonical(led: Leds.Led, e: Leds.Event)
    requires Canonical(led) && (e.LedRequest? ==> e.prio == e.pattern && e.pattern != FATAL)
    ensures Canonical(Leds.Step(led, e)) && Reaches(led, e, Leds.Step(led, e).rendered)
  {
    match e
    case Fire =>
      if led.due.Some? {
        TickStaysCanonical(Leds.Fired(led));
      }
    case StaleTick => TickStaysCanonical(led);
    case _ =>
  }

  predicate Due(s: Join, e: Event) {
    match e
    case SetFlag => !s.asking
    case AskBlink => s.asking
    case OtherLed(x) => Elsewhere(x)
    case _ => true
  }

  lemma PaintedIsCanonical(led: Leds.Led, ok: bool)
    requires Canonical(led)
    ensures Canonical(Painted(led, ok)) && Painted(led, ok).rendered != JOINING
  {
    var cancelled := Leds.Step(led, Leds.LedCancel(JOINING));
    LedStepStaysCanonical(led, Leds.LedCancel(JOINING));
    LedStepStaysCanonical(cancelled, Leds.LedRequest(Outcome(ok), Outcome(ok)));
    assert cancelled.rendered != JOINING;
  }

  lemma StepKeepsJoinInv(s: Join, e: Event)
    requires JoinInv(s) && Due(s, e)
    ensures JoinInv(Step(s, e))
  {
    match e
    case AskBlink => LedStepStaysCanonical(s.led, Leds.LedRequest(JOINING, JOINING));
    case Steering(ok) => PaintedIsCanonical(s.led, ok);
    case OtherLed(x) => LedStepStaysCanonical(s.led, x);
    case _ =>
  }

  function Run(s: Join, t: seq<Event>): Join
    requires JoinInv(s) && InTurn(s.asking, t)
    decreases |t|
  {
    if t == [] then s
    else
      StepKeepsJoinInv(s, t[0]);
      Run(Step(s, t[0]), t[1..])
  }

  lemma {:induction false} RunKeepsJoinInv(s: Join, t: seq<Event>)
    requires JoinInv(s) && InTurn(s.asking, t)
    ensures JoinInv(Run(s, t))
    decreases |t|
  {
    if t != [] {
      StepKeepsJoinInv(s, t[0]);
      RunKeepsJoinInv(Step(s, t[0]), t[1..]);
    }
  }

  /** From initialisation on, no more outcomes are painted than the user asked for joins. */
  lemma {:induction false} OutcomesNeverExceedJoins(t: seq<Event>)
    requires InTurn(false, t)
    ensures var r := Run(START, t);
            r.outcomes + (if r.inFlight then 1 else 0) <= r.joins
  {
    RunKeepsJoinInv(START, t);
  }

  /** The last word on the network: the outcome of the last steering, an attachment or a
      departure since. A failed reattachment says nothing. */
  function JoinedAfter(before: bool, t: seq<Event>): bool
    decreases |t|
  {
    if t == [] then before
    else
      var last, init := t[|t| - 1], t[..|t| - 1];
      if last.Steering? then last.ok
      else if last == Reattach(true) then true
      else if last.Leave? then false
      else JoinedAfter(before, init)
  }

  lemma {:induction false} JoinedInParts(before: bool, e: Event, t: seq<Event>)
    ensures JoinedAfter(before, [e] + t) == JoinedAfter(JoinedAfter(before, [e]), t)
    decreases |t|
  {
    if t == [] {
      assert [e] + t == [e];
    } else {
      assert ([e] + t)[..|t|] == [e] + t[..|t| - 1];
      JoinedInParts(before, e, t[..|t| - 1]);
    }
  }

  lemma {:induction false} JoinedFollowsSignals(s: Join, t: seq<Event>)
    requires JoinInv(s) && InTurn(s.asking, t)
    ensures Run(s, t).joined == JoinedAfter(s.joined, t)
    decreases |t|
  {
    if t != [] {
      var e := t[0];
      StepKeepsJoinInv(s, e);
      assert t == [e] + t[1..];
      JoinedInParts(s.joined, e, t[1..]);
      assert [e][..0] == [];
      assert JoinedAfter(s.joined, [e]) == Step(s, e).joined;
      JoinedFollowsSignals(Step(s, e), t[1..]);
    }
  }

  /** A user join is seen: without a signal in between, the blink shows unless the fatal
      pattern or the hold indicator does, which stay; and the flag is set either way. */
  lemma JoinIsSeenIff(s: Join)
    requires JoinInv(s) && !s.asking
    ensures var flagged := Step(s, SetFlag);
            JoinInv(flagged) &&
            var r := Step(flagged, AskBlink);
            var stronger := s.led.rendered == FATAL || s.led.rendered == LONG_PRESS_HOLD;
            && r.inFlight && r.joins == s.joins + 1 && flagged.led == s.led
            && (r.led.rendered == JOINING <==> !stronger) && (stronger ==> r.led == s.led)
  {
  }

  // ----- the blink and the flag -----

  /** The blue blink promises the user an outcome that nothing will bring. */
  predicate Orphaned(s: Join) { s.led.rendered == JOINING && !s.inFlight }

  predicate NeverOrphaned(s: Join, t: seq<Event>)
    requires JoinInv(s) && InTurn(s.asking, t)
    decreases |t|
  {
    !Orphaned(s)
    && (t == [] ||
        (StepKeepsJoinInv(s, t[0]);
         NeverOrphaned(Step(s, t[0]), t[1..])))
  }

  /** A steering signal falls between the two steps of a join, and the request that follows
      wins the LEDs or finds them blinking. `signalled`: one has, since the flag was set. */
  predicate BlinkComesLate(s: Join, t: seq<Event>, signalled: bool)
    requires JoinInv(s) && InTurn(s.asking, t)
    decreases |t|
  {
    t != [] &&
    (StepKeepsJoinInv(s, t[0]);
     var q := Step(s, t[0]);
     match t[0]
     case SetFlag => BlinkComesLate(q, t[1..], false)
     case Steering(_) => BlinkComesLate(q, t[1..], true)
     case AskBlink => (signalled && q.led.rendered == JOINING) || BlinkComesLate(q, t[1..], signalled)
     case _ => BlinkComesLate(q, t[1..], signalled))
  }

  lemma OrphanStep(s: Join, e: Event)
    requires JoinInv(s) && Due(s, e) && !Orphaned(s)
    ensures Orphaned(Step(s, e)) <==> e.AskBlink? && !s.inFlight && Step(s, e).led.rendered == JOINING
  {
    match e
    case Steering(ok) => PaintedIsCanonical(s.led, ok);
    case OtherLed(x) => LedStepStaysCanonical(s.led, x);
    case _ =>
  }

  lemma {:induction false} OrphanedIffLate(s: Join, t: seq<Event>, signalled: bool)
    requires JoinInv(s) && InTurn(s.asking, t) && !Orphaned(s)
    requires s.asking ==> (signalled <==> !s.inFlight)
    ensures NeverOrphaned(s, t) <==> !BlinkComesLate(s, t, signalled)
    decreases |t|
  {
    if t != [] {
      var e, q := t[0], Step(s, t[0]);
      StepKeepsJoinInv(s, e);
      OrphanStep(s, e);
      if !Orphaned(q) {
        OrphanedIffLate(q, t[1..], if e.SetFlag? then false else if e.Steering? then true else signalled);
      }
    }
  }

  /** From initialisation on, over any interleaving: the blink is shown only while a user join
      is in flight, unless a steering signal falls between the flag and the request of one
      and that request shows the blink; then it is not. */
  lemma BlinkMeansJoiningIff(t: seq<Event>)
    requires InTurn(false, t)
    ensures NeverOrphaned(START, t) <==> !BlinkComesLate(START, t, false)
  {
    OrphanedIffLate(START, t, false);
  }

  /** Nothing ends it then: ticks, timely and stale, later steering signals, leaves and
      reattachments leave it blinking until the user asks again or something stronger shows. */
  lemma {:induction false} OrphanBlinksOn(s: Join, t: seq<Event>)
    requires JoinInv(s) && InTurn(s.asking, t) && Orphaned(s)
    requires forall e | e in t :: e.Steering? || e.Leave? || e.Reattach?
                                  || (e.OtherLed? && (e.e.Fire? || e.e.StaleTick? || e.e.Wait?))
    ensures Orphaned(Run(s, t)) && Run(s, t).outcomes == s.outcomes
    decreases |t|
  {
    if t != [] {
      assert t[0] in t;
      StepKeepsJoinInv(s, t[0]);
      OrphanBlinksOn(Step(s, t[0]), t[1..]);
    }
  }

  /** Such a run, from initialisation: the user joins while an automatic rejoin succeeds. */
  lemma {:induction false} OrphanCanArise()
    ensures InTurn(false, [SetFlag, Steering(true), AskBlink])
    ensures var r := Run(START, [SetFlag, Steering(true), AskBlink]);
            Orphaned(r) && r.joined && r.outcomes == r.joins == 1
  {
    var t := [SetFlag, Steering(true), AskBlink];
    assert t[1..] == [Steering(true), AskBlink] && t[1..][1..] == [AskBlink] && t[1..][1..][1..] == [];
  }

  /** Automatic rejoins stay dark: until the user asks again, steering signals, leaves and
      reattachments never touch the LEDs. */
  lemma {:induction false} AutomaticRejoinIsSilent(s: Join, t: seq<Event>)
    requires JoinInv(s) && InTurn(s.asking, t) && !s.inFlight
    requires forall e | e in t :: e.Steering? || e.Leave? || e.Reattach?
    ensures Run(s, t).led == s.led && !Run(s, t).inFlight && Run(s, t).outcomes == s.outcomes
    decreases |t|
  {
    if t != [] {
      assert t[0] in t;
      StepKeepsJoinInv(s, t[0]);
      AutomaticRejoinIsSilent(Step(s, t[0]), t[1..]);
    }
  }

  /** When a user join resolves, its outcome is seen exactly if nothing stronger is showing;
      what is stronger stays, and the outcome is not queued. */
  lemma OutcomeIsSeenIff(s: Join, ok: bool)
    requires JoinInv(s) && s.inFlight
    ensures Step(s, Steering(ok)).joined == ok && !Step(s, Steering(ok)).inFlight
    ensures var r := Step(s, Steering(ok)).led;
            var stronger := s.led.rendered == FATAL || s.led.rendered == LONG_PRESS_HOLD
                            || (!ok && s.led.rendered == JOIN_SUCCESS);
            && (r.rendered == (if ok then JOIN_SUCCESS else JOIN_FAIL) <==> !stronger)
            && (stronger ==> r == s.led)
  {
  }

  class JoinState {
    const leds: Leds.Controller
    var joined: bool
    var userJoinInFlight: bool

    constructor (leds: Leds.Controller)
      ensures this.leds == leds && !joined && !userJoinInFlight
    {
      this.leds := leds;
      joined, userJoinInFlight := false, false;
    }

    function State(joins: nat, outcomes: nat): Join
      reads this, leds, leds.state
    {
      Join(leds.State(), joined, userJoinInFlight, false, joins, outcomes)
    }

    /** zigbee_app_start_join without interruption, up to the hand-off to the stack. */
    method StartUserJoin(ghost joins: nat, ghost outcomes: nat)
      requires JoinInv(State(joins, outcomes))
      modifies this, leds, leds.state
      ensures var flagged := Step(old(State(joins, outcomes)), SetFlag);
              JoinInv(flagged) && State(joins + 1, outcomes) == Step(flagged, AskBlink)
    {
      userJoinInFlight := true;
      leds.RequestLed(JOINING, JOINING);
    }

    /** The steering case of zboss_signal_handler; the result tells whether it painted. */
    method OnSteering(ok: bool, ghost joins: nat, ghost outcomes: nat) returns (painted: bool)
      requires JoinInv(State(joins, outcomes))
      modifies this, leds, leds.state
      ensures painted == old(userJoinInFlight)
      ensures State(joins, if painted then outcomes + 1 else outcomes)
              == Step(old(State(joins, outcomes)), Steering(ok))
    {
      joined := ok;
      painted := userJoinInFlight;
      if userJoinInFlight {
        userJoinInFlight := false;
        ghost var led := leds.State();
        leds.CancelLed(JOINING);
        assert leds.State() == Leds.Step(led, Leds.LedCancel(JOINING));
        leds.RequestLed(Outcome(ok), Outcome(ok));
      }
    }
  }
}
