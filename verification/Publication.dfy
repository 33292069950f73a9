/** How the total reaches the CurrentSummationDelivered attribute (section 10.4 of the
    Zigbee Cluster Library, 07-5123).

    Three threads take part: the main loop publishes each new total, the five-minute
    report work publishes the total it read a moment earlier, and the ZBOSS thread
    runs the queued callbacks, each of which writes whatever `pending_summation_total`
    then holds. */
module Publication {
  import opened Words
  import opened MeteringScale
  import ReportGate

  const REPORT_PULSE_HEARTBEAT: nat := 100

  datatype Callback = WriteOnly | WriteAndReport

  /** `dropped`: the last store was not followed by a queued callback, because the
      scheduler refused it, whose result the firmware ignores. `snapshot`: the total the
      report work has read and not yet stored. `frames`: the explicit reports sent. */
  datatype Pub = Pub(
    total: nat, lastPublished: nat, heartbeat: ReportGate.Gate,
    registered: bool, pending: nat, queue: seq<Callback>, dropped: bool,
    attribute: MeteringU48, snapshot: Option<nat>, frames: seq<MeteringU48>)

  datatype Event =
    | Count(n: nat)                 // pulse_accumulator_update adds n
    | MainLoop(queued: bool)        // the publishing part of one loop iteration
    | ReportRead                    // metering_report_work_handler reads the total
    | ReportStore(queued: bool)     // and hands it to the ZBOSS thread
    | RunCallback(canReport: bool)  // a reporting slot and a free buffer exist

  function Store(p: Pub, v: nat, kind: Callback, queued: bool): Pub {
    if !p.registered then p
    else p.(pending := v, queue := if queued then p.queue + [kind] else p.queue,
            dropped := if queued then p.dropped else true)
  }

  function MainPublish(p: Pub, queued: bool): Pub {
    if p.total == p.lastPublished then p
    else
      var kind := if ReportGate.Fires(p.heartbeat) then WriteAndReport else WriteOnly;
      Store(p.(lastPublished := p.total, heartbeat := ReportGate.Advance(p.heartbeat)),
            p.total, kind, queued)
  }

  function CallbackRun(p: Pub, canReport: bool): Pub {
    if p.queue == [] then p
    else
      var v := ToU48(p.pending);
      p.(queue := p.queue[1..], dropped := false, attribute := v,
         frames := if p.queue[0].WriteAndReport? && canReport then p.frames + [v] else p.frames)
  }

  function Step(p: Pub, e: Event): Pub {
    match e
    case Count(n) => p.(total := p.total + n)
    case MainLoop(queued) => MainPublish(p, queued)
    case ReportRead => p.(snapshot := Some(p.total))
    case ReportStore(queued) =>
      if p.snapshot.None? then p
      else Store(p, p.snapshot.value, WriteAndReport, queued).(snapshot := None)
    case RunCallback(canReport) => CallbackRun(p, canReport)
  }

  function Run(p: Pub, t: seq<Event>): Pub
    decreases |t|
  {
    if t == [] then p else Run(Step(p, t[0]), t[1..])
  }

  /** After zigbee_app_init and the publication of the restored total. */
  function Start(restored: nat, queued: bool): Pub {
    Store(Pub(restored, restored, ReportGate.Gate(REPORT_PULSE_HEARTBEAT, 0), true, 0, [], false,
              ToU48(0), None, []), restored, WriteOnly, queued)
  }

  // ----- what is handed over, by the events alone -----

  /** The total, the total at the last pass of the main loop, and what the report work has read. */
  datatype Totals = Totals(now: nat, atLoop: nat, read: Option<nat>)

  function Hear(x: Totals, e: Event): Totals {
    match e
    case Count(n) => x.(now := x.now + n)
    case MainLoop(_) => x.(atLoop := x.now)
    case ReportRead => x.(read := Some(x.now))
    case ReportStore(_) => x.(read := None)
    case RunCallback(_) => x
  }

  /** The main loop hands over a total that changed since its last pass, the report work the
      total it has read. */
  function HandedOver(x: Totals, e: Event): Option<nat> {
    if e.MainLoop? && x.now != x.atLoop then Some(x.now)
    else if e.ReportStore? then x.read
    else None
  }

  function LastHanded(x: Totals, before: nat, t: seq<Event>): nat
    decreases |t|
  {
    if t == [] then before
    else LastHanded(Hear(x, t[0]), if HandedOver(x, t[0]).Some? then HandedOver(x, t[0]).value else before, t[1..])
  }

  predicate AcceptedCall(e: Event) { (e.MainLoop? && e.queued) || (e.ReportStore? && e.queued) }

  /** Callbacks accepted and not yet run. */
  function Waiting(x: Totals, n: nat, t: seq<Event>): nat
    decreases |t|
  {
    if t == [] then n
    else
      var n' := if HandedOver(x, t[0]).Some? && AcceptedCall(t[0]) then n + 1
                else if t[0].RunCallback? && n > 0 then n - 1
                else n;
      Waiting(Hear(x, t[0]), n', t[1..])
  }

  predicate Hears(p: Pub, x: Totals) {
    p.registered && p.total == x.now && p.lastPublished == x.atLoop && p.snapshot == x.read
  }

  lemma HearStep(p: Pub, x: Totals, e: Event)
    requires Hears(p, x)
    ensures Hears(Step(p, e), Hear(x, e))
    ensures Step(p, e).pending == if HandedOver(x, e).Some? then HandedOver(x, e).value else p.pending
  {
  }

  lemma {:induction false} RunHears(p: Pub, x: Totals, t: seq<Event>)
    requires Hears(p, x)
    ensures Run(p, t).registered && Run(p, t).pending == LastHanded(x, p.pending, t)
    ensures |Run(p, t).queue| == Waiting(x, |p.queue|, t)
    decreases |t|
  {
    if t != [] {
      HearStep(p, x, t[0]);
      RunHears(Step(p, t[0]), Hear(x, t[0]), t[1..]);
    }
  }

  function AtBoot(restored: nat): Totals { Totals(restored, restored, None) }

  /** From any boot, over any interleaving: the pending total is the last one handed over,
      the restored one at first, and as many callbacks are queued as were accepted and have
      not run. */
  lemma {:induction false} PendingIsLastHanded(restored: nat, queued: bool, t: seq<Event>)
    ensures var r := Run(Start(restored, queued), t);
            && r.registered && r.pending == LastHanded(AtBoot(restored), restored, t)
            && |r.queue| == Waiting(AtBoot(restored), if queued then 1 else 0, t)
  {
    RunHears(Start(restored, queued), AtBoot(restored), t);
  }

  /** So the restored total is on show after one callback, before any pulse. */
  lemma {:induction false} BootPublishesRestored(restored: nat, canReport: bool)
    ensures Run(Start(restored, true), [RunCallback(canReport)]).attribute == ToU48(restored)
  {
    var p := Start(restored, true);
    assert Run(p, [RunCallback(canReport)]) == Run(Step(p, RunCallback(canReport)), []);
  }

  function TotalAtLastLoop(total: nat, atLoop: nat, t: seq<Event>): nat
    decreases |t|
  {
    if t == [] then atLoop
    else if t[0].Count? then TotalAtLastLoop(total + t[0].n, atLoop, t[1..])
    else if t[0].MainLoop? then TotalAtLastLoop(total, total, t[1..])
    else TotalAtLastLoop(total, atLoop, t[1..])
  }

  lemma {:induction false} LoopHandsOver(x: Totals, t: seq<Event>)
    requires forall i | 0 <= i < |t| :: !t[i].ReportStore?
    ensures LastHanded(x, x.atLoop, t) == TotalAtLastLoop(x.now, x.atLoop, t)
    decreases |t|
  {
    if t != [] {
      LoopHandsOver(Hear(x, t[0]), t[1..]);
    }
  }

  /** Without the report work, that is the total at the last pass of the main loop. */
  lemma {:induction false} SolePublisherKeepsUp(restored: nat, queued: bool, t: seq<Event>)
    requires forall i | 0 <= i < |t| :: !t[i].ReportStore?
    ensures Run(Start(restored, queued), t).pending == TotalAtLastLoop(restored, restored, t)
  {
    PendingIsLastHanded(restored, queued, t);
    LoopHandsOver(AtBoot(restored), t);
  }

  // ----- the attribute only ever shows totals the meter has had -----

  function TotalsAlong(p: Pub, t: seq<Event>): set<nat>
    decreases |t|
  {
    {p.total} + if t == [] then {} else TotalsAlong(Step(p, t[0]), t[1..])
  }

  ghost predicate ShowsOnly(p: Pub, seen: set<nat>) {
    && p.total in seen && p.pending in seen
    && (p.snapshot.Some? ==> p.snapshot.value in seen)
    && (exists v :: v in seen && p.attribute == ToU48(v))
    && (forall i | 0 <= i < |p.frames| :: exists v :: v in seen && p.frames[i] == ToU48(v))
  }

  lemma ShowsOnlyMore(p: Pub, seen: set<nat>, more: set<nat>)
    requires ShowsOnly(p, seen) && seen <= more
    ensures ShowsOnly(p, more)
  {
    forall i | 0 <= i < |p.frames|
      ensures exists v :: v in more && p.frames[i] == ToU48(v)
    {
      var v :| v in seen && p.frames[i] == ToU48(v);
      assert v in more;
    }
  }

  lemma ShowsOnlyStep(p: Pub, e: Event, seen: set<nat>)
    requires ShowsOnly(p, seen)
    ensures ShowsOnly(Step(p, e), seen + {Step(p, e).total})
  {
    ShowsOnlyMore(p, seen, seen + {Step(p, e).total});
  }

  lemma {:induction false} AttributeIsARealTotal(p: Pub, t: seq<Event>, seen: set<nat>)
    requires ShowsOnly(p, seen)
    ensures ShowsOnly(Run(p, t), seen + TotalsAlong(p, t))
    decreases |t|
  {
    var all := seen + TotalsAlong(p, t);
    if t == [] {
      ShowsOnlyMore(p, seen, all);
    } else {
      var q := Step(p, t[0]);
      ShowsOnlyStep(p, t[0], seen);
      AttributeIsARealTotal(q, t[1..], seen + {q.total});
      ShowsOnlyMore(Run(q, t[1..]), seen + {q.total} + TotalsAlong(q, t[1..]), all);
    }
  }

  /** Over any interleaving of the three threads, the attribute and every explicit report
      show zero or the wire form of a total the accumulator really had. */
  lemma {:induction false} OnlyRealTotals(restored: nat, queued: bool, t: seq<Event>)
    ensures var p := Start(restored, queued);
            ShowsOnly(Run(p, t), {0} + TotalsAlong(p, t))
  {
    var p := Start(restored, queued);
    assert p.total in TotalsAlong(p, t);
    AttributeIsARealTotal(p, t, {0, restored});
    assert {0, restored} + TotalsAlong(p, t) == {0} + TotalsAlong(p, t);
  }

  // ----- never ahead of the meter, and never behind once the queue drains -----

  predicate Behind(p: Pub) {
    && p.pending <= p.total && p.lastPublished <= p.total
    && (p.snapshot.Some? ==> p.snapshot.value <= p.total)
    && Decode(p.attribute) <= Decode(ToU48(p.total))
    && (p.queue == [] && !p.dropped && p.registered ==> p.attribute == ToU48(p.pending))
  }

  lemma BehindStep(p: Pub, e: Event)
    requires Behind(p)
    ensures Behind(Step(p, e))
  {
    EncodeIsMonotone(p.total, Step(p, e).total);
    EncodeIsMonotone(p.pending, p.total);
  }

  lemma {:induction false} RunStaysBehind(p: Pub, t: seq<Event>)
    requires Behind(p)
    ensures Behind(Run(p, t))
    decreases |t|
  {
    if t != [] {
      BehindStep(p, t[0]);
      RunStaysBehind(Step(p, t[0]), t[1..]);
    }
  }

  lemma StartIsBehind(restored: nat, queued: bool)
    ensures Behind(Start(restored, queued))
  {
    EncodeIsMonotone(0, restored);
  }

  /** From any boot, the attribute never exceeds the wire form of the current total, and
      whenever the queue is empty and no callback was refused it is that of the last total
      handed over. */
  lemma {:induction false} NeverAheadAndCatchesUp(restored: nat, queued: bool, t: seq<Event>)
    ensures var r := Run(Start(restored, queued), t);
            && Decode(r.attribute) <= Decode(ToU48(r.total))
            && (r.queue == [] && !r.dropped ==>
                  r.attribute == ToU48(LastHanded(AtBoot(restored), restored, t)))
  {
    StartIsBehind(restored, queued);
    RunStaysBehind(Start(restored, queued), t);
    PendingIsLastHanded(restored, queued, t);
  }

  /** Back-to-back stores collapse into the last: one callback after it is enough. */
  lemma {:induction false} OneCallbackSuffices(p: Pub, t: seq<Event>)
    requires p.queue != []
    requires forall i | 0 <= i < |t| :: t[i].Count? || t[i].ReportRead? || t[i].RunCallback?
    requires exists i | 0 <= i < |t| :: t[i].RunCallback?
    ensures Run(p, t).attribute == ToU48(p.pending) && Run(p, t).pending == p.pending
    decreases |t|
  {
    var q := Step(p, t[0]);
    if t[0].RunCallback? {
      AttributeSettled(q, t[1..]);
    } else {
      OneCallbackSuffices(q, t[1..]);
    }
  }

  lemma {:induction false} AttributeSettled(p: Pub, t: seq<Event>)
    requires p.attribute == ToU48(p.pending)
    requires forall i | 0 <= i < |t| :: t[i].Count? || t[i].ReportRead? || t[i].RunCallback?
    ensures Run(p, t).attribute == p.attribute && Run(p, t).pending == p.pending
    decreases |t|
  {
    if t != [] {
      AttributeSettled(Step(p, t[0]), t[1..]);
    }
  }

  // ----- explicit reports -----

  /** Passes of the main loop that find a new total, and report works that got to their end. */
  function Publications(x: Totals, t: seq<Event>): nat
    decreases |t|
  {
    if t == [] then 0
    else (if t[0].MainLoop? && x.now != x.atLoop then 1 else 0) + Publications(Hear(x, t[0]), t[1..])
  }

  function ReportWorks(x: Totals, t: seq<Event>): nat
    decreases |t|
  {
    if t == [] then 0
    else (if t[0].ReportStore? && x.read.Some? then 1 else 0) + ReportWorks(Hear(x, t[0]), t[1..])
  }

  /** Reporting callbacks in a queue, and those that ran without a free slot. */
  function Reporting(q: seq<Callback>): nat {
    if q == [] then 0 else (if q[0].WriteAndReport? then 1 else 0) + Reporting(q[1..])
  }

  predicate Misses(p: Pub, e: Event) {
    e == RunCallback(false) && p.queue != [] && p.queue[0].WriteAndReport?
  }

  function Missed(p: Pub, t: seq<Event>): nat
    decreases |t|
  {
    if t == [] then 0
    else (if Misses(p, t[0]) then 1 else 0)
         + Missed(Step(p, t[0]), t[1..])
  }

  lemma {:induction false} ReportingOfLonger(q: seq<Callback>, kind: Callback)
    ensures Reporting(q + [kind]) == Reporting(q) + (if kind.WriteAndReport? then 1 else 0)
  {
    if q == [] {
      assert (q + [kind])[1..] == [];
    } else {
      assert (q + [kind])[1..] == q[1..] + [kind];
      ReportingOfLonger(q[1..], kind);
    }
  }

  function SentOrQueued(p: Pub): nat { |p.frames| + Reporting(p.queue) }

  lemma {:induction false} ReportStep(p: Pub, x: Totals, e: Event)
    requires Hears(p, x) && p.heartbeat.period == 100 && p.heartbeat.counter < 100
    requires e.MainLoop? || e.ReportStore? ==> AcceptedCall(e)
    ensures var q := Step(p, e);
            var published := if e.MainLoop? && x.now != x.atLoop then 1 else 0;
            var forced := SentOrQueued(q) + (if Misses(p, e) then 1 else 0)
                          - SentOrQueued(p) - (if e.ReportStore? && x.read.Some? then 1 else 0);
            && q.heartbeat.period == 100 && q.heartbeat.counter < 100
            && 100 * forced + q.heartbeat.counter == p.heartbeat.counter + published
  {
    ReportingOfLonger(p.queue, WriteOnly);
    ReportingOfLonger(p.queue, WriteAndReport);
  }

  lemma {:induction false} ReportsAddUp(p: Pub, x: Totals, t: seq<Event>)
    requires Hears(p, x) && p.heartbeat.period == 100 && p.heartbeat.counter < 100
    requires forall e | e in t :: e.MainLoop? || e.ReportStore? ==> AcceptedCall(e)
    ensures var r := Run(p, t);
            && r.heartbeat.counter < 100
            && 100 * (SentOrQueued(r) + Missed(p, t) - SentOrQueued(p) - ReportWorks(x, t)) + r.heartbeat.counter
               == p.heartbeat.counter + Publications(x, t)
    decreases |t|
  {
    if t != [] {
      assert t[0] in t;
      ReportStep(p, x, t[0]);
      HearStep(p, x, t[0]);
      ReportsAddUp(Step(p, t[0]), Hear(x, t[0]), t[1..]);
    }
  }

  /** Every report is accounted for, from any boot and over any interleaving in which the
      scheduler accepts the callbacks: the frames sent, those still queued and those that
      found no slot are one per report work and one per 100 publications of the main loop. */
  lemma {:induction false} ReportsAreAccountedFor(restored: nat, queued: bool, t: seq<Event>)
    requires forall e | e in t :: e.MainLoop? || e.ReportStore? ==> AcceptedCall(e)
    ensures var p, x := Start(restored, queued), AtBoot(restored);
            |Run(p, t).frames| + Reporting(Run(p, t).queue) + Missed(p, t)
            == ReportWorks(x, t) + Publications(x, t) / 100
  {
    var p := Start(restored, queued);
    if queued {
      assert p.queue == [WriteOnly] && [WriteOnly][1..] == [];
    }
    assert SentOrQueued(p) == 0;
    ReportsAddUp(p, AtBoot(restored), t);
  }

  /** The report work alone: what it queues reports, and what that callback sends is the
      total the work read. */
  lemma {:induction false} ReportWorkReports(p: Pub, t: seq<Event>)
    requires p.registered && p.queue == [] && t == [ReportRead, ReportStore(true), RunCallback(true)]
    ensures Run(p, t).frames == p.frames + [ToU48(p.total)] && Run(p, t).attribute == ToU48(p.total)
  {
    var q := Step(p, ReportRead);
    var r := Step(q, ReportStore(true));
    var u := Step(r, RunCallback(true));
    assert t[1..] == [ReportStore(true), RunCallback(true)] && t[1..][1..] == [RunCallback(true)];
    assert t[1..][1..][1..] == [];
    assert Run(u, []) == u && Run(r, t[1..][1..]) == u && Run(q, t[1..]) == u;
  }

  // ----- does it ever go backwards? -----

  predicate NeverFalls(p: Pub, t: seq<Event>)
    decreases |t|
  {
    t == [] || (Decode(p.attribute) <= Decode(Step(p, t[0]).attribute) && NeverFalls(Step(p, t[0]), t[1..]))
  }

  /** Whether, after the event, the last store lies below the attribute in wire form. Only a
      store of the report work can bring that about, and the next store or callback ends it. */
  predicate Undercuts(p: Pub, e: Event, open: bool) {
    match e
    case ReportStore(_) =>
      if p.registered && p.snapshot.Some?
      then Decode(ToU48(p.snapshot.value)) < Decode(p.attribute) else open
    case MainLoop(_) => open && (!p.registered || p.total == p.lastPublished)
    case RunCallback(_) => open && p.queue == []
    case _ => open
  }

  /** A queued callback runs while such a store is the last one. */
  predicate UndercutLands(p: Pub, t: seq<Event>, open: bool)
    decreases |t|
  {
    t != [] && ((open && t[0].RunCallback? && p.queue != [])
                || UndercutLands(Step(p, t[0]), t[1..], Undercuts(p, t[0], open)))
  }

  lemma UndercutsStep(p: Pub, e: Event, open: bool)
    requires Behind(p) && (open <==> Decode(ToU48(p.pending)) < Decode(p.attribute))
    ensures var q := Step(p, e);
            && (Undercuts(p, e, open) <==> Decode(ToU48(q.pending)) < Decode(q.attribute))
            && (Decode(p.attribute) <= Decode(q.attribute) <==> !(open && e.RunCallback? && p.queue != []))
  {
    match e
    case RunCallback(_) =>
    case _ =>
  }

  lemma {:induction false} FallsIffUndercut(p: Pub, t: seq<Event>, open: bool)
    requires Behind(p) && (open <==> Decode(ToU48(p.pending)) < Decode(p.attribute))
    ensures NeverFalls(p, t) <==> !UndercutLands(p, t, open)
    decreases |t|
  {
    if t != [] {
      BehindStep(p, t[0]);
      UndercutsStep(p, t[0], open);
      FallsIffUndercut(Step(p, t[0]), t[1..], Undercuts(p, t[0], open));
    }
  }

  /** The comment above the hand-off speaks of a single writer, but there are two. From any
      boot, over any interleaving, with any refusals and any queue: the attribute goes
      backwards if and only if the report work once stores a total below the attribute and
      that store is the last one before a callback. The condition compares the snapshot
      with the attribute before the store, so the report work could test it. */
  lemma AttributeFallsIffUndercut(restored: nat, queued: bool, t: seq<Event>)
    ensures var p := Start(restored, queued);
            NeverFalls(p, t) <==> !UndercutLands(p, t, false)
  {
    StartIsBehind(restored, queued);
    DecodeEncode(0);
    FallsIffUndercut(Start(restored, queued), t, false);
  }

  /** It does happen: after a cold boot, the attribute shows 1 and then 0 again when one
      pulse is counted and published between the report work's read and its store. */
  lemma AttributeCanFall()
    ensures var q := Run(Start(0, true), [RunCallback(true), ReportRead, Count(1), MainLoop(true), RunCallback(true)]);
            var r := Run(q, [ReportStore(true), RunCallback(true)]);
            && q.total == r.total == 1
            && Decode(q.attribute) == 1 && Decode(r.attribute) == 0
            && Step(r, MainLoop(true)) == r
  {
  }

  // ----- and the values in explicit reports? -----

  predicate Reports(p: Pub, e: Event) {
    e.RunCallback? && e.canReport && p.queue != [] && p.queue[0].WriteAndReport?
  }

  /** The value last reported. */
  function Reported(p: Pub): nat {
    if p.frames == [] then 0 else Decode(p.frames[|p.frames| - 1])
  }

  predicate ReportsNeverFall(p: Pub, t: seq<Event>)
    decreases |t|
  {
    t == [] || (Reported(p) <= Reported(Step(p, t[0])) && ReportsNeverFall(Step(p, t[0]), t[1..]))
  }

  /** Whether, after the event, the last store lies below the value last reported. */
  predicate UndercutsReport(p: Pub, e: Event, open: bool) {
    match e
    case ReportStore(_) =>
      if p.registered && p.snapshot.Some?
      then Decode(ToU48(p.snapshot.value)) < Reported(p) else open
    case MainLoop(_) => open && (!p.registered || p.total == p.lastPublished)
    case RunCallback(_) => open && !Reports(p, e)
    case _ => open
  }

  /** A reporting callback gets its frame out while such a store is the last one. */
  predicate UndercutReported(p: Pub, t: seq<Event>, open: bool)
    decreases |t|
  {
    t != [] && ((open && Reports(p, t[0]))
                || UndercutReported(Step(p, t[0]), t[1..], UndercutsReport(p, t[0], open)))
  }

  predicate ReportsBehind(p: Pub) { Behind(p) && Reported(p) <= Decode(ToU48(p.total)) }

  lemma UndercutsReportStep(p: Pub, e: Event, open: bool)
    requires ReportsBehind(p) && (open <==> Decode(ToU48(p.pending)) < Reported(p))
    ensures var q := Step(p, e);
            && ReportsBehind(q)
            && (UndercutsReport(p, e, open) <==> Decode(ToU48(q.pending)) < Reported(q))
            && (Reported(p) <= Reported(q) <==> !(open && Reports(p, e)))
  {
    BehindStep(p, e);
    EncodeIsMonotone(p.total, Step(p, e).total);
    EncodeIsMonotone(p.pending, p.total);
  }

  lemma {:induction false} ReportsFollowUndercuts(p: Pub, t: seq<Event>, open: bool)
    requires ReportsBehind(p) && (open <==> Decode(ToU48(p.pending)) < Reported(p))
    ensures ReportsNeverFall(p, t) <==> !UndercutReported(p, t, open)
    decreases |t|
  {
    if t != [] {
      UndercutsReportStep(p, t[0], open);
      ReportsFollowUndercuts(Step(p, t[0]), t[1..], UndercutsReport(p, t[0], open));
    }
  }

  /** The same for explicit reports, from any boot and over any interleaving: a reported value
      is followed by a lower one if and only if the report work stores a total below the value
      last reported and a reporting callback runs before another store replaces it. */
  lemma ReportsFallIffUndercut(restored: nat, queued: bool, t: seq<Event>)
    ensures var p := Start(restored, queued);
            ReportsNeverFall(p, t) <==> !UndercutReported(p, t, false)
  {
    StartIsBehind(restored, queued);
    ReportsFollowUndercuts(Start(restored, queued), t, false);
  }

  // ----- a single publisher -----

  lemma {:induction false} NoStoreNoUndercut(p: Pub, t: seq<Event>)
    requires forall i | 0 <= i < |t| :: !t[i].ReportStore?
    ensures !UndercutLands(p, t, false) && !UndercutReported(p, t, false)
    decreases |t|
  {
    if t != [] {
      NoStoreNoUndercut(Step(p, t[0]), t[1..]);
    }
  }

  /** With the main loop as the only publisher, from any boot, neither the attribute nor
      the reported values ever fall. */
  lemma SolePublisherNeverFalls(restored: nat, queued: bool, t: seq<Event>)
    requires forall i | 0 <= i < |t| :: !t[i].ReportStore?
    ensures var p := Start(restored, queued);
            NeverFalls(p, t) && ReportsNeverFall(p, t)
  {
    NoStoreNoUndercut(Start(restored, queued), t);
    AttributeFallsIffUndercut(restored, queued, t);
    ReportsFallIffUndercut(restored, queued, t);
  }

  // ----- the statics of zigbee_app.c and the main loop's publishing state -----

  class Publisher {
    var lastPublished: nat
    const heartbeat: ReportGate.Counter
    var registered: bool
    var pending: nat
    var queue: seq<Callback>
    var attribute: MeteringU48
    var frames: seq<MeteringU48>
    var dropped: bool

    function State(total: nat, snapshot: Option<nat>): Pub
      reads this, heartbeat
    {
      Pub(total, lastPublished, heartbeat.State(), registered, pending, queue, dropped,
          attribute, snapshot, frames)
    }

    constructor ()
      ensures !registered && queue == [] && !dropped && frames == []
      ensures fresh(heartbeat) && heartbeat.State() == ReportGate.Gate(REPORT_PULSE_HEARTBEAT, 0)
    {
      lastPublished := 0;
      heartbeat := new ReportGate.Counter(REPORT_PULSE_HEARTBEAT);
      registered, pending, queue, dropped := false, 0, [], false;
      attribute, frames := ToU48(0), [];
    }

    /** zigbee_app_init registers the endpoint and zeroes the attribute; the main loop then
        publishes the restored total once. */
    method Begin(restored: nat, queued: bool)
      requires queue == [] && !dropped && frames == []
      requires heartbeat.State() == ReportGate.Gate(REPORT_PULSE_HEARTBEAT, 0)
      modifies this
      ensures State(restored, None) == Start(restored, queued)
    {
      attribute := ToU48(0);
      registered := true;
      lastPublished := restored;
      Publish(restored, WriteOnly, queued);
    }

    /** zigbee_app_publish_summation and zigbee_app_publish_summation_and_report */
    method Publish(pulseTotal: nat, kind: Callback, queued: bool)
      modifies `pending, `queue, `dropped
      ensures pending == (if registered then pulseTotal else old(pending))
      ensures queue == (if registered && queued then old(queue) + [kind] else old(queue))
      ensures dropped == (old(dropped) || (registered && !queued))
    {
      if !registered {
        return;
      }
      pending := pulseTotal;
      if queued {
        queue := queue + [kind];
      } else {
        dropped := true;
      }
    }

    /** The publishing part of the main loop. */
    method PublishIfChanged(total: nat, queued: bool)
      modifies this, heartbeat
      ensures forall snap :: State(total, snap) == MainPublish(old(State(total, snap)), queued)
    {
      if total != lastPublished {
        var fire := heartbeat.Tick();
        Publish(total, if fire then WriteAndReport else WriteOnly, queued);
        lastPublished := total;
      }
    }

    /** publish_summation_cb and publish_summation_and_report_cb on the ZBOSS thread. */
    method RunNextCallback(canReport: bool)
      modifies this
      ensures forall total, snap :: State(total, snap) == CallbackRun(old(State(total, snap)), canReport)
    {
      if queue == [] {
        return;
      }
      var kind := queue[0];
      queue, dropped := queue[1..], false;
      attribute := ToU48(pending);
      if kind.WriteAndReport? && canReport {
        frames := frames + [attribute];
      }
    }
  }
}
