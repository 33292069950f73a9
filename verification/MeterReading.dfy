/** The whole path from pulse edges to the reading a coordinator gets: the counting
    pipeline and the publication threads side by side, over any number of power cycles.
    The attribute table is RAM, so a power loss silences it until the next boot. */
module MeterReading {
  import opened Words
  import opened MeteringScale
  import Meter
  import Pub = Publication
  import ReportGate

  datatype System = System(device: Meter.Device, pub: Pub.Pub)

  datatype Event =
    | Power(m: Meter.Event)                    // edges, power loss, power-up, persistence
    | Boot(restore: Meter.Event, queued: bool) // restore the total and publish it
    | Loop(queued: bool)                       // sample, and publish a changed total
    | Stack(p: Pub.Event)                      // report work and ZBOSS thread

  predicate WellFormed(e: Event) {
    match e
    case Power(x) => !x.Sample? && !x.Restore?
    case Boot(r, _) => r.Restore?
    case Loop(_) => true
    case Stack(x) => !x.Count? && !x.MainLoop?
  }

  const SILENT: Pub.Pub :=
    Pub.Pub(0, 0, ReportGate.Gate(Pub.REPORT_PULSE_HEARTBEAT, 0), false, 0, [], false, ToU48(0), None, [])

  /** What the event is to the counting pipeline; `None` if nothing. */
  function Counting(e: Event): Option<Meter.Event> {
    match e
    case Power(x) => Some(x)
    case Boot(r, _) => Some(r)
    case Loop(_) => Some(Meter.Sample)
    case Stack(_) => None
  }

  function Step(s: System, e: Event): System {
    var d := if Counting(e).Some? then Meter.Step(s.device, Counting(e).value) else s.device;
    match e
    case Power(x) => System(d, if x.Cut? then SILENT else s.pub)
    case Boot(_, queued) =>
      System(d, if s.device.phase.Booting? then Pub.Start(d.acc.total, queued) else s.pub)
    case Loop(queued) =>
      if !s.device.phase.Running? then s
      else
        var grown := if d.acc.total >= s.device.acc.total then d.acc.total - s.device.acc.total else 0;
        System(d, Pub.Step(Pub.Step(s.pub, Pub.Count(grown)), Pub.MainLoop(queued)))
    case Stack(x) => System(d, if s.device.phase.Running? then Pub.Step(s.pub, x) else s.pub)
  }

  function Book(s: System, l: Meter.Ledger, e: Event): Meter.Ledger {
    if Counting(e).Some? then Meter.Book(s.device, l, Counting(e).value) else l
  }

  function Run(s: System, t: seq<Event>): System
    decreases |t|
  {
    if t == [] then s else Run(Step(s, t[0]), t[1..])
  }

  function Booked(s: System, l: Meter.Ledger, t: seq<Event>): Meter.Ledger
    decreases |t|
  {
    if t == [] then l else Booked(Step(s, t[0]), Book(s, l, t[0]), t[1..])
  }

  ghost predicate SystemInv(s: System, l: Meter.Ledger) {
    && Meter.Inv(s.device, l) && Pub.Behind(s.pub)
    && (if s.device.phase.Running? then s.pub.total == s.device.acc.total && s.pub.registered
        else s.pub == SILENT)
  }

  lemma SilentIsBehind()
    ensures Pub.Behind(SILENT)
  {
  }

  lemma StackKeepsTotal(p: Pub.Pub, x: Pub.Event)
    requires !x.Count?
    ensures Pub.Step(p, x).total == p.total && Pub.Step(p, x).registered == p.registered
  {
  }

  /** A sample never lowers the total. */
  lemma SampleGrows(d: Meter.Device, l: Meter.Ledger)
    requires Meter.Inv(d, l) && d.phase.Running? && l.accepted < U64
    ensures Meter.Step(d, Meter.Sample).acc.total >= d.acc.total
    ensures Meter.Step(d, Meter.Sample).phase.Running?
  {
    Meter.StepKeepsInv(d, l, Meter.Sample);
  }

  lemma PublishKeepsBehind(p: Pub.Pub, n: nat, queued: bool)
    requires Pub.Behind(p)
    ensures var q := Pub.Step(Pub.Step(p, Pub.Count(n)), Pub.MainLoop(queued));
            Pub.Behind(q) && q.total == p.total + n && q.registered == p.registered
  {
    var counted := Pub.Step(p, Pub.Count(n));
    Pub.BehindStep(p, Pub.Count(n));
    Pub.BehindStep(counted, Pub.MainLoop(queued));
    StackKeepsTotal(counted, Pub.MainLoop(queued));
  }

  lemma LoopKeepsBehind(s: System, l: Meter.Ledger, queued: bool)
    requires SystemInv(s, l) && s.device.phase.Running? && l.accepted < U64
    ensures var r := Step(s, Loop(queued));
            Pub.Behind(r.pub) && r.pub.total == r.device.acc.total && r.pub.registered
            && r.device == Meter.Step(s.device, Meter.Sample) && r.device.phase.Running?
  {
    SampleGrows(s.device, l);
    PublishKeepsBehind(s.pub, Meter.Step(s.device, Meter.Sample).acc.total - s.device.acc.total, queued);
  }

  lemma BootKeepsBehind(s: System, e: Event)
    requires e.Boot? && e.restore.Restore? && s.device.phase.Booting?
    ensures var r := Step(s, e);
            Pub.Behind(r.pub) && r.pub.total == r.device.acc.total && r.pub.registered
            && r.device == Meter.Step(s.device, e.restore) && r.device.phase.Running?
  {
    Pub.StartIsBehind(Step(s, e).device.acc.total, e.queued);
  }

  lemma StepKeepsSystemInv(s: System, l: Meter.Ledger, e: Event)
    requires SystemInv(s, l) && WellFormed(e) && l.accepted < U64
    ensures SystemInv(Step(s, e), Book(s, l, e))
    ensures l.accepted <= Book(s, l, e).accepted <= l.accepted + 1
  {
    if Counting(e).Some? {
      Meter.StepKeepsInv(s.device, l, Counting(e).value);
    }
    match e
    case Power(x) => SilentIsBehind();
    case Boot(_, _) =>
      if s.device.phase.Booting? {
        BootKeepsBehind(s, e);
      }
    case Loop(queued) =>
      if s.device.phase.Running? {
        LoopKeepsBehind(s, l, queued);
      }
    case Stack(x) =>
      Pub.BehindStep(s.pub, x);
      StackKeepsTotal(s.pub, x);
  }

  lemma {:induction false} RunKeepsSystemInv(s: System, l: Meter.Ledger, t: seq<Event>)
    requires SystemInv(s, l) && l.accepted + |t| < U64
    requires forall e | e in t :: WellFormed(e)
    ensures SystemInv(Run(s, t), Booked(s, l, t))
    decreases |t|
  {
    if t != [] {
      assert t[0] in t;
      StepKeepsSystemInv(s, l, t[0]);
      RunKeepsSystemInv(Step(s, t[0]), Book(s, l, t[0]), t[1..]);
    }
  }

  /** A device that is off, a new one included, satisfies the invariant. */
  lemma SilentSystem(d: Meter.Device, l: Meter.Ledger)
    requires Meter.HealthyInv(d, l) && !d.phase.Running?
    ensures SystemInv(System(d, SILENT), l)
  {
    SilentIsBehind();
  }

  /** The coordinator is never shown energy that was not used: over any run of edges, power
      losses, flash failures, publications and callbacks, the reading is at most the number
      of pulses the gate ever let through, less those lost, shelved, forgotten, wrapped,
      erased or not yet sampled. */
  lemma {:induction false} ReadingNeverExceedsPulses(s: System, l: Meter.Ledger, t: seq<Event>)
    requires SystemInv(s, l) && l.accepted + |t| < U64
    requires forall e | e in t :: WellFormed(e)
    ensures var r, m := Run(s, t), Booked(s, l, t);
            Decode(r.pub.attribute)
            <= if r.device.phase.Running?
               then m.accepted - m.lost - m.shelved - m.forgotten - m.wrapped - m.erased - m.unsampled
               else 0
  {
    RunKeepsSystemInv(s, l, t);
    DecodeEncode(Run(s, t).pub.total);
    DecodeEncode(0);
  }

  /** And once the queue has drained after a publication of the current total, the reading
      is exactly that number, up to the saturation of the wire format. */
  lemma {:induction false} SettledReadingIsExact(s: System, l: Meter.Ledger, t: seq<Event>)
    requires SystemInv(s, l) && l.accepted + |t| < U64
    requires forall e | e in t :: WellFormed(e)
    ensures var r, m := Run(s, t), Booked(s, l, t);
            r.device.phase.Running? && r.pub.queue == [] && !r.pub.dropped && r.pub.pending == r.pub.total
            ==> Decode(r.pub.attribute)
                == Min(m.accepted - m.lost - m.shelved - m.forgotten - m.wrapped - m.erased - m.unsampled,
                       U48 - 1)
  {
    RunKeepsSystemInv(s, l, t);
    DecodeEncode(Run(s, t).pub.total);
  }

  // ----- after a pass of the main loop -----

  predicate NoReportWork(t: seq<Event>) {
    forall e | e in t :: e.Stack? ==> !e.p.ReportStore?
  }

  predicate InStep(s: System) { s.device.phase.Running? ==> s.pub.pending == s.pub.lastPublished }

  lemma {:induction false} RunStaysInStep(s: System, l: Meter.Ledger, t: seq<Event>)
    requires SystemInv(s, l) && l.accepted + |t| < U64 && InStep(s)
    requires (forall e | e in t :: WellFormed(e)) && NoReportWork(t)
    ensures InStep(Run(s, t))
    decreases |t|
  {
    if t != [] {
      assert t[0] in t;
      StepKeepsSystemInv(s, l, t[0]);
      StepStaysInStep(s, l, t[0]);
      RunStaysInStep(Step(s, t[0]), Book(s, l, t[0]), t[1..]);
    }
  }

  lemma StepStaysInStep(s: System, l: Meter.Ledger, e: Event)
    requires SystemInv(s, l) && l.accepted < U64 && InStep(s) && WellFormed(e)
    requires e.Stack? ==> !e.p.ReportStore?
    ensures InStep(Step(s, e))
  {
    match e
    case Loop(queued) =>
      if s.device.phase.Running? {
        SampleGrows(s.device, l);
        PublishTakesTotal(s.pub, Meter.Step(s.device, Meter.Sample).acc.total - s.device.acc.total, queued);
      }
    case _ =>
  }

  lemma PublishTakesTotal(p: Pub.Pub, n: nat, queued: bool)
    requires p.registered
    ensures var q := Pub.Step(Pub.Step(p, Pub.Count(n)), Pub.MainLoop(queued));
            && q.lastPublished == q.total == p.total + n
            && (p.pending == p.lastPublished || q.total != p.lastPublished ==> q.pending == q.total)
  {
  }

  /** The pass leaves the current total pending: always if it finds a new one, and otherwise
      if no report work stored an older one. */
  lemma {:induction false} LoopLeavesTotalPending(s: System, l: Meter.Ledger, queued: bool)
    requires SystemInv(s, l) && s.device.phase.Running? && l.accepted < U64
    requires InStep(s) || Meter.Step(s.device, Meter.Sample).acc.total != s.pub.lastPublished
    ensures var r := Step(s, Loop(queued));
            r.device.phase.Running? && r.pub.registered && r.pub.pending == r.pub.total
  {
    SampleGrows(s.device, l);
    LoopKeepsBehind(s, l, queued);
    PublishTakesTotal(s.pub, Meter.Step(s.device, Meter.Sample).acc.total - s.device.acc.total, queued);
  }

  lemma {:induction false} CallbacksKeepPending(s: System, t: seq<Event>)
    requires s.device.phase.Running? && (forall e | e in t :: e.Stack? && e.p.RunCallback?)
    ensures var r := Run(s, t);
            && r.device == s.device && r.pub.pending == s.pub.pending && r.pub.total == s.pub.total
    ensures forall l :: Booked(s, l, t) == l
    decreases |t|
  {
    if t != [] {
      assert t[0] in t;
      CallbacksKeepPending(Step(s, t[0]), t[1..]);
    }
  }

  lemma {:induction false} RunInParts(s: System, l: Meter.Ledger, a: seq<Event>, b: seq<Event>)
    ensures Run(s, a + b) == Run(Run(s, a), b)
    ensures Booked(s, l, a + b) == Booked(Run(s, a), Booked(s, l, a), b)
    decreases |a|
  {
    if a == [] {
      assert a + b == b;
    } else {
      assert (a + b)[1..] == a[1..] + b;
      RunInParts(Step(s, a[0]), Book(s, l, a[0]), a[1..], b);
    }
  }

  /** Any history from a device that is off, a pass of the main loop, and callbacks until the
      queue is empty: if that pass found a new total or no report work has stored one, the
      coordinator reads exactly the accepted pulses less those missing. */
  lemma {:induction false} LoopSettlesReading(d: Meter.Device, l: Meter.Ledger, t: seq<Event>,
                                              queued: bool, callbacks: seq<Event>)
    requires Meter.Inv(d, l) && d.phase.Off? && l.accepted + |t| + 1 + |callbacks| < U64
    requires (forall e | e in t :: WellFormed(e)) && (forall e | e in callbacks :: e.Stack? && e.p.RunCallback?)
    requires var s := Run(System(d, SILENT), t);
             && s.device.phase.Running?
             && (NoReportWork(t) || Meter.Step(s.device, Meter.Sample).acc.total != s.pub.lastPublished)
    ensures var all := t + [Loop(queued)] + callbacks;
            var r, m := Run(System(d, SILENT), all), Booked(System(d, SILENT), l, all);
            r.pub.queue == [] && !r.pub.dropped
            ==> Decode(r.pub.attribute)
                == Min(m.accepted - m.lost - m.shelved - m.forgotten - m.wrapped - m.erased - m.unsampled,
                       U48 - 1)
  {
    var o := System(d, SILENT);
    SilentIsBehind();
    RunKeepsSystemInv(o, l, t);
    AcceptedAlong(o, l, t);
    var s, k := Run(o, t), Booked(o, l, t);
    if NoReportWork(t) {
      RunStaysInStep(o, l, t);
    }
    LoopLeavesTotalPending(s, k, queued);
    RunInParts(o, l, t + [Loop(queued)], callbacks);
    RunInParts(o, l, t, [Loop(queued)]);
    var s', k' := Step(s, Loop(queued)), Book(s, k, Loop(queued));
    assert [Loop(queued)][1..] == [];
    assert Run(s, [Loop(queued)]) == Run(s', []) && Booked(s, k, [Loop(queued)]) == Booked(s', k', []);
    StepKeepsSystemInv(s, k, Loop(queued));
    CallbacksKeepPending(s', callbacks);
    SettledReadingIsExact(s', k', callbacks);
  }

  lemma {:induction false} AcceptedAlong(s: System, l: Meter.Ledger, t: seq<Event>)
    requires SystemInv(s, l) && l.accepted + |t| < U64
    requires forall e | e in t :: WellFormed(e)
    ensures Booked(s, l, t).accepted <= l.accepted + |t|
    decreases |t|
  {
    if t != [] {
      assert t[0] in t;
      StepKeepsSystemInv(s, l, t[0]);
      AcceptedAlong(Step(s, t[0]), Book(s, l, t[0]), t[1..]);
    }
  }
}
