/** The counting pipeline of main.c over any number of power cycles.

    Pulse edges and microseconds reach the gate whenever the device is powered; the
    main loop samples the register, decides whether to write the total to NVS, and
    can lose power anywhere in between. k_uptime is modelled by elapsed times
    carried on the events, so it never runs backwards. */
module Meter {
  import opened Words
  import opened NvsStore
  import opened PersistPolicy
  import Calibration
  import Gate = PulseGate
  import Accumulator = PulseAccumulator

  const PERSIST_INTERVAL_MS: nat := 5 * 60 * 1000
  const PERSIST_MAX_PULSE_DELTA: nat := 100
  const POLICY: Policy := Policy(PERSIST_INTERVAL_MS, PERSIST_MAX_PULSE_DELTA)

  /** Booting: hw_pulse_counter_init has run, so pulses are being counted, but the
      total has not been restored yet. */
  datatype Phase = Off | Booting | Running

  datatype Device = Device(phase: Phase, gate: Gate.Gate, acc: Accumulator.Acc,
                           lastSavedTotal: nat, lastSavedMs: int, now: nat, flash: Flash)

  datatype Event =
    | Edge(e: Gate.Event)
    | Cut                                              // power is lost
    | PowerUp(mount: MountRun, widthFault: ReadFault)  // nvs_store_init, hw_pulse_counter_init
    | Restore(dt: nat, held: bool, eraseOk: bool, fault: ReadFault)
    | Sample                                           // read the register, update the total
    | Persist(dt: nat, writeOk: bool)                  // the policy check and its write
    | WidthWrite(us: nat, writeOk: bool)               // a coordinator's threshold write

  const IDLE_GATE: Gate.Gate := Gate.Gate(false, 0, Calibration.DEFAULT_MIN_WIDTH_US, 0)

  /** A device that has never been powered, with an empty partition. */
  const FACTORY: Device := Device(Off, IDLE_GATE, Accumulator.Acc(0, 0), 0, 0, 0, Flash(false, map[]))

  function PoweredUp(f: Flash, widthFault: ReadFault): Device {
    var cc := Calibration.EffectiveMinWidthUs(Load(f, PulseMinWidthUs, widthFault));
    Device(Booting, Gate.Gate(false, 0, cc, 0), Accumulator.Acc(0, 0), 0, 0, 0, f)
  }

  /** The boot-hold erase comes before the load; both are skipped without a store. */
  function Erased(f: Flash, held: bool, eraseOk: bool): Flash {
    if f.up && held then Save(f, AccumulatorTotal, 0, eraseOk) else f
  }

  function RestoredTotal(r: LoadResult): nat {
    match r
    case Loaded(v) => v
    case NotFound => 0
    case Failed => 0
  }

  function Restored(d: Device, dt: nat, held: bool, eraseOk: bool, fault: ReadFault): Device {
    var f := Erased(d.flash, held, eraseOk);
    var saved := RestoredTotal(Load(f, AccumulatorTotal, fault));
    Device(Running, d.gate, Accumulator.Restore(saved), saved,
           d.now + dt - PERSIST_INTERVAL_MS, d.now + dt, f)
  }

  predicate Due(d: Device) {
    d.lastSavedMs <= d.now
    && ShouldWrite(POLICY, d.acc.total, d.lastSavedTotal, d.now - d.lastSavedMs)
  }

  predicate Saves(d: Device, e: Event) {
    e.Persist? && d.phase.Running? && Due(d.(now := d.now + e.dt)) && SaveSucceeds(d.flash, e.writeOk)
  }

  predicate SaveFails(d: Device, e: Event) {
    e.Persist? && d.phase.Running? && Due(d.(now := d.now + e.dt)) && !SaveSucceeds(d.flash, e.writeOk)
  }

  function Persisted(d: Device, dt: nat, writeOk: bool): Device {
    var d := d.(now := d.now + dt);
    if !Due(d) || !SaveSucceeds(d.flash, writeOk) then d
    else d.(flash := Save(d.flash, AccumulatorTotal, d.acc.total, writeOk),
            lastSavedTotal := d.acc.total, lastSavedMs := d.now)
  }

  function Step(d: Device, e: Event): Device {
    match e
    case Edge(x) => if d.phase.Off? then d else d.(gate := Gate.Step(d.gate, x))
    case Cut => FACTORY.(flash := PowerLoss(d.flash))
    case PowerUp(m, widthFault) =>
      if d.phase.Off? then PoweredUp(Mount(d.flash, m), widthFault) else d
    case Restore(dt, held, eraseOk, fault) =>
      if d.phase.Booting? then Restored(d, dt, held, eraseOk, fault) else d
    case Sample =>
      if d.phase.Running? then d.(acc := Accumulator.Update(d.acc, d.gate.counter)) else d
    case Persist(dt, writeOk) => if d.phase.Running? then Persisted(d, dt, writeOk) else d
    case WidthWrite(us, writeOk) =>
      if !Retunes(d, e) then d
      else d.(gate := Gate.Step(d.gate, Gate.Retune(us)), flash := Save(d.flash, PulseMinWidthUs, us, writeOk))
  }

  /** The attribute callback is registered once the device runs, and refuses a threshold
      out of range; what it does to the attribute is in `CalibrationProtocol`. */
  predicate Retunes(d: Device, e: Event) {
    e.WidthWrite? && d.phase.Running? && Calibration.IsValidMinWidthUs(e.us)
  }

  function Run(d: Device, t: seq<Event>): Device
    decreases |t|
  {
    if t == [] then d else Run(Step(d, t[0]), t[1..])
  }

  // ----- where every pulse is -----

  /** Every pulse the gate ever accepted is in exactly one of seven places. `unsampled`
      is the part of `volatile` that the register holds and the total does not. */
  datatype Ledger = Ledger(
    accepted: int,   // all pulses the gate ever let through
    unsampled: int,
    volatile: int,   // only in the register or in RAM
    durable: int,    // in the NVS record, and part of the live total
    shelved: int,    // in the NVS record, but not part of the live total
    lost: int,       // only in the register or in RAM when power was lost
    forgotten: int,  // in a record that was wiped by recovery or overwritten
    wrapped: int,    // dropped by a register that wrapped between samples
    erased: int)     // in a record that a boot-hold erased

  const NO_PULSES: Ledger := Ledger(0, 0, 0, 0, 0, 0, 0, 0, 0)

  predicate Balanced(l: Ledger) {
    && l.accepted == l.volatile + l.durable + l.shelved + l.lost + l.forgotten + l.wrapped + l.erased
    && 0 <= l.unsampled <= l.volatile && 0 <= l.durable && 0 <= l.shelved
    && 0 <= l.lost && 0 <= l.forgotten && 0 <= l.wrapped && 0 <= l.erased
  }

  /** Moves pulses between places. How many move depends on the ledger and on what happens
      to power, flash and register; of the totals the firmware computes it uses nothing but
      whether the policy makes a write. */
  function Book(d: Device, l: Ledger, e: Event): Ledger {
    match e
    case Edge(x) =>
      if d.phase.Off? || !Gate.Fires(d.gate, x) then l
      else l.(accepted := l.accepted + 1, unsampled := l.unsampled + 1, volatile := l.volatile + 1)
    case Cut =>
      l.(unsampled := 0, volatile := 0, lost := l.lost + l.volatile,
         durable := 0, shelved := l.shelved + l.durable)
    case PowerUp(m, _) =>
      if d.phase.Off? && AccumulatorTotal !in Mount(d.flash, m).records
      then l.(shelved := 0, forgotten := l.forgotten + l.shelved)
      else l
    case Restore(_, held, eraseOk, fault) =>
      if !d.phase.Booting? then l
      else
        var l := if held && SaveSucceeds(d.flash, eraseOk)
                 then l.(shelved := 0, erased := l.erased + l.shelved) else l;
        if Load(Erased(d.flash, held, eraseOk), AccumulatorTotal, fault).Loaded?
        then l.(shelved := 0, durable := l.durable + l.shelved) else l
    case Sample =>
      if !d.phase.Running? then l
      else
        var w := l.unsampled / U32 * U32;
        l.(unsampled := 0, volatile := l.volatile - w, wrapped := l.wrapped + w)
    case Persist(_, _) =>
      if !Saves(d, e) then l
      else l.(durable := l.durable + (l.volatile - l.unsampled), volatile := l.unsampled,
              shelved := 0, forgotten := l.forgotten + l.shelved)
    case WidthWrite(_, _) => l
  }

  function Booked(d: Device, l: Ledger, t: seq<Event>): Ledger
    decreases |t|
  {
    if t == [] then l else Booked(Step(d, t[0]), Book(d, l, t[0]), t[1..])
  }

  function Recorded(f: Flash): nat {
    if AccumulatorTotal in f.records then f.records[AccumulatorTotal] else 0
  }

  /** The firmware's numbers are the ledger's places. */
  ghost predicate Inv(d: Device, l: Ledger) {
    && Balanced(l)
    && Recorded(d.flash) == l.durable + l.shelved
    && match d.phase
       case Off => !d.flash.up && l.volatile == 0 && l.durable == 0
       case Booting => l.durable == 0 && l.volatile == l.unsampled && d.acc == Accumulator.Acc(0, 0)
                       && d.gate.counter == l.unsampled % U32
       case Running =>
         && d.acc.total + l.unsampled == l.durable + l.volatile
         && d.lastSavedTotal == l.durable
         && d.acc.lastHw < U32
         && d.gate.counter == (d.acc.lastHw + l.unsampled) % U32
         && d.lastSavedMs <= d.now
  }

  lemma EdgeKeepsInv(d: Device, l: Ledger, e: Event)
    requires Inv(d, l) && e.Edge?
    ensures Inv(Step(d, e), Book(d, l, e))
  {
    if !d.phase.Off? && Gate.Fires(d.gate, e.e) {
      var base := if d.phase.Running? then d.acc.lastHw else 0;
      Accumulator.ReduceEarly32(base + l.unsampled, 1);
    }
  }

  lemma SampleKeepsInv(d: Device, l: Ledger)
    requires Inv(d, l) && l.accepted < U64
    ensures Inv(Step(d, Sample), Book(d, l, Sample))
  {
    if d.phase.Running? {
      Accumulator.ModularDelta(d.acc.lastHw, l.unsampled);
      assert d.acc.total + l.unsampled % U32 < U64;
    }
  }

  lemma PowerKeepsInv(d: Device, l: Ledger, e: Event)
    requires Inv(d, l) && (e.Cut? || e.PowerUp?)
    ensures Inv(Step(d, e), Book(d, l, e)) && Book(d, l, e).accepted == l.accepted
  {
  }

  lemma RestoreKeepsInv(d: Device, l: Ledger, e: Event)
    requires Inv(d, l) && e.Restore?
    ensures Inv(Step(d, e), Book(d, l, e)) && Book(d, l, e).accepted == l.accepted
  {
  }

  lemma PersistKeepsInv(d: Device, l: Ledger, e: Event)
    requires Inv(d, l) && e.Persist?
    ensures Inv(Step(d, e), Book(d, l, e)) && Book(d, l, e).accepted == l.accepted
  {
  }

  lemma WidthWriteKeepsInv(d: Device, l: Ledger, e: Event)
    requires Inv(d, l) && e.WidthWrite?
    ensures Inv(Step(d, e), Book(d, l, e)) && Book(d, l, e).accepted == l.accepted
  {
  }

  lemma StepKeepsInv(d: Device, l: Ledger, e: Event)
    requires Inv(d, l) && l.accepted < U64
    ensures Inv(Step(d, e), Book(d, l, e))
    ensures l.accepted <= Book(d, l, e).accepted <= l.accepted + 1
  {
    match e
    case Edge(_) => EdgeKeepsInv(d, l, e);
    case Sample => SampleKeepsInv(d, l);
    case Cut => PowerKeepsInv(d, l, e);
    case PowerUp(_, _) => PowerKeepsInv(d, l, e);
    case Restore(_, _, _, _) => RestoreKeepsInv(d, l, e);
    case Persist(_, _) => PersistKeepsInv(d, l, e);
    case WidthWrite(_, _) => WidthWriteKeepsInv(d, l, e);
  }

  lemma {:induction false} RunKeepsInv(d: Device, l: Ledger, t: seq<Event>)
    requires Inv(d, l) && l.accepted + |t| < U64
    ensures Inv(Run(d, t), Booked(d, l, t))
    ensures l.accepted <= Booked(d, l, t).accepted <= l.accepted + |t|
    decreases |t|
  {
    if t != [] {
      StepKeepsInv(d, l, t[0]);
      RunKeepsInv(Step(d, t[0]), Book(d, l, t[0]), t[1..]);
    }
  }

  lemma OffIsHealthy(d: Device, l: Ledger)
    requires d.phase.Off? && !d.flash.up && Balanced(l)
    requires l.volatile == l.durable == l.shelved == 0 == Recorded(d.flash)
    ensures HealthyInv(d, l)
  {
  }

  /** The two invariants hold of a new device, and hence after any run of it. */
  lemma FactoryIsHealthy()
    ensures HealthyInv(FACTORY, NO_PULSES)
  {
    assert AccumulatorTotal !in FACTORY.flash.records;
    OffIsHealthy(FACTORY, NO_PULSES);
  }

  /** Conservation over any run, from the factory or from any state a run reaches: power losses, failed mounts, failed
      and short reads, failed writes, erases and late samples included. Nothing is
      counted twice, and whatever is missing from the live total is accounted for. */
  lemma {:induction false} Conservation(f: Device, n: Ledger, t: seq<Event>)
    requires Inv(f, n) && n.accepted + |t| < U64
    ensures var d, l := Run(f, t), Booked(f, n, t);
            && (d.phase.Running? ==>
                  d.acc.total + l.unsampled + l.shelved + l.lost + l.forgotten + l.wrapped + l.erased
                  == l.accepted)
            && (!d.phase.Running? ==>
                  Recorded(d.flash) + l.unsampled + l.lost + l.forgotten + l.wrapped + l.erased
                  == l.accepted)
            && Balanced(l)
  {
    RunKeepsInv(f, n, t);
  }

  // ----- when nothing but volatile pulses is ever missing -----

  /** The first mount succeeds, the record reads back whole, and fewer than 2^32 pulses
      separate two samples. */
  predicate Healthy(l: Ledger, e: Event) {
    match e
    case PowerUp(m, _) => m.deviceReady && m.pageInfoOk && m.firstMountOk
    case Restore(_, _, _, fault) => fault.NoFault?
    case Sample => l.unsampled < U32
    case _ => true
  }

  ghost predicate HealthyRun(d: Device, l: Ledger, t: seq<Event>)
    decreases |t|
  {
    t == [] || (Healthy(l, t[0]) && HealthyRun(Step(d, t[0]), Book(d, l, t[0]), t[1..]))
  }

  ghost predicate HealthyInv(d: Device, l: Ledger) {
    && Inv(d, l)
    && (d.phase.Off? || d.flash.up)
    && (d.phase.Running? ==> l.shelved == 0)
    && (AccumulatorTotal !in d.flash.records ==> l.shelved == 0)
  }

  lemma HealthyStepKeeps(d: Device, l: Ledger, e: Event)
    requires HealthyInv(d, l) && Healthy(l, e) && l.accepted < U64
    ensures var d', l' := Step(d, e), Book(d, l, e);
            HealthyInv(d', l') && l'.forgotten == l.forgotten && l'.wrapped == l.wrapped
  {
    StepKeepsInv(d, l, e);
  }

  lemma {:induction false} HealthyRunKeeps(d: Device, l: Ledger, t: seq<Event>)
    requires HealthyInv(d, l) && HealthyRun(d, l, t) && l.accepted + |t| < U64
    ensures var d', l' := Run(d, t), Booked(d, l, t);
            HealthyInv(d', l') && l'.forgotten == l.forgotten && l'.wrapped == l.wrapped
    decreases |t|
  {
    if t != [] {
      HealthyStepKeeps(d, l, t[0]);
      StepKeepsInv(d, l, t[0]);
      HealthyRunKeeps(Step(d, t[0]), Book(d, l, t[0]), t[1..]);
    }
  }

  /** With healthy boots and timely samples, over any number of power cycles, the live
      total plus what the register still holds, plus the pulses caught in RAM by a
      power loss, plus what the user erased, is every pulse ever accepted. */
  lemma {:induction false} HealthyConservation(f: Device, n: Ledger, t: seq<Event>)
    requires HealthyInv(f, n) && n.forgotten == n.wrapped == 0
    requires n.accepted + |t| < U64 && HealthyRun(f, n, t)
    ensures var d, l := Run(f, t), Booked(f, n, t);
            d.phase.Running? ==> d.acc.total + l.unsampled + l.lost + l.erased == l.accepted
  {
    HealthyRunKeeps(f, n, t);
  }

  /** After the restore step the live total is the record exactly as far as the load
      returned it; a record that did not load is shelved in full. */
  lemma UnreadRecordIsShelved(d: Device, l: Ledger, e: Event)
    requires Inv(d, l) && d.phase.Booting? && e.Restore?
    ensures var d', l' := Step(d, e), Book(d, l, e);
            var loaded := Load(d'.flash, AccumulatorTotal, e.fault).Loaded?;
            && d'.acc.total == (if loaded then Recorded(d'.flash) else 0)
            && l'.shelved == (if loaded then 0 else Recorded(d'.flash))
  {
  }

  /** A shelved record survives until the first successful save of the same boot, which
      overwrites it. */
  lemma {:induction false} FateOfShelvedRecord(d: Device, l: Ledger, t: seq<Event>)
    requires Inv(d, l) && d.phase.Running? && NoCut(t) && l.accepted + |t| < U64
    ensures var l' := Booked(d, l, t);
            if SuccessfulSaves(d, t) == 0
            then l'.shelved == l.shelved && l'.durable == l.durable && l'.forgotten == l.forgotten
            else l'.shelved == 0 && l'.forgotten == l.forgotten + l.shelved
    decreases |t|
  {
    if t != [] {
      StepKeepsInv(d, l, t[0]);
      FateOfShelvedRecord(Step(d, t[0]), Book(d, l, t[0]), t[1..]);
    }
  }

  lemma {:induction false} RebootKeepsAccumulator(d: Device, l: Ledger, m: MountRun, width: ReadFault)
    requires Inv(d, l) && m.deviceReady && m.pageInfoOk && m.firstMountOk
    ensures var d1, l1 := Step(d, Cut), Book(d, l, Cut);
            var d2, l2 := Step(d1, PowerUp(m, width)), Book(d1, l1, PowerUp(m, width));
            && Inv(d2, l2) && d2.phase.Booting? && d2.flash.up
            && d2.flash.records == d.flash.records
            && (AccumulatorTotal in d.flash.records ==> l2.shelved == l.shelved + l.durable)
  {
  }

  lemma RestoreBringsBack(d: Device, l: Ledger, dt: nat, eraseOk: bool)
    requires Inv(d, l) && d.phase.Booting? && d.flash.up && AccumulatorTotal in d.flash.records
    ensures var r := Restore(dt, false, eraseOk, NoFault);
            && Step(d, r).acc.total == Recorded(d.flash)
            && Book(d, l, r).shelved == 0 && Book(d, l, r).durable == Recorded(d.flash)
  {
  }

  /** Without such a save, the next good boot brings the record back whole. */
  lemma {:induction false} ShelvedRecordReturns(d: Device, l: Ledger, t: seq<Event>,
                                                m: MountRun, width: ReadFault, dt: nat)
    requires Inv(d, l) && d.phase.Running? && NoCut(t) && l.accepted + |t| < U64
    requires SuccessfulSaves(d, t) == 0 && l.shelved > 0
    requires m.deviceReady && m.pageInfoOk && m.firstMountOk
    ensures var reboot := [Cut, PowerUp(m, width), Restore(dt, false, false, NoFault)];
            var d', l' := Run(Run(d, t), reboot), Booked(Run(d, t), Booked(d, l, t), reboot);
            d'.acc.total == Recorded(d.flash) == l'.durable && l'.shelved == 0
  {
    RunKeepsInv(d, l, t);
    FateOfShelvedRecord(d, l, t);
    var d0, l0 := Run(d, t), Booked(d, l, t);
    var up, restore := PowerUp(m, width), Restore(dt, false, false, NoFault);
    var d1, l1 := Step(d0, Cut), Book(d0, l0, Cut);
    var d2, l2 := Step(d1, up), Book(d1, l1, up);
    RebootKeepsAccumulator(d0, l0, m, width);
    RestoreBringsBack(d2, l2, dt, false);
    ThreeSteps(d0, l0, Cut, up, restore);
  }

  // ----- a record lost to a read error, from the factory on -----

  function AsEdges(x: seq<Gate.Event>): seq<Event> {
    if x == [] then [] else [Edge(x[0])] + AsEdges(x[1..])
  }

  function Gained(l: Ledger, n: int): Ledger {
    l.(accepted := l.accepted + n, unsampled := l.unsampled + n, volatile := l.volatile + n)
  }

  lemma {:induction false} EdgesReachGate(d: Device, l: Ledger, x: seq<Gate.Event>)
    requires !d.phase.Off?
    ensures Run(d, AsEdges(x)) == d.(gate := Gate.Run(d.gate, x))
    ensures Booked(d, l, AsEdges(x)) == Gained(l, Gate.Accepted(d.gate, x))
    decreases |x|
  {
    if x != [] {
      var t := AsEdges(x);
      assert t[0] == Edge(x[0]) && t[1..] == AsEdges(x[1..]);
      EdgesReachGate(Step(d, t[0]), Book(d, l, t[0]), x[1..]);
    }
  }

  lemma {:induction false} StoppedTicks(g: Gate.Gate, k: nat)
    requires !g.running
    ensures Gate.Run(g, Gate.Ticks(k)) == g && Gate.Accepted(g, Gate.Ticks(k)) == 0
    decreases k
  {
    if k > 0 {
      assert Gate.Ticks(k)[1..] == Gate.Ticks(k - 1);
      StoppedTicks(g, k - 1);
    }
  }

  /** The rest of a pulse at least as wide as the threshold. */
  lemma {:induction false} RunningTicks(g: Gate.Gate, k: nat)
    requires g.running && g.cnt < g.cc < U16 && g.cnt + k >= g.cc && g.counter + 1 < U32
    ensures Gate.Run(g, Gate.Ticks(k)) == Gate.Gate(false, g.cc, g.cc, g.counter + 1)
    ensures Gate.Accepted(g, Gate.Ticks(k)) == 1
    decreases k
  {
    assert Gate.Ticks(k)[0] == Gate.Tick && Gate.Ticks(k)[1..] == Gate.Ticks(k - 1);
    var h := Gate.Step(g, Gate.Tick);
    if g.cnt + 1 == g.cc {
      StoppedTicks(h, k - 1);
    } else {
      RunningTicks(h, k - 1);
    }
  }

  function Pulse(width: nat): seq<Gate.Event> { [Gate.Up] + Gate.Ticks(width) }

  lemma {:induction false} PulseFires(g: Gate.Gate, width: nat)
    requires 0 < g.cc < U16 && g.cc <= width && g.counter + 1 < U32
    ensures Gate.Run(g, Pulse(width)) == Gate.Gate(false, g.cc, g.cc, g.counter + 1)
    ensures Gate.Accepted(g, Pulse(width)) == 1
  {
    var x := Pulse(width);
    assert x[0] == Gate.Up && x[1..] == Gate.Ticks(width);
    RunningTicks(Gate.Step(g, Gate.Up), width);
  }

  /** A device that has nothing unsaved, over a threshold of a millisecond. */
  predicate Settled(d: Device, l: Ledger) {
    && d.phase.Running? && d.flash.up && d.gate.cc == 1000 && d.gate.counter == d.acc.lastHw < 10
    && d.acc.total == d.lastSavedTotal < 10 && d.lastSavedMs + PERSIST_INTERVAL_MS <= d.now
    && l.volatile == l.unsampled == 0
  }

  lemma SavesOnePulse(d: Device, l: Ledger)
    requires Settled(d.(gate := Gate.Gate(false, 0, 1000, d.acc.lastHw)), l.(volatile := 0, unsampled := 0))
    requires d.gate.counter == d.acc.lastHw + 1 && l.volatile == l.unsampled == 1
    ensures var d1, l1 := Step(d, Sample), Book(d, l, Sample);
            var r, m := Step(d1, Persist(0, true)), Book(d1, l1, Persist(0, true));
            && r.acc.total == d.acc.total + 1
            && r.flash == d.flash.(records := d.flash.records[AccumulatorTotal := r.acc.total])
            && m == l.(volatile := 0, unsampled := 0, durable := l.durable + 1, shelved := 0,
                       forgotten := l.forgotten + l.shelved)
  {
    assert (d.gate.counter - d.acc.lastHw) % U32 == 1 && l.unsampled / U32 * U32 == 0;
    assert Due(Step(d, Sample));
  }

  /** A pulse, a sample and a check. */
  function CountedPulse(width: nat): seq<Event> { AsEdges(Pulse(width)) + [Sample, Persist(0, true)] }

  lemma {:induction false} CountAndSave(d: Device, l: Ledger, width: nat) returns (r: Device, m: Ledger)
    requires Settled(d, l) && width >= 1000
    ensures r == Run(d, CountedPulse(width)) && m == Booked(d, l, CountedPulse(width))
    ensures r.acc.total == d.acc.total + 1
    ensures r.flash == d.flash.(records := d.flash.records[AccumulatorTotal := r.acc.total])
    ensures m == l.(accepted := l.accepted + 1, durable := l.durable + 1, shelved := 0,
                    forgotten := l.forgotten + l.shelved)
  {
    var x := Pulse(width);
    var pulse := AsEdges(x);
    PulseFires(d.gate, width);
    EdgesReachGate(d, l, x);
    RunInParts(d, l, pulse, [Sample, Persist(0, true)]);
    var d1, l1 := d.(gate := Gate.Gate(false, 1000, 1000, d.gate.counter + 1)), Gained(l, 1);
    SavesOnePulse(d1, l1);
    TwoSteps(d1, l1, Sample, Persist(0, true));
    r, m := Run(d, CountedPulse(width)), Booked(d, l, CountedPulse(width));
  }

  lemma {:induction false} RunInParts(d: Device, l: Ledger, a: seq<Event>, b: seq<Event>)
    ensures Run(d, a + b) == Run(Run(d, a), b)
    ensures Booked(d, l, a + b) == Booked(Run(d, a), Booked(d, l, a), b)
    decreases |a|
  {
    if a == [] {
      assert a + b == b;
    } else {
      assert (a + b)[1..] == a[1..] + b;
      RunInParts(Step(d, a[0]), Book(d, l, a[0]), a[1..], b);
    }
  }

  lemma {:induction false} TwoSteps(d: Device, l: Ledger, x: Event, y: Event)
    ensures Run(d, [x, y]) == Step(Step(d, x), y)
    ensures Booked(d, l, [x, y]) == Book(Step(d, x), Book(d, l, x), y)
  {
    var d1, l1 := Step(d, x), Book(d, l, x);
    var d2, l2 := Step(d1, y), Book(d1, l1, y);
    assert [x, y][1..] == [y] && [y][1..] == [];
    assert Run(d2, []) == d2 && Booked(d2, l2, []) == l2;
    assert Run(d1, [y]) == d2 && Booked(d1, l1, [y]) == l2;
  }

  predicate GoodMount(m: MountRun) { m.deviceReady && m.pageInfoOk && m.firstMountOk }

  /** Power-up and restore, with the given outcome of the total's load. */
  function BootWith(m: MountRun, fault: ReadFault): seq<Event> {
    [PowerUp(m, NoFault), Restore(0, false, false, fault)]
  }

  lemma {:induction false} FirstBoot(d: Device, l: Ledger, m: MountRun)
    requires d.phase.Off? && d.flash == Flash(false, map[]) && GoodMount(m)
    requires l.volatile == l.unsampled == l.shelved == 0
    ensures var r, k := Run(d, BootWith(m, NoFault)), Booked(d, l, BootWith(m, NoFault));
            && Settled(r, k) && r.acc.total == 0 && r.flash.records == map[] && k == l
  {
    TwoSteps(d, l, PowerUp(m, NoFault), Restore(0, false, false, NoFault));
    assert AccumulatorTotal !in d.flash.records;
  }

  lemma {:induction false} RebootWithoutRecord(d: Device, l: Ledger, m: MountRun)
    requires d.flash.up && PulseMinWidthUs !in d.flash.records && AccumulatorTotal in d.flash.records
    requires GoodMount(m) && l.volatile == l.unsampled == l.shelved == 0
    ensures var reboot := [Cut] + BootWith(m, HardError);
            var r, k := Run(d, reboot), Booked(d, l, reboot);
            Settled(r, k) && r.acc.total == 0 && k == l.(durable := 0, shelved := l.durable)
  {
    var up, restore := PowerUp(m, NoFault), Restore(0, false, false, HardError);
    assert [Cut] + BootWith(m, HardError) == [Cut, up, restore];
    ThreeSteps(d, l, Cut, up, restore);
  }

  lemma {:induction false} FourParts(d: Device, l: Ledger, a: seq<Event>, b: seq<Event>, c: seq<Event>, e: seq<Event>)
    ensures Run(d, a + b + c + e) == Run(Run(Run(Run(d, a), b), c), e)
    ensures Booked(d, l, a + b + c + e)
            == Booked(Run(Run(Run(d, a), b), c), Booked(Run(Run(d, a), b), Booked(Run(d, a), Booked(d, l, a), b), c), e)
  {
    RunInParts(d, l, a + b + c, e);
    RunInParts(d, l, a + b, c);
    RunInParts(d, l, a, b);
  }

  function ForgettingRun(m: MountRun, width: nat): seq<Event> {
    BootWith(m, NoFault) + CountedPulse(width) + ([Cut] + BootWith(m, HardError)) + CountedPulse(width)
  }

  lemma {:induction false} ForgottenOnce(d: Device, l: Ledger, m: MountRun, width: nat)
    requires d.phase.Off? && d.flash == Flash(false, map[]) && GoodMount(m) && width >= 1000
    requires l.volatile == l.unsampled == l.shelved == 0
    ensures var r, k := Run(d, ForgettingRun(m, width)), Booked(d, l, ForgettingRun(m, width));
            && r.acc.total == 1 && Recorded(r.flash) == 1
            && k.accepted == l.accepted + 2 && k.forgotten == l.forgotten + l.durable + 1
  {
    var boot, pulse, reboot := BootWith(m, NoFault), CountedPulse(width), [Cut] + BootWith(m, HardError);
    FourParts(d, l, boot, pulse, reboot, pulse);
    FirstBoot(d, l, m);
    var d1, l1 := Run(d, boot), Booked(d, l, boot);
    var d2, l2 := CountAndSave(d1, l1, width);
    RebootWithoutRecord(d2, l2, m);
    var d3, l3 := Run(d2, reboot), Booked(d2, l2, reboot);
    var d4, l4 := CountAndSave(d3, l3, width);
  }

  /** Counted, saved, and gone: a new device counts and saves a pulse, loses power, fails to
      read its record at the next boot, counts and saves another. Two pulses were accepted,
      the total is 1, and the record of the first is overwritten. */
  lemma {:induction false} RecordCanBeForgotten(m: MountRun, width: nat)
    requires GoodMount(m) && width >= 1000
    ensures var t := ForgettingRun(m, width);
            && Run(FACTORY, t).acc.total == 1 && Recorded(Run(FACTORY, t).flash) == 1
            && Booked(FACTORY, NO_PULSES, t).accepted == 2 && Booked(FACTORY, NO_PULSES, t).forgotten == 1
  {
    ForgottenOnce(FACTORY, NO_PULSES, m, width);
  }

  lemma {:induction false} ThreeSteps(d: Device, l: Ledger, x: Event, y: Event, z: Event)
    ensures Run(d, [x, y, z]) == Step(Step(Step(d, x), y), z)
    ensures var d1, l1 := Step(d, x), Book(d, l, x);
            Booked(d, l, [x, y, z]) == Book(Step(d1, y), Book(d1, l1, y), z)
  {
    var d1, l1 := Step(d, x), Book(d, l, x);
    var d2, l2 := Step(d1, y), Book(d1, l1, y);
    var d3, l3 := Step(d2, z), Book(d2, l2, z);
    assert [x, y, z][1..] == [y, z] && [y, z][1..] == [z] && [z][1..] == [];
    assert Run(d3, []) == d3 && Booked(d3, l3, []) == l3;
    assert Run(d2, [z]) == d3 && Booked(d2, l2, [z]) == l3;
    assert Run(d1, [y, z]) == d3 && Booked(d1, l1, [y, z]) == l3;
  }

  // ----- from raw edges to the published total -----

  predicate NoCut(t: seq<Event>) {
    forall i | 0 <= i < |t| :: !t[i].Cut?
  }

  /** What the event is to the gate: an edge or a microsecond whenever there is power, and a
      threshold in range that a coordinator writes to a running device. */
  function AtGate(p: Phase, e: Event): seq<Gate.Event> {
    if e.Edge? && !p.Off? then [e.e]
    else if e.WidthWrite? && p.Running? && 100 <= e.us <= 10000 then [Gate.Retune(e.us)]
    else []
  }

  /** One boot: the threshold programmed at power-up, and all the gate sees until power is
      lost, pulses during the boot-hold and threshold writes included. */
  datatype Session = Session(cc: nat, trace: seq<Gate.Event>)

  /** The boots of a run, the one under way first. */
  function Sessions(d: Device, t: seq<Event>, current: Session): (r: seq<Session>)
    ensures r != []
    decreases |t|
  {
    if t == [] then [current]
    else
      var d' := Step(d, t[0]);
      if d.phase.Off? && t[0].PowerUp? then [current] + Sessions(d', t[1..], Session(d'.gate.cc, []))
      else Sessions(d', t[1..], current.(trace := current.trace + AtGate(d.phase, t[0])))
  }

  function Counted(b: seq<Session>): nat {
    if b == [] then 0 else Gate.CountedStarts(b[0].trace, b[0].cc) + Counted(b[1..])
  }

  /** Start edges that qualify under the threshold in force, summed over boots. */
  function Qualifying(b: seq<Session>): nat {
    if b == [] then 0 else Gate.QualifyingStarts(b[0].trace, b[0].cc) + Qualifying(b[1..])
  }

  function ThresholdWrites(b: seq<Session>): nat {
    if b == [] then 0 else Gate.Writes(b[0].trace) + ThresholdWrites(b[1..])
  }

  function GateAtPowerUp(cc: nat): Gate.Gate { Gate.Gate(false, 0, cc, 0) }

  /** The gate is where the current boot's trace has brought it. */
  predicate Tracks(d: Device, s: Session) {
    d.phase.Off? || d.gate == Gate.Run(GateAtPowerUp(s.cc), s.trace)
  }

  lemma {:induction false} GateSees(d: Device, l: Ledger, e: Event)
    requires !(d.phase.Off? && e.PowerUp?)
    ensures d.phase.Off? ==>
              Step(d, e).phase.Off? && Book(d, l, e).accepted == l.accepted && AtGate(d.phase, e) == []
    ensures !d.phase.Off? && !e.Cut? ==> Step(d, e).gate == Gate.Run(d.gate, AtGate(d.phase, e))
    ensures Book(d, l, e).accepted
            == l.accepted + (if d.phase.Off? then 0 else Gate.Accepted(d.gate, AtGate(d.phase, e)))
  {
    var es := AtGate(d.phase, e);
    if es != [] {
      assert es[1..] == [];
      var g := Gate.Step(d.gate, es[0]);
      assert Gate.Run(g, []) == g && Gate.Accepted(g, []) == 0;
    } else {
      assert Gate.Run(d.gate, es) == d.gate && Gate.Accepted(d.gate, es) == 0;
    }
  }

  lemma {:induction false} SessionGrows(d: Device, l: Ledger, e: Event, s: Session, s': Session)
    requires Tracks(d, s) && !(d.phase.Off? && e.PowerUp?)
    requires s' == s.(trace := s.trace + AtGate(d.phase, e))
    ensures Tracks(Step(d, e), s')
    ensures Book(d, l, e).accepted - l.accepted
            == Gate.CountedStarts(s'.trace, s'.cc) - Gate.CountedStarts(s.trace, s.cc)
  {
    var g := GateAtPowerUp(s.cc);
    GateSees(d, l, e);
    if d.phase.Off? {
      assert s' == s;
    } else {
      Gate.AcceptedInParts(g, s.trace, AtGate(d.phase, e));
      Gate.AcceptsByPulse(g, s.trace);
      Gate.AcceptsByPulse(g, s'.trace);
    }
  }

  /** Every accepted pulse belongs to one start edge of one boot. */
  lemma {:induction false} AcceptedIsCounted(d: Device, l: Ledger, t: seq<Event>, s: Session)
    requires Tracks(d, s)
    ensures Booked(d, l, t).accepted + Gate.CountedStarts(s.trace, s.cc)
            == l.accepted + Counted(Sessions(d, t, s))
    decreases |t|
  {
    if t == [] {
      assert Counted([s]) == Gate.CountedStarts(s.trace, s.cc) + Counted([s][1..]);
    } else {
      var e := t[0];
      var d', l' := Step(d, e), Book(d, l, e);
      if d.phase.Off? && e.PowerUp? {
        var fresh' := Session(d'.gate.cc, []);
        AcceptedIsCounted(d', l', t[1..], fresh');
        var rest := Sessions(d', t[1..], fresh');
        assert ([s] + rest)[1..] == rest;
      } else {
        var s' := s.(trace := s.trace + AtGate(d.phase, e));
        SessionGrows(d, l, e, s, s');
        AcceptedIsCounted(d', l', t[1..], s');
      }
    }
  }

  /** Raw edges are edges and ticks; thresholds change by coordinator writes only. */
  predicate RawEdges(t: seq<Event>) {
    forall e | e in t :: e.Edge? ==> !e.e.Retune?
  }

  predicate Tuned(s: Session) { 0 < s.cc < U16 && Gate.WritesInRange(s.trace) }

  lemma {:induction false} SessionsAreTuned(d: Device, t: seq<Event>, s: Session)
    requires RawEdges(t) && Tuned(s)
    ensures forall b | b in Sessions(d, t, s) :: Tuned(b)
    decreases |t|
  {
    if t != [] {
      assert t[0] in t;
      var d' := Step(d, t[0]);
      if d.phase.Off? && t[0].PowerUp? {
        SessionsAreTuned(d', t[1..], Session(d'.gate.cc, []));
      } else {
        SessionsAreTuned(d', t[1..], s.(trace := s.trace + AtGate(d.phase, t[0])));
      }
    }
  }

  lemma {:induction false} CountedIsQualifying(b: seq<Session>)
    requires forall s | s in b :: Tuned(s)
    ensures Qualifying(b) - ThresholdWrites(b) <= Counted(b) <= Qualifying(b) + ThresholdWrites(b)
  {
    if b != [] {
      assert b[0] in b;
      Gate.WritesMisjudgeOnePulseEach(GateAtPowerUp(b[0].cc), b[0].trace);
      CountedIsQualifying(b[1..]);
    }
  }

  /** End to end, over any number of boots and threshold writes, with healthy mounts and
      loads: the live total, with the pulses the register still holds, those caught in RAM
      by power losses and those the user erased, is the number of start edges on the raw
      waveforms of all boots that their stretch of the waveform lets through. It differs
      from the number that qualify under the threshold in force by at most one per
      threshold write, and without writes not at all. */
  lemma {:induction false} EndToEnd(d: Device, l: Ledger, t: seq<Event>)
    requires HealthyInv(d, l) && HealthyRun(d, l, t) && l.accepted + |t| < U64
    requires d.phase.Off? && l.forgotten == l.wrapped == 0 && RawEdges(t)
    ensures var d', l' := Run(d, t), Booked(d, l, t);
            var b := Sessions(d, t, Session(Calibration.DEFAULT_MIN_WIDTH_US, []));
            d'.phase.Running? ==>
              var found := d'.acc.total + l'.unsampled + l'.lost + l'.erased - l.accepted;
              && found == Counted(b)
              && Qualifying(b) - ThresholdWrites(b) <= found <= Qualifying(b) + ThresholdWrites(b)
  {
    var s := Session(Calibration.DEFAULT_MIN_WIDTH_US, []);
    HealthyConservation(d, l, t);
    AcceptedIsCounted(d, l, t, s);
    SessionsAreTuned(d, t, s);
    CountedIsQualifying(Sessions(d, t, s));
  }

  /** Every power-up clears both timers, programs a threshold in range, the stored one if
      it can be read, and leaves the records alone. */
  lemma PowerUpIsFresh(d: Device, l: Ledger, m: MountRun, fault: ReadFault)
    requires HealthyInv(d, l) && d.phase.Off? && Healthy(l, PowerUp(m, fault))
    ensures var e := PowerUp(m, fault);
            var d', l' := Step(d, e), Book(d, l, e);
            && HealthyInv(d', l') && d'.phase.Booting? && l'.unsampled == 0
            && !d'.gate.running && Gate.Armed(d'.gate) && Calibration.IsValidMinWidthUs(d'.gate.cc)
            && Recorded(d'.flash) == Recorded(d.flash)
            && (fault.NoFault? && PulseMinWidthUs in d.flash.records
                && 100 <= d.flash.records[PulseMinWidthUs] <= 10000
                ==> d'.gate.cc == d.flash.records[PulseMinWidthUs])
  {
  }

  // ----- the threshold, by the events alone -----

  function PhaseAfter(p: Phase, e: Event): Phase {
    match e
    case Cut => Off
    case PowerUp(_, _) => if p.Off? then Booting else p
    case Restore(_, _, _, _) => if p.Booting? then Running else p
    case _ => p
  }

  /** Whether the store is up, which only a power-up decides. */
  function StoreUpAfter(p: Phase, up: bool, e: Event): bool {
    match e
    case Cut => false
    case PowerUp(m, _) =>
      if p.Off? then m.deviceReady && m.pageInfoOk && (m.firstMountOk || (m.clearOk && m.secondMountOk)) else up
    case _ => up
  }

  /** The threshold a coordinator's write programs, if any. */
  function Written(p: Phase, e: Event): Option<nat> {
    if e.WidthWrite? && p.Running? && 100 <= e.us <= 10000 then Some(e.us) else None
  }

  function RecordAfter(p: Phase, up: bool, stored: Option<nat>, e: Event): Option<nat> {
    if Written(p, e).Some? && up && e.writeOk then Written(p, e)
    else if p.Off? && e.PowerUp? && e.mount.deviceReady && e.mount.pageInfoOk
            && !e.mount.firstMountOk && e.mount.clearOk then None
    else stored
  }

  function ThresholdAfter(p: Phase, up: bool, stored: Option<nat>, cc: nat, e: Event): nat {
    if Written(p, e).Some? then Written(p, e).value
    else if !p.Off? || !e.PowerUp? then cc
    else
      var found := RecordAfter(p, up, stored, e);
      if StoreUpAfter(p, up, e) && e.widthFault.NoFault? && found.Some? && 100 <= found.value <= 10000
      then found.value else 1000
  }

  /** The width record: the last value whose write went through, unless it was wiped since. */
  function WidthRecord(p: Phase, up: bool, stored: Option<nat>, t: seq<Event>): Option<nat>
    decreases |t|
  {
    if t == [] then stored
    else WidthRecord(PhaseAfter(p, t[0]), StoreUpAfter(p, up, t[0]), RecordAfter(p, up, stored, t[0]), t[1..])
  }

  /** The threshold of the boot under way: the last one written, else the one programmed at
      power-up, which is the record if it can be read and is in range. */
  function Threshold(p: Phase, up: bool, stored: Option<nat>, cc: nat, t: seq<Event>): nat
    decreases |t|
  {
    if t == [] then cc
    else Threshold(PhaseAfter(p, t[0]), StoreUpAfter(p, up, t[0]), RecordAfter(p, up, stored, t[0]),
                   ThresholdAfter(p, up, stored, cc, t[0]), t[1..])
  }

  function StoredWidth(f: Flash): Option<nat> {
    if PulseMinWidthUs in f.records then Some(f.records[PulseMinWidthUs]) else None
  }

  predicate StoreDownWhenOff(d: Device) { d.phase.Off? ==> !d.flash.up }

  lemma ThresholdStep(d: Device, e: Event, cc: nat)
    requires StoreDownWhenOff(d) && (d.phase.Off? || d.gate.cc == cc) && (e.Edge? ==> !e.e.Retune?)
    ensures var d', p, up, stored := Step(d, e), d.phase, d.flash.up, StoredWidth(d.flash);
            && StoreDownWhenOff(d') && d'.phase == PhaseAfter(p, e) && d'.flash.up == StoreUpAfter(p, up, e)
            && StoredWidth(d'.flash) == RecordAfter(p, up, stored, e)
            && (d'.phase.Off? || d'.gate.cc == ThresholdAfter(p, up, stored, cc, e))
  {
  }

  /** Over any run with any failures, coordinator writes are heard: while there is power the
      gate's threshold is the last one in 100..10000 written to the running device since
      power-up, else the one programmed then; and the record is the last of them whose
      flash write went through. */
  lemma {:induction false} ThresholdFollowsWrites(d: Device, t: seq<Event>, cc: nat)
    requires StoreDownWhenOff(d) && (d.phase.Off? || d.gate.cc == cc) && RawEdges(t)
    ensures var r, stored := Run(d, t), StoredWidth(d.flash);
            && StoredWidth(r.flash) == WidthRecord(d.phase, d.flash.up, stored, t)
            && (r.phase.Off? || r.gate.cc == Threshold(d.phase, d.flash.up, stored, cc, t))
    decreases |t|
  {
    if t != [] {
      assert t[0] in t;
      ThresholdStep(d, t[0], cc);
      ThresholdFollowsWrites(Step(d, t[0]), t[1..],
                             ThresholdAfter(d.phase, d.flash.up, StoredWidth(d.flash), cc, t[0]));
    }
  }

  // ----- flash wear -----

  /** Saves triggered by the pulse arm of the policy, and those triggered by time alone. */
  predicate PulseArm(d: Device) { d.acc.total >= d.lastSavedTotal + PERSIST_MAX_PULSE_DELTA }

  function PulseSaves(d: Device, t: seq<Event>): nat
    decreases |t|
  {
    if t == [] then 0
    else (if Saves(d, t[0]) && PulseArm(d) then 1 else 0) + PulseSaves(Step(d, t[0]), t[1..])
  }

  function TimerSaves(d: Device, t: seq<Event>): nat
    decreases |t|
  {
    if t == [] then 0
    else (if Saves(d, t[0]) && !PulseArm(d) then 1 else 0) + TimerSaves(Step(d, t[0]), t[1..])
  }

  function SuccessfulSaves(d: Device, t: seq<Event>): nat
    decreases |t|
  {
    if t == [] then 0
    else (if Saves(d, t[0]) then 1 else 0) + SuccessfulSaves(Step(d, t[0]), t[1..])
  }

  /** Boots that got as far as restoring a total. */
  function Restores(d: Device, t: seq<Event>): nat
    decreases |t|
  {
    if t == [] then 0
    else (if d.phase.Booting? && t[0].Restore? then 1 else 0) + Restores(Step(d, t[0]), t[1..])
  }

  /** Milliseconds the main loop has run, over all boots. */
  function RunningMs(d: Device, t: seq<Event>): nat
    decreases |t|
  {
    if t == [] then 0
    else (if d.phase.Running? && t[0].Persist? then t[0].dt else 0) + RunningMs(Step(d, t[0]), t[1..])
  }

  /** What the record is behind by, in pulses and in time. */
  function UnsavedPulses(d: Device): int { if d.phase.Running? then d.acc.total - d.lastSavedTotal else 0 }

  function UnsavedMs(d: Device): int { if d.phase.Running? then d.now - d.lastSavedMs else 0 }

  lemma OnePulseSavePaid(d: Device, l: Ledger, e: Event)
    requires Inv(d, l) && l.accepted < U64
    ensures var d', l' := Step(d, e), Book(d, l, e);
            && UnsavedPulses(d') >= 0 && l'.unsampled >= 0
            && (if Saves(d, e) && PulseArm(d) then 100 else 0) + UnsavedPulses(d') + l'.unsampled
               <= UnsavedPulses(d) + l.unsampled + (l'.accepted - l.accepted)
  {
    StepKeepsInv(d, l, e);
  }

  lemma OneTimerSavePaid(d: Device, l: Ledger, e: Event)
    requires Inv(d, l) && l.accepted < U64
    ensures var d' := Step(d, e);
            && UnsavedMs(d') >= 0
            && (if Saves(d, e) && !PulseArm(d) then 300000 else 0) + UnsavedMs(d')
               <= UnsavedMs(d) + (if d.phase.Running? && e.Persist? then e.dt else 0)
                  + (if d.phase.Booting? && e.Restore? then 300000 else 0)
  {
    StepKeepsInv(d, l, e);
  }

  /** Over any run, power losses and failures included: every save by the pulse arm is paid
      for with 100 accepted pulses, every other with 300000 ms of running or with a boot. */
  lemma {:induction false} SavesArePaidFor(d: Device, l: Ledger, t: seq<Event>)
    requires Inv(d, l) && l.accepted + |t| < U64
    ensures 100 * PulseSaves(d, t) <= UnsavedPulses(d) + l.unsampled + (Booked(d, l, t).accepted - l.accepted)
    ensures 300000 * TimerSaves(d, t) <= UnsavedMs(d) + RunningMs(d, t) + 300000 * Restores(d, t)
    decreases |t|
  {
    if t == [] {
      assert Booked(d, l, t) == l;
    } else {
      OnePulseSavePaid(d, l, t[0]);
      OneTimerSavePaid(d, l, t[0]);
      StepKeepsInv(d, l, t[0]);
      SavesArePaidFor(Step(d, t[0]), Book(d, l, t[0]), t[1..]);
    }
  }

  predicate Erases(d: Device, e: Event) {
    e.Restore? && d.phase.Booting? && e.held && SaveSucceeds(d.flash, e.eraseOk)
  }

  function ErasesAlong(d: Device, t: seq<Event>): nat
    decreases |t|
  {
    if t == [] then 0 else (if Erases(d, t[0]) then 1 else 0) + ErasesAlong(Step(d, t[0]), t[1..])
  }

  /** Writes of the accumulator record, those of boot-hold erases included. */
  function RecordWrites(d: Device, t: seq<Event>): nat
    decreases |t|
  {
    if t == [] then 0
    else (if Saves(d, t[0]) || Erases(d, t[0]) then 1 else 0) + RecordWrites(Step(d, t[0]), t[1..])
  }

  lemma {:induction false} WritesAreSavesAndErases(d: Device, t: seq<Event>)
    ensures RecordWrites(d, t) == PulseSaves(d, t) + TimerSaves(d, t) + ErasesAlong(d, t)
    decreases |t|
  {
    if t != [] {
      WritesAreSavesAndErases(Step(d, t[0]), t[1..]);
    }
  }

  /** Flash wear over any number of power cycles, hence over the life of a device, whatever
      fails in between: writes of the record <= boots + erases + pulses accepted / 100
      + ms of running / 300000. */
  lemma {:induction false} FlashWearBound(d: Device, l: Ledger, t: seq<Event>)
    requires Inv(d, l) && d.phase.Off? && l.accepted + |t| < U64
    ensures var accepted := Booked(d, l, t).accepted - l.accepted;
            && accepted >= 0
            && RecordWrites(d, t) <= Restores(d, t) + ErasesAlong(d, t)
                                     + accepted / 100
                                     + RunningMs(d, t) / 300000
  {
    RunKeepsInv(d, l, t);
    SavesArePaidFor(d, l, t);
    WritesAreSavesAndErases(d, t);
    Amortised(PulseSaves(d, t), TimerSaves(d, t), Restores(d, t), Booked(d, l, t).accepted - l.accepted,
              RunningMs(d, t), PERSIST_MAX_PULSE_DELTA, PERSIST_INTERVAL_MS);
  }

  lemma Amortised(p: nat, q: nat, r: nat, x: nat, y: nat, k: nat, m: nat)
    requires k > 0 && m > 0 && k * p <= x && m * q <= y + m * r
    ensures p + q <= r + x / k + y / m
  {
    QuotientBound(p, x, k);
    if q > r {
      assert m * q == m * (q - r) + m * r;
      QuotientBound(q - r, y, m);
    }
  }

  lemma QuotientBound(n: nat, x: nat, k: nat)
    requires k > 0 && k * n <= x
    ensures n <= x / k
  {
    var q := x / k;
    assert x < k * (q + 1);
    ScaledOrder(q + 1, n, k);
  }

  // ----- crash loss -----

  /** After a check whose write, if one was due, went through: the unsaved part is under
      100 pulses, and is either empty or younger than the interval. */
  lemma CheckedIsNearlySaved(d: Device, l: Ledger, e: Event)
    requires Inv(d, l) && d.phase.Running? && e.Persist? && !SaveFails(d, e)
    ensures var d', l' := Step(d, e), Book(d, l, e);
            && Inv(d', l')
            && l'.volatile - l'.unsampled == d'.acc.total - d'.lastSavedTotal < 100
            && (d'.acc.total == d'.lastSavedTotal || d'.now - d'.lastSavedMs < 300000)
            && Recorded(d'.flash) == d'.lastSavedTotal + l'.shelved
  {
  }

  lemma {:induction false} VolatileGrowsByPulses(d: Device, l: Ledger, t: seq<Event>)
    requires Inv(d, l) && d.phase.Running? && NoCut(t) && l.accepted + |t| < U64
    ensures var l' := Booked(d, l, t);
            l'.volatile - l'.accepted <= l.volatile - l.accepted && l'.lost == l.lost
            && Run(d, t).phase.Running?
    decreases |t|
  {
    if t != [] {
      StepKeepsInv(d, l, t[0]);
      VolatileGrowsByPulses(Step(d, t[0]), Book(d, l, t[0]), t[1..]);
    }
  }

  /** A power loss at any later point costs fewer than 100 pulses, plus those the gate
      let through after the register was last read before that check. */
  lemma {:induction false} CrashLossBound(d: Device, l: Ledger, e: Event, t: seq<Event>)
    requires Inv(d, l) && d.phase.Running? && e.Persist? && !SaveFails(d, e)
    requires NoCut(t) && l.accepted + 1 + |t| < U64
    ensures var d1, l1 := Step(d, e), Book(d, l, e);
            var d2, l2 := Run(d1, t), Booked(d1, l1, t);
            Book(d2, l2, Cut).lost - l.lost
            < 100 + l1.unsampled + (l2.accepted - l1.accepted)
  {
    CheckedIsNearlySaved(d, l, e);
    VolatileGrowsByPulses(Step(d, e), Book(d, l, e), t);
  }

  predicate NoSuccessfulSave(d: Device, t: seq<Event>) {
    SuccessfulSaves(d, t) == 0
  }

  lemma {:induction false} UnsavedKeepsReference(d: Device, l: Ledger, t: seq<Event>)
    requires d.phase.Running? && NoCut(t) && Inv(d, l) && l.accepted + |t| < U64
    requires NoSuccessfulSave(d, t)
    ensures var d' := Run(d, t);
            && d'.phase.Running? && Inv(d', Booked(d, l, t))
            && d'.lastSavedTotal == d.lastSavedTotal && d'.lastSavedMs == d.lastSavedMs
            && d'.acc.total >= d.acc.total && d'.now >= d.now
    decreases |t|
  {
    if t != [] {
      StepKeepsInv(d, l, t[0]);
      UnsavedKeepsReference(Step(d, t[0]), Book(d, l, t[0]), t[1..]);
    }
  }

  /** A save that is due stays due until one succeeds, whatever happens meanwhile. */
  lemma {:induction false} DueUntilSaved(d: Device, l: Ledger, t: seq<Event>)
    requires d.phase.Running? && NoCut(t) && Inv(d, l) && l.accepted + |t| < U64
    requires Due(d) && NoSuccessfulSave(d, t)
    ensures Due(Run(d, t))
  {
    UnsavedKeepsReference(d, l, t);
  }

  /** Until the first save after boot, a write is due exactly when the total has changed:
      the reference time is backdated by the whole interval. */
  lemma {:induction false} FirstChangeIsDue(b: Device, l: Ledger, r: Event, t: seq<Event>)
    requires b.phase.Booting? && r.Restore? && NoCut(t)
    requires Inv(b, l) && l.accepted + 1 + |t| < U64
    requires NoSuccessfulSave(Step(b, r), t)
    ensures var d := Step(b, r);
            Due(Run(d, t)) <==> Run(d, t).acc.total != d.acc.total
  {
    StepKeepsInv(b, l, r);
    UnsavedKeepsReference(Step(b, r), Book(b, l, r), t);
  }
}
