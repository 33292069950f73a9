/** main() of main.c as it runs: the boot sequence and one iteration of the sample loop,
    over the timers, the accumulator, the store and the publisher. Each method is proved
    to take the step the machines of `Meter` and `Publication` describe. */
module MainLoop {
  import opened Words
  import opened NvsStore
  import opened PersistPolicy
  import Accumulator = PulseAccumulator
  import Gate = PulseGate
  import Calibration
  import Meter
  import Publication

  const BOOT_ERASE_HOLD_MS: nat := 3000
  const BOOT_ERASE_POLL_MS: nat := 10

  /** The button is read as pressed at every poll before the threshold. */
  predicate HeldThroughout(pressed: seq<bool>, thresholdMs: nat) {
    forall i | 0 <= i < |pressed| && i * 10 < thresholdMs :: pressed[i]
  }

  /** boot_button_held; `pressed` is what successive reads of the pin return. */
  method BootButtonHeld(pressed: seq<bool>, thresholdMs: nat) returns (held: bool, elapsed: nat)
    requires |pressed| * BOOT_ERASE_POLL_MS >= thresholdMs
    ensures held <==> HeldThroughout(pressed, thresholdMs)
    ensures held ==> thresholdMs <= elapsed < thresholdMs + 10
    ensures !held ==> exists i | 0 <= i < |pressed| :: !pressed[i] && elapsed == i * 10 < thresholdMs
  {
    elapsed := 0;
    ghost var polls := 0;
    while elapsed < thresholdMs
      invariant elapsed == polls * BOOT_ERASE_POLL_MS && polls <= |pressed|
      invariant elapsed < thresholdMs + BOOT_ERASE_POLL_MS
      invariant forall i | 0 <= i < polls :: pressed[i]
    {
      if !pressed[elapsed / BOOT_ERASE_POLL_MS] {
        return false, elapsed;
      }
      elapsed := elapsed + BOOT_ERASE_POLL_MS;
      polls := polls + 1;
    }
    held := true;
  }

  class Firmware {
    const timers: Gate.Timers
    const acc: Accumulator.Accumulator
    const nvs: Store
    const publisher: Publication.Publisher
    var phase: Meter.Phase
    var lastSavedTotal: nat
    var lastSavedMs: int
    var uptime: nat

    function State(): Meter.Device
      reads this, timers, acc, nvs
    {
      Meter.Device(phase, timers.State(), acc.State(), lastSavedTotal, lastSavedMs, uptime, nvs.State())
    }

    function Published(): Publication.Pub
      reads this, acc, publisher, publisher.heartbeat
    {
      publisher.State(acc.total, None)
    }

    /** Power-up: nvs_store_init before hw_pulse_counter_init, which reads its threshold
        from the store. */
    constructor (contents: map<Slot, nat>, mount: MountRun, widthFault: ReadFault)
      ensures State() == Meter.Step(Meter.FACTORY.(flash := Flash(false, contents)),
                                    Meter.PowerUp(mount, widthFault))
      ensures !publisher.registered && publisher.queue == [] && !publisher.dropped && publisher.frames == []
      ensures publisher.heartbeat.State() == Publication.ReportGate.Gate(Publication.REPORT_PULSE_HEARTBEAT, 0)
      ensures fresh(timers) && fresh(acc) && fresh(nvs) && fresh(publisher) && fresh(publisher.heartbeat)
    {
      var store := new Store(contents);
      var _ := store.Init(mount);
      var width := store.LoadRecord(PulseMinWidthUs, widthFault);
      timers := new Gate.Timers(Calibration.EffectiveMinWidthUs(width));
      acc := new Accumulator.Accumulator();
      nvs := store;
      publisher := new Publication.Publisher();
      phase, lastSavedTotal, lastSavedMs, uptime := Meter.Booting, 0, 0, 0;
    }

    /** From the accumulator's initialisation to the restored total. */
    method RestoreTotal(dt: nat, pressed: seq<bool>, eraseOk: bool, fault: ReadFault)
      requires phase.Booting? && acc.State() == Accumulator.Acc(0, 0)
      requires |pressed| >= 300
      modifies this, acc, nvs
      ensures var held := forall i | 0 <= i < 300 :: pressed[i];
              State() == Meter.Step(old(State()), Meter.Restore(dt, held, eraseOk, fault))
    {
      uptime := uptime + dt;
      lastSavedTotal := 0;
      lastSavedMs := uptime - Meter.PERSIST_INTERVAL_MS;
      if nvs.initialized {
        var held, _ := BootButtonHeld(pressed, BOOT_ERASE_HOLD_MS);
        if held {
          var _ := nvs.SaveRecord(AccumulatorTotal, 0, eraseOk);
        }
        var loaded := nvs.LoadRecord(AccumulatorTotal, fault);
        if loaded.Loaded? {
          acc.RestoreTo(loaded.value);
          lastSavedTotal := loaded.value;
        }
      }
      phase := Meter.Running;
    }

    /** zigbee_app_init and the first publication, of the total just restored. */
    method StartPublishing(queued: bool)
      requires publisher.queue == [] && !publisher.dropped && publisher.frames == []
      requires publisher.heartbeat.State()
               == Publication.ReportGate.Gate(Publication.REPORT_PULSE_HEARTBEAT, 0)
      modifies publisher
      ensures Published() == Publication.Start(acc.total, queued)
    {
      publisher.Begin(acc.total, queued);
    }

    /** metering_report_work_handler, uninterrupted. */
    method ReportTick(queued: bool)
      modifies publisher
      ensures Published() == Publication.Run(old(Published()),
                                             [Publication.ReportRead, Publication.ReportStore(queued)])
    {
      var total := acc.total;
      publisher.Publish(total, Publication.WriteAndReport, queued);
      ghost var before := old(Published());
      ghost var read := Publication.Step(before, Publication.ReportRead);
      ghost var stored := Publication.Step(read, Publication.ReportStore(queued));
      assert Publication.Run(before, [Publication.ReportRead, Publication.ReportStore(queued)])
        == Publication.Run(read, [Publication.ReportStore(queued)]) == Publication.Run(stored, []);
    }

    /** One pass of the main loop: sample, publish a changed total, persist if due. */
    method Iterate(dt: nat, writeOk: bool, queued: bool)
      requires phase.Running? && lastSavedMs <= uptime
      modifies this, acc, nvs, publisher, publisher.heartbeat
      ensures State() == Meter.Run(old(State()), [Meter.Sample, Meter.Persist(dt, writeOk)])
      ensures Published() == Publication.MainPublish(old(Published()).(total := acc.total), queued)
      ensures lastSavedMs <= uptime
    {
      var pulses := timers.Read();
      acc.UpdateFrom(pulses);
      publisher.PublishIfChanged(acc.total, queued);
      ghost var sampled := State();
      assert sampled == Meter.Step(old(State()), Meter.Sample);

      uptime := uptime + dt;
      if ShouldWrite(Meter.POLICY, acc.total, lastSavedTotal, uptime - lastSavedMs) {
        var saved := nvs.SaveRecord(AccumulatorTotal, acc.total, writeOk);
        if saved {
          lastSavedTotal := acc.total;
          lastSavedMs := uptime;
        }
      }
      var persist := Meter.Persist(dt, writeOk);
      assert State() == Meter.Step(sampled, persist);
      assert Meter.Run(old(State()), [Meter.Sample, persist]) == Meter.Run(sampled, [persist])
        == Meter.Run(Meter.Step(sampled, persist), []);
    }
  }
}
