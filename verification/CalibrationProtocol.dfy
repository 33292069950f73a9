/** Runtime calibration in zigbee_app.c: a coordinator's attribute write is committed by
    ZBOSS, then validated, rolled back or applied and persisted by zcl_device_cb; at boot
    the value comes back from the store.

    The same value lives in up to four places: the attribute table, a variable or the
    TIMER3 compare register, and NVS. */
module CalibrationProtocol {
  import opened Words
  import opened NvsStore
  import opened Calibration
  import Gate = PulseGate

  /** zb_uint24_t: a packed u16 and u8. */
  datatype Uint24 = Uint24(low: nat, high: nat)

  predicate IsU24(v: Uint24) { v.low < U16 && v.high < 256 }

  function ToU24(v: nat): Uint24 { Uint24(v % U16, v / U16 % 256) }

  function FromU24(v: Uint24): nat { v.high * U16 + v.low }

  datatype Tuning = Tuning(flash: Flash, divisorAttr: Uint24, effectiveDivisor: nat,
                           widthAttr: nat, cc: nat)

  datatype AttrWrite = Divisor(raw24: Uint24) | MinWidth(raw16: nat) | OtherAttribute

  /** The wire types of the two writable attributes. */
  predicate OnWire(w: AttrWrite) {
    match w
    case Divisor(raw) => IsU24(raw)
    case MinWidth(raw) => raw < U16
    case OtherAttribute => true
  }

  predicate Accepts(w: AttrWrite) {
    match w
    case Divisor(raw) => IsValidImpPerKwh(FromU24(raw))
    case MinWidth(raw) => IsValidMinWidthUs(raw)
    case OtherAttribute => true
  }

  /** ZBOSS stores the incoming value before it calls back. */
  function Committed(s: Tuning, w: AttrWrite): Tuning {
    match w
    case Divisor(raw) => s.(divisorAttr := raw)
    case MinWidth(raw) => s.(widthAttr := raw)
    case OtherAttribute => s
  }

  /** zcl_device_cb. The roll-back value of the width is read from the attribute itself. */
  function CalledBack(s: Tuning, w: AttrWrite, writeOk: bool): Tuning {
    match w
    case Divisor(raw) =>
      var v := FromU24(raw);
      if !IsValidImpPerKwh(v) then s.(divisorAttr := ToU24(s.effectiveDivisor))
      else s.(flash := Save(s.flash, ImpPerKwh, v, writeOk), effectiveDivisor := v)
    case MinWidth(raw) =>
      if !IsValidMinWidthUs(raw) then s
      else s.(cc := raw % U16, flash := Save(s.flash, PulseMinWidthUs, raw, writeOk), widthAttr := raw)
    case OtherAttribute => s
  }

  datatype Event =
    | Write(w: AttrWrite, writeOk: bool)
    | Boot(mount: MountRun, hwFault: ReadFault, divisorFault: ReadFault, attrFault: ReadFault)

  /** hw_pulse_counter_init reads the width for the register, metering_attrs_init the
      divisor and, once more, the width for the attribute. */
  function AttrsInitialised(s: Tuning, divisorFault: ReadFault, attrFault: ReadFault): Tuning {
    var divisor := EffectiveDivisor(Load(s.flash, ImpPerKwh, divisorFault));
    s.(effectiveDivisor := divisor, divisorAttr := ToU24(divisor),
       widthAttr := EffectiveMinWidthUs(Load(s.flash, PulseMinWidthUs, attrFault)) % U16)
  }

  function Step(s: Tuning, e: Event): Tuning {
    match e
    case Write(w, writeOk) => CalledBack(Committed(s, w), w, writeOk)
    case Boot(m, hwFault, divisorFault, attrFault) =>
      var f := Mount(PowerLoss(s.flash), m);
      AttrsInitialised(s.(flash := f, cc := EffectiveMinWidthUs(Load(f, PulseMinWidthUs, hwFault)) % U16),
                       divisorFault, attrFault)
  }

  predicate AllOnWire(t: seq<Event>) {
    forall e | e in t :: e.Write? ==> OnWire(e.w)
  }

  function Run(s: Tuning, t: seq<Event>): Tuning
    decreases |t|
  {
    if t == [] then s else Run(Step(s, t[0]), t[1..])
  }

  lemma U24RoundTrip(v: nat, w: Uint24)
    requires v < U24 && IsU24(w)
    ensures IsU24(ToU24(v)) && FromU24(ToU24(v)) == v
    ensures FromU24(w) < U24 && ToU24(FromU24(w)) == w
  {
    assert v / U16 < 256;
    assert FromU24(w) / U16 == w.high && FromU24(w) % U16 == w.low;
  }

  // ----- the divisor -----

  predicate TuningInv(s: Tuning) {
    && IsValidImpPerKwh(s.effectiveDivisor) && s.divisorAttr == ToU24(s.effectiveDivisor)
    && FromU24(s.divisorAttr) == s.effectiveDivisor
    && IsValidMinWidthUs(s.cc)
  }

  predicate StoresAccepted(f: Flash) {
    && (ImpPerKwh in f.records ==> IsValidImpPerKwh(f.records[ImpPerKwh]))
    && (PulseMinWidthUs in f.records ==> IsValidMinWidthUs(f.records[PulseMinWidthUs]))
  }

  lemma BootEstablishesTuningInv(s: Tuning, e: Event)
    requires e.Boot?
    ensures TuningInv(Step(s, e))
  {
    U24RoundTrip(Step(s, e).effectiveDivisor, Uint24(0, 0));
  }

  lemma WriteKeepsTuningInv(s: Tuning, e: Event)
    requires e.Write? && TuningInv(s) && OnWire(e.w)
    ensures TuningInv(Step(s, e))
  {
    if e.w.Divisor? {
      U24RoundTrip(s.effectiveDivisor, e.w.raw24);
    }
  }

  /** Over any sequence of boots, writes and flash failures from a first boot on: the divisor in use and the
      compare register stay in range, a read of the attribute returns the divisor in use
      after every write, refused ones included, and a store that holds only accepted
      values goes on doing so. */
  lemma {:induction false} RunKeepsTuningInv(s: Tuning, t: seq<Event>)
    requires AllOnWire(t) && (TuningInv(s) || (t != [] && t[0].Boot?))
    ensures TuningInv(Run(s, t)) && Run(s, t).cc < U16
    ensures StoresAccepted(s.flash) ==> StoresAccepted(Run(s, t).flash)
    decreases |t|
  {
    if t != [] {
      if t[0].Boot? {
        BootEstablishesTuningInv(s, t[0]);
      } else {
        WriteKeepsTuningInv(s, t[0]);
      }
      RunKeepsTuningInv(Step(s, t[0]), t[1..]);
    }
  }

  /** A refused write changes nothing a coordinator or a later boot can see of the divisor. */
  lemma RefusedDivisorLeavesNoTrace(s: Tuning, raw: Uint24, writeOk: bool)
    requires TuningInv(s) && IsU24(raw)
    ensures Step(s, Write(Divisor(raw), writeOk)) == s
            <==> !IsValidImpPerKwh(FromU24(raw))
                 || (FromU24(raw) == s.effectiveDivisor
                     && s.flash == Save(s.flash, ImpPerKwh, s.effectiveDivisor, writeOk))
  {
    U24RoundTrip(s.effectiveDivisor, raw);
  }

  predicate Acceptable(v: nat) { 100 <= v <= 10000 }

  /** The value an accepted write carries, if it is that setting's write. */
  function Offered(slot: Slot, w: AttrWrite): Option<nat> {
    if slot.ImpPerKwh? && w.Divisor? && Acceptable(w.raw24.high * 65536 + w.raw24.low)
    then Some(w.raw24.high * 65536 + w.raw24.low)
    else if slot.PulseMinWidthUs? && w.MinWidth? && Acceptable(w.raw16) then Some(w.raw16)
    else None
  }

  /** A calibration record as the events alone tell it: the last accepted value whose write
      went through, unless the partition was wiped since. */
  function LastStored(slot: Slot, up: bool, stored: Option<nat>, t: seq<Event>): Option<nat>
    decreases |t|
  {
    if t == [] then stored
    else
      match t[0]
      case Boot(m, _, _, _) =>
        var found := m.deviceReady && m.pageInfoOk;
        var wiped := found && !m.firstMountOk && m.clearOk;
        LastStored(slot, found && (m.firstMountOk || (m.clearOk && m.secondMountOk)),
                   if wiped then None else stored, t[1..])
      case Write(w, writeOk) =>
        var v := Offered(slot, w);
        LastStored(slot, up, if up && writeOk && v.Some? then v else stored, t[1..])
  }

  function Slotted(f: Flash, s: Slot): Option<nat> {
    if s in f.records then Some(f.records[s]) else None
  }

  lemma {:induction false} StoreHoldsLastAccepted(s: Tuning, slot: Slot, t: seq<Event>)
    ensures Slotted(Run(s, t).flash, slot)
            == LastStored(slot, s.flash.up, Slotted(s.flash, slot), t)
    decreases |t|
  {
    if t != [] {
      StoreHoldsLastAccepted(Step(s, t[0]), slot, t[1..]);
    }
  }

  /** The store comes up at this boot. */
  predicate Mounts(m: MountRun) {
    m.deviceReady && m.pageInfoOk && (m.firstMountOk || (m.clearOk && m.secondMountOk))
  }

  /** The stored value if there is an acceptable one, else the default. */
  function OrDefault(stored: Option<nat>, default: nat): nat {
    if stored.Some? && Acceptable(stored.value) then stored.value else default
  }

  /** After any history, a boot whose store mounts and reads back brings up the last
      successfully saved divisor and threshold, or the default where there is none or a
      partition from elsewhere holds an unacceptable one; any other boot brings up the
      default. */
  lemma {:induction false} RebootRestoresCalibration(s: Tuning, t: seq<Event>, e: Event)
    requires e.Boot?
    ensures var divisor := LastStored(ImpPerKwh, s.flash.up, Slotted(s.flash, ImpPerKwh), t + [e]);
            var width := LastStored(PulseMinWidthUs, s.flash.up, Slotted(s.flash, PulseMinWidthUs), t + [e]);
            var r := Step(Run(s, t), e);
            && r.effectiveDivisor
               == OrDefault(if Mounts(e.mount) && e.divisorFault.NoFault? then divisor else None, 1000)
            && r.cc == OrDefault(if Mounts(e.mount) && e.hwFault.NoFault? then width else None, 1000)
            && r.widthAttr == OrDefault(if Mounts(e.mount) && e.attrFault.NoFault? then width else None, 1000)
  {
    LastEventOfRun(s, t, e);
    StoreHoldsLastAccepted(s, ImpPerKwh, t + [e]);
    StoreHoldsLastAccepted(s, PulseMinWidthUs, t + [e]);
  }

  // ----- the settings in use, by the events alone -----

  /** What a boot loads of a record, given which of its loads fails. */
  function LoadedAt(e: Event, fault: ReadFault, stored: Option<nat>): nat
    requires e.Boot?
  {
    OrDefault(if Mounts(e.mount) && fault.NoFault? then stored else None, 1000)
  }

  /** The last accepted value since the last boot, else what that boot loaded. */
  function InUse(slot: Slot, up: bool, stored: Option<nat>, t: seq<Event>, before: nat): nat
    decreases |t|
  {
    if t == [] then before
    else
      var init, e := t[..|t| - 1], t[|t| - 1];
      if e.Boot? then
        LoadedAt(e, if slot.ImpPerKwh? then e.divisorFault else e.hwFault, LastStored(slot, up, stored, t))
      else if Offered(slot, e.w).Some? then Offered(slot, e.w).value
      else InUse(slot, up, stored, init, before)
  }

  /** The last width written since the last boot, refused ones included, else what the second
      load of that boot returned. */
  function WidthShown(up: bool, stored: Option<nat>, t: seq<Event>, before: nat): nat
    decreases |t|
  {
    if t == [] then before
    else
      var init, e := t[..|t| - 1], t[|t| - 1];
      if e.Boot? then LoadedAt(e, e.attrFault, LastStored(PulseMinWidthUs, up, stored, t))
      else if e.w.MinWidth? then e.w.raw16
      else WidthShown(up, stored, init, before)
  }

  lemma BootSets(s: Tuning, e: Event)
    requires e.Boot?
    ensures var r := Step(s, e);
            && r.effectiveDivisor == LoadedAt(e, e.divisorFault, Slotted(r.flash, ImpPerKwh))
            && r.cc == LoadedAt(e, e.hwFault, Slotted(r.flash, PulseMinWidthUs))
            && r.widthAttr == LoadedAt(e, e.attrFault, Slotted(r.flash, PulseMinWidthUs))
  {
    assert Step(s, e).flash.up <==> Mounts(e.mount);
  }

  lemma WriteSets(s: Tuning, e: Event)
    requires e.Write? && OnWire(e.w)
    ensures var r := Step(s, e);
            var divisor, width := Offered(ImpPerKwh, e.w), Offered(PulseMinWidthUs, e.w);
            && r.effectiveDivisor == (if divisor.Some? then divisor.value else s.effectiveDivisor)
            && r.cc == (if width.Some? then width.value else s.cc)
            && r.widthAttr == (if e.w.MinWidth? then e.w.raw16 else s.widthAttr)
  {
  }

  /** Over any run of boots, writes and failures: the divisor and the threshold in use are the
      last accepted since the last boot, else what that boot loaded; the width attribute is
      the last value written since then, else what its own load returned; and from a boot
      on, the divisor attribute reads back the divisor in use. */
  lemma {:induction false} SettingsFollowWrites(s: Tuning, t: seq<Event>)
    requires AllOnWire(t)
    ensures var r, up := Run(s, t), s.flash.up;
            var divisor, width := Slotted(s.flash, ImpPerKwh), Slotted(s.flash, PulseMinWidthUs);
            && r.effectiveDivisor == InUse(ImpPerKwh, up, divisor, t, s.effectiveDivisor)
            && r.cc == InUse(PulseMinWidthUs, up, width, t, s.cc)
            && r.widthAttr == WidthShown(up, width, t, s.widthAttr)
    ensures t != [] && t[0].Boot? ==> FromU24(Run(s, t).divisorAttr) == Run(s, t).effectiveDivisor
    decreases |t|
  {
    if t != [] {
      var n := |t| - 1;
      var init, e := t[..n], t[n];
      assert t == init + [e];
      forall x | x in init
        ensures x in t
      {
      }
      SettingsFollowWrites(s, init);
      LastEventOfRun(s, init, e);
      if e.Boot? {
        StoreHoldsLastAccepted(s, ImpPerKwh, t);
        StoreHoldsLastAccepted(s, PulseMinWidthUs, t);
        BootSets(Run(s, init), e);
      } else {
        WriteSets(Run(s, init), e);
      }
      if t[0].Boot? {
        RunKeepsTuningInv(s, t);
      }
    }
  }

  /** Right after an accepted write the attribute reads the value written, and it is in use. */
  lemma AcceptedWriteTakesEffect(s: Tuning, w: AttrWrite, writeOk: bool)
    requires OnWire(w)
    ensures var r := Step(s, Write(w, writeOk));
            && (w.MinWidth? && Acceptable(w.raw16) ==> r.widthAttr == w.raw16 && r.cc == w.raw16)
            && (w.Divisor? && Acceptable(FromU24(w.raw24)) ==>
                  r.divisorAttr == w.raw24 && r.effectiveDivisor == FromU24(w.raw24))
  {
  }

  lemma {:induction false} LastEventOfRun(s: Tuning, t: seq<Event>, e: Event)
    ensures Run(s, t + [e]) == Step(Run(s, t), e)
  {
    RunInParts(s, t, [e]);
    assert Run(Run(s, t), [e]) == Run(Step(Run(s, t), e), []);
  }

  lemma {:induction false} RunInParts(s: Tuning, a: seq<Event>, b: seq<Event>)
    ensures Run(s, a + b) == Run(Run(s, a), b)
    decreases |a|
  {
    if a == [] {
      assert a + b == b;
    } else {
      assert (a + b)[1..] == a[1..] + b;
      RunInParts(Step(s, a[0]), a[1..], b);
    }
  }

  // ----- the pulse width -----

  /** The two loads at boot: the register and the attribute agree exactly when both loads
      went the same way, or when what is stored makes no difference. */
  lemma BootWidthsAgreeIff(s: Tuning, e: Event)
    requires e.Boot?
    ensures var r := Step(s, e);
            var stored := Slotted(r.flash, PulseMinWidthUs);
            r.widthAttr == r.cc
            <==> (e.hwFault.NoFault? <==> e.attrFault.NoFault?)
                 || !r.flash.up || stored.None? || !IsValidMinWidthUs(stored.value)
                 || stored.value == DEFAULT_MIN_WIDTH_US
  {
  }

  /** They can differ: a new device accepts and stores 2000 us, and at the next boot the
      second load fails. The filter uses 2000 while the attribute shows 1000. */
  lemma BootWidthsCanDiffer(s: Tuning, m: MountRun)
    requires s.flash == Flash(false, map[]) && m.deviceReady && m.pageInfoOk && m.firstMountOk
    ensures var written := Step(Step(s, Boot(m, NoFault, NoFault, NoFault)), Write(MinWidth(2000), true));
            var r := Step(written, Boot(m, NoFault, NoFault, HardError));
            r.cc == 2000 && r.widthAttr == 1000
  {
    var booted := Step(s, Boot(m, NoFault, NoFault, NoFault));
    var written := Step(booted, Write(MinWidth(2000), true));
    assert written.flash == Flash(true, map[PulseMinWidthUs := 2000]);
  }

  /** The two loads of a boot agree over the given record. */
  predicate LoadsAgree(e: Event, stored: Option<nat>)
    requires e.Boot?
  {
    || (e.hwFault.NoFault? <==> e.attrFault.NoFault?)
    || !Mounts(e.mount) || stored.None? || !Acceptable(stored.value) || stored.value == 1000
  }

  /** By the events alone: the last boot or width write was a boot whose two loads agreed over
      the record the history left, or an accepted write. */
  predicate WidthSettled(up: bool, stored: Option<nat>, t: seq<Event>)
    decreases |t|
  {
    t != [] &&
    var init, e := t[..|t| - 1], t[|t| - 1];
    if e.Boot? then LoadsAgree(e, LastStored(PulseMinWidthUs, up, stored, t))
    else if e.w.MinWidth? then Acceptable(e.w.raw16)
    else WidthSettled(up, stored, init)
  }

  lemma BootSettles(s: Tuning, e: Event)
    requires e.Boot?
    ensures var r := Step(s, e);
            r.widthAttr == r.cc <==> LoadsAgree(e, Slotted(r.flash, PulseMinWidthUs))
  {
    BootWidthsAgreeIff(s, e);
    assert Step(s, e).flash.up <==> Mounts(e.mount);
  }

  lemma WriteSettles(s: Tuning, e: Event)
    requires e.Write? && TuningInv(s) && OnWire(e.w)
    ensures var r := Step(s, e);
            r.widthAttr == r.cc
            <==> if e.w.MinWidth? then IsValidMinWidthUs(e.w.raw16) else s.widthAttr == s.cc
  {
  }

  /** A refused width write is meant to be rolled back, but the value restored is the one
      just written. Over any run of boots, writes and failures that begins with a boot, the
      attribute shows the threshold in use exactly when the last boot or width write was a
      boot whose loads agreed or an accepted write. */
  lemma {:induction false} WidthAttributeTellsTruthIff(s: Tuning, t: seq<Event>)
    requires t != [] && t[0].Boot? && AllOnWire(t)
    ensures TuningInv(Run(s, t))
    ensures Run(s, t).widthAttr == Run(s, t).cc
            <==> WidthSettled(s.flash.up, Slotted(s.flash, PulseMinWidthUs), t)
    decreases |t|
  {
    var n := |t| - 1;
    var init, e := t[..n], t[n];
    assert t == init + [e];
    LastEventOfRun(s, init, e);
    var p := Run(s, init);
    if e.Boot? {
      StoreHoldsLastAccepted(s, PulseMinWidthUs, t);
      BootEstablishesTuningInv(p, e);
      BootSettles(p, e);
    } else {
      forall x | x in init
        ensures x in t
      {
      }
      WidthAttributeTellsTruthIff(s, init);
      WriteKeepsTuningInv(p, e);
      WriteSettles(p, e);
    }
  }

  /** A new device refuses 50 us: the attribute stays at 50 while the filter uses 1000. */
  lemma RefusedWidthStaysVisible(s: Tuning, m: MountRun)
    requires s.flash == Flash(false, map[]) && Mounts(m)
    ensures var booted := Step(s, Boot(m, NoFault, NoFault, NoFault));
            var r := Step(booted, Write(MinWidth(50), true));
            r.widthAttr == 50 && r.cc == 1000 && r.flash == booted.flash
  {
  }

  /** Every threshold the protocol hands to the gate suits it: an idle gate, or one whose
      pulse in flight is still below it, stays armed. */
  lemma WidthsSuitTheGate(s: Tuning, e: Event, g: Gate.Gate)
    requires TuningInv(s) && (e.Write? ==> OnWire(e.w)) && Gate.Armed(g) && g.cc == s.cc
    requires g.running ==> g.cnt < Step(s, e).cc
    ensures Gate.Armed(Gate.Step(g, Gate.Retune(Step(s, e).cc)))
            && Gate.Step(g, Gate.Retune(Step(s, e).cc)).cc == Step(s, e).cc
  {
    if e.Boot? {
      BootEstablishesTuningInv(s, e);
    } else {
      WriteKeepsTuningInv(s, e);
    }
  }

  // ----- the attribute table and the callback -----

  datatype Status = RetOk | RetOutOfRange

  class MeteringCluster {
    var divisorAttr: Uint24
    var effectiveDivisor: nat
    var widthAttr: nat
    const nvs: Store
    const timers: Gate.Timers

    function State(): Tuning
      reads this, nvs, timers
    {
      Tuning(nvs.State(), divisorAttr, effectiveDivisor, widthAttr, timers.cc)
    }

    constructor (nvs: Store, timers: Gate.Timers)
      ensures this.nvs == nvs && this.timers == timers
    {
      this.nvs, this.timers := nvs, timers;
      divisorAttr, effectiveDivisor, widthAttr := Uint24(0, 0), 0, 0;
    }

    /** metering_attrs_init */
    method AttrsInit(divisorFault: ReadFault, attrFault: ReadFault)
      modifies this
      ensures State() == AttrsInitialised(old(State()), divisorFault, attrFault)
    {
      var divisor := DEFAULT_IMP_PER_KWH;
      var stored := nvs.LoadRecord(ImpPerKwh, divisorFault);
      if stored.Loaded? && IsValidImpPerKwh(stored.value) {
        divisor := stored.value;
      }
      effectiveDivisor := divisor;
      divisorAttr := ToU24(divisor);

      var minWidthUs := DEFAULT_MIN_WIDTH_US;
      var width := nvs.LoadRecord(PulseMinWidthUs, attrFault);
      if width.Loaded? && IsValidMinWidthUs(width.value) {
        minWidthUs := width.value;
      }
      widthAttr := minWidthUs % U16;
    }

    /** The stack's commit followed by zcl_device_cb. */
    method OnAttributeWrite(w: AttrWrite, writeOk: bool) returns (status: Status)
      modifies this, nvs, timers
      ensures State() == Step(old(State()), Write(w, writeOk))
      ensures status.RetOk? <==> Accepts(w)
    {
      match w
      case OtherAttribute =>
        return RetOk;
      case MinWidth(raw) =>
        widthAttr := raw;
        if !IsValidMinWidthUs(raw) {
          var rollback := widthAttr;
          widthAttr := rollback;
          return RetOutOfRange;
        }
        timers.SetMinWidthUs(raw);
        var _ := nvs.SaveRecord(PulseMinWidthUs, raw, writeOk);
        widthAttr := raw;
        return RetOk;
      case Divisor(raw) =>
        divisorAttr := raw;
        var newDivisor := raw.high * U16 + raw.low;
        if !IsValidImpPerKwh(newDivisor) {
          divisorAttr := ToU24(effectiveDivisor);
          return RetOutOfRange;
        }
        var _ := nvs.SaveRecord(ImpPerKwh, newDivisor, writeOk);
        effectiveDivisor := newDivisor;
        return RetOk;
    }
  }
}
