/** nvs_store.c: three records on the wear-levelled partition.

    A flash operation either happens as a whole or leaves the records alone; which
    of the two is a parameter of each call, since the driver is not part of this
    model. */
module NvsStore {
  datatype Slot = AccumulatorTotal | ImpPerKwh | PulseMinWidthUs

  /** 0, -ENOENT, or any other negative code. */
  datatype LoadResult = Loaded(value: nat) | NotFound | Failed

  /** What nvs_read does: returns the record, too few bytes of it, or an error. */
  datatype ReadFault = NoFault | ShortRead | HardError

  /** What the driver calls made by nvs_store_init return. */
  datatype MountRun = MountRun(deviceReady: bool, pageInfoOk: bool,
                               firstMountOk: bool, clearOk: bool, secondMountOk: bool)

  datatype Flash = Flash(up: bool, records: map<Slot, nat>)

  /** nvs_store_init; the result is zero exactly when the store ends up initialised. */
  function Mount(f: Flash, m: MountRun): Flash {
    if f.up then f
    else if !m.deviceReady || !m.pageInfoOk then f
    else if m.firstMountOk then f.(up := true)
    else if m.clearOk then Flash(m.secondMountOk, map[])
    else f
  }

  function Load(f: Flash, s: Slot, fault: ReadFault): LoadResult {
    if !f.up then Failed
    else match fault
      case HardError => Failed
      case ShortRead => NotFound
      case NoFault => if s in f.records then Loaded(f.records[s]) else NotFound
  }

  predicate SaveSucceeds(f: Flash, writeOk: bool) { f.up && writeOk }

  function Save(f: Flash, s: Slot, v: nat, writeOk: bool): Flash {
    if SaveSucceeds(f, writeOk) then f.(records := f.records[s := v]) else f
  }

  /** Power is lost: the records stay, the mounted state does not. */
  function PowerLoss(f: Flash): Flash { f.(up := false) }

  /** A record read back after any number of power cycles is the last one saved; the
      other records are untouched, and an unsuccessful save changes nothing. */
  lemma SaveLoadRoundTrip(f: Flash, s: Slot, v: nat, writeOk: bool, other: Slot, m: MountRun)
    requires f.up && other != s
    requires m.deviceReady && m.pageInfoOk && m.firstMountOk
    ensures var g := Mount(PowerLoss(Save(f, s, v, writeOk)), m);
            && Load(g, s, NoFault) == (if writeOk then Loaded(v) else Load(f, s, NoFault))
            && Load(g, other, NoFault) == Load(f, other, NoFault)
  {
  }

  /** The module's statics `fs` and `initialized`, with the partition behind them. */
  class Store {
    var initialized: bool
    var records: map<Slot, nat>

    function State(): Flash
      reads this
    {
      Flash(initialized, records)
    }

    /** A device that powers up over the given partition contents. */
    constructor (contents: map<Slot, nat>)
      ensures State() == Flash(false, contents)
    {
      initialized, records := false, contents;
    }

    method Init(m: MountRun) returns (ok: bool)
      modifies this
      ensures State() == Mount(old(State()), m)
      ensures ok == State().up
    {
      if initialized {
        return true;
      }
      if !m.deviceReady || !m.pageInfoOk {
        return false;
      }
      var mounted := m.firstMountOk;
      if !mounted {
        if m.clearOk {
          records := map[];
          mounted := m.secondMountOk;
        }
        if !mounted {
          return false;
        }
      }
      initialized := true;
      return true;
    }

    method LoadRecord(s: Slot, fault: ReadFault) returns (r: LoadResult)
      ensures r == Load(State(), s, fault)
    {
      if !initialized {
        return Failed;
      }
      match fault
      case HardError => return Failed;
      case ShortRead => return NotFound;
      case NoFault =>
        if s in records {
          return Loaded(records[s]);
        }
        return NotFound;
    }

    method SaveRecord(s: Slot, v: nat, writeOk: bool) returns (ok: bool)
      modifies this`records
      ensures State() == Save(old(State()), s, v, writeOk)
      ensures ok == SaveSucceeds(old(State()), writeOk)
    {
      if !initialized || !writeOk {
        return false;
      }
      records := records[s := v];
      return true;
    }
  }
}
