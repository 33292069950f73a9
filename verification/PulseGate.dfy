/** The min-pulse-width filter of hw_pulse_counter.c.

    Pulse edges reach TIMER3 through PPI: a rising LPCOMP crossing or a falling
    D7 edge START-and-CLEARs it, the opposite edges STOP-and-CLEAR it. TIMER3
    counts microseconds in 16 bits; when a tick makes it equal to CC[0], the
    compare event bumps the 32-bit TIMER2 and the COMPARE0_STOP short freezes
    TIMER3. No instruction runs in between, so the model is a machine over
    edges, microsecond ticks and threshold writes. */
module PulseGate {
  import opened Words

  datatype Event =
    | Up            // LPCOMP crossing upwards
    | HiToLo        // bench pin D7 driven low
    | Down          // LPCOMP crossing downwards
    | LoToHi        // bench pin D7 released
    | Tick          // one microsecond
    | Retune(us: nat)

  predicate IsStart(e: Event) { e.Up? || e.HiToLo? }

  predicate IsStop(e: Event) { e.Down? || e.LoToHi? }

  /** TIMER3 (running, cnt), its CC[0], and TIMER2. */
  datatype Gate = Gate(running: bool, cnt: nat, cc: nat, counter: nat)

  predicate Fires(g: Gate, e: Event) {
    e.Tick? && g.running && (g.cnt + 1) % U16 == g.cc
  }

  function Step(g: Gate, e: Event): Gate {
    if IsStart(e) then g.(running := true, cnt := 0)
    else if IsStop(e) then g.(running := false, cnt := 0)
    else if e.Retune? then g.(cc := e.us % U16)
    else if !g.running then g
    else if Fires(g, e) then
      g.(running := false, cnt := (g.cnt + 1) % U16, counter := (g.counter + 1) % U32)
    else g.(cnt := (g.cnt + 1) % U16)
  }

  function Run(g: Gate, t: seq<Event>): Gate
    decreases |t|
  {
    if t == [] then g else Run(Step(g, t[0]), t[1..])
  }

  /** Compare events raised along a trace: the pulses the gate lets through. */
  function Accepted(g: Gate, t: seq<Event>): nat
    decreases |t|
  {
    if t == [] then 0
    else (if Fires(g, t[0]) then 1 else 0) + Accepted(Step(g, t[0]), t[1..])
  }

  /** Microseconds during which TIMER3 runs, hence during which HFCLK is requested. */
  function RunningTicks(g: Gate, t: seq<Event>): nat
    decreases |t|
  {
    if t == [] then 0
    else (if t[0].Tick? && g.running then 1 else 0) + RunningTicks(Step(g, t[0]), t[1..])
  }

  // ----- what the filter is for, said without the timer -----

  predicate NoRetune(t: seq<Event>) {
    forall i | 0 <= i < |t| :: !t[i].Retune?
  }

  /** Microseconds from here to the next edge of any source. */
  function Gap(t: seq<Event>): nat {
    if t == [] then 0
    else if t[0].Tick? then 1 + Gap(t[1..])
    else if t[0].Retune? then Gap(t[1..])
    else 0
  }

  /** The threshold in force after an event. */
  function InForce(e: Event, cc: nat): nat { if e.Retune? then e.us % U16 else cc }

  /** Start edges that no other edge, of either source, follows within the threshold then
      in force, in microseconds. */
  function QualifyingStarts(t: seq<Event>, cc: nat): nat {
    if t == [] then 0
    else (if IsStart(t[0]) && Gap(t[1..]) >= cc then 1 else 0)
         + QualifyingStarts(t[1..], InForce(t[0], cc))
  }

  function Starts(t: seq<Event>): nat {
    if t == [] then 0 else (if IsStart(t[0]) then 1 else 0) + Starts(t[1..])
  }

  /** Sum over start edges of the time to the next edge, each capped at `cc`. */
  function CappedGaps(t: seq<Event>, cc: nat): nat {
    if t == [] then 0
    else (if IsStart(t[0]) then Min(cc, Gap(t[1..])) else 0) + CappedGaps(t[1..], cc)
  }

  /** A threshold fits the register and a timer in flight is still below it. */
  predicate Armed(g: Gate) {
    0 < g.cc < U16 && (g.running ==> g.cnt < g.cc)
  }

  // ----- exactness with a fixed threshold -----

  /** Every accepted pulse reaches TIMER2 once, whatever the trace. */
  lemma {:induction false} CounterCountsAccepted(g: Gate, t: seq<Event>)
    requires g.counter < U32
    ensures Run(g, t).counter == (g.counter + Accepted(g, t)) % U32
    decreases |t|
  {
    if t != [] {
      CounterCountsAccepted(Step(g, t[0]), t[1..]);
    }
  }

  /** The filter accepts exactly the qualifying starts, plus the pulse already in
      flight when its remaining time suffices; sources may overlap at will. */
  lemma {:induction false} AcceptsExactly(g: Gate, t: seq<Event>)
    requires Armed(g) && NoRetune(t)
    ensures Accepted(g, t) == QualifyingStarts(t, g.cc)
                              + (if g.running && g.cnt + Gap(t) >= g.cc then 1 else 0)
    ensures Armed(Run(g, t)) && Run(g, t).cc == g.cc
    decreases |t|
  {
    if t != [] {
      AcceptsExactly(Step(g, t[0]), t[1..]);
    }
  }

  /** TIMER2 of an idle gate after any trace, in terms of the trace alone. */
  lemma {:induction false} GateExactness(g: Gate, t: seq<Event>)
    requires Armed(g) && !g.running && g.counter < U32 && NoRetune(t)
    ensures Run(g, t).counter == (g.counter + QualifyingStarts(t, g.cc)) % U32
  {
    CounterCountsAccepted(g, t);
    AcceptsExactly(g, t);
  }

  /** HFCLK is on for min(threshold, time to the next edge) per start edge. */
  lemma {:induction false} RunningTicksExactly(g: Gate, t: seq<Event>)
    requires Armed(g) && NoRetune(t)
    ensures RunningTicks(g, t) == CappedGaps(t, g.cc)
                                  + (if g.running then Min(g.cc - g.cnt, Gap(t)) else 0)
    decreases |t|
  {
    if t != [] {
      RunningTicksExactly(Step(g, t[0]), t[1..]);
    }
  }

  lemma {:induction false} CappedGapsBound(t: seq<Event>, cc: nat)
    ensures CappedGaps(t, cc) <= cc * Starts(t)
  {
    if t != [] {
      CappedGapsBound(t[1..], cc);
      var n := Starts(t[1..]);
      assert cc * (n + 1) == cc * n + cc;
    }
  }

  lemma {:induction false} HfclkBound(g: Gate, t: seq<Event>)
    requires Armed(g) && !g.running && NoRetune(t)
    ensures RunningTicks(g, t) == CappedGaps(t, g.cc) <= g.cc * Starts(t)
  {
    RunningTicksExactly(g, t);
    CappedGapsBound(t, g.cc);
  }

  // ----- any trace at all, threshold writes included -----

  /** The fate of one pulse: `c` microseconds old, it meets the threshold in force at some
      tick before the next edge. */
  predicate Crosses(t: seq<Event>, c: nat, cc: nat) {
    if t == [] then false
    else if t[0].Tick? then (c + 1) % U16 == cc || Crosses(t[1..], (c + 1) % U16, cc)
    else if t[0].Retune? then Crosses(t[1..], c, t[0].us % U16)
    else false
  }

  function CountedStarts(t: seq<Event>, cc: nat): nat {
    if t == [] then 0
    else (if IsStart(t[0]) && Crosses(t[1..], 0, cc) then 1 else 0)
         + CountedStarts(t[1..], InForce(t[0], cc))
  }

  /** No condition on the gate or on the writes: each start edge stands or falls by its own
      stretch of the trace. */
  lemma {:induction false} AcceptsByPulse(g: Gate, t: seq<Event>)
    ensures Accepted(g, t)
            == CountedStarts(t, g.cc) + (if g.running && Crosses(t, g.cnt, g.cc) then 1 else 0)
    decreases |t|
  {
    if t != [] {
      AcceptsByPulse(Step(g, t[0]), t[1..]);
    }
  }

  predicate WritesInRange(t: seq<Event>) {
    forall i | 0 <= i < |t| && t[i].Retune? :: 0 < t[i].us < U16
  }

  function Writes(t: seq<Event>): nat {
    if t == [] then 0 else (if t[0].Retune? then 1 else 0) + Writes(t[1..])
  }

  /** Threshold writes before the next edge. */
  function WritesInFlight(t: seq<Event>): nat {
    if t == [] || IsStart(t[0]) || IsStop(t[0]) then 0
    else (if t[0].Retune? then 1 else 0) + WritesInFlight(t[1..])
  }

  /** Without a write in flight, a pulse is counted exactly if it lasts. */
  lemma {:induction false} UndisturbedPulse(t: seq<Event>, c: nat, cc: nat)
    requires WritesInFlight(t) == 0 && c < cc < U16
    ensures Crosses(t, c, cc) <==> c + Gap(t) >= cc
  {
    if t != [] && t[0].Tick? && c + 1 < cc {
      UndisturbedPulse(t[1..], c + 1, cc);
    }
  }

  lemma {:induction false} MisjudgedPulses(t: seq<Event>, cc: nat)
    requires 0 < cc < U16 && WritesInRange(t)
    ensures var misjudged := CountedStarts(t, cc) - QualifyingStarts(t, cc);
            -(Writes(t) - WritesInFlight(t)) <= misjudged <= Writes(t) - WritesInFlight(t)
  {
    if t != [] {
      MisjudgedPulses(t[1..], InForce(t[0], cc));
      if IsStart(t[0]) && WritesInFlight(t[1..]) == 0 {
        UndisturbedPulse(t[1..], 0, cc);
      }
    }
  }

  /** Of an idle gate, a write misjudges at most the pulse in flight: however thresholds are
      rewritten, safely or not, the count differs from the number of starts that qualify
      under the threshold in force by no more than the number of writes, and without
      writes not at all. */
  lemma {:induction false} WritesMisjudgeOnePulseEach(g: Gate, t: seq<Event>)
    requires !g.running && 0 < g.cc < U16 && WritesInRange(t)
    ensures Accepted(g, t) == CountedStarts(t, g.cc)
    ensures QualifyingStarts(t, g.cc) - Writes(t) <= Accepted(g, t) <= QualifyingStarts(t, g.cc) + Writes(t)
  {
    AcceptsByPulse(g, t);
    MisjudgedPulses(t, g.cc);
  }

  /** The threshold in force after a trace. */
  function LastInForce(t: seq<Event>, cc: nat): nat {
    if t == [] then cc else LastInForce(t[1..], InForce(t[0], cc))
  }

  lemma {:induction false} ThresholdAfter(g: Gate, t: seq<Event>)
    requires 0 < g.cc < U16 && WritesInRange(t)
    ensures Run(g, t).cc == LastInForce(t, g.cc) && 0 < Run(g, t).cc < U16
    decreases |t|
  {
    if t != [] {
      ThresholdAfter(Step(g, t[0]), t[1..]);
    }
  }

  /** The harm of an unsafe write ends at the next edge: from there on the timer counts
      from zero, the gate is armed, and exact for the threshold last written. */
  lemma {:induction false} ExactFromNextEdge(g: Gate, t: seq<Event>, e: Event, rest: seq<Event>)
    requires 0 < g.cc < U16 && WritesInRange(t)
    requires (IsStart(e) || IsStop(e)) && NoRetune(rest)
    ensures var h := Run(g, t);
            && Armed(Step(h, e)) && Step(h, e).cnt == 0
            && Accepted(h, [e] + rest) == QualifyingStarts([e] + rest, LastInForce(t, g.cc))
  {
    ThresholdAfter(g, t);
    var h := Run(g, t);
    assert ([e] + rest)[1..] == rest;
    AcceptsExactly(Step(h, e), rest);
  }

  // ----- well-formed pulses -----

  datatype Pulse = Pulse(bench: bool, width: nat, rest: nat)

  function Ticks(n: nat): seq<Event> { seq(n, _ => Tick) }

  function Waveform(p: Pulse): seq<Event> {
    [if p.bench then HiToLo else Up] + Ticks(p.width)
    + [if p.bench then LoToHi else Down] + Ticks(p.rest)
  }

  function Train(ps: seq<Pulse>): seq<Event> {
    if ps == [] then [] else Waveform(ps[0]) + Train(ps[1..])
  }

  function WideEnough(ps: seq<Pulse>, cc: nat): nat {
    if ps == [] then 0
    else (if ps[0].width >= cc then 1 else 0) + WideEnough(ps[1..], cc)
  }

  lemma {:induction false} GapOfTicks(n: nat, t: seq<Event>)
    ensures Gap(Ticks(n) + t) == n + Gap(t)
    ensures forall cc :: QualifyingStarts(Ticks(n) + t, cc) == QualifyingStarts(t, cc)
  {
    if n == 0 {
      assert Ticks(0) + t == t;
    } else {
      GapOfTicks(n - 1, t);
      var u := Ticks(n) + t;
      assert u[1..] == Ticks(n - 1) + t;
    }
  }

  lemma {:induction false} QualifyingInWaveform(p: Pulse, t: seq<Event>, cc: nat)
    ensures QualifyingStarts(Waveform(p) + t, cc)
            == (if p.width >= cc then 1 else 0) + QualifyingStarts(t, cc)
  {
    var stop := [if p.bench then LoToHi else Down];
    var tail := stop + (Ticks(p.rest) + t);
    var u := Waveform(p) + t;
    assert u[1..] == Ticks(p.width) + tail;
    assert tail[1..] == Ticks(p.rest) + t;
    GapOfTicks(p.width, tail);
    GapOfTicks(p.rest, t);
  }

  lemma {:induction false} QualifyingInTrain(ps: seq<Pulse>, cc: nat)
    ensures QualifyingStarts(Train(ps), cc) == WideEnough(ps, cc)
  {
    if ps != [] {
      QualifyingInWaveform(ps[0], Train(ps[1..]), cc);
      QualifyingInTrain(ps[1..], cc);
    }
  }

  lemma TrainHasNoRetune(ps: seq<Pulse>)
    ensures NoRetune(Train(ps))
  {
    if ps != [] {
      TrainHasNoRetune(ps[1..]);
    }
  }

  /** For pulses that end before the next one begins, TIMER2 advances by the number
      of pulses at least as wide as the threshold. */
  lemma {:induction false} PulsesCountedByWidth(g: Gate, ps: seq<Pulse>)
    requires Armed(g) && !g.running && g.counter < U32
    ensures Run(g, Train(ps)).counter == (g.counter + WideEnough(ps, g.cc)) % U32
  {
    TrainHasNoRetune(ps);
    GateExactness(g, Train(ps));
    QualifyingInTrain(ps, g.cc);
  }

  // ----- live threshold writes -----

  /** However thresholds are rewritten, a start edge yields at most one count:
      after a compare the timer is stopped until the next start. */
  lemma {:induction false} AtMostOnePerStart(g: Gate, t: seq<Event>)
    ensures Accepted(g, t) <= Starts(t) + (if g.running then 1 else 0)
    decreases |t|
  {
    if t != [] {
      AtMostOnePerStart(Step(g, t[0]), t[1..]);
    }
  }

  /** A write that keeps `Armed`: the timer is idle, or has not reached the new value. */
  predicate SafeWrite(g: Gate, us: nat) {
    0 < us < U16 && (g.running ==> g.cnt < us)
  }

  predicate SafeWrites(g: Gate, t: seq<Event>)
    decreases |t|
  {
    t == [] || ((t[0].Retune? ==> SafeWrite(g, t[0].us)) && SafeWrites(Step(g, t[0]), t[1..]))
  }

  /** Under any interleaving of safe writes the gate stays armed, so from that point
      on it is exact for the threshold finally written. */
  lemma {:induction false} ExactAfterSafeWrites(g: Gate, t: seq<Event>, rest: seq<Event>)
    requires Armed(g) && SafeWrites(g, t) && NoRetune(rest)
    ensures var h := Run(g, t);
            && Armed(h)
            && Accepted(h, rest) == QualifyingStarts(rest, h.cc)
                                    + (if h.running && h.cnt + Gap(rest) >= h.cc then 1 else 0)
    decreases |t|
  {
    if t == [] {
      AcceptsExactly(g, rest);
    } else {
      ExactAfterSafeWrites(Step(g, t[0]), t[1..], rest);
    }
  }

  /** Ticks alone: a running timer fires when it next equals CC[0], wrapping at 2^16. */
  lemma {:induction false} AcceptedInTicks(g: Gate, k: nat)
    requires g.running && g.cnt < U16 && 0 < g.cc < U16
    ensures Accepted(g, Ticks(k))
            == if k >= (if g.cnt < g.cc then g.cc - g.cnt else U16 - g.cnt + g.cc) then 1 else 0
    decreases k
  {
    if k > 0 {
      var h := Step(g, Tick);
      assert Ticks(k)[1..] == Ticks(k - 1);
      assert h.cnt == if g.cnt + 1 < U16 then g.cnt + 1 else 0;
      if Fires(g, Tick) {
        AtMostOnePerStart(h, Ticks(k - 1));
        StartlessTicks(k - 1);
      } else {
        AcceptedInTicks(h, k - 1);
      }
    }
  }

  lemma {:induction false} StartlessTicks(k: nat)
    ensures Starts(Ticks(k)) == 0
  {
    if k > 0 {
      assert Ticks(k)[1..] == Ticks(k - 1);
      StartlessTicks(k - 1);
    }
  }

  /** The comment above hw_pulse_counter_set_min_width_us says CC[0] can be updated
      live. For a pulse in flight for `cnt` microseconds that lasts `k` more, the
      new threshold decides its fate exactly when it was not yet reached, or when
      the pulse outlasts a whole wrap of the 16-bit timer. */
  lemma {:induction false} LiveWriteJudgesPulseInFlight(g: Gate, us: nat, k: nat)
    requires g.running && g.cnt < U16 && 0 < us < U16
    ensures (Accepted(Step(g, Retune(us)), Ticks(k)) == if g.cnt + k >= us then 1 else 0)
            <==> (g.cnt < us || k >= U16 - g.cnt + us)
  {
    AcceptedInTicks(Step(g, Retune(us)), k);
  }

  lemma {:induction false} AcceptedInParts(g: Gate, t: seq<Event>, u: seq<Event>)
    ensures Run(g, t + u) == Run(Run(g, t), u)
    ensures Accepted(g, t + u) == Accepted(g, t) + Accepted(Run(g, t), u)
    decreases |t|
  {
    if t == [] {
      assert t + u == u;
    } else {
      assert (t + u)[1..] == t[1..] + u;
      AcceptedInParts(Step(g, t[0]), t[1..], u);
    }
  }

  lemma {:induction false} RunTicksBelowThreshold(g: Gate, k: nat)
    requires g.running && g.cnt + k < g.cc < U16
    ensures Run(g, Ticks(k)) == g.(cnt := g.cnt + k) && Accepted(g, Ticks(k)) == 0
    decreases k
  {
    if k > 0 {
      assert Ticks(k)[1..] == Ticks(k - 1);
      RunTicksBelowThreshold(g.(cnt := g.cnt + 1), k - 1);
    }
  }

  /** Such a miss: the threshold falls from 10 ms to 100 us half a millisecond into a
      5.5 ms pulse, and the pulse is not counted. */
  lemma {:induction false} LiveWriteCanMiss(counter: nat)
    ensures var g := Gate(false, 0, 10000, counter);
            Accepted(g, [Up] + Ticks(500) + ([Retune(100)] + Ticks(5000))) == 0
  {
    var g := Gate(false, 0, 10000, counter);
    var t := [Up] + Ticks(500);
    var u := [Retune(100)] + Ticks(5000);
    assert t[1..] == Ticks(500) && u[1..] == Ticks(5000);
    RunTicksBelowThreshold(Step(g, Up), 500);
    AcceptedInParts(g, t, u);
    AcceptedInTicks(Gate(true, 500, 100, counter), 5000);
  }

  // ----- the peripheral registers -----

  /** TIMER3, its compare register and TIMER2 as the firmware programs them. */
  class Timers {
    var running: bool
    var cnt: nat
    var cc: nat
    var counter: nat

    function State(): Gate
      reads this
    {
      Gate(running, cnt, cc, counter)
    }

    /** hw_pulse_counter_init: both timers cleared, TIMER3 left stopped. */
    constructor (minWidthUs: nat)
      ensures State() == Gate(false, 0, minWidthUs % U16, 0)
    {
      running, cnt, cc, counter := false, 0, minWidthUs % U16, 0;
    }

    /** ch_up and ch_bench_h: START with a CLEAR fork. */
    method PulseStart(e: Event)
      requires IsStart(e)
      modifies this
      ensures State() == Step(old(State()), e)
    {
      running := true;
      cnt := 0;
    }

    /** ch_down and ch_bench_l: STOP with a CLEAR fork. */
    method PulseEnd(e: Event)
      requires IsStop(e)
      modifies this
      ensures State() == Step(old(State()), e)
    {
      running := false;
      cnt := 0;
    }

    /** One microsecond: TIMER3 advances, and on a match ch_cnt and the short act. */
    method OneMicrosecond() returns (compare: bool)
      modifies this
      ensures State() == Step(old(State()), Tick)
      ensures compare == Fires(old(State()), Tick)
    {
      compare := false;
      if running {
        cnt := (cnt + 1) % U16;
        if cnt == cc {
          compare := true;
          counter := (counter + 1) % U32;
          running := false;
        }
      }
    }

    /** hw_pulse_counter_read */
    method Read() returns (n: nat)
      ensures n == counter
    {
      n := counter;
    }

    /** hw_pulse_counter_set_min_width_us */
    method SetMinWidthUs(us: nat)
      modifies this`cc
      ensures State() == Step(old(State()), Retune(us))
    {
      cc := us % U16;
    }
  }
}
