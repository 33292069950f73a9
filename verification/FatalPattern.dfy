/** The timing of the fatal indicator: N flashes per five seconds, one flash per ten
    seconds after ten minutes. Handlers run on their deadlines. */
module FatalPattern {
  import opened Words
  import opened LedPriority
  import opened LedController

  /** The renderer is in the given phase at the given time, and the phase ends `delay` later. */
  predicate At(s: Led, count: nat, start: int, phase: nat, now: int, delay: int) {
    && Live(s) && s.rendered == FATAL && s.fatalCount == count && s.fatalStart == start
    && s.fatalPhase == phase && s.now == now && s.due == Some(now + delay)
  }

  /** Red alternates on every run of the handler: for any count, across the collapse, after
      a second fatal request with another count, and for stale ticks too. */
  lemma FatalAlternates(s: Led, e: Event)
    requires Counted(s) && s.rendered == FATAL && (e.Fire? || e.StaleTick?)
    ensures Step(s, e).rendered == FATAL && s.rgb == RedIf(s.rgb.red)
    ensures Step(s, e).rgb == RedIf(!s.rgb.red)
  {
    var m := if (if e.Fire? then Fired(s) else s).now - s.fatalStart >= FATAL_COLLAPSE_AFTER_MS
             then 1 else s.fatalCount;
    ParityOfSuccessor(s.fatalPhase, m);
  }

  /** A second fatal request, with whatever count, changes neither what is shown nor when the
      phase ends; the new count holds from the next handler run, and the ten minutes begin
      anew. */
  lemma SecondFatalRequest(s: Led, flashes: nat)
    requires Live(s) && s.rendered == FATAL
    ensures var r := Step(s, LedFatal(flashes));
            && r.fatalCount == (if flashes == 0 then 1 else if flashes > 5 then 5 else flashes)
            && r.fatalStart == s.now
            && r == s.(fatalCount := r.fatalCount, fatalStart := r.fatalStart, arbiter := r.arbiter)
  {
  }

  /** Modulo an even number, a successor has the other parity. */
  lemma ParityOfSuccessor(p: nat, m: nat)
    requires m > 0
    ensures (p + 1) % (2 * m) % 2 == 1 - p % 2
  {
    var q := (p + 1) / (2 * m);
    assert p + 1 == 2 * (m * q) + (p + 1) % (2 * m);
  }

  // ----- the renderer as a clock of phases -----

  /** Phase, ms since the request, length of the phase, ms of red before it. */
  datatype Clock = Clock(phase: nat, ms: int, delay: int, lit: int)

  const FIRST: Clock := Clock(0, 0, FATAL_PULSE_ON_MS, 0)

  function Next(n: nat, c: Clock): Clock
    requires n > 0
  {
    var ms := c.ms + c.delay;
    var lit := c.lit + if c.phase % 2 == 0 then c.delay else 0;
    if ms >= FATAL_COLLAPSE_AFTER_MS then
      var phase := (c.phase + 1) % 2;
      Clock(phase, ms, if phase == 0 then FATAL_COLLAPSE_ON_MS else FATAL_COLLAPSE_OFF_MS, lit)
    else
      var phase := if c.phase + 1 < 2 * n then c.phase + 1 else 0;
      Clock(phase, ms, FatalDelay(n, phase), lit)
  }

  function NextN(n: nat, c: Clock, k: nat): Clock
    requires n > 0
    decreases k
  {
    if k == 0 then c else Next(n, NextN(n, c, k - 1))
  }

  predicate Shows(s: Led, n: nat, start: int, c: Clock) {
    c.phase < 2 * n && c.delay >= 0 && At(s, n, start, c.phase, start + c.ms, c.delay)
    && s.rgb == RedIf(c.phase % 2 == 0)
  }

  lemma RemainderBelow(x: nat, m: nat)
    requires x <= m && m > 0
    ensures x % m == if x < m then x else 0
  {
  }

  lemma {:induction false} FireFollowsClock(s: Led, n: nat, start: int, c: Clock)
    requires 1 <= n <= 5 && Shows(s, n, start, c)
    ensures Shows(Step(s, Fire), n, start, Next(n, c))
  {
    var r := s.(due := None, now := start + c.ms + c.delay);
    assert Step(s, Fire) == FatalTick(r);
    RemainderBelow(c.phase + 1, 2 * n);
  }

  lemma {:induction false} NextInParts(n: nat, c: Clock, a: nat, b: nat)
    requires n > 0
    ensures NextN(n, c, a + b) == NextN(n, NextN(n, c, a), b)
    decreases b
  {
    if b > 0 {
      NextInParts(n, c, a, b - 1);
    }
  }

  lemma {:induction false} NextFirst(n: nat, c: Clock, k: nat)
    requires n > 0 && k > 0
    ensures NextN(n, c, k) == NextN(n, Next(n, c), k - 1)
  {
    NextInParts(n, c, 1, k - 1);
    assert NextN(n, c, 1) == Next(n, NextN(n, c, 0));
  }

  lemma {:induction false} FiringsFollowClock(s: Led, n: nat, start: int, c: Clock, k: nat)
    requires 1 <= n <= 5 && Shows(s, n, start, c)
    ensures Shows(FireN(s, k), n, start, NextN(n, c, k))
    decreases k
  {
    if k > 0 {
      FireFollowsClock(s, n, start, c);
      FiringsFollowClock(Step(s, Fire), n, start, Next(n, c), k - 1);
      NextFirst(n, c, k);
    }
  }

  lemma {:induction false} LitFollowsClock(s: Led, n: nat, start: int, c: Clock, k: nat)
    requires 1 <= n <= 5 && Shows(s, n, start, c)
    ensures LitMs(s, k) == NextN(n, c, k).lit - c.lit
    decreases k
  {
    if k > 0 {
      var r, d := Step(s, Fire), Next(n, c);
      FireFollowsClock(s, n, start, c);
      LitFollowsClock(r, n, start, d, k - 1);
      NextFirst(n, c, k);
      assert d.lit - c.lit == if c.phase % 2 == 0 then c.delay else 0;
      assert LitMs(s, k) == (if c.phase % 2 == 0 then c.delay else 0) + LitMs(r, k - 1);
    }
  }

  // ----- where the clock is -----

  lemma NextInCycle(n: nat, c: Clock)
    requires 1 <= n <= 5 && c.phase + 1 < 2 * n && c.delay == FatalDelay(n, c.phase)
    requires c.ms + 100 < FATAL_COLLAPSE_AFTER_MS
    ensures Next(n, c) == Clock(c.phase + 1, c.ms + 100, FatalDelay(n, c.phase + 1),
                                c.lit + if c.phase % 2 == 0 then 100 else 0)
  {
  }

  /** The j-th phase of a cycle begins 100 j ms into it; red has been on for the even ones. */
  lemma {:induction false} PhaseOfCycle(n: nat, c: Clock, j: nat)
    requires 1 <= n <= 5 && j < 2 * n && c.phase == 0 && c.delay == 100
    requires c.ms + FATAL_CYCLE_MS <= FATAL_COLLAPSE_AFTER_MS
    ensures var d := NextN(n, c, j);
            && d.phase == j && d.ms == c.ms + 100 * j && d.delay == FatalDelay(n, j)
            && d.lit == c.lit + 50 * (j + j % 2)
    decreases j
  {
    if j > 0 {
      PhaseOfCycle(n, c, j - 1);
      NextInCycle(n, NextN(n, c, j - 1));
      Parity(j - 1);
    }
  }

  lemma Parity(i: nat)
    ensures (i + 1) % 2 == 1 - i % 2
  {
  }

  lemma LastInCycle(n: nat, d: Clock)
    requires 1 <= n <= 5 && d.phase == 2 * n - 1 && d.delay == FatalDelay(n, d.phase)
    requires d.ms + d.delay <= FATAL_COLLAPSE_AFTER_MS
    ensures Next(n, d) == Clock(0, d.ms + 5100 - 200 * n, 100, d.lit)
  {
    Parity(2 * n - 2);
    Parity(2 * n - 1);
  }

  /** A cycle is 2n phases, lasts five seconds, lights red for n * 100 ms of them, and ends
      where it began, also when the collapse falls on its end. */
  lemma {:induction false} WholeCycle(n: nat, c: Clock, len: nat)
    requires 1 <= n <= 5 && c.phase == 0 && c.delay == 100 && len == 2 * n
    requires c.ms + FATAL_CYCLE_MS <= FATAL_COLLAPSE_AFTER_MS
    ensures NextN(n, c, len) == Clock(0, c.ms + 5000, 100, c.lit + 50 * len)
  {
    PhaseOfCycle(n, c, len - 1);
    LastInCycle(n, NextN(n, c, len - 1));
    Parity(len - 2);
  }

  /** The firings that make up k cycles: 2n each. */
  function Firings(n: nat, k: nat): nat {
    if k == 0 then 0 else Firings(n, k - 1) + 2 * n
  }

  lemma {:induction false} FiringsAre(n: nat, k: nat)
    ensures Firings(n, k) == 2 * (n * k)
    decreases k
  {
    if k > 0 {
      FiringsAre(n, k - 1);
      assert n * k == n * (k - 1) + n;
    }
  }

  lemma {:induction false} OneMoreCycle(n: nat, f: nat, c: Clock, len: nat)
    requires 1 <= n <= 5 && NextN(n, FIRST, f) == c && len == 2 * n
    requires c.phase == 0 && c.delay == 100 && c.ms + FATAL_CYCLE_MS <= FATAL_COLLAPSE_AFTER_MS
    ensures NextN(n, FIRST, f + len) == Clock(0, c.ms + 5000, 100, c.lit + 50 * len)
  {
    NextInParts(n, FIRST, f, len);
    WholeCycle(n, c, len);
  }

  lemma {:induction false} Cycles(n: nat, k: nat)
    requires 1 <= n <= 5 && k <= 120
    ensures NextN(n, FIRST, Firings(n, k)) == Clock(0, 5000 * k, 100, 50 * Firings(n, k))
    decreases k
  {
    if k > 0 {
      var f := Firings(n, k - 1);
      Cycles(n, k - 1);
      OneMoreCycle(n, f, Clock(0, 5000 * (k - 1), 100, 50 * f), 2 * n);
    }
  }

  /** j firings into a cycle that f firings led to. */
  lemma {:induction false} IntoCycle(n: nat, c: Clock, f: nat, j: nat)
    requires 1 <= n <= 5 && j < 2 * n
    requires var d := NextN(n, c, f);
             d.phase == 0 && d.delay == 100 && d.ms + FATAL_CYCLE_MS <= FATAL_COLLAPSE_AFTER_MS
    ensures var e := NextN(n, c, f + j);
            e.phase == j && e.ms == NextN(n, c, f).ms + 100 * j && e.delay == FatalDelay(n, j)
  {
    NextInParts(n, c, f, j);
    PhaseOfCycle(n, NextN(n, c, f), j);
  }

  lemma {:induction false} ClockBeforeCollapse(n: nat, f: nat, k: nat, j: nat)
    requires 1 <= n <= 5 && k < 120 && j < 2 * n && f == Firings(n, k)
    ensures NextN(n, FIRST, f + j).phase == j && NextN(n, FIRST, f + j).ms == 5000 * k + 100 * j
    ensures NextN(n, FIRST, f + j).delay == FatalDelay(n, j)
  {
    Cycles(n, k);
    IntoCycle(n, FIRST, f, j);
  }

  lemma {:induction false} ClockAfterCycles(n: nat, k: nat, f: nat)
    requires 1 <= n <= 5 && k <= 120 && f == 2 * (n * k)
    ensures NextN(n, FIRST, f) == Clock(0, 5000 * k, 100, 100 * (n * k))
  {
    Cycles(n, k);
    FiringsAre(n, k);
  }

  /** m firings after any that led to phase 0 past the collapse. */
  lemma {:induction false} ClockAfterCollapse(n: nat, f: nat, c: Clock, m: nat)
    requires n > 0 && NextN(n, FIRST, f) == c && c.phase == 0 && c.delay == 100
    requires c.ms >= FATAL_COLLAPSE_AFTER_MS
    ensures NextN(n, FIRST, f + m).phase == m % 2
    ensures NextN(n, FIRST, f + m).ms == c.ms + m / 2 * 10000 + m % 2 * 100
    ensures NextN(n, FIRST, f + m).delay == if m % 2 == 0 then 100 else 9900
  {
    NextInParts(n, FIRST, f, m);
    CollapsedPhase(n, c, m);
  }

  lemma {:induction false} CollapsedPhase(n: nat, c: Clock, m: nat)
    requires n > 0 && c.phase == 0 && c.delay == FATAL_COLLAPSE_ON_MS
    requires c.ms >= FATAL_COLLAPSE_AFTER_MS
    ensures NextN(n, c, m).phase == m % 2
    ensures NextN(n, c, m).ms == c.ms + m / 2 * 10000 + m % 2 * 100
    ensures NextN(n, c, m).delay == if m % 2 == 0 then FATAL_COLLAPSE_ON_MS else FATAL_COLLAPSE_OFF_MS
    decreases m
  {
    if m > 0 {
      CollapsedPhase(n, c, m - 1);
      Parity(m - 1);
      assert m / 2 == (m - 1) / 2 + (m - 1) % 2;
    }
  }

  // ----- the theorems -----

  predicate JustStarted(s: Led, n: nat) {
    1 <= n <= 5 && At(s, n, s.now, 0, s.now, FATAL_PULSE_ON_MS)
  }

  predicate Observed(s: Led, r: Led, c: Clock) {
    && r.now == s.now + c.ms && r.fatalPhase == c.phase && r.rgb == RedIf(c.phase % 2 == 0)
    && r.due == Some(r.now + c.delay)
  }

  lemma {:induction false} WhatIsShown(s: Led, n: nat, k: nat) returns (r: Led)
    requires JustStarted(s, n)
    ensures r == FireN(s, k) && Observed(s, r, NextN(n, FIRST, k))
    ensures LitMs(s, k) == NextN(n, FIRST, k).lit
  {
    FiringsFollowClock(s, n, s.now, FIRST, k);
    LitFollowsClock(s, n, s.now, FIRST, k);
    r := FireN(s, k);
  }

  lemma ReadOff(s: Led, r: Led, c: Clock, phase: nat, ms: int, delay: int)
    requires Observed(s, r, c) && c.phase == phase && c.ms == ms && c.delay == delay
    ensures r.now == s.now + ms && r.fatalPhase == phase && r.rgb == RedIf(phase % 2 == 0)
    ensures r.due == Some(r.now + delay)
  {
  }

  lemma {:induction false} AtMostTenFirings(n: nat, k: nat)
    requires n <= 5
    ensures Firings(n, k) <= 10 * k
    decreases k
  {
    if k > 0 {
      AtMostTenFirings(n, k - 1);
    }
  }

  lemma DelaysArePositive(n: nat, j: nat)
    requires 1 <= n <= 5
    ensures FatalDelay(n, j) == 100 || 4100 <= FatalDelay(n, j) <= 4900
  {
  }

  /** A fatal request takes the LEDs over: dark, or showing something weaker. */
  predicate TakesOver(s: Led) {
    Live(s) && s.rendered != FATAL && (s.rendered == NONE || s.arbiter.prio > PRIO_FATAL)
  }

  lemma FatalStarts(s: Led, n: nat)
    requires TakesOver(s)
    ensures JustStarted(Step(s, LedFatal(n)), ClampFlashes(n)) && Step(s, LedFatal(n)).now == s.now
  {
  }

  /** Before the collapse: k whole cycles of 2 n firings and j more after a request of n
      flashes, clamped to 1..5, the pattern is in phase j, 5000 k + 100 j ms have passed, red
      is lit exactly in even phases, and the phase lasts at least 100 ms. */
  lemma {:induction false} BeforeCollapse(s: Led, flashes: nat, k: nat, j: nat) returns (r: Led)
    requires TakesOver(s) && k < 120 && j < 2 * ClampFlashes(flashes)
    ensures var n := ClampFlashes(flashes);
            && n == (if flashes == 0 then 1 else if flashes > 5 then 5 else flashes)
            && r == FireN(Step(s, LedFatal(flashes)), 2 * (n * k) + j)
            && r.now == s.now + (5000 * k + 100 * j)
            && r.fatalPhase == j && r.rgb == Rgb(j % 2 == 0, false, false)
            && r.due == Some(r.now + FatalDelay(n, j)) && FatalDelay(n, j) >= 100
  {
    var n, f := ClampFlashes(flashes), Firings(ClampFlashes(flashes), k);
    FatalStarts(s, flashes);
    FiringsAre(n, k);
    DelaysArePositive(n, j);
    ClockBeforeCollapse(n, f, k, j);
    var start := Step(s, LedFatal(flashes));
    r := WhatIsShown(start, n, f + j);
    ReadOff(start, r, NextN(n, FIRST, f + j), j, 5000 * k + 100 * j, FatalDelay(n, j));
  }

  lemma {:induction false} LitInCycles(s: Led, n: nat, k: nat)
    requires JustStarted(s, n) && k <= 120
    ensures var f := Firings(n, k);
            FireN(s, f).now == s.now + 5000 * k && LitMs(s, f) == 50 * f && f <= 10 * k
  {
    Cycles(n, k);
    AtMostTenFirings(n, k);
    var _ := WhatIsShown(s, n, Firings(n, k));
  }

  /** k cycles before the collapse last 5000 k ms, with red on for 100 n k of them: a duty of
      n fiftieths, at most one tenth. */
  lemma {:induction false} DutyCycle(s: Led, flashes: nat, k: nat)
    requires TakesOver(s) && k <= 120
    ensures var n, start := ClampFlashes(flashes), Step(s, LedFatal(flashes));
            && FireN(start, 2 * (n * k)).now == s.now + 5000 * k
            && LitMs(start, 2 * (n * k)) == 100 * (n * k)
            && 10 * LitMs(start, 2 * (n * k)) <= 5000 * k
  {
    FatalStarts(s, flashes);
    FiringsAre(ClampFlashes(flashes), k);
    LitInCycles(Step(s, LedFatal(flashes)), ClampFlashes(flashes), k);
  }

  lemma {:induction false} ShownAfterCycles(s: Led, n: nat, k: nat, f: nat, m: nat) returns (r: Led)
    requires JustStarted(s, n) && k <= 120 && f == 2 * (n * k) && 5000 * k >= FATAL_COLLAPSE_AFTER_MS
    ensures r == FireN(s, f + m)
    ensures && r.now == s.now + 5000 * k + m / 2 * 10000 + m % 2 * 100
            && r.fatalPhase == m % 2 && r.rgb == Rgb(m % 2 == 0, false, false)
            && r.due == Some(r.now + if m % 2 == 0 then 100 else 9900)
  {
    var c := Clock(0, 5000 * k, 100, 100 * (n * k));
    ClockAfterCycles(n, k, f);
    ClockAfterCollapse(n, f, c, m);
    r := WhatIsShown(s, n, f + m);
    ReadOff(s, r, NextN(n, FIRST, f + m), m % 2, 5000 * k + m / 2 * 10000 + m % 2 * 100,
            if m % 2 == 0 then 100 else 9900);
  }

  /** The collapse falls on the end of the 120th cycle, and from then on red repeats 100 ms
      on, 9900 ms off. */
  lemma {:induction false} AfterCollapse(s: Led, flashes: nat, m: nat) returns (r: Led)
    requires TakesOver(s)
    ensures r == FireN(Step(s, LedFatal(flashes)), 240 * ClampFlashes(flashes) + m)
    ensures && r.now == s.now + 600000 + m / 2 * 10000 + m % 2 * 100
            && r.fatalPhase == m % 2 && r.rgb == Rgb(m % 2 == 0, false, false)
            && r.due == Some(r.now + if m % 2 == 0 then 100 else 9900)
  {
    var n := ClampFlashes(flashes);
    FatalStarts(s, flashes);
    r := ShownAfterCycles(Step(s, LedFatal(flashes)), n, 120, 240 * n, m);
  }
}
