/** report_gate.c: every `period`-th call fires. */
module ReportGate {
  datatype Gate = Gate(period: nat, counter: nat)

  predicate Fires(g: Gate) { g.period != 0 && g.counter + 1 >= g.period }

  function Advance(g: Gate): Gate {
    if g.period == 0 then g else if Fires(g) then g.(counter := 0) else g.(counter := g.counter + 1)
  }

  function AdvanceBy(g: Gate, n: nat): Gate
    decreases n
  {
    if n == 0 then g else AdvanceBy(Advance(g), n - 1)
  }

  function FiresIn(g: Gate, n: nat): nat
    decreases n
  {
    if n == 0 then 0 else (if Fires(g) then 1 else 0) + FiresIn(Advance(g), n - 1)
  }

  /** After n calls the gate has fired once per whole period and holds the remainder:
      division of `counter + n` by the period. A gate of period 0 never fires. */
  lemma {:induction false} FiresOncePerPeriod(g: Gate, n: nat)
    ensures var h := AdvanceBy(g, n);
            g.counter < g.period ==>
              && h.period == g.period && h.counter < g.period
              && g.counter + n == g.period * FiresIn(g, n) + h.counter
    ensures g.period == 0 ==> FiresIn(g, n) == 0
    decreases n
  {
    if n > 0 {
      FiresOncePerPeriod(Advance(g), n - 1);
    }
  }

  class Counter {
    var period: nat
    var counter: nat

    function State(): Gate
      reads this
    {
      Gate(period, counter)
    }

    constructor (period: nat)
      ensures State() == Gate(period, 0)
    {
      this.period := period;
      counter := 0;
    }

    method Tick() returns (fired: bool)
      modifies this`counter
      ensures State() == Advance(old(State()))
      ensures fired == Fires(old(State()))
    {
      if period == 0 {
        return false;
      }
      counter := counter + 1;
      if counter >= period {
        counter := 0;
        return true;
      }
      return false;
    }
  }
}
