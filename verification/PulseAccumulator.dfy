/** pulse_accumulator.c: a 64-bit total fed from the wrapping 32-bit register. */
module PulseAccumulator {
  import opened Words

  datatype Acc = Acc(total: nat, lastHw: nat)

  /** `hw - last_hw` in u32 arithmetic, added in u64 arithmetic. */
  function Update(a: Acc, hw: nat): Acc {
    Acc((a.total + (hw - a.lastHw) % U32) % U64, hw)
  }

  function Restore(saved: nat): Acc { Acc(saved, 0) }

  /** The accumulator after reading the register at each of the given true counts. */
  function Sampled(a: Acc, counts: seq<nat>): Acc
    decreases |counts|
  {
    if counts == [] then a else Sampled(Update(a, counts[0] % U32), counts[1..])
  }

  predicate NonDecreasing(from: nat, counts: seq<nat>)
    decreases |counts|
  {
    counts == [] || (from <= counts[0] && NonDecreasing(counts[0], counts[1..]))
  }

  predicate CloseSamples(from: nat, counts: seq<nat>)
    decreases |counts|
  {
    counts == [] || (counts[0] - from < U32 && CloseSamples(counts[0], counts[1..]))
  }

  function LastCount(from: nat, counts: seq<nat>): nat {
    if counts == [] then from else counts[|counts| - 1]
  }

  /** Pulses the modular subtraction recovers: each gap modulo 2^32. */
  function Recovered(from: nat, counts: seq<nat>): nat
    decreases |counts|
  {
    if counts == [] then 0
    else (counts[0] - from) % U32 + Recovered(counts[0], counts[1..])
  }

  /** A register that has moved on by n shows n modulo 2^32, however often it wrapped. */
  lemma ModularDelta(last: nat, n: nat)
    requires last < U32
    ensures ((last + n) % U32 - last) % U32 == n % U32
  {
    var q := (last + n) / U32;
    assert (last + n) % U32 - last == n - q * U32;
    assert (n - q * U32) % U32 == n % U32;
  }

  lemma ReduceEarly32(x: nat, y: nat)
    ensures (x % U32 + y) % U32 == (x + y) % U32
  {
    var q := x / U32;
    assert x + y == (x % U32 + y) + q * U32;
  }

  lemma ReduceEarly64(x: nat, y: nat)
    ensures (x % U64 + y) % U64 == (x + y) % U64
  {
    var q := x / U64;
    assert x + y == (x % U64 + y) + q * U64;
  }

  lemma {:induction false} SampledIsRecovered(a: Acc, from: nat, counts: seq<nat>)
    requires a.lastHw == from % U32 && a.total < U64
    requires NonDecreasing(from, counts)
    ensures Sampled(a, counts)
            == Acc((a.total + Recovered(from, counts)) % U64, LastCount(from, counts) % U32)
    decreases |counts|
  {
    if counts != [] {
      var c := counts[0];
      var n := c - from;
      var b := Update(a, c % U32);
      ModularDelta(a.lastHw, n);
      ReduceEarly32(from, n);
      assert b == Acc((a.total + n % U32) % U64, c % U32);
      SampledIsRecovered(b, c, counts[1..]);
      ReduceEarly64(a.total + n % U32, Recovered(c, counts[1..]));
    }
  }

  lemma {:induction false} RecoveredExactly(from: nat, counts: seq<nat>)
    requires NonDecreasing(from, counts)
    ensures Recovered(from, counts) <= LastCount(from, counts) - from
    ensures Recovered(from, counts) == LastCount(from, counts) - from <==> CloseSamples(from, counts)
    decreases |counts|
  {
    if counts != [] {
      RecoveredExactly(counts[0], counts[1..]);
      assert LastCount(from, counts) == LastCount(counts[0], counts[1..]);
    }
  }

  /** The total follows the unbounded count through any number of 32-bit wraps exactly
      when fewer than 2^32 pulses separate neighbouring samples. */
  lemma {:induction false} WrapRefinement(a: Acc, from: nat, counts: seq<nat>)
    requires a.lastHw == from % U32 && NonDecreasing(from, counts)
    requires a.total + LastCount(from, counts) < U64
    ensures Sampled(a, counts).total == a.total + (LastCount(from, counts) - from)
            <==> CloseSamples(from, counts)
    ensures LastCount(from, counts) >= from
  {
    SampledIsRecovered(a, from, counts);
    RecoveredExactly(from, counts);
    NoWrap(a.total + Recovered(from, counts));
  }

  lemma NoWrap(x: nat)
    requires x < U64
    ensures x % U64 == x
  {
  }

  class Accumulator {
    var total: nat
    var lastHw: nat

    function State(): Acc
      reads this
    {
      Acc(total, lastHw)
    }

    constructor ()
      ensures State() == Acc(0, 0)
    {
      total, lastHw := 0, 0;
    }

    method UpdateFrom(hwCounter: nat)
      modifies this
      ensures State() == Update(old(State()), hwCounter)
    {
      var delta := (hwCounter - lastHw) % U32;
      total := (total + delta) % U64;
      lastHw := hwCounter;
    }

    method RestoreTo(savedTotal: nat)
      modifies this
      ensures State() == Restore(savedTotal)
    {
      total := savedTotal;
      lastHw := 0;
    }
  }
}
