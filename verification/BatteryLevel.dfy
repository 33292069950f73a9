/** battery_level.c, and the wire encodings of section 3.3 of the Zigbee Cluster Library
    (07-5123): half per cents up to 200, tenths of a volt, 0xFF for "unknown". */
module BatteryLevel {
  import opened Words

  const UNKNOWN: nat := 0xFF

  function Percent(mv: nat, emptyMv: nat, fullMv: nat): nat {
    if fullMv <= emptyMv then 0
    else if mv <= emptyMv then 0
    else if mv >= fullMv then 100
    else
      var span, above := fullMv - emptyMv, mv - emptyMv;
      (above * 100 + span / 2) / span
  }

  function ZclPercentage(percent: nat): nat {
    if percent >= 100 then 200 else percent * 2
  }

  function ZclVoltage(mv: nat): nat {
    var units := (mv + 50) / 100;
    if units > 254 then 254 else units
  }

  lemma RoundedBelow(above: nat, span: nat)
    requires above < span
    ensures (above * 100 + span / 2) / span <= 100
    ensures var q := (above * 100 + span / 2) / span;
            span * q <= above * 100 + span / 2 < span * q + span
  {
    var x := above * 100 + span / 2;
    var q := x / span;
    assert x < 101 * span;
    ScaledOrder(101, q, span);
  }

  lemma PercentIsAtMost100(mv: nat, emptyMv: nat, fullMv: nat)
    ensures Percent(mv, emptyMv, fullMv) <= 100
  {
    if emptyMv < mv < fullMv {
      RoundedBelow(mv - emptyMv, fullMv - emptyMv);
    }
  }

  /** Inside a valid range the result is within half a unit of the exact percentage, and
      no intermediate value overflows 32 bits. */
  lemma PercentIsRoundedToNearest(mv: nat, emptyMv: nat, fullMv: nat)
    requires mv < U16 && fullMv < U16 && emptyMv <= mv <= fullMv && emptyMv < fullMv
    ensures var span, above := fullMv - emptyMv, mv - emptyMv;
            && -span <= 2 * (span * Percent(mv, emptyMv, fullMv) - above * 100) <= span
            && above * 100 + span / 2 < U32
  {
    if emptyMv < mv < fullMv {
      RoundedBelow(mv - emptyMv, fullMv - emptyMv);
    }
  }

  lemma QuotientIsMonotone(x: nat, y: nat, k: nat)
    requires k > 0 && x <= y
    ensures x / k <= y / k
  {
    var a, b := x / k, y / k;
    assert k * a <= x && y < k * b + k;
    ScaledOrder(b + 1, a, k);
  }

  /** A fuller battery never reads lower, whatever the end points. */
  lemma {:induction false} PercentIsMonotone(mv: nat, mv': nat, emptyMv: nat, fullMv: nat)
    requires mv <= mv' < U16 && emptyMv < U16 && fullMv < U16
    ensures Percent(mv, emptyMv, fullMv) <= Percent(mv', emptyMv, fullMv)
  {
    if fullMv <= emptyMv || mv <= emptyMv {
      assert Percent(mv, emptyMv, fullMv) == 0;
    } else if mv' >= fullMv {
      PercentIsAtMost100(mv, emptyMv, fullMv);
    } else {
      var span := fullMv - emptyMv;
      QuotientIsMonotone((mv - emptyMv) * 100 + span / 2, (mv' - emptyMv) * 100 + span / 2, span);
    }
  }

  /** Every reading, of a misconfigured range too, encodes to a defined wire value, never the
      "unknown" sentinel, and the encodings keep the order of the readings. */
  lemma {:induction false} WireValuesAreDefined(mv: nat, mv': nat, emptyMv: nat, fullMv: nat)
    requires mv <= mv' < U16 && emptyMv < U16 && fullMv < U16
    ensures ZclPercentage(Percent(mv, emptyMv, fullMv))
            <= ZclPercentage(Percent(mv', emptyMv, fullMv)) <= 200 < UNKNOWN
    ensures ZclVoltage(mv) <= ZclVoltage(mv') <= 254 < UNKNOWN
    ensures ZclPercentage(Percent(mv, emptyMv, fullMv)) == 2 * Percent(mv, emptyMv, fullMv)
    ensures fullMv <= emptyMv ==> Percent(mv, emptyMv, fullMv) == 0
    ensures mv < 25450 ==> -50 <= mv - 100 * ZclVoltage(mv) <= 50
  {
    PercentIsMonotone(mv, mv', emptyMv, fullMv);
    PercentIsAtMost100(mv, emptyMv, fullMv);
    PercentIsAtMost100(mv', emptyMv, fullMv);
    QuotientIsMonotone(mv + 50, mv' + 50, 100);
  }
}
