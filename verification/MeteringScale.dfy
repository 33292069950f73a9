/** metering_scale.c: the 48-bit wire form of CurrentSummationDelivered. */
module MeteringScale {
  import opened Words

  datatype MeteringU48 = MeteringU48(low: nat, high: nat)

  function ToU48(pulseTotal: nat): MeteringU48 {
    var t := if pulseTotal > U48 - 1 then U48 - 1 else pulseTotal;
    MeteringU48(t % U32, t / U32 % U16)
  }

  /** The value a coordinator reads from the two halves. */
  function Decode(v: MeteringU48): nat { v.high * U32 + v.low }

  /** The wire form fits its halves and decodes to the total, saturated; it therefore
      never wraps to a smaller value. */
  lemma DecodeEncode(t: nat)
    ensures ToU48(t).low < U32 && ToU48(t).high < U16
    ensures Decode(ToU48(t)) == Min(t, U48 - 1)
  {
    var c := Min(t, U48 - 1);
    assert c / U32 < U16;
  }

  lemma EncodeIsMonotone(s: nat, t: nat)
    requires s <= t
    ensures Decode(ToU48(s)) <= Decode(ToU48(t))
  {
    DecodeEncode(s);
    DecodeEncode(t);
  }
}
