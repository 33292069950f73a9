/** Machine-word sizes and the one container type the other modules share. */
module Words {
  const U16: nat := 0x1_0000
  const U24: nat := 0x100_0000
  const U32: nat := 0x1_0000_0000
  const U48: nat := 0x1_0000_0000_0000
  const U64: nat := 0x1_0000_0000_0000_0000

  datatype Option<+T> = None | Some(value: T)

  function Min(a: int, b: int): int {
    if a <= b then a else b
  }

  lemma {:induction false} ScaleUp(a: int, b: int, k: nat)
    requires a <= b
    ensures k * a <= k * b
    decreases k
  {
    if k > 0 {
      ScaleUp(a, b, k - 1);
      assert k * a == (k - 1) * a + a && k * b == (k - 1) * b + b;
    }
  }

  lemma ScaledOrder(a: int, b: int, k: nat)
    ensures a <= b ==> k * a <= k * b
    ensures a > b ==> k * a >= k * b + k
  {
    if a <= b {
      ScaleUp(a, b, k);
    } else {
      ScaleUp(b + 1, a, k);
      assert k * (b + 1) == k * b + k;
    }
  }
}
