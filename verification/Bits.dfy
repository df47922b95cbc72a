/**
 The bitwise or of the source's bit packing, on naturals, with the one law packing needs: fields
 that share no bit add up.
 */
module Bits {
  function Or(a: nat, b: nat): (r: nat)
    decreases a + b
  {
    if a == 0 then b else if b == 0 then a
    else 2 * Or(a / 2, b / 2) + (if a % 2 == 1 || b % 2 == 1 then 1 else 0)
  }

  function Pow2(n: nat): (p: nat)
    ensures p > 0
  {
    if n == 0 then 1 else 2 * Pow2(n - 1)
  }

  // A field of n low bits under a field that starts at bit n.
  lemma {:induction false} OrOfFields(high: nat, low: nat, n: nat)
    requires low < Pow2(n)
    ensures Or(high * Pow2(n), low) == high * Pow2(n) + low
  {
    if n > 0 && high > 0 && low > 0 {
      var h := high * Pow2(n - 1);
      Halves(high, n);
      OrOfFields(high, low / 2, n - 1);
      assert high * Pow2(n) == 2 * h;
      assert Or(2 * h, low) == 2 * Or(h, low / 2) + low % 2;
    }
  }

  lemma Halves(high: nat, n: nat)
    requires n > 0
    ensures high * Pow2(n) == 2 * (high * Pow2(n - 1))
  {
    assert high * (2 * Pow2(n - 1)) == 2 * (high * Pow2(n - 1));
  }

  lemma Powers()
    ensures Pow2(0) == 1 && Pow2(1) == 2 && Pow2(2) == 4 && Pow2(3) == 8 && Pow2(4) == 16
    ensures Pow2(5) == 32 && Pow2(6) == 64 && Pow2(7) == 128 && Pow2(8) == 256
  {
    assert Pow2(4) == 16;
  }

  // The byte-sized instances.
  lemma OrIsSum(high: nat, low: nat, n: nat)
    requires n <= 8 && low < Pow2(n) && high % Pow2(n) == 0
    ensures Or(high, low) == high + low
  {
    var p := Pow2(n);
    assert high == high / p * p;
    OrOfFields(high / p, low, n);
  }
}
