/** Powers of two. */
module Powers {

  function Pow(k: nat): (r: nat)
    ensures r >= 1
  {
    if k == 0 then 1 else 2 * Pow(k - 1)
  }

  lemma {:induction false} PowSum(a: nat, b: nat)
    ensures Pow(a + b) == Pow(a) * Pow(b)
  {
    if a > 0 { PowSum(a - 1, b); }
  }

  lemma {:induction false} PowMono(a: nat, b: nat)
    requires a <= b
    ensures Pow(a) <= Pow(b) && (a < b ==> Pow(a) < Pow(b))
    decreases b
  {
    if a < b { PowMono(a, b - 1); }
  }

  lemma PowZero()
    ensures Pow(0) == 1 && Pow(1) == 2
  {}
}
