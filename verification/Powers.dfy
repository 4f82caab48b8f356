/** Powers of two, for shifts and table sizes. */
module Powers {

  function Pow2(e: nat): (r: nat)
    ensures r > 0
  {
    if e == 0 then 1 else 2 * Pow2(e - 1)
  }

  lemma {:induction false} Pow2Grows(e: nat, f: nat)
    requires e <= f
    ensures Pow2(e) <= Pow2(f)
    decreases f
  {
    if e < f {
      Pow2Grows(e, f - 1);
    }
  }
}
