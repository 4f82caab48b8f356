/** When a cuckoo hash map grows and shrinks: the limits on the number of entries,
    in the 32- and 64-bit arithmetic they are computed in. */
module LoadFactor {
  import opened Powers

  /** 85% and 20% of UINT32_MAX, rounded down. */
  const MAX_LOAD: nat := 3_650_722_200
  const MIN_LOAD: nat := 858_993_459

  const MAX_LOG: nat := 29

  /** The upper half of the low 64 bits of a product. */
  function Scaled(slots: nat, load: nat): nat
  {
    (slots * load) % 0x1_0000_0000_0000_0000 / 0x1_0000_0000
  }

  /** With `nb` buckets of `k` slots: grow at this many entries, shrink below. */
  function MaxN(nb: nat, k: nat): nat { Scaled(nb * k, MAX_LOAD) }
  function MinN(nb: nat, k: nat): nat { Scaled(nb * k, MIN_LOAD) }

  lemma {:induction false} Pow2Bound(e: nat)
    requires e <= MAX_LOG
    ensures Pow2(e) <= 0x2000_0000
    ensures e < MAX_LOG ==> Pow2(e) <= 0x1000_0000
  {
    Pow2Grows(e, MAX_LOG);
    if e < MAX_LOG {
      Pow2Grows(e, MAX_LOG - 1);
    }
    Pow2At29();
  }

  lemma Pow2At29()
    ensures Pow2(28) == 0x1000_0000 && Pow2(29) == 0x2000_0000 && Pow2(30) == 0x4000_0000
  {
    assert Pow2(8) == 256;
    assert Pow2(16) == 0x1_0000;
    assert Pow2(24) == 0x100_0000;
  }

  /** Without overflow the limits follow the products. */
  lemma ScaledOrder(c: nat, x: nat, d: nat, y: nat)
    requires c * x <= d * y < 0x1_0000_0000_0000_0000
    ensures Scaled(c, x) <= Scaled(d, y)
    ensures c * x + 0x1_0000_0000 <= d * y ==> Scaled(c, x) < Scaled(d, y)
  {
    var p, q: nat := c * x, d * y;
    Quotients(p, q);
    assert p % 0x1_0000_0000_0000_0000 == p && q % 0x1_0000_0000_0000_0000 == q;
  }

  lemma Quotients(p: nat, q: nat)
    requires p <= q
    ensures p / 0x1_0000_0000 <= q / 0x1_0000_0000
    ensures p + 0x1_0000_0000 <= q ==> p / 0x1_0000_0000 < q / 0x1_0000_0000
  {
  }

  ghost predicate SlotCount(k: nat) { k == 5 || k == 7 || k == 8 }

  /** Doubling below the limit makes room for the entries that filled the table. */
  lemma GrowMakesRoom(e: nat, k: nat)
    requires SlotCount(k) && e < MAX_LOG
    ensures MaxN(Pow2(e), k) < MaxN(Pow2(e + 1), k)
  {
    Pow2Bound(e);
    var c := Pow2(e) * k;
    DoubleTimes(Pow2(e + 1), Pow2(e), k);
    assert 5 <= c <= 0x8000_0000;
    ScaledOrder(c, MAX_LOAD, 2 * c, MAX_LOAD);
  }

  /** Halving leaves room for the entries of a table that has become sparse. */
  lemma ShrinkLeavesRoom(e: nat, k: nat)
    requires SlotCount(k) && e <= MAX_LOG
    ensures MinN(Pow2(e), k) <= MaxN(Pow2(if e == 0 then 0 else e - 1), k)
  {
    SlotsBound(e, k);
    if e == 0 {
      SparseFits(k, k);
    } else {
      DoubleTimes(Pow2(e), Pow2(e - 1), k);
      SparseFits(Pow2(e) * k, Pow2(e - 1) * k);
    }
  }

  lemma SlotsBound(e: nat, k: nat)
    requires SlotCount(k) && e <= MAX_LOG
    ensures Pow2(e) * k <= 0x1_0000_0000
  {
    Pow2Bound(e);
    Times(Pow2(e), k);
  }

  lemma Times(p: nat, k: nat)
    requires SlotCount(k) && p <= 0x2000_0000
    ensures p * k <= 0x1_0000_0000
  {
  }

  lemma DoubleTimes(p: nat, q: nat, k: nat)
    requires p == 2 * q
    ensures p * k == 2 * (q * k)
  {
  }

  lemma SparseFits(c: nat, d: nat)
    requires d <= c <= 2 * d <= 0x2_0000_0000 && c <= 0x1_0000_0000
    ensures Scaled(c, MIN_LOAD) <= Scaled(d, MAX_LOAD)
  {
    ScaledOrder(c, MIN_LOAD, d, MAX_LOAD);
  }

  /** At the limit the 64-bit product overflows: a table of 2^30 buckets would be
      thought full with fewer entries than the one of 2^29 it is to replace. */
  lemma GrowOverflows(k: nat)
    requires SlotCount(k)
    ensures MaxN(Pow2(MAX_LOG + 1), k) <= MaxN(Pow2(MAX_LOG), k)
  {
    hide Pow2, MaxN;
    Pow2At29();
    LimitsAtOverflow();
  }

  lemma LimitsAtOverflow()
    ensures MaxN(0x4000_0000, 5) == 268_435_454 && MaxN(0x2000_0000, 5) == 2_281_701_375
    ensures MaxN(0x4000_0000, 7) == 2_093_796_554 && MaxN(0x2000_0000, 7) == 3_194_381_925
    ensures MaxN(0x4000_0000, 8) == 3_006_477_104 && MaxN(0x2000_0000, 8) == 3_650_722_200
  {
  }

  /** A table that has reached its limit has room once doubled if and only if it
      has fewer than 2^29 buckets. */
  lemma GrowthExact(e: nat, k: nat)
    requires SlotCount(k) && e <= MAX_LOG
    ensures MaxN(Pow2(e), k) < MaxN(Pow2(e + 1), k) <==> e < MAX_LOG
  {
    if e < MAX_LOG {
      GrowMakesRoom(e, k);
    } else {
      GrowOverflows(k);
    }
  }
}
