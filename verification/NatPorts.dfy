/** The order in which the port search goes through a range. */
module NatPorts {

  const MAX_ATTEMPTS: nat := 128

  predicate InRange(curr: nat, min: nat, max: nat) { min <= curr <= max }

  function NextPort(curr: nat, min: nat, max: nat): nat
  {
    if !InRange(curr, min, max) || curr == max then min else curr + 1
  }

  /** The size of the range, and how many ports a round may go through, both kept
      in 16 bits. */
  function Range16(min: nat, max: nat): nat
    requires min <= max
  {
    (max - min + 1) % 0x1_0000
  }

  function Limit16(curr: nat, min: nat, max: nat): nat
    requires min <= max
  {
    (max - min + if InRange(curr, min, max) then 1 else 2) % 0x1_0000
  }

  function Min(a: nat, b: nat): nat { if a < b then a else b }

  /** The next `n` ports from `curr`. */
  function Round(curr: nat, min: nat, max: nat, n: nat): (ports: seq<nat>)
    ensures |ports| == n
    decreases n
  {
    if n == 0 then [] else [curr] + Round(NextPort(curr, min, max), min, max, n - 1)
  }

  /** All ports tried with so many attempts in the first round, half as many in
      each further one, which starts at random. */
  function Rounds(curr: nat, min: nat, max: nat, attempts: nat, random: nat -> nat, k: nat): seq<nat>
    requires min <= max
    decreases attempts
  {
    var range := Range16(min, max);
    Round(curr, min, max, Min(attempts, Limit16(curr, min, max)))
    + if attempts < range && attempts >= 16 then
        Rounds(min + random(k) % range, min, max, attempts / 2, random, k + 1)
      else []
  }

  lemma RoundsUnfold(curr: nat, min: nat, max: nat, attempts: nat, random: nat -> nat, k: nat)
    requires min <= max
    ensures var round := Round(curr, min, max, Min(attempts, Limit16(curr, min, max)));
            Rounds(curr, min, max, attempts, random, k) ==
            if attempts < Range16(min, max) && attempts >= 16 then
              round + Rounds(min + random(k) % Range16(min, max), min, max, attempts / 2, random, k + 1)
            else round
  {
    hide Round, Limit16, Range16;
  }

  function Tries(curr: nat, min: nat, max: nat, random: nat -> nat): seq<nat>
    requires min <= max
  {
    Rounds(curr, min, max, Min(Range16(min, max), MAX_ATTEMPTS), random, 0)
  }

  /** A round that starts in the range goes around it. */
  lemma {:induction false} RoundAt(curr: nat, min: nat, max: nat, n: nat, i: nat)
    requires InRange(curr, min, max) && i < n && i <= max - min
    ensures Round(curr, min, max, n)[i] == if curr + i <= max then curr + i else min + (curr + i - max - 1)
    decreases i
  {
    if i > 0 {
      RoundAt(NextPort(curr, min, max), min, max, n - 1, i - 1);
    }
  }

  /** From outside it starts with one port more, and then at the lower end. */
  lemma {:induction false} RoundFromOutside(curr: nat, min: nat, max: nat, n: nat, i: nat)
    requires min <= max && !InRange(curr, min, max) && i < n <= max - min + 1
    ensures Round(curr, min, max, n)[i] == if i == 0 then curr else min + i - 1
  {
    if i > 0 {
      RoundAt(min, min, max, n - 1, i - 1);
    }
  }

  lemma TriesSmall(curr: nat, min: nat, max: nat, random: nat -> nat)
    requires min <= max && max - min + 1 <= MAX_ATTEMPTS
    ensures Tries(curr, min, max, random) == Round(curr, min, max, max - min + 1)
  {
    hide Round, Rounds;
    var n := max - min + 1;
    assert Range16(min, max) == n && Limit16(curr, min, max) >= n;
    RoundsUnfold(curr, min, max, n, random, 0);
  }

  lemma Sizes(curr: nat, min: nat, max: nat)
    requires min <= max < 0x1_0000
    ensures var n := max - min + 1;
            && Range16(min, max) == (if n == 0x1_0000 then 0 else n)
            && (n < 0x1_0000 && InRange(curr, min, max) ==> Limit16(curr, min, max) == n)
            && (n < 0xffff && !InRange(curr, min, max) ==> Limit16(curr, min, max) == n + 1)
            && (n == 0xffff && !InRange(curr, min, max) ==> Limit16(curr, min, max) == 0)
  {
  }

  lemma TriesLarge(curr: nat, min: nat, max: nat, random: nat -> nat) returns (rest: seq<nat>)
    requires min <= max < 0x1_0000 && curr < 0x1_0000 && max - min + 1 > MAX_ATTEMPTS
    ensures var n := max - min + 1;
            Tries(curr, min, max, random) ==
            if n == 0x1_0000 then []
            else if n == 0xffff && !InRange(curr, min, max) then
              Round(min + random(0) % n, min, max, MAX_ATTEMPTS / 2) + rest
            else Round(curr, min, max, MAX_ATTEMPTS) + rest
  {
    hide Round, Rounds, Range16, Limit16;
    rest := [];
    var n := max - min + 1;
    Sizes(curr, min, max);
    if n == 0x1_0000 {
      assert Round(curr, min, max, 0) == [];
      RoundsUnfold(curr, min, max, 0, random, 0);
    } else {
      RoundsUnfold(curr, min, max, MAX_ATTEMPTS, random, 0);
      var next := min + random(0) % n;
      rest := Rounds(next, min, max, MAX_ATTEMPTS / 2, random, 1);
      if n == 0xffff && !InRange(curr, min, max) {
        assert Round(curr, min, max, 0) == [];
        RestartWithin(min, max, random(0));
        Sizes(next, min, max);
        RoundsUnfold(next, min, max, MAX_ATTEMPTS / 2, random, 1);
        rest := Rounds(min + random(1) % n, min, max, MAX_ATTEMPTS / 4, random, 2);
      }
    }
  }

  lemma RoundCovers(curr: nat, min: nat, max: nat, q: nat)
    requires InRange(curr, min, max) && InRange(q, min, max)
    ensures q in Round(curr, min, max, max - min + 1)
  {
    var i := if q >= curr then q - curr else max + 1 - curr + q - min;
    RoundAt(curr, min, max, max - min + 1, i);
  }

  lemma RoundMisses(curr: nat, min: nat, max: nat)
    requires min <= max && !InRange(curr, min, max)
    ensures max !in Round(curr, min, max, max - min + 1)
  {
    var ports := Round(curr, min, max, max - min + 1);
    forall i | 0 <= i < |ports| ensures ports[i] != max {
      RoundFromOutside(curr, min, max, |ports|, i);
    }
  }

  /** With at most 128 ports, the search tries all of them if and only if it
      starts at one of them. */
  lemma TriesAll(curr: nat, min: nat, max: nat, random: nat -> nat)
    requires min <= max && max - min + 1 <= MAX_ATTEMPTS
    ensures (forall q | InRange(q, min, max) :: q in Tries(curr, min, max, random)) <==> InRange(curr, min, max)
  {
    TriesSmall(curr, min, max, random);
    hide Tries, Round;
    if InRange(curr, min, max) {
      forall q | InRange(q, min, max) ensures q in Tries(curr, min, max, random) {
        RoundCovers(curr, min, max, q);
      }
    } else {
      RoundMisses(curr, min, max);
      assert InRange(max, min, max);
    }
  }

  /** With more, the first 128 are tried, with two exceptions, where 16 bits are too
      few.  With all 65536 ports the size of the range is zero, and none is tried.
      With 65535, from the one port outside, the first round is empty, and the next
      one tries 64. */
  lemma TriesFirst(curr: nat, min: nat, max: nat, random: nat -> nat)
    requires min <= max < 0x1_0000 && curr < 0x1_0000 && max - min + 1 > MAX_ATTEMPTS
    ensures var n := max - min + 1;
            && (n < 0xffff || (n == 0xffff && InRange(curr, min, max)) ==>
                  Round(curr, min, max, MAX_ATTEMPTS) <= Tries(curr, min, max, random))
            && (n == 0xffff && !InRange(curr, min, max) ==>
                  Round(min + random(0) % n, min, max, MAX_ATTEMPTS / 2) <= Tries(curr, min, max, random))
    ensures Tries(curr, min, max, random) == [] <==> min == 0 && max == 0xffff
  {
    var rest := TriesLarge(curr, min, max, random);
    hide Tries;
  }

  /** Every port tried is the first or in the range. */
  lemma {:induction false} RoundWithin(curr: nat, min: nat, max: nat, n: nat)
    requires min <= max
    ensures forall p | p in Round(curr, min, max, n) :: p == curr || InRange(p, min, max)
    decreases n
  {
    if n > 0 {
      RoundWithin(NextPort(curr, min, max), min, max, n - 1);
    }
  }

  lemma RestartWithin(min: nat, max: nat, x: nat)
    requires min <= max < 0x1_0000 && Range16(min, max) > 0
    ensures InRange(min + x % Range16(min, max), min, max)
  {
    assert Range16(min, max) == max - min + 1;
  }

  lemma {:induction false} RoundsWithin(curr: nat, min: nat, max: nat, attempts: nat, random: nat -> nat, k: nat)
    requires min <= max < 0x1_0000
    ensures forall p | p in Rounds(curr, min, max, attempts, random, k) :: p == curr || InRange(p, min, max)
    decreases attempts
  {
    hide Round, Rounds, Range16, Limit16;
    var range := Range16(min, max);
    RoundsUnfold(curr, min, max, attempts, random, k);
    RoundWithin(curr, min, max, Min(attempts, Limit16(curr, min, max)));
    if attempts < range && attempts >= 16 {
      RestartWithin(min, max, random(k));
      RoundsWithin(min + random(k) % range, min, max, attempts / 2, random, k + 1);
    }
  }
}
