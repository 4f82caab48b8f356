/** The Internet checksum (RFC 1071) and its incremental update (equation 3 in
    section 3 of RFC 1624). */
module Checksum {

  const M: nat := 0xffff
  const WORD: nat := 0x1_0000
  const TWO32: nat := 0x1_0000_0000

  type Byte = b: nat | b < 256
  type Word = w: nat | w < WORD
  type Word32 = u: nat | u < TWO32

  /** What a sum comes to in ones-complement arithmetic: its residue, with 0xffff
      for the multiples of it other than zero. */
  function Fold(s: nat): (r: Word)
  {
    if s == 0 then 0 else (s - 1) % M + 1
  }

  function Complement(w: Word): Word { M - w }

  // -------------------------------------------------------------------- finishing

  /** The sum of the halves folds to the same. */
  lemma FoldHalves(s: nat)
    ensures Fold(s % WORD + s / WORD) == Fold(s)
  {
    var hi, lo := s / WORD, s % WORD;
    if s > 0 {
      assert s - 1 == (hi + lo - 1) + hi * M;
      ModShift(hi + lo - 1, hi);
    }
  }

  lemma {:induction false} ModShift(x: nat, k: nat)
    ensures (x + k * M) % M == x % M
    decreases k
  {
    if k > 0 {
      ModShift(x, k - 1);
      var y := x + (k - 1) * M;
      assert x + k * M == y + M;
      assert (y + M) % M == y % M;
    }
  }

  /** The method depends on the sum only through what it folds to. */
  method Finish(partial: nat) returns (c: Word)
    ensures c == Complement(Fold(partial))
  {
    var p: nat := partial;
    while p / WORD > 0
      invariant Fold(p) == Fold(partial)
      decreases p
    {
      FoldHalves(p);
      p := p % WORD + p / WORD;
    }
    FoldSmall(p);
    c := Complement(p);
  }

  /** What a sum folds to depends only on its residue and on whether it is zero. */
  lemma FoldCongruent(s: nat, t: nat)
    ensures Fold(s) == Fold(t) <==> s % M == t % M && (s == 0 <==> t == 0)
  {
    FoldResidue(s);
    FoldResidue(t);
  }

  lemma FoldResidue(s: nat)
    ensures Fold(s) % M == s % M && (Fold(s) == 0 <==> s == 0)
    ensures s > 0 ==> Fold(s) == if s % M == 0 then M else s % M
  {
    if s > 0 {
      var q, r := (s - 1) / M, (s - 1) % M;
      assert s == (r + 1) + q * M;
      ModShift(r + 1, q);
    }
  }

  // -------------------------------------------------------------------- summing up

  /** Two bytes in memory as the host reads them. */
  function Pair(a: Byte, b: Byte, big: bool): Word
  {
    var x: nat, y: nat := a, b;
    if big then x * 256 + y else x + 256 * y
  }

  /** The sum of the 16-bit words; an odd last byte is followed by a zero. */
  function Words(data: seq<Byte>, big: bool): nat
  {
    if |data| == 0 then 0
    else if |data| == 1 then Pair(data[0], 0, big)
    else Pair(data[0], data[1], big) + Words(data[2..], big)
  }

  /** Adds the data to a partial sum of 32 bits. */
  method Continue(partial: nat, data: seq<Byte>, big: bool) returns (r: nat)
    requires partial < TWO32
    ensures r == (partial + Words(data, big)) % TWO32
  {
    r := partial;
    var i, n := 0, |data|;
    ghost var sum: nat := partial;
    while n > 1
      invariant i + n == |data| && 0 <= n
      invariant sum + Words(data[i..], big) == partial + Words(data, big) && r == sum % TWO32
    {
      var w: nat := Pair(data[i], data[i + 1], big);
      assert data[i..][2..] == data[i + 2..];
      Wrap(sum, w);
      sum := sum + w;
      r := (r + w) % TWO32;
      i, n := i + 2, n - 2;
    }
    if n == 1 {
      var w: nat := Pair(data[i], 0, big);
      Wrap(sum, w);
      r := (r + w) % TWO32;
    }
  }

  lemma Wrap(sum: nat, w: nat)
    ensures (sum % TWO32 + w) % TWO32 == (sum + w) % TWO32
  {
    var q, r := sum / TWO32, sum % TWO32;
    assert sum + w == q * TWO32 + (r + w);
  }

  /** The checksum of the bytes. */
  function Afresh(data: seq<Byte>, big: bool): Word
  {
    Complement(Fold(Words(data, big)))
  }

  method Csum(data: seq<Byte>, big: bool) returns (c: Word)
    requires Words(data, big) < TWO32
    ensures c == Afresh(data, big)
  {
    var partial := Continue(0, data, big);
    c := Finish(partial);
  }

  function Swap(w: Word): Word { w % 256 * 256 + w / 256 }

  /** The checksum is the same in memory whichever way the host orders bytes. */
  lemma {:induction false} ByteOrder(data: seq<Byte>)
    ensures Afresh(data, false) == Swap(Afresh(data, true))
  {
    WordsSwapped(data);
    var s, t := Words(data, true), Words(data, false);
    SwapFold(s, t);
    SwapComplement(Fold(s));
  }

  lemma SwapComplement(f: Word)
    ensures Swap(Complement(f)) == Complement(Swap(f))
  {
    var n: nat := f;
    var hi, lo := n / 256, n % 256;
    assert M - n == (255 - hi) * 256 + (255 - lo);
  }

  lemma {:induction false} WordsSwapped(data: seq<Byte>)
    ensures Words(data, false) % M == (256 * Words(data, true)) % M
    ensures Words(data, false) == 0 <==> Words(data, true) == 0
    decreases |data|
  {
    if |data| == 1 {
      var a: nat := data[0];
      ModShift(a, a);
      assert 256 * (a * 256) == a + a * M;
    } else if |data| > 1 {
      var rest := data[2..];
      WordsSwapped(rest);
      var a: nat, b: nat := data[0], data[1];
      var s, t := Words(rest, true), Words(rest, false);
      ModShift(a + 256 * b + 256 * s, a);
      assert 256 * (a * 256 + b + s) == a + 256 * b + 256 * s + a * M;
      ModAdd(t, 256 * s, a + 256 * b);
    }
  }

  lemma ModAdd(x: nat, y: nat, z: nat)
    requires x % M == y % M
    ensures (x + z) % M == (y + z) % M
  {
    var r := x % M;
    ModShift(r + z, x / M);
    ModShift(r + z, y / M);
    assert x + z == r + z + x / M * M && y + z == r + z + y / M * M;
  }

  lemma SwapFold(s: nat, t: nat)
    requires t % M == (256 * s) % M && (s == 0 <==> t == 0)
    ensures Fold(t) == Swap(Fold(s))
  {
    if s > 0 {
      FoldResidue(s);
      var f: nat := Fold(s);
      var hi, lo := f / 256, f % 256;
      assert 256 * f == (lo * 256 + hi) + hi * M;
      ModShift(lo * 256 + hi, hi);
      ModTimes(s, f);
      FoldCongruent(t, Swap(f));
      FoldSmall(Swap(f));
    }
  }

  lemma ModTimes(x: nat, y: nat)
    requires x % M == y % M
    ensures (256 * x) % M == (256 * y) % M
  {
    var r := x % M;
    ModShift(256 * r, 256 * (x / M));
    ModShift(256 * r, 256 * (y / M));
    assert 256 * x == 256 * r + 256 * (x / M) * M && 256 * y == 256 * r + 256 * (y / M) * M;
  }

  lemma FoldSmall(w: Word)
    ensures Fold(w) == w
  {
  }

  // --------------------------------------------------------------------- updating

  /** The updated checksum when a word changes. */
  function Recalc(old_: Word, was: Word, now: Word): Word
  {
    var x: nat, y: nat, z: nat := Complement(old_), Complement(was), now;
    Complement(Fold(x + y + z))
  }

  method Recalc16(old_: Word, was: Word, now: Word) returns (c: Word)
    ensures c == Recalc(old_, was, now)
  {
    var x: nat, y: nat, z: nat := Complement(old_), Complement(was), now;
    c := Finish(x + y + z);
  }

  /** The checksum, where it is not computed afresh, for a given sum: that of a
      sum of zero is taken for that of 0xffff. */
  function Updated(s: nat): Word { if s == 0 then 0 else Complement(Fold(s)) }

  /** A checksum that is right for the sum, however it was obtained. */
  predicate Right(c: Word, s: nat) { c == Complement(Fold(s)) || c == Updated(s) }

  /** Updating a right checksum for one word gives the updated one. */
  lemma RecalcUpdates(c: Word, s: nat, was: Word, now: Word)
    requires Right(c, s) && was <= s
    ensures Recalc(c, was, now) == Updated(s - was + now)
  {
    var x: nat, y: nat, z: nat, w: nat := Complement(c), Complement(was), now, was;
    var t, s' := x + y + z, s - w + z;
    FoldResidue(s);
    assert x % M == s % M;
    ModAdd(x, s, M - w + z);
    assert s + (M - w + z) == s' + M;
    ModShift(s', 1);
    FoldResidue(t);
    FoldResidue(s');
    assert t > 0;
  }

  // ------------------------------------------------------------- updating for bytes

  /** `data` with the bytes from `at` on replaced. */
  function Patched(data: seq<Byte>, at: nat, now: seq<Byte>): (r: seq<Byte>)
    requires at + |now| <= |data|
    ensures |r| == |data|
  {
    data[..at] + now + data[at + |now|..]
  }

  lemma {:induction false} WordsJoin(a: seq<Byte>, b: seq<Byte>, big: bool)
    requires |a| % 2 == 0
    ensures Words(a + b, big) == Words(a, big) + Words(b, big)
    decreases |a|
  {
    if a == [] {
      assert a + b == b;
    } else {
      WordsJoin(a[2..], b, big);
      assert (a + b)[2..] == a[2..] + b;
    }
  }

  /** What a change of whole words does to the sum. */
  lemma WordsPatched(data: seq<Byte>, at: nat, now: seq<Byte>, big: bool)
    requires at % 2 == 0 && |now| % 2 == 0 && at + |now| <= |data|
    ensures var was := Words(data[at..at + |now|], big);
            was <= Words(data, big) && Words(Patched(data, at, now), big) == Words(data, big) - was + Words(now, big)
  {
    var before, was, after := data[..at], data[at..at + |now|], data[at + |now|..];
    assert data == before + (was + after);
    assert Patched(data, at, now) == before + (now + after);
    WordsJoin(before, was + after, big);
    WordsJoin(was, after, big);
    WordsJoin(before, now + after, big);
    WordsJoin(now, after, big);
  }

  lemma {:induction false} WordsZero(data: seq<Byte>, big: bool)
    ensures Words(data, big) == 0 <==> forall i | 0 <= i < |data| :: data[i] == 0
    decreases |data|
  {
    if |data| > 1 {
      WordsZero(data[2..], big);
      assert forall i | 2 <= i < |data| :: data[i] == data[2..][i - 2];
    }
  }

  ghost predicate AllZero(data: seq<Byte>)
  {
    forall i | 0 <= i < |data| :: data[i] == 0
  }

  /** Incremental update gives what computing the checksum of the new bytes afresh
      gives, if and only if they are not all zero; else 0 instead of 0xffff. */
  lemma UpdatedExact(data: seq<Byte>, big: bool)
    ensures Updated(Words(data, big)) == Afresh(data, big) <==> !AllZero(data)
    ensures AllZero(data) ==> Updated(Words(data, big)) == 0 && Afresh(data, big) == M
  {
    WordsZero(data, big);
  }

  /** Updating for one aligned word of the data. */
  lemma RecalcAt(c: Word, data: seq<Byte>, at: nat, x: Byte, y: Byte, big: bool)
    requires at % 2 == 0 && at + 2 <= |data| && Right(c, Words(data, big))
    ensures Recalc(c, Pair(data[at], data[at + 1], big), Pair(x, y, big)) ==
            Updated(Words(Patched(data, at, [x, y]), big))
  {
    hide Words, Pair, Recalc, Updated, Right, Patched;
    WordsPatched(data, at, [x, y], big);
    assert data[at..at + 2] == [data[at], data[at + 1]];
    PairWords(data[at], data[at + 1], big);
    PairWords(x, y, big);
    RecalcUpdates(c, Words(data, big), Pair(data[at], data[at + 1], big), Pair(x, y, big));
  }

  lemma PairWords(x: Byte, y: Byte, big: bool)
    ensures Words([x, y], big) == Pair(x, y, big)
  {
    assert [x, y][2..] == [];
  }

  /** The lower and the upper half of a 32-bit value. */
  function Low(u: Word32): Word { var n: nat := u; n % WORD }
  function High(u: Word32): Word { var n: nat := u; n / WORD }

  /** A 16-bit value in the memory of the host. */
  function Stored16(w: Word, big: bool): (r: seq<Byte>)
    ensures |r| == 2 && Pair(r[0], r[1], big) == w
  {
    var n: nat := w;
    if big then [n / 256, n % 256] else [n % 256, n / 256]
  }

  function Stored32(u: Word32, big: bool): (r: seq<Byte>)
    ensures |r| == 4 && Pair(r[if big then 0 else 2], r[if big then 1 else 3], big) == High(u)
    ensures Pair(r[if big then 2 else 0], r[if big then 3 else 1], big) == Low(u)
  {
    if big then Stored16(High(u), big) + Stored16(Low(u), big) else Stored16(Low(u), big) + Stored16(High(u), big)
  }

  lemma Words32(u: Word32, big: bool)
    ensures Words(Stored32(u, big), big) == Low(u) + High(u)
  {
    var a, b := Stored16(Low(u), big), Stored16(High(u), big);
    if big {
      WordsJoin(b, a, big);
    } else {
      WordsJoin(a, b, big);
    }
    PairWords(a[0], a[1], big);
    PairWords(b[0], b[1], big);
    assert a == [a[0], a[1]] && b == [b[0], b[1]];
  }

  method Recalc32(old_: Word, was: Word32, now: Word32, ghost data: seq<Byte>, ghost at: nat, ghost big: bool)
    returns (c: Word)
    requires at % 2 == 0 && at + 4 <= |data| && data[at..at + 4] == Stored32(was, big)
    requires Right(old_, Words(data, big))
    ensures c == Updated(Words(Patched(data, at, Stored32(now, big)), big))
    ensures c == Afresh(Patched(data, at, Stored32(now, big)), big) <==> !AllZero(Patched(data, at, Stored32(now, big)))
  {
    hide Words, Recalc, Patched, Stored32;
    ghost var s := Words(data, big);
    WordsPatched(data, at, Stored32(now, big), big);
    Words32(was, big);
    Words32(now, big);
    RecalcUpdates(old_, s, Low(was), Low(now));
    c := Recalc16(old_, Low(was), Low(now));
    RecalcUpdates(c, s - Low(was) + Low(now), High(was), High(now));
    c := Recalc16(c, High(was), High(now));
    UpdatedExact(Patched(data, at, Stored32(now, big)), big);
  }

  method Recalc48(old_: Word, was: seq<Byte>, now: seq<Byte>, big: bool, ghost data: seq<Byte>, ghost at: nat)
    returns (c: Word)
    requires |was| == |now| == 6 && at % 2 == 0 && at + 6 <= |data| && was == data[at..at + 6]
    requires Right(old_, Words(data, big))
    ensures c == Updated(Words(Patched(data, at, now), big))
    ensures c == Afresh(Patched(data, at, now), big) <==> !AllZero(Patched(data, at, now))
  {
    hide Words, Pair, Recalc, Updated, Patched, Afresh, AllZero;
    assert Patched(data, at, []) == data by { PatchNone(data, at); }
    c := old_;
    ghost var cur := data;
    for i := 0 to 3
      invariant cur == Patched(data, at, now[..2 * i])
      invariant Right(c, Words(cur, big)) && (i > 0 ==> c == Updated(Words(cur, big)))
    {
      var x, y := now[2 * i], now[2 * i + 1];
      PatchPair(data, at, now, i);
      RecalcAt(c, cur, at + 2 * i, x, y, big);
      c := Recalc16(c, Pair(was[2 * i], was[2 * i + 1], big), Pair(x, y, big));
      cur := Patched(cur, at + 2 * i, [x, y]);
      UpdatedIsRight(Words(cur, big));
    }
    assert now[..6] == now;
    UpdatedExact(cur, big);
  }

  lemma UpdatedIsRight(s: nat)
    ensures Right(Updated(s), s)
  {
  }

  lemma PatchNone(data: seq<Byte>, at: nat)
    requires at <= |data|
    ensures Patched(data, at, []) == data
  {
  }

  lemma PatchPair(data: seq<Byte>, at: nat, now: seq<Byte>, i: nat)
    requires at + |now| <= |data| && 2 * i + 2 <= |now|
    ensures var cur := Patched(data, at, now[..2 * i]);
            && cur[at + 2 * i] == data[at..at + |now|][2 * i] && cur[at + 2 * i + 1] == data[at..at + |now|][2 * i + 1]
            && Patched(cur, at + 2 * i, [now[2 * i], now[2 * i + 1]]) == Patched(data, at, now[..2 * i + 2])
  {
    PatchTwice(data, at, now[..2 * i], [now[2 * i], now[2 * i + 1]]);
    assert now[..2 * i + 2] == now[..2 * i] + [now[2 * i], now[2 * i + 1]];
  }

  lemma PatchTwice(data: seq<Byte>, at: nat, xs: seq<Byte>, ys: seq<Byte>)
    requires at + |xs| + |ys| <= |data|
    ensures Patched(Patched(data, at, xs), at + |xs|, ys) == Patched(data, at, xs + ys)
    ensures Patched(data, at, xs)[at + |xs|..at + |xs| + |ys|] == data[at + |xs|..at + |xs| + |ys|]
  {
  }

  /** Values of 32 bits in the memory of the host. */
  function Stored(us: seq<Word32>, big: bool): (r: seq<Byte>)
    ensures |r| == 4 * |us|
  {
    if us == [] then [] else Stored(us[..|us| - 1], big) + Stored32(us[|us| - 1], big)
  }

  lemma {:induction false} StoredAt(us: seq<Word32>, i: nat, big: bool)
    requires i < |us|
    ensures Stored(us, big)[4 * i..4 * i + 4] == Stored32(us[i], big)
    decreases |us|
  {
    hide Stored32;
    var n := |us| - 1;
    if i < n {
      StoredAt(us[..n], i, big);
      assert Stored(us, big)[4 * i..4 * i + 4] == Stored(us[..n], big)[4 * i..4 * i + 4];
    }
  }

  method Recalc128(old_: Word, was: seq<Word32>, now: seq<Word32>, ghost data: seq<Byte>, ghost at: nat,
                   ghost big: bool)
    returns (c: Word)
    requires |was| == |now| == 4 && at % 2 == 0 && at + 16 <= |data| && Stored(was, big) == data[at..at + 16]
    requires Right(old_, Words(data, big))
    ensures c == Updated(Words(Patched(data, at, Stored(now, big)), big))
    ensures c == Afresh(Patched(data, at, Stored(now, big)), big) <==> !AllZero(Patched(data, at, Stored(now, big)))
  {
    hide Words, Updated, Patched, Stored32, Afresh, AllZero;
    assert Patched(data, at, []) == data by { PatchNone(data, at); }
    c := old_;
    ghost var cur := data;
    for i := 0 to 4
      invariant cur == Patched(data, at, Stored(now[..i], big))
      invariant Right(c, Words(cur, big)) && (i > 0 ==> c == Updated(Words(cur, big)))
    {
      PatchNext(data, at, was, now, i, big);
      c := Recalc32(c, was[i], now[i], cur, at + 4 * i, big);
      cur := Patched(cur, at + 4 * i, Stored32(now[i], big));
      UpdatedIsRight(Words(cur, big));
    }
    assert now[..4] == now;
    UpdatedExact(cur, big);
  }

  lemma PatchNext(data: seq<Byte>, at: nat, was: seq<Word32>, now: seq<Word32>, i: nat, big: bool)
    requires i < |was| == |now| && at + 4 * |was| <= |data| && Stored(was, big) == data[at..at + 4 * |was|]
    ensures var cur := Patched(data, at, Stored(now[..i], big));
            && cur[at + 4 * i..at + 4 * i + 4] == Stored32(was[i], big)
            && Patched(cur, at + 4 * i, Stored32(now[i], big)) == Patched(data, at, Stored(now[..i + 1], big))
  {
    hide Patched, Stored, Stored32;
    StoredMore(now, i, big);
    PatchTwice(data, at, Stored(now[..i], big), Stored32(now[i], big));
    StoredAt(was, i, big);
    SliceSlice(data, at, 4 * |was|, 4 * i);
  }

  lemma StoredMore(us: seq<Word32>, i: nat, big: bool)
    requires i < |us|
    ensures Stored(us[..i + 1], big) == Stored(us[..i], big) + Stored32(us[i], big)
  {
    assert us[..i + 1][..i] == us[..i];
  }

  lemma SliceSlice(data: seq<Byte>, at: nat, n: nat, k: nat)
    requires at + n <= |data| && k + 4 <= n
    ensures data[at..at + n][k..k + 4] == data[at + k..at + k + 4]
  {
    var xs, ys := data[at..at + n][k..k + 4], data[at + k..at + k + 4];
    assert forall i | 0 <= i < 4 :: xs[i] == ys[i];
  }
}
