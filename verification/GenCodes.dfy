/** trees.c: assigning the codes of a tree whose code lengths are known. A tree is the pair of
    arrays `fc` (frequency, later code) and `dl` (father, later length), because the two fields of
    each pair share one word of storage. */
module GenCodes {
  import opened Bits
  import opened Canonical

  const MAX_BITS := 15

  /** Reverse the low `len` bits of `code`. */
  method BiReverse(code: nat, len: nat) returns (res: nat)
    requires 1 <= len
    ensures res == Value(ToMsb(code, len))
    ensures res < Pow2(len)
  {
    hide Value, ToMsb, Pow2;
    ReverseStart(code);
    res := 0;
    var c, left := code, len;
    ghost var i := 0;
    while true
      invariant 0 <= i < len && left == len - i
      invariant c == code / Pow2(i)
      invariant res == 2 * Value(ToMsb(code, i))
      decreases left
    {
      res := if c % 2 == 1 && res % 2 == 0 then res + 1 else res;  // res |= code & 1
      ReverseStep(code, i);
      c, res := c / 2, res * 2;
      i, left := i + 1, left - 1;
      if !(left > 0) { break; }
    }
    res := res / 2;
    ValueBound(ToMsb(code, len));
  }

  lemma ReverseStart(code: nat)
    ensures Pow2(0) == 1 && Value(ToMsb(code, 0)) == 0
  {
  }

  lemma ReverseStep(code: nat, i: nat)
    ensures Value(ToMsb(code, i + 1)) == code / Pow2(i) % 2 + 2 * Value(ToMsb(code, i))
    ensures code / Pow2(i + 1) == code / Pow2(i) / 2
  {
    hide ToMsb;
    ToMsbFront(code, i);
    assert ToMsb(code, i + 1)[1..] == ToMsb(code, i);
    DivDiv(code, Pow2(i), 2);
    assert Pow2(i) * 2 == Pow2(i + 1);
  }

  /** Codes assigned so far by `GenCodes`: symbols below `n` carry their canonical code in send order. */
  ghost predicate Coded(fc: seq<nat>, old_fc: seq<nat>, lens: seq<nat>, n: nat)
    requires n <= |lens| <= |fc| == |old_fc|
  {
    forall s :: 0 <= s < |fc| ==>
      fc[s] == if s < n && lens[s] != 0 then Value(CodeBits(lens, s)) else old_fc[s]
  }

  /** The 16-bit running code: doubled after adding the count of the length before. */
  method NextCodes(blCount: array<nat>, m: nat, ghost lens: seq<nat>) returns (nextCode: array<nat>)
    requires m <= MAX_BITS && blCount.Length == m + 1 && blCount[0] == 0
    requires forall b :: 1 <= b <= m ==> blCount[b] == Count(lens, b)
    requires Kraft(lens, m) <= Pow2(m)
    ensures fresh(nextCode) && nextCode.Length == m + 1
    ensures forall b :: 1 <= b <= m ==> nextCode[b] == FirstCode(lens, b)
  {
    hide Kraft, Count, Pow2, FirstCode;
    nextCode := new nat[m + 1];
    var code := 0;
    FirstCodeStep(lens, 1);
    for bits := 1 to m + 1
      invariant code == FirstCode(lens, bits - 1)
      invariant forall b :: 1 <= b < bits ==> nextCode[b] == FirstCode(lens, b)
      invariant forall b :: 1 <= b <= m ==> blCount[b] == Count(lens, b)
    {
      CodeFits16(lens, m, bits - 1);
      FirstCodeStep(lens, bits);
      code := U16((code + blCount[bits - 1]) * 2);
      nextCode[bits] := code;
    }
  }

  lemma FirstCodeStep(lens: seq<nat>, b: nat)
    requires b >= 1
    ensures FirstCode(lens, b) == (FirstCode(lens, b - 1) + (if b == 1 then 0 else Count(lens, b - 1))) * 2
      && FirstCode(lens, 0) == 0
  {
  }

  /** Codes of at most 15 bits never wrap a 16-bit word, not even after the last increment. */
  lemma CodeFits16(lens: seq<nat>, m: nat, b: nat)
    requires m <= MAX_BITS && Kraft(lens, m) <= Pow2(m) && b <= m
    ensures b > 0 ==> FirstCode(lens, b) + Count(lens, b) <= 0x8000
    ensures b < m ==> FirstCode(lens, b) + (if b == 0 then 0 else Count(lens, b)) <= 0x4000
  {
    if b > 0 {
      LengthFits(lens, m, b);
      Pow2Mono(b, 15);
      if b < m { Pow2Mono(b, 14); }
      Pow2Values();
    }
  }

  /** Next code of each length after the symbols below `n` have theirs. */
  ghost predicate NextAt(next: seq<nat>, lens: seq<nat>, n: nat)
    requires n <= |lens|
  {
    forall b :: 1 <= b < |next| ==> next[b] == FirstCode(lens, b) + Count(lens[..n], b)
  }

  lemma NextStart(next: seq<nat>, lens: seq<nat>)
    requires forall b :: 1 <= b < |next| ==> next[b] == FirstCode(lens, b)
    ensures NextAt(next, lens, 0)
  {
  }

  lemma NextAtStep(next: seq<nat>, lens: seq<nat>, n: nat)
    requires n < |lens| && lens[n] < |next| && NextAt(next, lens, n)
    ensures lens[n] == 0 ==> NextAt(next, lens, n + 1)
    ensures NextAt(next[lens[n] := next[lens[n]] + 1], lens, n + 1)
  {
    assert lens[..n + 1][..n] == lens[..n];
  }

  lemma NextFits16(next: seq<nat>, lens: seq<nat>, n: nat)
    requires n < |lens| && 0 < lens[n] < |next| <= MAX_BITS + 1 && NextAt(next, lens, n)
    requires Kraft(lens, |next| - 1) <= Pow2(|next| - 1)
    ensures next[lens[n]] < 0x8000
  {
    CodeFits16(lens, |next| - 1, lens[n]);
    CountPrefix(lens, n, lens[n]);
  }

  /** Whenever the counts agree with the lengths and the lengths do not oversubscribe the code
      space, every symbol of nonzero length gets its canonical code, reversed so that sending it
      least significant bit first puts the code's most significant bit first on the stream. The
      library calls this with `m` equal to MAX_BITS. */
  method GenCodes(fc: array<nat>, dl: array<nat>, maxCode: nat, blCount: array<nat>, m: nat)
    requires maxCode < fc.Length && maxCode < dl.Length && fc != dl && fc != blCount
    requires m <= MAX_BITS && blCount.Length == m + 1 && blCount[0] == 0
    requires LensBounded(dl[..maxCode + 1], m) && Kraft(dl[..maxCode + 1], m) <= Pow2(m)
    requires forall b :: 1 <= b <= m ==> blCount[b] == Count(dl[..maxCode + 1], b)
    modifies fc
    ensures Coded(fc[..], old(fc[..]), dl[..maxCode + 1], maxCode + 1)
  {
    hide Kraft, FirstCode, Count, Value, ToMsb;
    ghost var lens := dl[..maxCode + 1];
    var nextCode := NextCodes(blCount, m, lens);
    NextStart(nextCode[..], lens);
    var n := 0;
    while n <= maxCode
      invariant 0 <= n <= maxCode + 1 && lens == dl[..maxCode + 1]
      invariant NextAt(nextCode[..], lens, n)
      invariant Coded(fc[..], old(fc[..]), lens, n)
    {
      var len := dl[n];
      ghost var next, codes := nextCode[..], fc[..];
      NextAtStep(next, lens, n);
      if len != 0 {
        var r := BiReverse(nextCode[len], len);
        fc[n] := r;
        assert fc[..] == codes[n := Value(CodeBits(lens, n))];
        NextFits16(next, lens, n);
        nextCode[len] := U16(nextCode[len] + 1);
        assert nextCode[..] == next[len := next[len] + 1];
      }
      n := n + 1;
    }
  }
}
