/** inftrees.c: the pieces of inflate_table, each with what it contributes to the decoding table. */
module TableParts {
  import opened Bits
  import opened Canonical
  import opened CodeOrder
  import opened DecodeTable
  import opened TableFill
  import opened CodeGroups

  method CountLengths(lens: seq<nat>, m: nat) returns (count: array<nat>)
    requires LensBounded(lens, m)
    ensures fresh(count) && count.Length == m + 1
    ensures forall b :: 0 <= b <= m ==> count[b] == Count(lens, b)
  {
    count := new nat[m + 1](_ => 0);
    for sym := 0 to |lens|
      invariant forall b :: 0 <= b <= m ==> count[b] == Count(lens[..sym], b)
    {
      assert lens[..sym + 1][..sym] == lens[..sym];
      count[lens[sym]] := count[lens[sym]] + 1;
    }
    assert lens[..|lens|] == lens;
  }

  /** Largest code length in use, zero when there is none. */
  method MaxLength(count: array<nat>, m: nat) returns (max: nat)
    requires count.Length == m + 1
    ensures max <= m && (max > 0 ==> count[max] != 0)
    ensures forall b :: max < b <= m ==> count[b] == 0
  {
    max := m;
    while max >= 1 && count[max] == 0
      invariant max <= m && forall b :: max < b <= m ==> count[b] == 0
    {
      max := max - 1;
    }
  }

  method MinLength(count: array<nat>, max: nat) returns (min: nat)
    requires 1 <= max < count.Length && count[max] != 0
    ensures 1 <= min <= max && count[min] != 0 && forall b :: 1 <= b < min ==> count[b] == 0
  {
    min := 1;
    while min < max && count[min] == 0
      invariant 1 <= min <= max && forall b :: 1 <= b < min ==> count[b] == 0
    {
      min := min + 1;
    }
  }

  /** Code space left after all lengths, in units of 2^-m; negative once it is oversubscribed. */
  method CodeSpaceLeft(count: array<nat>, m: nat, ghost lens: seq<nat>) returns (left: int)
    requires count.Length == m + 1 && forall b :: 0 <= b <= m ==> count[b] == Count(lens, b)
    ensures left < 0 <==> Kraft(lens, m) > Pow2(m)
    ensures left >= 0 ==> left == Pow2(m) - Kraft(lens, m)
  {
    left := 1;
    KraftBelowOne(lens, m);
    for len := 1 to m + 1
      invariant left >= 0 && left * Pow2(m - len + 1) == Pow2(m) - KraftBelow(lens, m, len)
    {
      ghost var before := left;
      left := left * 2;
      left := left - count[len];
      KraftBelowStep(lens, m, len);
      LeftStep(before, count[len], Pow2(m - len));
      if left < 0 {
        MulOutside(left, Pow2(m - len));
        KraftBelowMono(lens, m, len + 1, m + 1);
        return;
      }
    }
  }

  lemma LeftStep(left: int, c: int, p: int)
    ensures (left * 2 - c) * p == left * (2 * p) - c * p
  {
    MulAssoc(left, 2, p);
    Distrib(left * 2 - c, c, p);
  }

  lemma {:induction false} UsedBound(lens: seq<nat>, b: nat)
    ensures CountBelow(lens, b) + Count(lens, 0) <= |lens|
  {
    if b <= 1 {
      CountAtMost(lens, 0);
    } else if lens == [] {
      CountBelowEmpty(b);
    } else {
      var l := lens[..|lens| - 1];
      UsedBound(l, b);
      CountBelowSnoc(lens, b);
    }
  }

  lemma {:induction false} CountAtMost(lens: seq<nat>, b: nat)
    ensures Count(lens, b) <= |lens|
  {
    if lens != [] { CountAtMost(lens[..|lens| - 1], b); }
  }

  lemma {:induction false} CountBelowEmpty(b: nat)
    ensures CountBelow([], b) == 0
  {
    if b > 1 { CountBelowEmpty(b - 1); }
  }

  lemma {:induction false} CountBelowSnoc(lens: seq<nat>, b: nat)
    requires lens != []
    ensures var l := lens[|lens| - 1];
      CountBelow(lens, b) == CountBelow(lens[..|lens| - 1], b) + if 0 < l < b then 1 else 0
  {
    if b > 1 { CountBelowSnoc(lens, b - 1); }
  }

  /** Where the counting sort puts the next symbol of each length. */
  ghost predicate OffsetsAt(offs: seq<nat>, lens: seq<nat>, n: nat)
    requires n <= |lens|
  {
    forall b :: 1 <= b < |offs| ==> offs[b] == CountBelow(lens, b) + Count(lens[..n], b)
  }

  lemma OffsetsStep(offs: seq<nat>, lens: seq<nat>, n: nat)
    requires n < |lens| && lens[n] < |offs| && OffsetsAt(offs, lens, n)
    ensures lens[n] == 0 ==> OffsetsAt(offs, lens, n + 1)
    ensures OffsetsAt(offs[lens[n] := offs[lens[n]] + 1], lens, n + 1)
  {
    assert lens[..n + 1][..n] == lens[..n];
  }

  /** Symbols below `n` stand at their index. */
  ghost predicate SortedUpTo(work: seq<nat>, lens: seq<nat>, m: nat, n: nat)
    requires n <= |lens| <= |work| && LensBounded(lens, m)
  {
    forall s :: 0 <= s < n && lens[s] > 0 ==> Index(lens, s) < |work| && work[Index(lens, s)] == s
  }

  lemma SortedStep(work: seq<nat>, lens: seq<nat>, m: nat, n: nat)
    requires n < |lens| <= |work| && LensBounded(lens, m) && lens[n] > 0 && SortedUpTo(work, lens, m, n)
    requires Index(lens, n) < |work|
    ensures SortedUpTo(work[Index(lens, n) := n], lens, m, n + 1)
  {
    forall s | 0 <= s < n && lens[s] > 0 ensures Index(lens, s) != Index(lens, n) {
      if Precedes(lens, s, n) { IndexOrdered(lens, m, s, n); } else { IndexOrdered(lens, m, n, s); }
    }
  }

  lemma {:induction false} SymbolAtIndex(lens: seq<nat>, b: nat, j: nat) returns (s: nat)
    requires j < CountBelow(lens, b)
    ensures s < |lens| && lens[s] > 0 && Index(lens, s) == j
  {
    if j < CountBelow(lens, b - 1) {
      s := SymbolAtIndex(lens, b - 1, j);
    } else {
      s := SymbolOfRank(lens, b - 1, j - CountBelow(lens, b - 1));
    }
  }

  lemma SortedIsOrder(work: seq<nat>, lens: seq<nat>, m: nat)
    requires |lens| <= |work| && LensBounded(lens, m) && SortedUpTo(work, lens, m, |lens|)
    ensures CountBelow(lens, m + 1) <= |lens| && IsOrder(lens, m, work[..CountBelow(lens, m + 1)])
  {
    UsedBound(lens, m + 1);
    forall j | 0 <= j < CountBelow(lens, m + 1)
      ensures work[j] < |lens| && lens[work[j]] > 0 && Index(lens, work[j]) == j
    {
      var s := SymbolAtIndex(lens, m + 1, j);
    }
  }

  method Offsets(count: array<nat>, m: nat, ghost lens: seq<nat>) returns (offs: array<nat>)
    requires 1 <= m && count.Length == m + 1 && forall b :: 0 <= b <= m ==> count[b] == Count(lens, b)
    ensures fresh(offs) && offs.Length == m + 1 && OffsetsAt(offs[..], lens, 0)
  {
    hide Count;
    offs := new nat[m + 1];
    offs[1] := 0;
    for len := 1 to m
      invariant forall b :: 1 <= b <= len ==> offs[b] == CountBelow(lens, b)
      invariant forall b :: 0 <= b <= m ==> count[b] == Count(lens, b)
    {
      offs[len + 1] := offs[len] + count[len];
    }
    OffsetsStart(offs[..], lens);
  }

  lemma OffsetsStart(offs: seq<nat>, lens: seq<nat>)
    requires forall b :: 1 <= b < |offs| ==> offs[b] == CountBelow(lens, b)
    ensures OffsetsAt(offs, lens, 0)
  {
  }

  /** Enter the symbols in order, each at the next place of its length. */
  method PlaceSymbols(lens: seq<nat>, offs: array<nat>, work: array<nat>, m: nat)
    requires LensBounded(lens, m) && offs != work && work.Length == |lens| && offs.Length == m + 1
    requires OffsetsAt(offs[..], lens, 0)
    modifies offs, work
    ensures SortedUpTo(work[..], lens, m, |lens|)
  {
    for sym := 0 to |lens|
      invariant OffsetsAt(offs[..], lens, sym)
      invariant SortedUpTo(work[..], lens, m, sym)
    {
      ghost var o, w := offs[..], work[..];
      OffsetsStep(o, lens, sym);
      var len := lens[sym];
      if len != 0 {
        var at := offs[len];
        PlaceInRange(lens, m, sym);
        SortedStep(w, lens, m, sym);
        work[at] := sym;
        assert work[..] == w[at := sym];
        offs[len] := at + 1;
        assert offs[..] == o[len := at + 1];
      }
    }
  }

  lemma PlaceInRange(lens: seq<nat>, m: nat, s: nat)
    requires s < |lens| && 0 < lens[s] <= m
    ensures Index(lens, s) < |lens|
  {
    IndexBounds(lens, m, s);
    UsedBound(lens, m + 1);
  }

  /** Counting sort of the symbols by code length, keeping symbol order within a length. */
  method SortSymbols(lens: seq<nat>, count: array<nat>, m: nat) returns (work: array<nat>)
    requires 1 <= m && LensBounded(lens, m)
    requires count.Length == m + 1 && forall b :: 0 <= b <= m ==> count[b] == Count(lens, b)
    ensures fresh(work) && work.Length == |lens| && CountBelow(lens, m + 1) <= |lens|
    ensures IsOrder(lens, m, work[..CountBelow(lens, m + 1)])
  {
    var offs := Offsets(count, m, lens);
    work := new nat[|lens|];
    PlaceSymbols(lens, offs, work, m);
    SortedIsOrder(work[..], lens, m);
  }

  /** Bit `i` of `v`, that is, `v & (1 << i)`. */
  predicate BitSet(v: nat, i: nat)
  {
    if i == 0 then v % 2 == 1 else BitSet(v / 2, i - 1)
  }

  lemma {:induction false} BitSetValue(bs: seq<bool>, i: nat)
    requires i < |bs|
    ensures BitSet(Value(bs), i) == bs[i]
  {
    if i > 0 { BitSetValue(bs[1..], i - 1); }
  }

  lemma {:induction false} ValueSetTop(a: seq<bool>)
    ensures Value(a + [true]) == Value(a) + Pow2(|a|)
  {
    if a == [] {
      assert ([] + [true])[1..] == [];
    } else {
      assert (a + [true])[1..] == a[1..] + [true];
      ValueSetTop(a[1..]);
    }
  }

  lemma RevIncCarry(bs: seq<bool>, i: nat)
    requires 0 < i <= |bs| && bs[i - 1] && RevInc(bs) == RevInc(bs[..i]) + Zeros(|bs| - i)
    ensures RevInc(bs) == RevInc(bs[..i - 1]) + Zeros(|bs| - i + 1)
  {
    var z := Zeros(|bs| - i);
    assert RevInc(bs[..i]) == RevInc(bs[..i - 1]) + [false] by { assert bs[..i][..i - 1] == bs[..i - 1]; }
    assert (RevInc(bs[..i - 1]) + [false]) + z == RevInc(bs[..i - 1]) + ([false] + z);
  }

  lemma RevIncStop(bs: seq<bool>, i: nat)
    requires 0 < i <= |bs| && !bs[i - 1] && RevInc(bs) == RevInc(bs[..i]) + Zeros(|bs| - i)
    ensures Value(RevInc(bs)) == LowBits(Value(bs), i - 1) + Pow2(i - 1)
  {
    hide LowBits, Value, Zeros, Pow2;
    var lo := bs[..i - 1];
    assert RevInc(bs[..i]) == lo + [true] by { assert bs[..i][..i - 1] == lo; }
    PadZeros(lo + [true], |bs| - i);
    ValueSetTop(lo);
    MaskShift(bs, i - 1);
  }

  lemma NoZeros()
    ensures Zeros(0) == []
  {
  }

  lemma RevIncAll(bs: seq<bool>)
    requires RevInc(bs) == RevInc(bs[..0]) + Zeros(|bs|)
    ensures Value(RevInc(bs)) == 0
  {
    assert RevInc(bs) == Zeros(|bs|);
  }

  /** Increment a `len`-bit code from its most significant end, which is its high-index end. */
  method BackwardsIncrement(huff: nat, len: nat, ghost bs: seq<bool>) returns (r: nat)
    requires 1 <= len == |bs| && huff == Value(bs)
    ensures r == Value(RevInc(bs))
  {
    hide LowBits, Value, BitSet, Zeros, Pow2;
    var i := len;        // the bit tried is 2^(i-1); none is left once i is zero
    assert bs[..len] == bs;
    NoZeros();
    assert RevInc(bs) + [] == RevInc(bs);
    while i > 0 && BitSet(huff, i - 1)
      invariant 0 <= i <= len
      invariant RevInc(bs) == RevInc(bs[..i]) + Zeros(len - i)
    {
      BitSetValue(bs, i - 1);
      RevIncCarry(bs, i);
      i := i - 1;
    }
    if i > 0 {
      BitSetValue(bs, i - 1);
      RevIncStop(bs, i);
      r := LowBits(huff, i - 1) + Pow2(i - 1);
    } else {
      RevIncAll(bs);
      r := 0;
    }
  }

  /** Entries written by replication: the table indices at or above `fill` whose low `l` bits are `h`. */
  ghost predicate Replicated(t: seq<Entry>, t0: seq<Entry>, at: nat, size: nat, fill: nat, l: nat, h: nat, here: Entry)
    requires |t| == |t0|
  {
    forall i :: 0 <= i < |t| ==>
      t[i] == if at + fill <= i < at + size && LowBits(i - at, l) == h then here else t0[i]
  }

  /** `fill` is a multiple of 2^l. */
  ghost predicate Aligned(fill: nat, l: nat)
  {
    forall x :: fill <= x < fill + Pow2(l) ==> LowBits(x, l) == x - fill
  }

  lemma ReplicateStep(t: seq<Entry>, t0: seq<Entry>, at: nat, size: nat, fill: nat, l: nat, h: nat, here: Entry)
    requires |t| == |t0| && h < Pow2(l) && fill + Pow2(l) <= size && at + size <= |t| && Aligned(fill, l)
    requires Replicated(t, t0, at, size, fill + Pow2(l), l, h, here)
    ensures Replicated(t[at + fill + h := here], t0, at, size, fill, l, h, here)
  {
    hide LowBits, Pow2;
  }

  lemma {:induction false} LowBitsMod(v: nat, l: nat)
    ensures LowBits(v, l) == v % Pow2(l)
  {
    if l > 0 {
      LowBitsMod(v / 2, l - 1);
      HalfMod(v, Pow2(l - 1));
    }
  }

  lemma MultipleAligned(n: nat, l: nat)
    ensures Aligned(n * Pow2(l), l)
  {
    forall x | n * Pow2(l) <= x < n * Pow2(l) + Pow2(l) ensures LowBits(x, l) == x - n * Pow2(l) {
      LowBitsMod(x, l);
      DivModUnique(x, Pow2(l), n, x - n * Pow2(l));
    }
  }

  /** The steps of `incr` from zero up to `fill`. */
  ghost predicate Steps(n: nat, l: nat, fill: nat) { fill == n * Pow2(l) }

  lemma StepBack(n: nat, l: nat, fill: nat)
    requires Steps(n, l, fill)
    ensures fill != 0 ==> n > 0 && fill >= Pow2(l) && Steps(n - 1, l, fill - Pow2(l)) && Aligned(fill - Pow2(l), l)
  {
    if n > 0 {
      Distrib(n - 1, 1, Pow2(l));
      MultipleAligned(n - 1, l);
    }
  }

  lemma ReplicatedFills(t: seq<Entry>, t0: seq<Entry>, at: nat, c: nat, cb: seq<bool>, here: Entry)
    requires |t| == |t0| && |cb| <= c && at + Pow2(c) <= |t|
    requires Replicated(t, t0, at, Pow2(c), 0, |cb|, Value(cb), here)
    ensures FilledWith(t0, t, at, c, cb, here)
  {
    forall w {:trigger Slot(w)} | |w| == c
      ensures t[at + Slot(w)] == if cb <= w then here else t0[at + Slot(w)]
    {
      MaskShift(w, |cb|);
      if w[..|cb|] != cb && Value(w[..|cb|]) == Value(cb) { ValueInjective(w[..|cb|], cb); }
    }
  }

  /** Replicate an entry over the indices whose low `l` bits are `h`. */
  method Replicate(table: array<Entry>, start: nat, at: nat, c: nat, l: nat, h: nat, here: Entry, ghost cb: seq<bool>)
    requires start + at + Pow2(c) <= table.Length && |cb| == l <= c && h == Value(cb)
    modifies table
    ensures FilledWith(old(table[start..]), table[start..], at, c, cb, here)
    ensures forall i :: 0 <= i < start ==> table[i] == old(table[i])
  {
    hide Pow2, Value, LowBits, Replicated, Aligned, Steps, FilledWith;
    var incr := Pow2(l);
    var fill := Pow2(c);
    ghost var t0 := table[start..];
    ghost var n: nat := Pow2(c - l);
    StartReplicating(t0, at, c, l, h, here);
    ValueBound(cb);
    while fill != 0
      invariant n >= 0 && 0 <= fill <= Pow2(c) && Steps(n, l, fill)
      invariant Replicated(table[start..], t0, at, Pow2(c), fill, l, h, here)
      invariant forall i :: 0 <= i < start ==> table[i] == old(table[i])
      decreases n
    {
      ghost var t := table[start..];
      StepBack(n, l, fill);
      n := n - 1;
      fill := fill - incr;
      ReplicateStep(t, t0, at, Pow2(c), fill, l, h, here);
      table[start + at + h + fill] := here;
      assert table[start..] == t[at + fill + h := here];
    }
    ReplicatedFills(table[start..], t0, at, c, cb, here);
  }

  lemma StartReplicating(t0: seq<Entry>, at: nat, c: nat, l: nat, h: nat, here: Entry)
    requires l <= c
    ensures Steps(Pow2(c - l), l, Pow2(c)) && Replicated(t0, t0, at, Pow2(c), Pow2(c), l, h, here)
  {
    Pow2Sub(c, l);
  }

  /** From symbol `s` on, the codes of at most `root + curr` bits fill a whole group, or are all codes. */
  ghost predicate GroupFull(lens: seq<nat>, m: nat, max: nat, root: nat, curr: nat, s: nat)
  {
    && s < |lens| && lens[s] <= m && root <= m
    && (root + curr == max || KraftBelow(lens, m, root + curr + 1) >= Start(lens, m, s) + Pow2(m - root))
  }

  /** Index bits of the sub-table that opens with symbol `s`: enough for every code of its group. */
  method SubTableBits(count: array<nat>, len: nat, root: nat, max: nat, ghost lens: seq<nat>, ghost m: nat,
                      ghost s: nat)
    returns (curr: nat)
    requires count.Length == m + 1 && root < len <= max <= m && s < |lens| && lens[s] == len
    requires Count(lens[..s], len) <= Count(lens, len) && count[len] == Count(lens, len) - Count(lens[..s], len)
    requires forall b :: len < b <= max ==> count[b] == Count(lens, b)
    ensures len <= root + curr <= max
    ensures GroupFull(lens, m, max, root, curr, s)
    ensures root + curr == len || KraftBelow(lens, m, root + curr) < Start(lens, m, s) + Pow2(m - root)
  {
    hide Pow2, KraftBelow, Count, Start;
    curr := len - root;
    var left: int := Pow2(curr);
    OpeningSpace(lens, m, s, root);
    while curr + root < max
      invariant len <= root + curr <= max
      invariant GroupSpace(lens, m, s, root, root + curr, left)
      invariant root + curr == len || KraftBelow(lens, m, root + curr) < Start(lens, m, s) + Pow2(m - root)
    {
      ghost var b := root + curr;
      GroupSpaceStep(lens, m, s, root, b, left, count[b]);
      left := left - count[curr + root];
      if left <= 0 { return; }
      curr := curr + 1;
      left := left * 2;
      SpaceLeft(lens, m, s, root, root + curr, left);
    }
  }

  lemma SpaceLeft(lens: seq<nat>, m: nat, s: nat, root: nat, b: nat, left: int)
    requires s < |lens| && lens[s] < b <= m && root <= m && left > 0 && GroupSpace(lens, m, s, root, b, left)
    ensures KraftBelow(lens, m, b) < Start(lens, m, s) + Pow2(m - root)
  {
    hide KraftBelow, Start;
    MulMono(1, left, Pow2(m - b));
  }

  /** `left` is the room for codes of length `b` in the group that opens with `s`, after its shorter codes. */
  ghost predicate GroupSpace(lens: seq<nat>, m: nat, s: nat, root: nat, b: nat, left: int)
    requires s < |lens| && lens[s] <= b <= m && root <= m
  {
    left * Pow2(m - b)
      == Pow2(m - root) - ((if b == lens[s] then Start(lens, m, s) else KraftBelow(lens, m, b)) - Start(lens, m, s))
  }

  lemma OpeningSpace(lens: seq<nat>, m: nat, s: nat, root: nat)
    requires s < |lens| && root <= lens[s] <= m
    ensures GroupSpace(lens, m, s, root, lens[s], Pow2(lens[s] - root))
  {
    Pow2Sub(m - root, m - lens[s]);
  }

  lemma GroupSpaceStep(lens: seq<nat>, m: nat, s: nat, root: nat, b: nat, left: int, c: nat)
    requires s < |lens| && 0 < lens[s] <= b < m && root <= m && GroupSpace(lens, m, s, root, b, left)
    requires Count(lens[..s], lens[s]) <= Count(lens, lens[s])
    requires c == if b == lens[s] then Count(lens, b) - Count(lens[..s], b) else Count(lens, b)
    ensures GroupSpace(lens, m, s, root, b + 1, (left - c) * 2)
    ensures left - c <= 0 ==> KraftBelow(lens, m, b + 1) >= Start(lens, m, s) + Pow2(m - root)
  {
    hide KraftBelow, Count, Start;
    RemainingSpace(lens, m, s, b);
    var p := Pow2(m - b);
    Distrib(left - c, c, p);
    MulAssoc(left - c, 2, Pow2(m - b - 1));
    if left - c <= 0 { MulSign(left - c, p); }
  }

  lemma MulSign(a: int, p: int)
    requires a <= 0 && p >= 0
    ensures a * p <= 0
  {
    MulMono(a, 0, p);
  }

  /** Code space of the codes of length `b` from symbol `s` on. */
  lemma RemainingSpace(lens: seq<nat>, m: nat, s: nat, b: nat)
    requires s < |lens| && 0 < lens[s] <= b <= m && Count(lens[..s], lens[s]) <= Count(lens, lens[s])
    ensures b == lens[s] ==>
      (Count(lens, b) - Count(lens[..s], b)) * Pow2(m - b) == KraftBelow(lens, m, b + 1) - Start(lens, m, s)
    ensures Count(lens, b) * Pow2(m - b) == KraftBelow(lens, m, b + 1) - KraftBelow(lens, m, b)
  {
    KraftBelowStep(lens, m, b);
    if b == lens[s] {
      FirstCodeIsKraft(lens, m, b);
      var f, r, c, p := FirstCode(lens, b), Count(lens[..s], b), Count(lens, b), Pow2(m - b);
      Distrib(f, r, p);
      Distrib(c - r, r, p);
    }
  }

  /** Counts not yet used up when symbol `s` is the next to enter. */
  ghost predicate CountsAt(count: seq<nat>, lens: seq<nat>, max: nat, s: nat)
    requires s < |lens| && max < |count|
  {
    && 0 < lens[s] <= max
    && Count(lens[..s], lens[s]) <= Count(lens, lens[s])
    && count[lens[s]] == Count(lens, lens[s]) - Count(lens[..s], lens[s])
    && forall b :: lens[s] < b <= max ==> count[b] == Count(lens, b)
  }

  ghost predicate MaxIs(lens: seq<nat>, m: nat, max: nat)
  {
    0 < max <= m && Count(lens, max) > 0 && LensBounded(lens, max)
  }

  /** After symbol `k` of the order: the order ends exactly when the last code of length `max` is
      used up, and the length changes exactly when its count is. */
  lemma AfterSymbol(count: seq<nat>, lens: seq<nat>, m: nat, work: seq<nat>, max: nat, k: nat)
    requires LensBounded(lens, m) && IsOrder(lens, m, work) && MaxIs(lens, m, max) && k < |work| && max < |count|
    requires CountsAt(count, lens, max, work[k])
    ensures count[lens[work[k]]] > 0
    ensures count[lens[work[k]]] == 1 && lens[work[k]] == max <==> k + 1 == |work|
    ensures k + 1 < |work| && count[lens[work[k]]] != 1 ==> lens[work[k + 1]] == lens[work[k]]
    ensures k + 1 < |work| ==> CountsAt(count[lens[work[k]] := count[lens[work[k]]] - 1], lens, max, work[k + 1])
  {
    var s := work[k];
    var len := lens[s];
    CountPrefix(lens, s, len);
    IndexBounds(lens, m, s);
    BoundedTop(lens, m, max);
    CountBelowMono(lens, len + 1, max + 1);
    if len < max { CountBelowMono(lens, len + 1, max); }
    if k + 1 < |work| {
      Consecutive(lens, m, s, work[k + 1]);
    }
  }

  lemma {:induction false} BoundedTop(lens: seq<nat>, m: nat, max: nat)
    requires max <= m && LensBounded(lens, max)
    ensures CountBelow(lens, m + 1) == CountBelow(lens, max + 1)
    decreases m
  {
    if max < m {
      BoundedTop(lens, m - 1, max);
      CountNone(lens, m);
    }
  }

  lemma {:induction false} CountNone(lens: seq<nat>, b: nat)
    requires forall s :: 0 <= s < |lens| ==> lens[s] != b
    ensures Count(lens, b) == 0
  {
    if lens != [] { CountNone(lens[..|lens| - 1], b); }
  }

  ghost function ActionList(ty: CodeType, lens: seq<nat>, work: seq<nat>): (acts: seq<Action>)
    requires |lens| <= MaxSymbols(ty) && forall j :: 0 <= j < |work| ==> work[j] < |lens|
    ensures |acts| == |work|
    ensures forall j :: 0 <= j < |work| ==> acts[j] == SymbolAction(ty, work[j])
  {
    seq(|work|, j requires 0 <= j < |work| => SymbolAction(ty, work[j]))
  }

  /** Every code still to come in the current group fits the current sub-table. */
  ghost predicate Capacity(root: nat, codes: seq<seq<bool>>, k: nat, curr: nat, cur: Current)
  {
    forall j :: k <= j < |codes| && InGroup(root, cur, codes[j]) ==> |codes[j]| <= root + curr
  }

  lemma CapacityOfGroup(lens: seq<nat>, m: nat, work: seq<nat>, max: nat, root: nat, k: nat, curr: nat)
    requires Ordered(lens, m, work) && MaxIs(lens, m, max) && 0 < k < |work| && root < lens[work[k]]
    requires !SameGroup(root, CodeList(lens, work)[k - 1], CodeList(lens, work)[k])
    requires GroupFull(lens, m, max, root, curr, work[k])
    ensures Capacity(root, CodeList(lens, work), k, curr, Sub(CodeBits(lens, work[k])[..root]))
  {
    var codes := CodeList(lens, work);
    var r, s := work[k - 1], work[k];
    if root < lens[r] && Group(lens, root, r) == Group(lens, root, s) {
      MsbInjective(codes[k - 1][..root], codes[k][..root]);
    }
    GroupOpens(lens, m, root, r, s);
    forall j | k <= j < |codes| && InGroup(root, Sub(codes[k][..root]), codes[j])
      ensures |codes[j]| <= root + curr
    {
      if root + curr < max { GroupCapacity(lens, m, root, curr, s, work[j]); }
    }
  }

  /** Space the caller provides: the checked sizes, or a root table that needs no sub-tables. */
  ghost predicate Space(ty: CodeType, lens: seq<nat>, bits: nat, space: nat)
  {
    match ty
    case CODES => 1 <= bits && Pow2(bits) <= space && LensBounded(lens, bits)
    case LENS => ENOUGH_LENS <= space
    case DISTS => ENOUGH_DISTS <= space
  }

  predicate TooMany(ty: CodeType, used: nat)
  {
    (ty == LENS && used >= ENOUGH_LENS) || (ty == DISTS && used >= ENOUGH_DISTS)
  }
}
