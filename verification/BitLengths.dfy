/** trees.c: the code lengths of a Huffman tree, none longer than a limit, and the size of the block. */
module BitLengths {
  import opened Bits
  import opened SetSum
  import opened Huffman
  import opened Merging
  import opened TreeBuild
  import opened Depths

  /** What is fixed for each kind of tree: stat code lengths (empty if there are none), extra bits from
      symbol `extraBase` on, number of symbols and longest code. */
  datatype StaticDesc = StaticDesc(stree: seq<nat>, extra: seq<nat>, extraBase: nat, elems: nat, maxLength: nat)
  {
    predicate Valid()
    {
      && 3 <= elems <= extraBase + |extra| && (stree != [] ==> |stree| == elems) && elems <= Pow2(maxLength)
      && 1 <= maxLength <= 15 && (extraBase < 3 ==> forall x :: 0 <= x < 3 - extraBase && x < |extra| ==> extra[x] == 0)
    }

    function ExtraBits(x: nat): nat { if extraBase <= x < extraBase + |extra| then extra[x - extraBase] else 0 }
  }

  /** Bits that symbol `x` takes in the block. */
  function Bill(f: seq<nat>, l: seq<nat>, desc: StaticDesc): nat -> int
  {
    (x: nat) => Times(At(f, x), At(l, x) + desc.ExtraBits(x))
  }

  /** Bits it takes with the stat tree, if there is one. */
  function StaticBill(f: seq<nat>, desc: StaticDesc): nat -> int
  {
    (x: nat) => if desc.stree == [] then 0 else Times(At(f, x), At(desc.stree, x) + desc.ExtraBits(x))
  }

  /** Lengths counted and bits added up over the symbols `done`. */
  ghost predicate Accounted(c: seq<nat>, opt: int, stat: int, done: set<nat>, f: seq<nat>, l: seq<nat>,
                            desc: StaticDesc)
  {
    && (forall b :: 0 <= b < |c| ==> c[b] == Sum(done, Is(l, b)))
    && opt == Sum(done, Bill(f, l, desc)) && stat == Sum(done, StaticBill(f, desc))
  }

  lemma AddOne(done: set<nat>, w: nat -> int, w2: nat -> int, n: nat)
    requires n !in done && forall x :: x in done ==> w(x) == w2(x)
    ensures Sum(done + {n}, w2) == Sum(done, w) + w2(n)
  {
    SumAdd(done, w2, n);
    SumAgree(done, w, w2);
  }

  lemma AccountedStep(c: seq<nat>, opt: int, stat: int, done: set<nat>, f: seq<nat>, l: seq<nat>, l2: seq<nat>,
                      desc: StaticDesc, n: nat)
    requires Accounted(c, opt, stat, done, f, l, desc) && n !in done && At(l2, n) < |c|
    requires forall x :: x in done ==> At(l2, x) == At(l, x)
    ensures Accounted(c[At(l2, n) := c[At(l2, n)] + 1], opt + Bill(f, l2, desc)(n), stat + StaticBill(f, desc)(n),
      done + {n}, f, l2, desc)
  {
    hide Times, Sum;
    var c2 := c[At(l2, n) := c[At(l2, n)] + 1];
    forall b | 0 <= b < |c2| ensures c2[b] == Sum(done + {n}, Is(l2, b)) {
      AddOne(done, Is(l, b), Is(l2, b), n);
    }
    AddOne(done, Bill(f, l, desc), Bill(f, l2, desc), n);
    AddOne(done, StaticBill(f, desc), StaticBill(f, desc), n);
  }

  lemma AccountedFrame(c: seq<nat>, opt: int, stat: int, done: set<nat>, f: seq<nat>, l: seq<nat>, l2: seq<nat>,
                       desc: StaticDesc)
    requires Accounted(c, opt, stat, done, f, l, desc) && forall x :: x in done ==> At(l2, x) == At(l, x)
    ensures Accounted(c, opt, stat, done, f, l2, desc)
  {
    forall b | 0 <= b < |c| ensures c[b] == Sum(done, Is(l2, b)) {
      SumAgree(done, Is(l, b), Is(l2, b));
    }
    SumAgree(done, Bill(f, l, desc), Bill(f, l2, desc));
  }

  /** One node takes its length from its father; a symbol is also counted. */
  method AssignLength(t: TreeState, fc: array<nat>, dl: array<nat>, n: nat, maxCode: nat, desc: StaticDesc,
                      overflow: nat,
                      ghost done: set<nat>, ghost f: seq<nat>, ghost opt: int, ghost stat: int)
    returns (over: nat, ghost done2: set<nat>)
    requires desc.Valid() && t.blCount.Length == 16 && t.blCount != dl && fc != dl && fc != t.blCount
      && t.blCount != t.heap && dl != t.heap
    requires n < fc.Length == dl.Length && dl[n] < dl.Length && n !in done && (n > maxCode || n < desc.elems)
    requires n <= maxCode ==> At(f, n) == fc[n]
    requires Accounted(t.blCount[..], t.optLen - opt, t.staticLen - stat, done, f, dl[..], desc)
    modifies t`optLen, t`staticLen, t.blCount, dl
    ensures dl[..] == old(dl[..])[n := Below(old(dl[dl[n]]), desc.maxLength)]
    ensures over == overflow + if old(dl[dl[n]]) >= desc.maxLength then 1 else 0
    ensures done2 == if n > maxCode then done else done + {n}
    ensures Accounted(t.blCount[..], t.optLen - opt, t.staticLen - stat, done2, f, dl[..], desc)
  {
    hide Accounted, Times;
    ghost var l, c := dl[..], t.blCount[..];
    var bits: nat := dl[dl[n]] + 1;
    over := overflow;
    if bits > desc.maxLength {
      bits, over := desc.maxLength, over + 1;
    }
    dl[n] := bits;
    assert dl[..] == l[n := bits];
    if n > maxCode {
      AccountedFrame(c, t.optLen - opt, t.staticLen - stat, done, f, l, dl[..], desc);
      return over, done;
    }
    AccountedStep(c, t.optLen - opt, t.staticLen - stat, done, f, l, dl[..], desc, n);
    t.blCount[bits] := t.blCount[bits] + 1;
    var xbits: nat := 0;
    if n >= desc.extraBase { xbits := desc.extra[n - desc.extraBase]; }
    t.optLen := t.optLen + Times(fc[n], bits + xbits);
    if desc.stree != [] { t.staticLen := t.staticLen + Times(fc[n], desc.stree[n] + xbits); }
    done2 := done + {n};
    assert t.blCount[..] == c[bits := c[bits] + 1];
  }

  /** The symbols among the roots after `k` merges. */
  ghost function Low(g: Merges, k: nat): set<nat>
    requires k < |g.forests|
  {
    set x | x in g.forests[k] && x < g.elems
  }

  lemma LowStep(g: Merges, k: nat)
    requires g.Valid() && 0 < k <= |g.pairs|
    ensures var p := g.pairs[k - 1];
      && p.0 !in Low(g, k) && p.1 !in Low(g, k) && p.0 != p.1
      && var low := if p.1 < g.elems then Low(g, k) + {p.1} else Low(g, k);
         Low(g, k - 1) == if p.0 < g.elems then low + {p.0} else low
  {
    assert g.Step(k - 1);
    NeverRootAgain(g, k - 1, k);
  }

  /** Everything about the first pass when the sons of the first `k` merges have no length yet. */
  ghost predicate Passing(g: Merges, f: seq<nat>, f2: seq<nat>, l: seq<nat>, desc: StaticDesc, k: nat, half: nat)
  {
    && g.Valid() && FreqsAdd(g, f2) && k <= |g.pairs| && g.elems == desc.elems
    && Assigned(g, f2, l, desc.maxLength, k, half) && FathersBelow(g, l, k)
    && g.elems + |g.pairs| <= |l|
  }

  lemma PassingStart(g: Merges, f: seq<nat>, f2: seq<nat>, l: seq<nat>, l2: seq<nat>, heap: seq<nat>, desc: StaticDesc)
    requires desc.Valid() && g.elems == desc.elems && Progress(g, f, f2) && Recorded(g, heap, l) && |g.pairs| >= 1
    requires g.Roots() == {g.elems + |g.pairs| - 1} && g.elems + |g.pairs| <= |l|
      && l2 == l[g.elems + |g.pairs| - 1 := 0]
    ensures Passing(g, f, f2, l2, desc, |g.pairs|, 0)
  {
    hide Assigned, LowerBound, RemovedInOrder, Merges.Step, Merged;
    AssignedStart(g, f2, l2, desc.maxLength);
    forall j | 0 <= j < |g.pairs| ensures At(l2, g.pairs[j].0) == g.elems + j && At(l2, g.pairs[j].1) == g.elems + j {
      PairIds(g, j);
    }
  }

  lemma PassingStep(g: Merges, f: seq<nat>, f2: seq<nat>, l: seq<nat>, l1: seq<nat>, l2: seq<nat>, desc: StaticDesc,
                    k: nat, half: nat)
    requires desc.Valid() && 0 < k && Passing(g, f, f2, l, desc, k, half)
    requires var p, d := g.pairs[k - 1], g.elems + k - 1;
      && p.0 < |l| && p.1 < |l| && d < |l|
      && l1 == l[p.1 := Below(l[d], desc.maxLength)] && l2 == l1[p.0 := Below(l1[d], desc.maxLength)]
    ensures Passing(g, f, f2, l2, desc, k - 1, if l[g.elems + k - 1] >= desc.maxLength then half + 1 else half)
    ensures l1[g.elems + k - 1] == l[g.elems + k - 1] && At(l1, g.pairs[k - 1].0) == g.elems + k - 1
  {
    hide Assigned;
    PairIds(g, k - 1);
    assert g.Step(k - 1);
    AssignedStep(g, f2, l, l2, desc.maxLength, k, half);
    forall j | 0 <= j < k - 1 ensures At(l2, g.pairs[j].0) == g.elems + j && At(l2, g.pairs[j].1) == g.elems + j {
      NeverRootAgain(g, j, k - 1);
    }
  }

  /** A node with a father is a symbol exactly if it is not beyond the largest code. */
  lemma SonIsLeaf(g: Merges, maxCode: nat, k: nat)
    requires g.Valid() && k < |g.pairs| && IsMaxCode(maxCode, g.Leaves())
    ensures maxCode < g.elems
    ensures var p := g.pairs[k]; (p.0 < g.elems <==> p.0 <= maxCode) && (p.1 < g.elems <==> p.1 <= maxCode)
    ensures var p := g.pairs[k]; (p.0 < g.elems ==> p.0 in g.Leaves()) && (p.1 < g.elems ==> p.1 in g.Leaves())
  {
    assert g.Step(k);
    LowAreLeaves(g, k);
    assert IdsBelow(g.forests[0], g.elems + 0);
  }

  /** The state between pairs of the first pass. */
  ghost predicate Pass(t: TreeState, fc: array<nat>, dl: array<nat>, desc: StaticDesc, g: Merges, f: seq<nat>, k: nat,
                       half: nat, opt: int, stat: int)
    reads t, t.heap, t.blCount, fc, dl
  {
    && t.blCount.Length == 16 && t.blCount != dl && fc != dl && fc != t.blCount && t.blCount != t.heap && dl != t.heap
      && fc != t.heap
    && |f| == fc.Length == dl.Length && (forall x :: 0 <= x < g.elems && x < |f| ==> f[x] == fc[x])
    && Passing(g, f, fc[..], dl[..], desc, k, half)
    && Accounted(t.blCount[..], t.optLen - opt, t.staticLen - stat, Low(g, k), f, dl[..], desc)
    && 2 * |g.pairs| <= t.heap.Length
    && (forall j :: 0 <= j < |g.pairs| ==>
      t.heap[t.heap.Length - 1 - 2 * j] == g.pairs[j].0 && t.heap[t.heap.Length - 2 - 2 * j] == g.pairs[j].1)
  }

  /** The two sons of one node. */
  method PassPair(t: TreeState, fc: array<nat>, dl: array<nat>, maxCode: nat, desc: StaticDesc, h: nat, overflow: nat,
                  ghost g: Merges, ghost f: seq<nat>, ghost k: nat, ghost half: nat, ghost opt: int, ghost stat: int)
    returns (over: nat, ghost half2: nat)
    requires desc.Valid() && Pass(t, fc, dl, desc, g, f, k, half, opt, stat) && IsMaxCode(maxCode, g.Leaves())
    requires overflow == 2 * half && k > 0 && h == t.heap.Length - 2 * k
    modifies t`optLen, t`staticLen, t.blCount, dl
    ensures Pass(t, fc, dl, desc, g, f, k - 1, half2, opt, stat) && over == 2 * half2
    ensures forall x :: 0 <= x < dl.Length && x < g.elems && x !in g.Leaves() ==> dl[x] == old(dl[x])
  {
    hide Accounted, Assigned, Merges.Step, FreqsAdd;
    ghost var p, d, l := g.pairs[k - 1], g.elems + k - 1, dl[..];
    PairIds(g, k - 1);
    LowStep(g, k);
    SonIsLeaf(g, maxCode, k - 1);
    ghost var done;
    over, done := AssignLength(t, fc, dl, t.heap[h], maxCode, desc, overflow, Low(g, k), f, opt, stat);
    ghost var l1 := dl[..];
    assert At(l, p.0) == d && p.0 != p.1;
    over, done := AssignLength(t, fc, dl, t.heap[h + 1], maxCode, desc, over, done, f, opt, stat);
    PassingStep(g, f, fc[..], l, l1, dl[..], desc, k, half);
    half2 := if l[d] >= desc.maxLength then half + 1 else half;
  }

  method ClearCounts(t: TreeState)
    requires t.blCount.Length == 16
    modifies t.blCount
    ensures forall b :: 0 <= b < 16 ==> t.blCount[b] == 0
  {
    for bits := 0 to 16
      invariant forall b :: 0 <= b < bits ==> t.blCount[b] == 0
    {
      t.blCount[bits] := 0;
    }
  }

  /** The root gets length zero. */
  method StartPass(t: TreeState, fc: array<nat>, dl: array<nat>, desc: StaticDesc, ghost g: Merges, ghost f: seq<nat>)
    requires desc.Valid() && t.Built(g, f, fc, dl) && g.elems == desc.elems
    requires t.blCount.Length == 16 && t.blCount != dl && fc != t.blCount && t.blCount != t.heap
    requires |f| == fc.Length && forall x :: 0 <= x < g.elems ==> f[x] == fc[x]
    modifies t.blCount, dl
    ensures Pass(t, fc, dl, desc, g, f, |g.pairs|, 0, t.optLen, t.staticLen)
    ensures forall x :: 0 <= x < g.elems ==> dl[x] == old(dl[x])
  {
    hide Accounted, Assigned, Merges.Step, FreqsAdd, Progress, Passing, Low;
    ClearCounts(t);
    ForestSize(g, |g.pairs|);
    dl[t.heap[t.heapMax]] := 0;
    PassingStart(g, f, fc[..], old(dl[..]), dl[..], t.heap[..], desc);
    NothingAccounted(t.blCount[..], g, f, dl[..], desc);
  }

  /** Give every node its length from the root down, the sons of the last merge first. */
  method FirstPass(t: TreeState, fc: array<nat>, dl: array<nat>, maxCode: nat, desc: StaticDesc, ghost g: Merges,
                   ghost f: seq<nat>)
    returns (overflow: nat, ghost half: nat)
    requires desc.Valid() && t.Built(g, f, fc, dl) && IsMaxCode(maxCode, g.Leaves()) && g.elems == desc.elems
    requires t.blCount.Length == 16 && t.blCount != dl && fc != t.blCount && t.blCount != t.heap
    requires |f| == fc.Length && forall x :: 0 <= x < g.elems ==> f[x] == fc[x]
    modifies t`optLen, t`staticLen, t.blCount, dl
    ensures Pass(t, fc, dl, desc, g, f, 0, half, old(t.optLen), old(t.staticLen)) && overflow == 2 * half
    ensures forall x :: 0 <= x < g.elems && x !in g.Leaves() ==> dl[x] == old(dl[x])
  {
    hide Accounted, Assigned, Merges.Step, FreqsAdd, Progress, Passing, Recorded, Low, IsMaxCode;
    ghost var opt, stat, k := t.optLen, t.staticLen, |g.pairs|;
    StartPass(t, fc, dl, desc, g, f);
    overflow, half := 0, 0;
    var h := t.heapMax + 1;
    while h < t.heap.Length
      invariant 0 <= k <= |g.pairs| && h == t.heap.Length - 2 * k && overflow == 2 * half
      invariant Pass(t, fc, dl, desc, g, f, k, half, opt, stat)
      invariant forall x :: 0 <= x < g.elems && x !in g.Leaves() ==> dl[x] == old(dl[x])
      decreases k
    {
      overflow, half := PassPair(t, fc, dl, maxCode, desc, h, overflow, g, f, k, half, opt, stat);
      h, k := h + 2, k - 1;
    }
  }

  lemma NothingAccounted(c: seq<nat>, g: Merges, f: seq<nat>, l: seq<nat>, desc: StaticDesc)
    requires g.Valid() && |g.pairs| >= 1 && g.Roots() == {g.elems + |g.pairs| - 1} && forall b :: 0 <= b < |c| ==>
      c[b] == 0
    ensures Low(g, |g.pairs|) == {} && Accounted(c, 0, 0, Low(g, |g.pairs|), f, l, desc)
  {
    assert g.forests[|g.pairs|] == g.Roots();
  }
}
