/** The sub-tables inflate_table opens, against the size of the table. */
module SubTables {
  import opened Bits
  import opened Canonical
  import opened CodeOrder
  import opened CodeGroups
  import opened DecodeTable
  import opened TableSize

  /** The length of the code at place `j` of the canonical order. */
  ghost function LenAt(lens: seq<nat>, b: nat, j: nat): nat
  {
    if b <= 1 || CountBelow(lens, b) <= j then b else LenAt(lens, b - 1, j)
  }

  /** The code lengths in use, in order. */
  ghost function ByLength(lens: seq<nat>, m: nat): (ls: seq<nat>)
    ensures |ls| == CountBelow(lens, m + 1)
  {
    seq(CountBelow(lens, m + 1), (j: nat) => LenAt(lens, m, j))
  }

  lemma {:induction false} LenAtIs(lens: seq<nat>, b: nat, j: nat, s: nat)
    requires s < |lens| && 0 < lens[s] <= b && Index(lens, s) == j
    ensures LenAt(lens, b, j) == lens[s]
    decreases b
  {
    IndexBounds(lens, b, s);
    if lens[s] < b {
      CountBelowMono(lens, lens[s] + 1, b);
      LenAtIs(lens, b - 1, j, s);
    }
  }

  /** However the symbols are put in order. */
  lemma OrderByLength(lens: seq<nat>, m: nat, work: seq<nat>)
    requires LensBounded(lens, m) && IsOrder(lens, m, work)
    ensures |ByLength(lens, m)| == |work| && forall j :: 0 <= j < |work| ==> ByLength(lens, m)[j] == lens[work[j]]
    ensures Ascending(ByLength(lens, m), m)
  {
    var ls := ByLength(lens, m);
    forall j | 0 <= j < |work| ensures ls[j] == lens[work[j]] {
      assert Index(lens, work[j]) == j;
      LenAtIs(lens, m, j, work[j]);
    }
    forall i, j | 0 <= i <= j < |ls| ensures 1 <= ls[i] <= ls[j] <= m {
      if i < j { OrderSorted(lens, m, work, i, j); }
    }
  }

  /** The codes from `j` on take up the code space from the start of code `j` on. */
  lemma {:induction false} StartRest(lens: seq<nat>, m: nat, work: seq<nat>, j: nat)
    requires LensBounded(lens, m) && IsOrder(lens, m, work) && j < |work|
    requires Ascending(ByLength(lens, m), m)
    ensures Start(lens, m, work[j]) + Rest(ByLength(lens, m), m, j) == Kraft(lens, m)
    decreases |work| - j
  {
    hide KraftBelow, CountBelow, Start;
    OrderByLength(lens, m, work);
    var s := work[j];
    assert Index(lens, s) == j;
    if j + 1 < |work| {
      var t := work[j + 1];
      assert Index(lens, t) == j + 1;
      Consecutive(lens, m, s, t);
      StartRest(lens, m, work, j + 1);
    } else {
      FirstAndLast(lens, m, s);
    }
  }

  /** The code that fills up `space` is the one in whose length the code space reaches that far. */
  lemma {:induction false} GroupEndIs(lens: seq<nat>, m: nat, work: seq<nat>, j: nat, space: nat)
    requires LensBounded(lens, m) && IsOrder(lens, m, work) && j < |work| && space > 0
    requires Ascending(ByLength(lens, m), m) && space <= Rest(ByLength(lens, m), m, j)
    ensures var b := GroupEnd(ByLength(lens, m), m, j, space);
      KraftBelow(lens, m, b) < Start(lens, m, work[j]) + space <= KraftBelow(lens, m, b + 1)
    decreases |work| - j
  {
    hide KraftBelow, CountBelow, Start;
    OrderByLength(lens, m, work);
    var ls, s := ByLength(lens, m), work[j];
    StartBounds(lens, m, s);
    if space > Pow2(m - ls[j]) {
      assert Rest(ls, m, j) == Pow2(m - ls[j]) + Rest(ls, m, j + 1);
      var t := work[j + 1];
      assert Index(lens, s) == j && Index(lens, t) == j + 1;
      Consecutive(lens, m, s, t);
      GroupEndIs(lens, m, work, j + 1, space - Pow2(m - ls[j]));
    }
  }

  /** A length with that property is that length. */
  lemma LengthUnique(lens: seq<nat>, m: nat, a: nat, b: nat, e: nat)
    requires KraftBelow(lens, m, a) < e <= KraftBelow(lens, m, a + 1)
    requires KraftBelow(lens, m, b) < e <= KraftBelow(lens, m, b + 1)
    ensures a == b
  {
    if a < b { KraftBelowMono(lens, m, a + 1, b); }
    if b < a { KraftBelowMono(lens, m, b + 1, a); }
  }

  /** Entries of the sub-tables opened from code `k` on. */
  ghost function Still(lens: seq<nat>, m: nat, root: nat, k: nat, left: int): nat
  {
    if Ascending(ByLength(lens, m), m) && root <= m then SubSizes(ByLength(lens, m), m, root, k, left) else 0
  }

  /** Entries of the whole table. */
  ghost function FullSize(lens: seq<nat>, m: nat, root: nat): nat { Pow2(root) + Still(lens, m, root, 0, 0) }

  /** Bits asked for by inflate for the root table of each code. */
  function AskedBits(ty: CodeType): nat { if ty == LENS then 9 else if ty == DISTS then 6 else 7 }

  /** Most codes a block can have of each kind. */
  function Most(ty: CodeType): nat { if ty == LENS then 286 else if ty == DISTS then 30 else 19 }

  /** The table would use all the space set aside for it. */
  ghost predicate TooBig(ty: CodeType, lens: seq<nat>, m: nat)
  {
    (ty == LENS && FullSize(lens, m, 9) >= ENOUGH_LENS) || (ty == DISTS && FullSize(lens, m, 6) >= ENOUGH_DISTS)
  }

  /** inflate gives up on a block with these codes, although they are valid. */
  ghost predicate Refused(llens: seq<nat>, dlens: seq<nat>, m: nat) { TooBig(LENS, llens, m)
    || TooBig(DISTS, dlens, m) }

  /** Space left in the group of code `k`, from that code on. */
  ghost function GroupLeft(lens: seq<nat>, m: nat, root: nat, s: nat): int
    requires s < |lens| && lens[s] <= m && root <= m
  {
    if lens[s] > root then Group(lens, root, s) * Pow2(m - root) + Pow2(m - root) - Start(lens, m, s) else 0
  }

  /** What is left after a code. */
  ghost function After(lens: seq<nat>, m: nat, root: nat, s: nat): int
    requires s < |lens| && lens[s] <= m && root <= m
  {
    if lens[s] > root then GroupLeft(lens, m, root, s) - Pow2(m - lens[s]) else 0
  }

  /** Entering a code opens no sub-table. */
  lemma EnterLeft(lens: seq<nat>, m: nat, root: nat, work: seq<nat>, k: nat)
    requires LensBounded(lens, m) && IsOrder(lens, m, work) && k < |work| && root <= m && Kraft(lens, m) <= Pow2(m)
    ensures Still(lens, m, root, k, GroupLeft(lens, m, root, work[k]))
         == Still(lens, m, root, k + 1, After(lens, m, root, work[k]))
  {
    OrderByLength(lens, m, work);
    if lens[work[k]] > root { InsideGroup(lens, m, root, work[k]); }
  }

  /** Nor does the next code, if it is short or of the same group. */
  lemma StayLeft(lens: seq<nat>, m: nat, root: nat, work: seq<nat>, k: nat)
    requires LensBounded(lens, m) && IsOrder(lens, m, work) && k + 1 < |work| && root <= m && Kraft(lens, m) <= Pow2(m)
    requires lens[work[k + 1]] <= root
      || (root < lens[work[k]] && Group(lens, root, work[k]) == Group(lens, root, work[k + 1]))
    ensures Still(lens, m, root, k + 1, After(lens, m, root, work[k]))
         == Still(lens, m, root, k + 1, GroupLeft(lens, m, root, work[k + 1]))
  {
    hide Group, Start;
    OrderByLength(lens, m, work);
    var s, t := work[k], work[k + 1];
    assert Index(lens, s) == k && Index(lens, t) == k + 1;
    Consecutive(lens, m, s, t);
  }

  /** A long code of another group finds the one before it full. */
  lemma GroupDone(lens: seq<nat>, m: nat, root: nat, work: seq<nat>, k: nat)
    requires LensBounded(lens, m) && IsOrder(lens, m, work) && k + 1 < |work| && root <= m && Kraft(lens, m) <= Pow2(m)
    requires root < lens[work[k + 1]]
      && (lens[work[k]] <= root || Group(lens, root, work[k]) != Group(lens, root, work[k + 1]))
    ensures After(lens, m, root, work[k]) == 0 && GroupLeft(lens, m, root, work[k + 1]) == Pow2(m - root)
    ensures Start(lens, m, work[k + 1]) == Group(lens, root, work[k + 1]) * Pow2(m - root)
  {
    hide KraftBelow, Group, Start, CountBelow;
    var s, t := work[k], work[k + 1];
    assert Index(lens, s) == k && Index(lens, t) == k + 1;
    GroupOpens(lens, m, root, s, t);
    Consecutive(lens, m, s, t);
    if lens[s] > root {
      InsideGroup(lens, m, root, s);
      OrderSorted(lens, m, work, k, k + 1);
      GroupMono(lens, m, root, s, t);
      MulStep(Group(lens, root, s), Group(lens, root, t), Pow2(m - root));
    }
  }

  /** The sub-table for a group has just the size its codes call for. */
  lemma GroupBits(lens: seq<nat>, m: nat, root: nat, work: seq<nat>, j: nat, curr: nat)
    requires LensBounded(lens, m) && IsOrder(lens, m, work) && j < |work| && root <= m && Kraft(lens, m) == Pow2(m)
    requires Ascending(ByLength(lens, m), m)
    requires root < lens[work[j]] <= root + curr
      && Start(lens, m, work[j]) == Group(lens, root, work[j]) * Pow2(m - root)
    requires KraftBelow(lens, m, root + curr + 1) >= Start(lens, m, work[j]) + Pow2(m - root)
      || KraftBelow(lens, m, root + curr + 1) == Pow2(m)
    requires root + curr == lens[work[j]] || KraftBelow(lens, m, root + curr) < Start(lens, m, work[j]) + Pow2(m - root)
    ensures GroupEnd(ByLength(lens, m), m, j, Pow2(m - root)) == root + curr
  {
    hide KraftBelow, Group, Start, CountBelow, GroupEnd;
    var t, g := work[j], Pow2(m - root);
    StartRest(lens, m, work, j);
    StartBounds(lens, m, t);
    KraftBelowMono(lens, m, lens[t] + 1, m + 1);
    RoomForGroup(Group(lens, root, t), Start(lens, m, t), m, root);
    GroupEndIs(lens, m, work, j, g);
    LengthUnique(lens, m, root + curr, GroupEnd(ByLength(lens, m), m, j, g), Start(lens, m, t) + g);
  }

  lemma OpenLeft(lens: seq<nat>, m: nat, root: nat, work: seq<nat>, k: nat, curr: nat)
    requires LensBounded(lens, m) && IsOrder(lens, m, work) && k + 1 < |work| && root <= m && Kraft(lens, m) == Pow2(m)
    requires root < lens[work[k + 1]] <= root + curr
      && (lens[work[k]] <= root || Group(lens, root, work[k]) != Group(lens, root, work[k + 1]))
    requires KraftBelow(lens, m, root + curr + 1) >= Start(lens, m, work[k + 1]) + Pow2(m - root)
      || KraftBelow(lens, m, root + curr + 1) == Pow2(m)
    requires root + curr == lens[work[k + 1]]
      || KraftBelow(lens, m, root + curr) < Start(lens, m, work[k + 1]) + Pow2(m - root)
    ensures Still(lens, m, root, k + 1, After(lens, m, root, work[k]))
         == Pow2(curr) + Still(lens, m, root, k + 1, GroupLeft(lens, m, root, work[k + 1]))
  {
    hide KraftBelow, Group, Start, CountBelow, After, GroupLeft, ByLength, GroupEnd;
    OrderByLength(lens, m, work);
    GroupDone(lens, m, root, work, k);
    GroupBits(lens, m, root, work, k + 1, curr);
  }

  /** Groups end within the code space. */
  lemma RoomForGroup(x: nat, start: nat, m: nat, root: nat)
    requires root <= m && start == x * Pow2(m - root) && start < Pow2(m)
    ensures start + Pow2(m - root) <= Pow2(m)
  {
    Pow2Sub(m, m - root);
    if x >= Pow2(root) { MulMono(Pow2(root), x, Pow2(m - root)); }
    MulStep(x, Pow2(root), Pow2(m - root));
  }
}
