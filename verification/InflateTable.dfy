/** inftrees.c, inflate_table: the whole construction, and what the finished table decodes. */
module InflateTable {
  import opened Bits
  import opened Canonical
  import opened CodeOrder
  import opened DecodeTable
  import opened TableFill
  import opened CodeGroups
  import opened TableParts
  import opened SubTables
  import opened TableSize

  /** What does not change while the table fills: the code in order, its actions, and the root size. */
  datatype Plan = Plan(ty: CodeType, lens: seq<nat>, m: nat, max: nat, root: nat, work: seq<nat>)
  {
    ghost predicate Valid()
    {
      && |lens| <= MaxSymbols(ty) && Ordered(lens, m, work) && MaxIs(lens, m, max) && |work| > 0
      && 1 <= root <= max <= m <= MAXBITS && lens[work[0]] <= root
    }

    ghost function Codes(): (codes: seq<seq<bool>>)
      requires Valid()
      ensures |codes| == |work|
    {
      CodeList(lens, work)
    }

    ghost function Acts(): (acts: seq<Action>)
      requires Valid()
      ensures |acts| == |work|
    {
      ActionList(ty, lens, work)
    }
  }

  /** The table being filled: its offset and index bits, the code bits dropped to index it, the root
      entry it hangs from, and the entries allocated so far. */
  datatype Table = Table(next: nat, curr: nat, drop: nat, low: int, used: nat)

  /** The loop state: the symbol to enter, its code length and code, and the table it goes to. */
  datatype Fill = Fill(k: nat, len: nat, huff: nat, tab: Table)

  /** Between symbols: `f.k` codes are in the table `t` and the table for the next one is ready. */
  ghost predicate Ready(p: Plan, f: Fill, cur: Current, t: seq<Entry>, count: seq<nat>)
    requires p.Valid()
  {
    && Entered(p, f.k, f.tab, cur, t) && f.k < |p.work| && p.max < |count|
    && f.len == p.lens[p.work[f.k]] && f.huff == Value(p.Codes()[f.k])
    && Fits(p.root, p.Codes()[f.k], f.tab.curr, cur) && Capacity(p.root, p.Codes(), f.k, f.tab.curr, cur)
    && CountsAt(count, p.lens, p.max, p.work[f.k])
  }

  /** The first `k` codes are in the table `t`. */
  ghost predicate Entered(p: Plan, k: nat, tab: Table, cur: Current, t: seq<Entry>)
    requires p.Valid()
  {
    && Pow2(p.root) <= |t| && k <= |p.work|
    && State(t, p.root, p.Codes(), p.Acts(), k, tab.next, tab.curr, cur)
    && tab.drop == Drop(p.root, cur) && tab.used == tab.next + Pow2(tab.curr)
    && tab.low == (if cur.Root? then -1 else Slot(cur.low))
  }

  /** Enter symbol `f.k`. */
  method EnterSymbol(ghost p: Plan, f: Fill, ghost cur: Current, ghost count: seq<nat>,
                     table: array<Entry>, start: nat, act: Action)
    requires p.Valid() && start <= table.Length && Ready(p, f, cur, table[start..], count)
    requires act == p.Acts()[f.k]
    modifies table
    ensures Entered(p, f.k + 1, f.tab, cur, table[start..])
    ensures forall i :: 0 <= i < start || start + f.tab.used <= i < table.Length ==> table[i] == old(table[i])
  {
    ghost var t, code := table[start..], p.Codes()[f.k];
    CodesPrefixFree(p.lens, p.m, p.work);
    MaskShift(code, f.tab.drop);
    var here := Entry(act.op, f.len - f.tab.drop, act.val);
    Replicate(table, start, f.tab.next, f.tab.curr, f.len - f.tab.drop, Shr(f.huff, f.tab.drop), here,
      code[f.tab.drop..]);
    EnterCode(t, table[start..], p.root, p.Codes(), p.Acts(), f.k, f.tab.next, f.tab.curr, cur);
    forall i | start + f.tab.used <= i < table.Length ensures table[i] == old(table[i]) {
      assert table[start..][i - start] == t[i - start];
    }
  }

  /** The next code is the backwards increment of this one, whatever its length. */
  lemma NextHuff(p: Plan, k: nat)
    requires p.Valid() && k + 1 < |p.work|
    ensures Value(RevInc(p.Codes()[k])) == Value(p.Codes()[k + 1])
    ensures p.lens[p.work[k]] <= p.lens[p.work[k + 1]]
  {
    NextCodeBits(p.lens, p.m, p.work[k], p.work[k + 1]);
  }

  /** When no sub-table has to be opened, the current table is the one for the next code. */
  lemma StayReady(p: Plan, f: Fill, g: Fill, cur: Current, t: seq<Entry>, t1: seq<Entry>, count: seq<nat>,
                  count1: seq<nat>)
    requires p.Valid() && Ready(p, f, cur, t, count) && Entered(p, g.k, g.tab, cur, t1) && p.max < |count1|
    requires g.k == f.k + 1 < |p.work| && g.tab == f.tab && g.huff == Value(p.Codes()[g.k])
    requires g.len == p.lens[p.work[g.k]] && f.len <= g.len && CountsAt(count1, p.lens, p.max, p.work[g.k])
    requires g.len <= p.root || LowBits(g.huff, p.root) == g.tab.low
    ensures Ready(p, g, cur, t1, count1)
  {
    var code := p.Codes()[g.k];
    if g.len > p.root {
      MaskShift(code, p.root);
      if cur.Sub? { ValueInjective(code[..p.root], cur.low); }
    }
  }

  lemma SameTable(p: Plan, f: Fill, g: Fill, cur: Current, t: seq<Entry>, count: seq<nat>)
    requires p.Valid() && Ready(p, f, cur, t, count)
    requires g.k == f.k + 1 < |p.work| && g.tab == f.tab && g.huff == Value(p.Codes()[g.k])
      && g.len == p.lens[p.work[g.k]]
    requires g.len <= p.root || LowBits(g.huff, p.root) == g.tab.low
    ensures g.len <= p.root || SameGroup(p.root, p.Codes()[f.k], p.Codes()[g.k])
  {
    var code := p.Codes()[g.k];
    if g.len > p.root {
      MaskShift(code, p.root);
      if cur.Sub? { ValueInjective(code[..p.root], cur.low); }
    }
  }

  /** A code outside the current group opens a new one. */
  lemma LeavesGroup(p: Plan, f: Fill, g: Fill, cur: Current, t: seq<Entry>, count: seq<nat>)
    requires p.Valid() && Ready(p, f, cur, t, count)
    requires g.k == f.k + 1 < |p.work| && g.huff == Value(p.Codes()[g.k]) && g.tab == f.tab
    requires g.len == p.lens[p.work[g.k]] > p.root && LowBits(g.huff, p.root) != g.tab.low
    ensures !InGroup(p.root, cur, p.Codes()[g.k])
    ensures cur.Sub? ==> InGroup(p.root, cur, p.Codes()[f.k])
    ensures !SameGroup(p.root, p.Codes()[f.k], p.Codes()[g.k])
    ensures LowBits(g.huff, p.root) == Slot(p.Codes()[g.k][..p.root])
  {
    MaskShift(p.Codes()[g.k], p.root);
  }

  /** A link to a new table after the current one makes room for the group of symbol `g.k`. */
  lemma OpenReady(p: Plan, f: Fill, g: Fill, h: Fill, cur: Current, t0: seq<Entry>, count0: seq<nat>,
                  t: seq<Entry>, t1: seq<Entry>, count: seq<nat>)
    requires p.Valid() && Ready(p, f, cur, t0, count0) && Entered(p, g.k, g.tab, cur, t) && p.max < |count|
    requires g.k == f.k + 1 < |p.work| && g.huff == Value(p.Codes()[g.k]) && g.tab == f.tab
    requires g.len == p.lens[p.work[g.k]] > p.root && LowBits(g.huff, p.root) != g.tab.low
    requires CountsAt(count, p.lens, p.max, p.work[g.k])
    requires h == Fill(g.k, g.len, g.huff,
      Table(g.tab.used, h.tab.curr, p.root, LowBits(g.huff, p.root), g.tab.used + Pow2(h.tab.curr)))
    requires g.len <= p.root + h.tab.curr <= p.max && h.tab.used <= |t|
    requires GroupFull(p.lens, p.m, p.max, p.root, h.tab.curr, p.work[g.k])
    requires SetAt(t, t1, LowBits(g.huff, p.root), Entry(h.tab.curr, p.root, g.tab.used))
    ensures Ready(p, h, Sub(p.Codes()[g.k][..p.root]), t1, count)
  {
    hide State, PrefixFreeList, Grouped, Capacity, GroupFull, CountsAt, Ordered, MaxIs, Pow2, Value, LowBits,
         SymbolAction;
    LeavesGroup(p, f, g, cur, t0, count0);
    CodesPrefixFree(p.lens, p.m, p.work);
    CodesGrouped(p.lens, p.m, p.work, p.root);
    OpenSub(t, t1, p.root, p.Codes(), p.Acts(), g.k, g.tab.next, g.tab.curr, cur, h.tab.curr);
    CapacityOfGroup(p.lens, p.m, p.work, p.max, p.root, g.k, h.tab.curr);
  }

  /** Just enough index bits for the group that opens with symbol `k`. */
  ghost predicate JustBits(p: Plan, k: nat, curr: nat)
    requires p.Valid() && k < |p.work|
  {
    && p.lens[p.work[k]] <= p.root + curr <= p.max && GroupFull(p.lens, p.m, p.max, p.root, curr, p.work[k])
    && (p.root + curr == p.lens[p.work[k]]
      || KraftBelow(p.lens, p.m, p.root + curr) < Start(p.lens, p.m, p.work[k]) + Pow2(p.m - p.root))
  }

  /** A sub-table has the size the lengths call for. */
  lemma OpenSized(p: Plan, k: nat, curr: nat)
    requires p.Valid() && k + 1 < |p.work| && Kraft(p.lens, p.m) == Pow2(p.m)
    requires p.root < p.lens[p.work[k + 1]] && !SameGroup(p.root, p.Codes()[k], p.Codes()[k + 1])
      && JustBits(p, k + 1, curr)
    ensures Still(p.lens, p.m, p.root, k + 1, After(p.lens, p.m, p.root, p.work[k]))
         == Pow2(curr) + Still(p.lens, p.m, p.root, k + 1, GroupLeft(p.lens, p.m, p.root, p.work[k + 1]))
  {
    hide Still, After, GroupLeft, KraftBelow, Start, CountBelow, CodeBits, SymbolAction, Pow2, Index;
    var s, t := p.work[k], p.work[k + 1];
    if p.lens[s] > p.root && Group(p.lens, p.root, s) == Group(p.lens, p.root, t) {
      MsbInjective(p.Codes()[k][..p.root], p.Codes()[k + 1][..p.root]);
    }
    BoundedTop(p.lens, p.m, p.max);
    NoneBetween(p.lens, p.m, p.max + 1, p.m + 1);
    OpenLeft(p.lens, p.m, p.root, p.work, k, curr);
  }

  /** The link goes to an entry of the root table. */
  lemma LinkInside(p: Plan, g: Fill, cur: Current, t: seq<Entry>)
    requires p.Valid() && g.k < |p.work| && Entered(p, g.k, g.tab, cur, t)
    requires p.lens[p.work[g.k]] > p.root && LowBits(g.huff, p.root) == Slot(p.Codes()[g.k][..p.root])
    ensures !LensBounded(p.lens, p.root) && LowBits(g.huff, p.root) < g.tab.used && LowBits(g.huff, p.root) < |t|
  {
    hide Value, CodeBits, SymbolAction, Pow2;
  }

  /** Open a sub-table for symbol `g.k`, or give up when the space is used up. */
  method OpenSubTable(p: Plan, ghost f: Fill, g: Fill, ghost cur: Current, count: array<nat>, ghost count0: seq<nat>,
                      table: array<Entry>, start: nat, ghost t0: seq<Entry>)
    returns (ok: bool, h: Fill, ghost cur': Current)
    requires p.Valid() && start <= table.Length && count.Length == p.m + 1
    requires Ready(p, f, cur, t0, count0) && Entered(p, g.k, g.tab, cur, table[start..])
    requires g.k == f.k + 1 < |p.work| && g.huff == Value(p.Codes()[g.k]) && g.tab == f.tab
    requires g.len == p.lens[p.work[g.k]] > p.root && LowBits(g.huff, p.root) != g.tab.low
    requires CountsAt(count[..], p.lens, p.max, p.work[g.k])
    requires p.ty != CODES && Space(p.ty, p.lens, 0, table.Length - start)
    modifies table
    ensures h.k == g.k && (ok ==> Ready(p, h, cur', table[start..], count[..]))
    ensures h.tab.used == g.tab.used + Pow2(h.tab.curr) && JustBits(p, g.k, h.tab.curr)
    ensures forall i :: 0 <= i < start || start + g.tab.used <= i < table.Length ==> table[i] == old(table[i])
    ensures h.tab.used >= g.tab.used
    ensures ok || (TooMany(p.ty, h.tab.used) && !LensBounded(p.lens, p.root))
    ensures ok && !TooMany(p.ty, g.tab.used) ==> !TooMany(p.ty, h.tab.used)
  {
    hide KraftBelow, Start, CountBelow, SymbolAction, Capacity, Value, LowBits, CodeBits, State, PrefixFreeList,
         GroupFull, Grouped, InGroup, SameGroup, Pow2, LensBounded, Count;
    LeavesGroup(p, f, g, cur, t0, count0);
    LinkInside(p, g, cur, table[start..]);
    var curr := SubTableBits(count, g.len, p.root, p.max, p.lens, p.m, p.work[g.k]);
    var used := g.tab.used + Pow2(curr);
    var low := LowBits(g.huff, p.root);
    h := Fill(g.k, g.len, g.huff, Table(g.tab.used, curr, p.root, low, used));
    cur' := Sub(p.Codes()[g.k][..p.root]);
    if TooMany(p.ty, used) { return false, h, cur'; }
    ghost var t := table[start..];
    table[start + low] := Entry(curr, p.root, g.tab.used);
    assert SetAt(t, table[start..], low, Entry(curr, p.root, g.tab.used));
    OpenReady(p, f, g, h, cur, t0, count0, t, table[start..], count[..]);
    ok := true;
  }

  /** All codes are in the table `t`, and `f.huff` is the code after the last one. */
  ghost predicate Complete(p: Plan, f: Fill, cur: Current, t: seq<Entry>)
    requires p.Valid()
  {
    && Entered(p, f.k, f.tab, cur, t) && f.k == |p.work|
    && Fits(p.root, p.Codes()[f.k - 1], f.tab.curr, cur) && f.len == p.lens[p.work[f.k - 1]]
    && f.huff == Value(RevInc(p.Codes()[f.k - 1]))
  }

  lemma FirstReady(p: Plan, f: Fill, t: seq<Entry>, count: seq<nat>)
    requires p.Valid() && Pow2(p.root) <= |t| && p.max < |count|
    requires forall b :: 0 <= b < |count| ==> count[b] == Count(p.lens, b)
    requires f == Fill(0, p.lens[p.work[0]], 0, Table(0, p.root, 0, -1, Pow2(p.root)))
    ensures Ready(p, f, Root, t, count)
  {
    var s := p.work[0];
    FirstAndLast(p.lens, p.m, s);
    CodeFits(p.lens, p.m, s);
    MsbInjective(CodeBits(p.lens, s), Zeros(p.lens[s]));
    IndexBounds(p.lens, p.m, s);
    CountPrefix(p.lens, s, p.lens[s]);
    assert Count(p.lens[..s], p.lens[s]) == 0;
  }

  /** Enter symbol `f.k`, increment the code, and step to the next symbol. */
  method Advance(p: Plan, f: Fill, ghost cur: Current, table: array<Entry>, start: nat, count: array<nat>)
    returns (done: bool, g: Fill)
    requires p.Valid() && start <= table.Length && count.Length == p.m + 1
    requires Ready(p, f, cur, table[start..], count[..])
    modifies table, count
    ensures g.k == f.k + 1 && g.tab == f.tab && Entered(p, g.k, g.tab, cur, table[start..])
    ensures done <==> g.k == |p.work|
    ensures done ==> g.huff == Value(RevInc(p.Codes()[f.k])) && g.len == f.len
    ensures !done ==> g.huff == Value(p.Codes()[g.k]) && f.len <= g.len == p.lens[p.work[g.k]]
    ensures !done ==> CountsAt(count[..], p.lens, p.max, p.work[g.k])
    ensures forall i :: 0 <= i < start || start + f.tab.used <= i < table.Length ==> table[i] == old(table[i])
  {
    hide State, Entered, Capacity, Fits, Value, RevInc, CodeBits, Kraft, Index, CountBelow, Count, SymbolAction;
    EnterSymbol(p, f, cur, count[..], table, start, SymbolAction(p.ty, p.work[f.k]));
    var huff := BackwardsIncrement(f.huff, f.len, p.Codes()[f.k]);
    var len;
    done, len := StepCount(p, f.k, f.len, count);
    if !done { NextHuff(p, f.k); }
    g := Fill(f.k + 1, len, huff, f.tab);
  }

  /** Use up one code of the current length; go to the length of the next symbol when it is the last. */
  method StepCount(p: Plan, k: nat, len: nat, count: array<nat>) returns (done: bool, next: nat)
    requires p.Valid() && k < |p.work| && count.Length == p.m + 1
    requires len == p.lens[p.work[k]] && CountsAt(count[..], p.lens, p.max, p.work[k])
    modifies count
    ensures done <==> k + 1 == |p.work|
    ensures done ==> next == len
    ensures !done ==> next == p.lens[p.work[k + 1]] && CountsAt(count[..], p.lens, p.max, p.work[k + 1])
  {
    ghost var c := count[..];
    AfterSymbol(c, p.lens, p.m, p.work, p.max, k);
    var left := count[len] - 1;
    count[len] := left;
    assert count[..] == c[len := left];
    done, next := false, len;
    if left == 0 {
      if len == p.max { done := true; } else { next := p.lens[p.work[k + 1]]; }
    }
  }

  /** Entries of the table once all is done, with the table for symbol `k` open. */
  ghost predicate Sized(p: Plan, k: nat, used: nat)
    requires p.Valid() && k < |p.work|
  {
    used + Still(p.lens, p.m, p.root, k, GroupLeft(p.lens, p.m, p.root, p.work[k])) == FullSize(p.lens, p.m, p.root)
  }

  lemma SizedStart(p: Plan)
    requires p.Valid()
    ensures Sized(p, 0, Pow2(p.root))
  {
  }

  lemma SizedEnd(p: Plan, k: nat, used: nat)
    requires p.Valid() && k + 1 == |p.work| && Sized(p, k, used)
    ensures used == FullSize(p.lens, p.m, p.root)
  {
    EnterLeft(p.lens, p.m, p.root, p.work, k);
  }

  lemma SizedBound(p: Plan, k: nat, used: nat)
    requires p.Valid() && k < |p.work| && Sized(p, k, used)
    ensures used <= FullSize(p.lens, p.m, p.root)
  {
  }

  lemma SizedStay(p: Plan, k: nat, used: nat)
    requires p.Valid() && k + 1 < |p.work| && Sized(p, k, used)
    requires p.lens[p.work[k + 1]] <= p.root || SameGroup(p.root, p.Codes()[k], p.Codes()[k + 1])
    ensures Sized(p, k + 1, used)
  {
    hide Still, After, GroupLeft, KraftBelow, Start, CountBelow, CodeBits, SymbolAction, Pow2, Index;
    EnterLeft(p.lens, p.m, p.root, p.work, k);
    StayLeft(p.lens, p.m, p.root, p.work, k);
  }

  lemma SizedOpen(p: Plan, k: nat, used: nat, curr: nat)
    requires p.Valid() && k + 1 < |p.work| && Sized(p, k, used) && Kraft(p.lens, p.m) == Pow2(p.m)
    requires p.root < p.lens[p.work[k + 1]] && !SameGroup(p.root, p.Codes()[k], p.Codes()[k + 1])
      && JustBits(p, k + 1, curr)
    ensures Sized(p, k + 1, used + Pow2(curr))
  {
    hide Still, After, GroupLeft, KraftBelow, Start, CountBelow, CodeBits, SymbolAction, Pow2, Index;
    EnterLeft(p.lens, p.m, p.root, p.work, k);
    OpenSized(p, k, curr);
  }

  /** Make the table for symbol `g.k` current: the one before, or a new sub-table. */
  method NextTable(p: Plan, ghost f: Fill, g: Fill, ghost cur: Current, count: array<nat>, ghost count0: seq<nat>,
                   table: array<Entry>, start: nat, ghost t0: seq<Entry>)
    returns (ok: bool, h: Fill, ghost cur': Current)
    requires p.Valid() && start <= table.Length && count.Length == p.m + 1
    requires Ready(p, f, cur, t0, count0) && Entered(p, g.k, g.tab, cur, table[start..])
    requires g.k == f.k + 1 < |p.work| && g.huff == Value(p.Codes()[g.k]) && g.tab == f.tab
    requires f.len <= g.len == p.lens[p.work[g.k]] && CountsAt(count[..], p.lens, p.max, p.work[g.k])
    requires if p.ty == CODES then LensBounded(p.lens, p.root) else Space(p.ty, p.lens, 0, table.Length - start)
    requires Sized(p, f.k, f.tab.used) && (Kraft(p.lens, p.m) < Pow2(p.m) ==> LensBounded(p.lens, p.root))
    modifies table
    ensures h.k == g.k && Sized(p, h.k, h.tab.used)
    ensures ok ==> Ready(p, h, cur', table[start..], count[..]) && h.k == g.k
    ensures forall i :: 0 <= i < start || start + g.tab.used <= i < table.Length ==> table[i] == old(table[i])
    ensures h.tab.used >= g.tab.used
    ensures ok || (TooMany(p.ty, h.tab.used) && !LensBounded(p.lens, p.root))
    ensures ok && !TooMany(p.ty, g.tab.used) ==> !TooMany(p.ty, h.tab.used)
  {
    hide Sized, JustBits, SymbolAction, CountBelow, KraftBelow, Kraft, Pow2, Value, CodeBits, Capacity, State, Ready,
         Entered, SameGroup, CountsAt, LowBits;
    if g.len > p.root && LowBits(g.huff, p.root) != g.tab.low {
      LeavesGroup(p, f, g, cur, t0, count0);
      ok, h, cur' := OpenSubTable(p, f, g, cur, count, count0, table, start, t0);
      SizedOpen(p, f.k, f.tab.used, h.tab.curr);
    } else {
      StayReady(p, f, g, cur, t0, table[start..], count0, count[..]);
      SameTable(p, f, g, cur, t0, count0);
      SizedStay(p, f.k, f.tab.used);
      ok, h, cur' := true, g, cur;
    }
  }

  /** Enter all codes, opening sub-tables as needed. Returns the code after the last one. */
  method FillTable(p: Plan, table: array<Entry>, start: nat, count: array<nat>)
    returns (ok: bool, used: nat, huff: nat, ghost last: Fill, ghost cur: Current)
    requires p.Valid() && start + Pow2(p.root) <= table.Length && count.Length == p.m + 1
    requires forall b :: 0 <= b <= p.m ==> count[b] == Count(p.lens, b)
    requires if p.ty == CODES then LensBounded(p.lens, p.root) else Space(p.ty, p.lens, 0, table.Length - start)
    requires Kraft(p.lens, p.m) < Pow2(p.m) ==> LensBounded(p.lens, p.root)
    modifies table, count
    ensures if ok then used == FullSize(p.lens, p.m, p.root) else used <= FullSize(p.lens, p.m, p.root)
    ensures ok ==> Complete(p, last, cur, table[start..]) && last.tab.used == used && last.huff == huff
    ensures !ok ==> TooMany(p.ty, used) && !LensBounded(p.lens, p.root)
    ensures ok && !TooMany(p.ty, Pow2(p.root)) ==> !TooMany(p.ty, used)
    ensures forall i :: 0 <= i < start || start + used <= i < table.Length ==> table[i] == old(table[i])
  {
    hide Entered, RevInc, Value, CodeBits, Count, TooMany, LensBounded, Space, Sized, Still, SymbolAction;
    SizedStart(p);
    var f := Fill(0, p.lens[p.work[0]], 0, Table(0, p.root, 0, -1, Pow2(p.root)));
    cur := Root;
    FirstReady(p, f, table[start..], count[..]);
    while true
      invariant Ready(p, f, cur, table[start..], count[..]) && Sized(p, f.k, f.tab.used)
      invariant !TooMany(p.ty, Pow2(p.root)) ==> !TooMany(p.ty, f.tab.used)
      invariant forall i :: 0 <= i < start || start + f.tab.used <= i < table.Length ==> table[i] == old(table[i])
      decreases |p.work| - f.k
    {
      ghost var t, c := table[start..], count[..];
      var done, g := Advance(p, f, cur, table, start, count);
      if done {
        SizedEnd(p, f.k, f.tab.used);
        last := g;
        return true, g.tab.used, g.huff, last, cur;
      }
      var more, h;
      ghost var cur';
      more, h, cur' := NextTable(p, f, g, cur, count, c, table, start, t);
      if !more {
        SizedBound(p, h.k, h.tab.used);
        last := h;
        return false, h.tab.used, g.huff, last, cur;
      }
      f, cur := h, cur';
    }
  }

  /** `t` decodes the code with lengths `lens`: every symbol in use is found by its code, and strings
      no code begins find the invalid-code entry. */
  ghost predicate TableFor(ty: CodeType, lens: seq<nat>, m: nat, t: seq<Entry>, root: nat)
  {
    && |lens| <= MaxSymbols(ty) && LensBounded(lens, m) && 1 <= root <= m && Pow2(root) <= |t|
    && Kraft(lens, m) <= Pow2(m)
    && (forall s :: 0 <= s < |lens| && lens[s] > 0 ==> Leads(t, root, CodeBits(lens, s), SymbolAction(ty, s)))
    && (Kraft(lens, m) < Pow2(m) ==> Unfinished(lens, t, root))
  }

  /** No code, or the one code of one bit. */
  ghost predicate Unfinished(lens: seq<nat>, t: seq<Entry>, root: nat)
  {
    && root == 1 && |t| == 2 && t[1] == INVALID && LensBounded(lens, 1)
    && (if InUse(lens) then forall s :: 0 <= s < |lens| && lens[s] > 0 ==> CodeBits(lens, s) == [false]
        else t[0] == INVALID)
  }

  lemma LeadsTruncated(t: seq<Entry>, root: nat, cb: seq<bool>, a: Action, next: nat, curr: nat, cur: Current)
    requires Pow2(root) <= |t| && Leads(t, root, cb, a) && Region(t, root, cb, next, curr, cur)
    requires Pow2(root) <= next + Pow2(curr) <= |t|
    ensures Leads(t[..next + Pow2(curr)], root, cb, a)
  {
    var u := t[..next + Pow2(curr)];
    if |cb| <= root {
      assert forall w {:trigger Slot(w)} :: |w| == root && cb <= w ==> u[0 + Slot(w)] == t[0 + Slot(w)];
    } else {
      var lk := Link(t, root, cb);
      assert Link(u, root, cb) == lk;
      assert forall w {:trigger Slot(w)} :: |w| == lk.op && cb[root..] <= w ==>
        u[lk.val + Slot(w)] == t[lk.val + Slot(w)];
    }
  }

  /** When all codes are entered, the used part of the table finds every symbol. */
  lemma AllEntered(p: Plan, f: Fill, cur: Current, t: seq<Entry>)
    requires p.Valid() && Entered(p, f.k, f.tab, cur, t) && f.k == |p.work|
    ensures Pow2(p.root) <= f.tab.used <= |t|
    ensures forall s :: 0 <= s < |p.lens| && p.lens[s] > 0 ==>
      Leads(t[..f.tab.used], p.root, CodeBits(p.lens, s), SymbolAction(p.ty, s))
  {
    forall s | 0 <= s < |p.lens| && p.lens[s] > 0
      ensures Leads(t[..f.tab.used], p.root, CodeBits(p.lens, s), SymbolAction(p.ty, s))
    {
      OrderContains(p.lens, p.m, p.work, s);
      LeadsTruncated(t, p.root, CodeBits(p.lens, s), SymbolAction(p.ty, s), f.tab.next, f.tab.curr, cur);
    }
  }

  /** Lengths of at most one bit that leave code space unused denote one code, the bit zero. */
  lemma SingleCode(lens: seq<nat>, m: nat, work: seq<nat>)
    requires 1 <= m && LensBounded(lens, 1) && Ordered(lens, m, work) && |work| > 0 && Kraft(lens, m) < Pow2(m)
    ensures |work| == 1 && CodeBits(lens, work[0]) == [false]
    ensures forall s :: 0 <= s < |lens| && lens[s] > 0 ==> s == work[0]
  {
    BoundedTop(lens, m, 1);
    KraftBelowOne(lens, m);
    KraftBelowStep(lens, m, 1);
    KraftBelowMono(lens, m, 2, m + 1);
    if Count(lens, 1) >= 2 { MulMono(2, Count(lens, 1), Pow2(m - 1)); }
    FirstAndLast(lens, m, work[0]);
    assert CodeBits(lens, work[0]) == ToMsb(0, 1) == [false];
    forall s | 0 <= s < |lens| && lens[s] > 0 ensures s == work[0] {
      OrderContains(lens, m, work, s);
    }
  }

  lemma CountedBound(lens: seq<nat>, m: nat, max: nat)
    requires LensBounded(lens, m) && forall b :: max < b <= m ==> Count(lens, b) == 0
    ensures LensBounded(lens, max)
  {
    forall s | 0 <= s < |lens| ensures lens[s] <= max {
      CountPrefix(lens, s, lens[s]);
    }
  }

  lemma {:induction false} UnusedKraft(lens: seq<nat>, m: nat, b: nat)
    requires LensBounded(lens, 0)
    ensures KraftBelow(lens, m, b) == 0
  {
    if lens != [] { UnusedKraft(lens[..|lens| - 1], m, b); }
  }

  /** The first symbol of the order has the least length in use. */
  lemma FirstIsShortest(lens: seq<nat>, m: nat, work: seq<nat>, min: nat)
    requires LensBounded(lens, m) && IsOrder(lens, m, work) && 1 <= min && Count(lens, min) > 0
    ensures |work| > 0 && lens[work[0]] <= min && InUse(lens)
  {
    var s := SymbolOfRank(lens, min, 0);
    OrderContains(lens, m, work, s);
    if Index(lens, s) > 0 { OrderSorted(lens, m, work, 0, Index(lens, s)); }
  }

  /** The finished table, once the unused half of a one-bit code is marked. */
  lemma FinishedTable(p: Plan, f: Fill, cur: Current, t: seq<Entry>, t1: seq<Entry>)
    requires p.Valid() && Complete(p, f, cur, t)
    requires Kraft(p.lens, p.m) < Pow2(p.m) ==> LensBounded(p.lens, 1)
    requires if f.huff == 0 then t1 == t
      else f.tab.drop <= f.len && SetAt(t, t1, f.tab.next + f.huff, Entry(64, f.len - f.tab.drop, 0))
    ensures f.tab.used <= |t| == |t1| && TableFor(p.ty, p.lens, p.m, t1[..f.tab.used], p.root)
  {
    hide State, Value, RevInc, KraftBelow, Index, CountBelow, SymbolAction, CodeBits;
    AllEntered(p, f, cur, t);
    LastCodeWraps(p.lens, p.m, p.work[|p.work| - 1]);
    if f.huff != 0 {
      SingleCode(p.lens, p.m, p.work);
      SingleState(p, f, cur, t);
      var u, u1 := t[..f.tab.used], t1[..f.tab.used];
      forall s | 0 <= s < |p.lens| && p.lens[s] > 0
        ensures Leads(u1, p.root, CodeBits(p.lens, s), SymbolAction(p.ty, s))
      {
        assert forall w {:trigger Slot(w)} :: |w| == 1 && [false] <= w ==> w == [false];
        SlotOfZero();
        assert u1[0] == u[0];
      }
      assert InUse(p.lens) by { assert p.lens[p.work[0]] > 0; }
    }
  }

  lemma SlotOfZero()
    ensures Slot([false]) == 0
  {
    assert [false][1..] == [];
  }

  /** A single one-bit code never leaves the root table, and the code after it is the bit one. */
  lemma SingleState(p: Plan, f: Fill, cur: Current, t: seq<Entry>)
    requires p.Valid() && Complete(p, f, cur, t) && |p.work| == 1 && LensBounded(p.lens, 1) && p.Codes()[0] == [false]
    ensures p.root == 1 && cur.Root? && f.tab.next == 0 && f.tab.drop == 0 && f.tab.used == 2 && f.huff == 1
      && f.len == 1
  {
    Pow2Values();
    var s := SymbolOfRank(p.lens, p.max, 0);
    assert RevInc([false]) == [true] by { assert [false][..0] == []; }
    assert Value([true]) == 1 by { assert [true][1..] == []; }
  }

  /** Sizes of the root table: the request, brought within the code lengths. */
  function RootBits(bits: nat, min: nat, max: nat): nat
  {
    var root := if bits > max then max else bits;
    if root < min then min else root
  }

  /** Fill the table of an accepted set of lengths, and mark the unused half of a one-bit code. */
  method FillFromPlan(ty: CodeType, lens: seq<nat>, table: array<Entry>, start: nat, bits: nat, m: nat,
                      min: nat, max: nat, root: nat, count: array<nat>, work: array<nat>)
    returns (ret: int, used: nat)
    requires 1 <= m <= MAXBITS && |lens| <= MaxSymbols(ty) && LensBounded(lens, m) && Kraft(lens, m) <= Pow2(m)
    requires MaxIs(lens, m, max) && 1 <= min <= max && Count(lens, min) > 0 && root == RootBits(bits, min, max)
    requires start <= table.Length && Space(ty, lens, bits, table.Length - start)
    requires Kraft(lens, m) < Pow2(m) ==> LensBounded(lens, 1)
    requires count.Length == m + 1 && forall b :: 0 <= b <= m ==> count[b] == Count(lens, b)
    requires CountBelow(lens, m + 1) <= work.Length && IsOrder(lens, m, work[..CountBelow(lens, m + 1)])
    modifies table, count
    ensures ret == 0 ==> start + used <= table.Length && TableFor(ty, lens, m, table[start..start + used], root)
    ensures ret == 0 ==> !TooMany(ty, used) && used == FullSize(lens, m, root)
    ensures ret == 1 ==> used <= FullSize(lens, m, root)
    ensures ret == 0 || (ret == 1 && TooMany(ty, used) && (TooMany(ty, Pow2(root)) || !LensBounded(lens, root)))
    ensures forall i :: 0 <= i < start || start + used <= i < table.Length ==> table[i] == old(table[i])
  {
    hide TableFor, Entered, Complete, KraftBelow, Count, CountBelow;
    var p := Plan(ty, lens, m, max, root, work[..CountBelow(lens, m + 1)]);
    FirstIsShortest(lens, m, p.work, min);
    used := Pow2(root);
    if TooMany(ty, used) { return 1, used; }
    RootFits(ty, lens, bits, min, max, table.Length - start);
    var ok, huff;
    ghost var last, cur;
    ok, used, huff, last, cur := FillTable(p, table, start, count);
    if !ok { return 1, used; }
    MarkUnused(p, last, cur, table, start, huff);
    ret := 0;
  }

  /** Fill in the remaining entry if the code is incomplete. */
  method MarkUnused(ghost p: Plan, ghost f: Fill, ghost cur: Current, table: array<Entry>, start: nat, huff: nat)
    requires p.Valid() && start <= table.Length && Complete(p, f, cur, table[start..]) && huff == f.huff
    requires Kraft(p.lens, p.m) < Pow2(p.m) ==> LensBounded(p.lens, 1)
    modifies table
    ensures start + f.tab.used <= table.Length && TableFor(p.ty, p.lens, p.m, table[start..start + f.tab.used], p.root)
    ensures forall i :: 0 <= i < start || start + f.tab.used <= i < table.Length ==> table[i] == old(table[i])
  {
    ghost var t := table[start..];
    if huff != 0 {
      IncompleteRoot(p, f, cur, t);
      table[start + huff] := Entry(64, 1, 0);
      assert SetAt(t, table[start..], f.tab.next + huff, Entry(64, f.len - f.tab.drop, 0));
    }
    FinishedTable(p, f, cur, t, table[start..]);
    assert table[start..][..f.tab.used] == table[start..start + f.tab.used];
  }

  lemma IncompleteRoot(p: Plan, f: Fill, cur: Current, t: seq<Entry>)
    requires p.Valid() && Complete(p, f, cur, t) && f.huff != 0
    requires Kraft(p.lens, p.m) < Pow2(p.m) ==> LensBounded(p.lens, 1)
    ensures f.tab.next == 0 && f.tab.drop == 0 && f.huff == 1 && f.len == 1 && f.tab.used == 2 <= |t|
  {
    LastCodeWraps(p.lens, p.m, p.work[|p.work| - 1]);
    SingleCode(p.lens, p.m, p.work);
    SingleState(p, f, cur, t);
  }

  lemma RootFits(ty: CodeType, lens: seq<nat>, bits: nat, min: nat, max: nat, space: nat)
    requires Space(ty, lens, bits, space) && LensBounded(lens, max) && 1 <= min <= max
    requires !TooMany(ty, Pow2(RootBits(bits, min, max))) && Count(lens, min) > 0
    ensures Pow2(RootBits(bits, min, max)) <= space
    ensures if ty == CODES then LensBounded(lens, RootBits(bits, min, max)) else Space(ty, lens, 0, space)
  {
    if ty == CODES {
      var s := SymbolOfRank(lens, min, 0);
      Pow2Mono(RootBits(bits, min, max), bits);
    }
  }

  /** Build the table of `lens` in `table` from `start` on. Zero is success, -1 is an invalid set of
      lengths, and 1 means the space for the table is used up. */
  method Build(ty: CodeType, lens: seq<nat>, table: array<Entry>, start: nat, bits: nat, m: nat)
    returns (ret: int, root: nat, used: nat)
    requires 1 <= m <= MAXBITS && |lens| <= MaxSymbols(ty) && LensBounded(lens, m)
    requires start <= table.Length && Space(ty, lens, bits, table.Length - start)
    modifies table
    ensures ret == -1 || ret == 0 || ret == 1
    ensures ret == -1 <==> Rejected(ty, lens, m)
    ensures ret == 0 ==> start + used <= table.Length && TableFor(ty, lens, m, table[start..start + used], root)
    ensures ret == 0 ==> !TooMany(ty, used) && (LensBounded(lens, bits) ==> LensBounded(lens, root))
    ensures ret == 1 ==> TooMany(ty, used) && (TooMany(ty, Pow2(bits)) || !LensBounded(lens, bits))
    ensures ret == 0 ==> used == FullSize(lens, m, root)
    ensures ret == 1 ==> used <= FullSize(lens, m, root)
    ensures ret >= 0 ==> RootOf(ByLength(lens, m), bits, root) && root <= m
    ensures ty != CODES && m == MAXBITS && bits == AskedBits(ty) && |lens| <= Most(ty) ==>
      (ret == 1 <==> !Rejected(ty, lens, m) && TooBig(ty, lens, m))
    ensures forall i :: 0 <= i < start || start + used <= i < table.Length ==> table[i] == old(table[i])
  {
    hide TableFor, KraftBelow, Count, IsOrder, Pow2, CountBelow, FullSize, RootOf, ByLength, TooBig, Kraft;
    var count := CountLengths(lens, m);
    var max := MaxLength(count, m);
    CountedBound(lens, m, max);
    if max == 0 {
      EmptyTable(ty, lens, table, start, bits, m);
      EmptySize(lens, m, bits);
      if ty != CODES && m == MAXBITS && bits == AskedBits(ty) && |lens| <= Most(ty) { Enough(ty, lens, 1); }
      return 0, 1, 2;
    }
    var min := MinLength(count, max);
    root := RootBits(bits, min, max);
    var left := CodeSpaceLeft(count, m, lens);
    assert InUse(lens) by { var s := SymbolOfRank(lens, max, 0); assert lens[s] > 0; }
    if left < 0 { return -1, root, 0; }
    assert LensBounded(lens, 1) <==> max == 1 by { var s := SymbolOfRank(lens, max, 0); assert lens[s] == max; }
    if left > 0 && (ty == CODES || max != 1) { return -1, root, 0; }
    var work := SortSymbols(lens, count, m);
    RootIs(lens, m, work[..CountBelow(lens, m + 1)], min, max, bits);
    ret, used := FillFromPlan(ty, lens, table, start, bits, m, min, max, root, count, work);
    if LensBounded(lens, bits) {
      assert max <= bits by { var s := SymbolOfRank(lens, max, 0); assert lens[s] == max; }
      Pow2Mono(root, bits);
    }
    if ty != CODES && m == MAXBITS && bits == AskedBits(ty) && |lens| <= Most(ty) { Enough(ty, lens, root); }
  }

  lemma EmptySize(lens: seq<nat>, m: nat, bits: nat)
    requires LensBounded(lens, 0) && m >= 1
    ensures RootOf(ByLength(lens, m), bits, 1)
    ensures ByLength(lens, m) == [] && FullSize(lens, m, 1) == 2
  {
    NoneInUse(lens, m + 1);
    Pow2Values();
  }

  lemma {:induction false} NoneInUse(lens: seq<nat>, b: nat)
    requires LensBounded(lens, 0)
    ensures CountBelow(lens, b) == 0
  {
    if b > 1 {
      NoneInUse(lens, b - 1);
      CountNone(lens, b - 1);
    }
  }

  /** The root table has as many bits as asked for, unless all codes are shorter or longer. */
  lemma RootIs(lens: seq<nat>, m: nat, work: seq<nat>, min: nat, max: nat, bits: nat)
    requires LensBounded(lens, m) && IsOrder(lens, m, work) && 1 <= min <= max <= m && LensBounded(lens, max)
    requires Count(lens, min) > 0 && forall b :: 1 <= b < min ==> Count(lens, b) == 0
    ensures RootOf(ByLength(lens, m), bits, RootBits(bits, min, max))
  {
    hide CountBelow;
    OrderByLength(lens, m, work);
    FirstIsShortest(lens, m, work, min);
    var ls := ByLength(lens, m);
    forall j | 0 <= j < |work| ensures min <= ls[j] <= max {
      CountPrefix(lens, work[j], lens[work[j]]);
    }
  }

  lemma {:induction false} OrderFrom(lens: seq<nat>, m: nat, n: nat) returns (work: seq<nat>)
    requires LensBounded(lens, m) && n <= CountBelow(lens, m + 1)
    ensures |work| == n && forall j :: 0 <= j < n ==> work[j] < |lens| && lens[work[j]] > 0
    ensures forall j {:trigger Index(lens, work[j])} :: 0 <= j < n ==> Index(lens, work[j]) == j
  {
    work := [];
    if n > 0 {
      work := OrderFrom(lens, m, n - 1);
      var s := SymbolAtIndex(lens, m + 1, n - 1);
      work := work + [s];
    }
  }

  /** The code lengths in order, and the space they take up. */
  lemma InOrder(lens: seq<nat>, m: nat)
    requires LensBounded(lens, m)
    ensures Ascending(ByLength(lens, m), m) && Rest(ByLength(lens, m), m, 0) == Kraft(lens, m)
      && |ByLength(lens, m)| <= |lens|
  {
    var work := OrderFrom(lens, m, CountBelow(lens, m + 1));
    OrderByLength(lens, m, work);
    UsedBound(lens, m + 1);
    if |work| > 0 {
      StartRest(lens, m, work, 0);
      assert Index(lens, work[0]) == 0;
      FirstAndLast(lens, m, work[0]);
    } else {
      NoneBetween(lens, m, 1, m + 1);
      KraftBelowOne(lens, m);
    }
  }

  /** Shorter lengths, in order. */
  lemma InOrderUpTo(lens: seq<nat>, m: nat, top: nat)
    requires LensBounded(lens, top) && top <= m
    ensures Ascending(ByLength(lens, m), top)
  {
    var work := OrderFrom(lens, m, CountBelow(lens, m + 1));
    OrderByLength(lens, m, work);
  }

  /** inflate refuses no complete codes whose lengths are all less than 15. */
  lemma NotRefused(llens: seq<nat>, dlens: seq<nat>)
    requires |llens| <= 286 && |dlens| <= 30 && LensBounded(llens, 14) && LensBounded(dlens, 14)
    requires Kraft(llens, MAXBITS) == Pow2(MAXBITS) && Kraft(dlens, MAXBITS) == Pow2(MAXBITS)
    ensures !Refused(llens, dlens, MAXBITS)
  {
    hide SubSizes, Kraft, CountBelow, Pow2, Rest, ByLength, Ascending;
    forall lens | lens in {llens, dlens}
      ensures Ascending(ByLength(lens, 15), 14) && Ascending(ByLength(lens, 15), 15)
      && Rest(ByLength(lens, 15), 15, 0) == Pow2(15) && |ByLength(lens, 15)| <= |lens| {
      InOrder(lens, 15);
      InOrderUpTo(lens, 15, 14);
    }
    LongestNeeded(ByLength(llens, 15));
    LongestNeeded(ByLength(dlens, 15));
  }

  /** ENOUGH is enough: no set of lengths that inflate accepts needs more entries than that. */
  lemma Enough(ty: CodeType, lens: seq<nat>, root: nat)
    requires ty != CODES && |lens| <= Most(ty) && LensBounded(lens, MAXBITS) && !Rejected(ty, lens, MAXBITS)
    requires RootOf(ByLength(lens, MAXBITS), AskedBits(ty), root) && root <= MAXBITS
    ensures FullSize(lens, MAXBITS, root) <= if ty == LENS then ENOUGH_LENS else ENOUGH_DISTS
    ensures TooMany(ty, FullSize(lens, MAXBITS, root)) <==> TooBig(ty, lens, MAXBITS)
  {
    hide SubSizes, Kraft, CountBelow;
    var ls, bits := ByLength(lens, MAXBITS), AskedBits(ty);
    InOrder(lens, MAXBITS);
    AskedPowers();
    if forall i :: 0 <= i < |ls| ==> ls[i] <= bits {
      NoLong(ls, MAXBITS, bits, 0);
      if root < bits {
        NoLong(ls, MAXBITS, root, 0);
        Pow2Mono(root, bits);
      }
    } else {
      LongInUse(lens, MAXBITS, bits);
      if ty == LENS { EnoughLens(ls, root); } else { EnoughDists(ls, root); }
      LongRoot(ls, bits, root, |lens|);
    }
  }

  lemma AskedPowers()
    ensures Pow2(5) == 32 && Pow2(6) == 64 && Pow2(8) == 256 && Pow2(9) == 512 && Pow2(15) == 0x8000
  {
  }

  /** A code of more than one bit is a complete code. */
  lemma LongInUse(lens: seq<nat>, m: nat, bits: nat)
    requires LensBounded(lens, m) && bits >= 1 && exists i ::
      0 <= i < |ByLength(lens, m)| && ByLength(lens, m)[i] > bits
    ensures InUse(lens) && !LensBounded(lens, 1)
  {
    var work := OrderFrom(lens, m, CountBelow(lens, m + 1));
    OrderByLength(lens, m, work);
    var i :| 0 <= i < |ByLength(lens, m)| && ByLength(lens, m)[i] > bits;
    assert lens[work[i]] > 1;
  }

  /** A complete code with long codes has the root bits asked for. */
  lemma LongRoot(ls: seq<nat>, bits: nat, root: nat, n: nat)
    requires Ascending(ls, 15) && Rest(ls, 15, 0) == Pow2(15) && RootOf(ls, bits, root) && |ls| <= n
    requires (bits == 9 && n <= 286) || (bits == 6 && n <= 30)
    requires exists i :: 0 <= i < |ls| && ls[i] > bits
    ensures root == bits
  {
    AskedPowers();
    if root > bits {
      RestBound(ls, 15, 0, bits + 1);
    }
  }

  /** No symbols: a table to force an error on decoding. */
  method EmptyTable(ty: CodeType, lens: seq<nat>, table: array<Entry>, start: nat, ghost bits: nat, ghost m: nat)
    requires 1 <= m && |lens| <= MaxSymbols(ty) && LensBounded(lens, 0)
    requires start <= table.Length && Space(ty, lens, bits, table.Length - start)
    modifies table
    ensures start + 2 <= table.Length && TableFor(ty, lens, m, table[start..start + 2], 1) && !InUse(lens)
    ensures forall i :: 0 <= i < table.Length && !(start <= i < start + 2) ==> table[i] == old(table[i])
  {
    UnusedKraft(lens, m, m + 1);
    EnoughForTwo(ty, lens, bits, table.Length - start);
    table[start], table[start + 1] := INVALID, INVALID;
  }

  lemma EnoughForTwo(ty: CodeType, lens: seq<nat>, bits: nat, space: nat)
    requires Space(ty, lens, bits, space)
    ensures space >= 2 && Pow2(1) == 2
  {
    if ty == CODES { Pow2Mono(1, bits); }
  }

  /** The finished table against the code it stands for: looking up the bits received so far drops no
      more bits than there are exactly when they determine the next symbol, and then yields that symbol's
      action and drops exactly its code, or the invalid-code entry and one bit. */
  lemma TableReads(ty: CodeType, lens: seq<nat>, m: nat, t: seq<Entry>, root: nat, bs: seq<bool>)
    requires TableFor(ty, lens, m, t, root)
    ensures var (e, drop) := Lookup(t, root, bs);
      match NextSymbol(lens, m, bs)
      case Sym(s) => Action(e.op, e.val) == SymbolAction(ty, s) && drop == lens[s] <= |bs|
      case Invalid => e == INVALID && drop == 1 <= |bs|
      case NeedMore => drop > |bs|
  {
    hide CodeBits, SymbolAction, Leads, Kraft, Lookup;
    match NextSymbol(lens, m, bs)
    case Sym(s) =>
      LookupFinds(t, root, CodeBits(lens, s), SymbolAction(ty, s), bs);
    case Invalid => InvalidLookup(ty, lens, m, t, root, bs);
    case NeedMore =>
      if Kraft(lens, m) < Pow2(m) { UnfinishedLookup(ty, lens, m, t, root); }
        else { ShortLookup(ty, lens, m, t, root, bs); }
  }

  lemma InvalidLookup(ty: CodeType, lens: seq<nat>, m: nat, t: seq<Entry>, root: nat, bs: seq<bool>)
    requires TableFor(ty, lens, m, t, root) && NextSymbol(lens, m, bs) == Invalid
    ensures Lookup(t, root, bs) == (INVALID, 1)
  {
    assert bs[..1] == [bs[0]] && [bs[0]][1..] == [];
    assert Peek(bs, 1) == Bit(bs[0]);
    if InUse(lens) && !bs[0] {
      var s :| 0 <= s < |lens| && lens[s] > 0;
      assert Decodes(lens, bs, s);
    }
  }

  lemma UnfinishedLookup(ty: CodeType, lens: seq<nat>, m: nat, t: seq<Entry>, root: nat)
    requires TableFor(ty, lens, m, t, root) && Kraft(lens, m) < Pow2(m)
    ensures Lookup(t, root, []).1 == 1
  {
    assert Peek([], 1) == 0;
    if InUse(lens) {
      var s :| 0 <= s < |lens| && lens[s] > 0;
      var a := SymbolAction(ty, s);
      assert Leads(t, root, [false], a);
      assert t[0 + Slot([false])] == Entry(a.op, 1, a.val);
      SlotOfZero();
    }
  }

  /** Bits that do not determine a symbol are shorter than the code their zero-padding begins with. */
  lemma ShortLookup(ty: CodeType, lens: seq<nat>, m: nat, t: seq<Entry>, root: nat, bs: seq<bool>)
    requires TableFor(ty, lens, m, t, root) && Kraft(lens, m) == Pow2(m) && NextSymbol(lens, m, bs).NeedMore?
    ensures Lookup(t, root, bs).1 > |bs|
  {
    hide Peek, Zeros, Pow2, Lookup, SymbolAction, Kraft, Value, MsbValue, NextSymbol, CodeBits;
    var w := bs + Zeros(m + root + 16);
    var s := CompleteDecodes(lens, m, w[..m]);
    var cb := CodeBits(lens, s);
    assert cb <= w[..m] && cb <= w;
    assert !Decodes(lens, bs, s) by { Undetermined(lens, m, bs, s); }
    PaddedLookup(t, root, bs, m + root + 16);
    LookupFinds(t, root, cb, SymbolAction(ty, s), w);
    LinkDrop(t, root, cb, SymbolAction(ty, s), w);
  }

  lemma Undetermined(lens: seq<nat>, m: nat, bs: seq<bool>, s: nat)
    requires NextSymbol(lens, m, bs).NeedMore?
    ensures !Decodes(lens, bs, s)
  {
  }

  lemma PaddedPeek(bs: seq<bool>, n: nat, z: nat)
    requires n <= |bs| + z
    ensures Peek(bs + Zeros(z), n) == Peek(bs, n)
  {
    var w := bs + Zeros(z);
    if n <= |bs| {
      assert w[..n] == bs[..n];
    } else {
      ZerosPrefix(z, n - |bs|);
      assert w[..n] == bs + Zeros(z)[..n - |bs|];
      PadZeros(bs, n - |bs|);
    }
  }

  lemma {:induction false} ZerosPrefix(z: nat, k: nat)
    requires k <= z
    ensures Zeros(z)[..k] == Zeros(k)
  {
    hide Value, MsbValue;
    if k > 0 {
      ZerosPrefix(z - 1, k - 1);
      TakeAfter(Zeros(z - 1), k);
    }
  }

  lemma TakeAfter(s: seq<bool>, k: nat)
    requires 1 <= k <= |s| + 1
    ensures ([false] + s)[..k] == [false] + s[..k - 1]
  {
  }

  /** With zeros after it, an accumulator shows the same entries. */
  lemma PaddedLookup(t: seq<Entry>, root: nat, bs: seq<bool>, z: nat)
    requires Pow2(root) <= |t| && z >= root + 16
    ensures var here := t[Peek(bs, root)];
      && here == t[Peek(bs + Zeros(z), root)]
      && (IsLink(t, here) && here.bits <= |bs| ==> Lookup(t, root, bs) == Lookup(t, root, bs + Zeros(z)))
      && (!IsLink(t, here) ==> Lookup(t, root, bs) == Lookup(t, root, bs + Zeros(z)))
      && (IsLink(t, here) && here.bits > |bs| ==> Lookup(t, root, bs).1 == here.bits)
  {
    hide Peek, Zeros, Pow2;
    PaddedPeek(bs, root, z);
    var here := t[Peek(bs, root)];
    if IsLink(t, here) && here.bits <= |bs| {
      assert (bs + Zeros(z))[here.bits..] == bs[here.bits..] + Zeros(z);
      PaddedPeek(bs[here.bits..], here.op, z);
    }
  }

  /** A link is followed only by codes of more than `root` bits, and drops `root` of them. */
  lemma LinkDrop(t: seq<Entry>, root: nat, cb: seq<bool>, a: Action, w: seq<bool>)
    requires Pow2(root) <= |t| && cb <= w && (a.op == 0 || 16 <= a.op) && Leads(t, root, cb, a)
    ensures var here := t[Peek(w, root)];
      IsLink(t, here) ==> here.bits == root < |cb|
  {
    if |cb| <= root {
      var v := Padded(w, root);
      assert t[0 + Slot(v)] == Entry(a.op, |cb|, a.val);
    } else {
      assert w[..root] == cb[..root];
      assert t[Peek(w, root)] == Link(t, root, cb);
    }
  }
}
