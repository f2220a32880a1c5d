/** inflate.c: decoding one symbol through a two-level table, pulling input a byte at a time. */
module SymbolReader {
  import opened Bits
  import opened BitWriter
  import opened BitReader
  import opened Canonical
  import opened CodeOrder
  import opened DecodeTable
  import opened InflateTable

  lemma {:induction false} LowBitsAll(v: nat, n: nat)
    requires v < Pow2(n)
    ensures LowBits(v, n) == v
  {
    if n > 0 { LowBitsAll(v / 2, n - 1); }
  }

  /** Masking the accumulator shows its low bits, with zeros above what is held. */
  lemma Shown(hold: nat, bits: nat, n: nat)
    requires hold < Pow2(bits)
    ensures LowBits(hold, n) == Peek(ToBits(hold, bits), n)
  {
    hide ToBits, Pow2, Value, LowBits;
    HeldValue(hold, bits);
    if n <= bits {
      MaskShift(ToBits(hold, bits), n);
    } else {
      Pow2Mono(bits, n);
      LowBitsAll(hold, n);
    }
  }

  /** Masking and shifting shows the bits after the first `k`. */
  lemma ShownAfter(hold: nat, bits: nat, k: nat, n: nat)
    requires hold < Pow2(bits) && k <= bits
    ensures Shr(LowBits(hold, k + n), k) == Peek(ToBits(hold, bits)[k..], n)
  {
    hide ToBits, Pow2, Value, LowBits, Shr;
    var x := ToBits(hold, bits);
    HeldValue(hold, bits);
    if k + n <= bits {
      MaskShift(x, k + n);
      MaskShift(x[..k + n], k);
      assert x[..k + n][k..] == x[k..][..n];
    } else {
      Pow2Mono(bits, k + n);
      LowBitsAll(hold, k + n);
      MaskShift(x, k);
    }
  }

  /** A root entry that is a link leads to a sub-table inside the table. */
  lemma RootLink(ty: CodeType, lens: seq<nat>, m: nat, t: seq<Entry>, root: nat, bs: seq<bool>)
    requires TableFor(ty, lens, m, t, root)
    ensures var e := t[Peek(bs, root)]; 0 < e.op < 16 ==> IsLink(t, e) && e.bits == root && !LensBounded(lens, root)
  {
    hide Kraft, CodeBits, Pow2, SymbolAction, Slot;
    if Kraft(lens, m) < Pow2(m) {
      NoLinks(ty, lens, m, t, root, bs);
    } else {
      var w := Padded(bs, root);
      var long := w + Zeros(m);
      var s := CompleteDecodes(lens, m, long[..m]);
      var cb, a := CodeBits(lens, s), SymbolAction(ty, s);
      assert cb <= long;
      if |cb| <= root {
        assert cb <= w;
        assert t[0 + Slot(w)] == Entry(a.op, |cb|, a.val);
      } else {
        assert cb[..root] == w;
      }
    }
  }

  lemma NoLinks(ty: CodeType, lens: seq<nat>, m: nat, t: seq<Entry>, root: nat, bs: seq<bool>)
    requires TableFor(ty, lens, m, t, root) && Kraft(lens, m) < Pow2(m)
    ensures var e := t[Peek(bs, root)]; e.op == 0 || 16 <= e.op
  {
    hide Kraft, CodeBits, SymbolAction, Leads;
    assert Pow2(1) == 2;
    if InUse(lens) {
      var s :| 0 <= s < |lens| && lens[s] > 0;
      FirstEntry(t, SymbolAction(ty, s));
    }
  }

  lemma FirstEntry(t: seq<Entry>, a: Action)
    requires Pow2(1) <= |t| && Leads(t, 1, [false], a)
    ensures t[0] == Entry(a.op, 1, a.val)
  {
    assert t[0 + Slot([false])] == Entry(a.op, 1, a.val);
    SlotOfZero();
  }

  /** What the bits received determine stays determined when more come. */
  lemma NextStable(ty: CodeType, lens: seq<nat>, m: nat, t: seq<Entry>, root: nat, bs: seq<bool>, more: seq<bool>)
    requires TableFor(ty, lens, m, t, root) && !NextSymbol(lens, m, bs).NeedMore?
    ensures NextSymbol(lens, m, bs + more) == NextSymbol(lens, m, bs)
  {
    hide Kraft, CodeBits;
    match NextSymbol(lens, m, bs)
    case Sym(s) =>
      assert (bs + more)[..lens[s]] == bs[..lens[s]];
      NextSymbolIs(lens, m, bs + more, s);
    case Invalid =>
      forall s: nat ensures Decodes(lens, bs + more, s) ==> Decodes(lens, bs, s) {
        if Decodes(lens, bs + more, s) { OneBitDecodes(lens, bs, more, s); }
      }
  }

  lemma OneBitDecodes(lens: seq<nat>, bs: seq<bool>, more: seq<bool>, s: nat)
    requires bs != [] && LensBounded(lens, 1) && Decodes(lens, bs + more, s)
    ensures Decodes(lens, bs, s)
  {
    assert (bs + more)[..1] == bs[..1];
  }

  lemma LongDecodes(lens: seq<nat>, m: nat, bs: seq<bool>)
    requires LensBounded(lens, m) && Kraft(lens, m) == Pow2(m) && |bs| >= m
    ensures !NextSymbol(lens, m, bs).NeedMore?
  {
    var s := CompleteDecodes(lens, m, bs[..m]);
    assert bs[..m][..lens[s]] == bs[..lens[s]];
    assert Decodes(lens, bs, s);
  }

  /** Bits that do not determine a symbol are fewer than the longest code has. */
  lemma FewBits(ty: CodeType, lens: seq<nat>, m: nat, t: seq<Entry>, root: nat, bs: seq<bool>)
    requires TableFor(ty, lens, m, t, root) && NextSymbol(lens, m, bs).NeedMore?
    ensures |bs| < m
  {
    hide Kraft, Pow2, CodeBits;
    if Kraft(lens, m) == Pow2(m) && |bs| >= m { LongDecodes(lens, m, bs); }
  }

  /** If bytes were pulled, the last of them was needed. */
  ghost predicate JustEnough(held: seq<bool>, before: nat, lens: seq<nat>, m: nat)
  {
    |held| == before || (|held| >= 8 && NextSymbol(lens, m, held[..|held| - 8]).NeedMore?)
  }

  lemma Undetermined(ty: CodeType, lens: seq<nat>, m: nat, t: seq<Entry>, root: nat, bs: seq<bool>)
    requires TableFor(ty, lens, m, t, root) && Lookup(t, root, bs).1 > |bs|
    ensures NextSymbol(lens, m, bs).NeedMore?
  {
    TableReads(ty, lens, m, t, root, bs);
  }

  /** The root entry for the bits held, once they are enough for it. */
  method RootEntry(r: BitReader, t: seq<Entry>, root: nat, ghost ty: CodeType, ghost lens: seq<nat>, ghost m: nat)
    returns (ok: bool, here: Entry)
    requires r.Valid() && TableFor(ty, lens, m, t, root)
    modifies r
    ensures r.Valid() && r.input == old(r.input) && old(r.next) <= r.next && r.Ahead() == old(r.Ahead())
    ensures JustEnough(r.Held(), old(r.bits), lens, m) && Pow2(root) <= |t| && here == t[Peek(r.Held(), root)]
    ensures if ok then here.bits <= r.bits else r.next == |r.input| && NextSymbol(lens, m, r.Held()).NeedMore?
    ensures r.bits == old(r.bits) + 8 * (r.next - old(r.next)) && old(r.Held()) <= r.Held()
  {
    hide NextSymbol, SymbolAction, Peek, LowBits, Pow2, ToBits, BytesToBits, Leads, Kraft, CodeBits, Unfinished;
    while true
      invariant r.Valid() && r.input == old(r.input) && old(r.next) <= r.next && r.Ahead() == old(r.Ahead())
      invariant JustEnough(r.Held(), old(r.bits), lens, m)
      invariant r.bits == old(r.bits) + 8 * (r.next - old(r.next)) && old(r.Held()) <= r.Held()
      decreases |r.input| - r.next
    {
      Shown(r.hold, r.bits, root);
      here := t[LowBits(r.hold, root)];
      if here.bits <= r.bits { return true, here; }
      Undetermined(ty, lens, m, t, root, r.Held());
      ghost var h := r.Held();
      var got := r.PullByte();
      if !got { return false, here; }
      assert r.Held()[..|r.Held()| - 8] == h;
    }
  }

  /** The sub-table entry behind the link `last`. */
  method SubEntry(r: BitReader, t: seq<Entry>, root: nat, last: Entry, ghost before: nat, ghost ty: CodeType,
                  ghost lens: seq<nat>, ghost m: nat)
    returns (ok: bool, here: Entry)
    requires r.Valid() && TableFor(ty, lens, m, t, root) && JustEnough(r.Held(), before, lens, m)
    requires IsLink(t, last) && last.bits == root <= r.bits && last == t[Peek(r.Held(), root)]
    modifies r
    ensures r.Valid() && r.input == old(r.input) && old(r.next) <= r.next && r.Ahead() == old(r.Ahead())
      && old(r.bits) <= r.bits
    ensures JustEnough(r.Held(), before, lens, m) && Pow2(root) <= |t|
      && Lookup(t, root, r.Held()) == (here, last.bits + here.bits)
    ensures if ok then last.bits + here.bits <= r.bits
      else r.next == |r.input| && NextSymbol(lens, m, r.Held()).NeedMore?
    ensures r.bits == old(r.bits) + 8 * (r.next - old(r.next)) && old(r.Held()) <= r.Held()
  {
    hide NextSymbol, SymbolAction, LowBits, Shr, Pow2, ToBits, BytesToBits, Leads, Kraft, CodeBits, Unfinished, Value;
    while true
      invariant r.Valid() && r.input == old(r.input) && old(r.next) <= r.next && r.Ahead() == old(r.Ahead())
      invariant JustEnough(r.Held(), before, lens, m) && root <= r.bits && last == t[Peek(r.Held(), root)]
        && old(r.bits) <= r.bits
      invariant r.bits == old(r.bits) + 8 * (r.next - old(r.next)) && old(r.Held()) <= r.Held()
      decreases |r.input| - r.next
    {
      ShownAfter(r.hold, r.bits, last.bits, last.op);
      here := t[last.val + Shr(LowBits(r.hold, last.bits + last.op), last.bits)];
      if last.bits + here.bits <= r.bits { return true, here; }
      Undetermined(ty, lens, m, t, root, r.Held());
      ghost var h := r.Held();
      var got := r.PullByte();
      if !got { return false, here; }
      assert r.Held()[..|r.Held()| - 8] == h;
      assert r.Held()[..root] == h[..root];
    }
  }

  /** The next symbol of the input and what is left, by the rule for the code lengths. */
  ghost predicate Took(ty: CodeType, lens: seq<nat>, m: nat, here: Entry, before: seq<bool>, after: seq<bool>)
  {
    match NextSymbol(lens, m, before)
    case Sym(s) => s < MaxSymbols(ty) && Action(here.op, here.val) == SymbolAction(ty, s) && lens[s] <= |before|
      && after == before[lens[s]..]
    case Invalid => here == INVALID && 1 <= |before| && after == before[1..]
    case NeedMore => false
  }

  lemma TakeSymbol(ty: CodeType, lens: seq<nat>, m: nat, t: seq<Entry>, root: nat, held: seq<bool>, rest: seq<bool>,
                   before: nat, here: Entry, drop: nat)
    requires TableFor(ty, lens, m, t, root) && Lookup(t, root, held) == (here, drop) && drop <= |held|
      && JustEnough(held, before, lens, m)
    ensures Took(ty, lens, m, here, held + rest, (held + rest)[drop..])
    ensures |held| != before ==> |held| - drop < 8
    ensures |held| == before ==> !NextSymbol(lens, m, held).NeedMore?
    ensures drop >= 1
  {
    hide Kraft, CodeBits, SymbolAction, Lookup, Leads;
    TableReads(ty, lens, m, t, root, held);
    NextStable(ty, lens, m, t, root, held, rest);
    if drop <= |held| - 8 {
      var b := held[..|held| - 8];
      assert !NextSymbol(lens, m, b).NeedMore? by {
        match NextSymbol(lens, m, held)
        case Sym(s) =>
          assert held[..lens[s]] == b[..lens[s]];
          assert Decodes(lens, b, s);
        case Invalid =>
          assert b != [];
      }
    }
  }

  /** The symbol next in the input, or the end of the input before it is determined. */
  method NextEntry(r: BitReader, t: seq<Entry>, root: nat, ghost ty: CodeType, ghost lens: seq<nat>, ghost m: nat)
    returns (ok: bool, here: Entry)
    requires r.Valid() && TableFor(ty, lens, m, t, root)
    modifies r
    ensures r.Valid() && r.input == old(r.input) && old(r.next) <= r.next
    ensures ok ==> Took(ty, lens, m, here, old(r.Ahead()), r.Ahead()) && |r.Ahead()| < |old(r.Ahead())|
    ensures !ok ==> r.next == |r.input| && r.Ahead() == old(r.Ahead()) && NextSymbol(lens, m, r.Held()).NeedMore?
    ensures ok && (old(r.bits) < 8 || old(NextSymbol(lens, m, r.Held()).NeedMore?)) ==> r.bits < 8
    ensures !ok ==> r.bits < m
  {
    hide TableFor, NextSymbol, SymbolAction, Peek, Pow2, ToBits, BytesToBits, Took, JustEnough;
    ghost var h0 := r.Held();
    ok, here := RootEntry(r, t, root, ty, lens, m);
    if !ok { FewBits(ty, lens, m, t, root, r.Held()); return; }
    RootLink(ty, lens, m, t, root, r.Held());
    var drop := 0;
    if here.op != 0 && here.op < 16 {
      var last := here;
      ok, here := SubEntry(r, t, root, last, old(r.bits), ty, lens, m);
      if !ok { FewBits(ty, lens, m, t, root, r.Held()); return; }
      drop := last.bits;
    }
    TakeSymbol(ty, lens, m, t, root, r.Held(), BytesToBits(r.input[r.next..]), old(r.bits), here, drop + here.bits);
    assert r.bits == old(r.bits) ==> r.Held() == h0;
    r.DropBits(drop);
    r.DropBits(here.bits);
  }
}
