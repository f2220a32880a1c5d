/** inftrees.c: the two-level table that decodes a canonical code, and that looking a bit string up in
    it finds the symbol whose code the string begins with. */
module DecodeTable {
  import opened Bits
  import opened Canonical
  import opened CodeOrder

  const MAXBITS := 15
  const ENOUGH_LENS := 852
  const ENOUGH_DISTS := 592

  datatype CodeType = CODES | LENS | DISTS

  /** A table entry: what to do, how many bits to drop, and a value (literal, base, or table offset). */
  datatype Entry = Entry(op: nat, bits: nat, val: nat)

  const INVALID := Entry(64, 1, 0)

  const LBASE: seq<nat> := [3, 4, 5, 6, 7, 8, 9, 10, 11, 13, 15, 17, 19, 23, 27, 31,
                            35, 43, 51, 59, 67, 83, 99, 115, 131, 163, 195, 227, 258, 0, 0]
  const LEXT: seq<nat> := [16, 16, 16, 16, 16, 16, 16, 16, 17, 17, 17, 17, 18, 18, 18, 18,
                           19, 19, 19, 19, 20, 20, 20, 20, 21, 21, 21, 21, 16, 78, 68]
  const DBASE: seq<nat> := [1, 2, 3, 4, 5, 7, 9, 13, 17, 25, 33, 49, 65, 97, 129, 193,
                            257, 385, 513, 769, 1025, 1537, 2049, 3073, 4097, 6145,
                            8193, 12289, 16385, 24577, 0, 0]
  const DEXT: seq<nat> := [16, 16, 16, 16, 17, 17, 18, 18, 19, 19, 20, 20, 21, 21, 22, 22,
                           23, 23, 24, 24, 25, 25, 26, 26, 27, 27,
                           28, 28, 29, 29, 64, 64]

  function MaxSymbols(ty: CodeType): nat
  {
    match ty case CODES => 19 case LENS => 288 case DISTS => 32
  }

  /** What an entry says about its symbol: operation and value. */
  datatype Action = Action(op: nat, val: nat)

  function SymbolAction(ty: CodeType, sym: nat): (a: Action)
    requires sym < MaxSymbols(ty)
    ensures a.op == 0 || 16 <= a.op
  {
    match ty
    case CODES => Action(0, sym)
    case LENS =>
      if sym < 256 then Action(0, sym)
      else if sym > 256 then Action(LEXT[sym - 257], LBASE[sym - 257])
      else Action(32 + 64, 0)
    case DISTS => Action(DEXT[sym], DBASE[sym])
  }

  /** Table index of the bit string `w`. */
  function Slot(w: seq<bool>): (v: nat)
    ensures v < Pow2(|w|)
  {
    ValueBound(w);
    Value(w)
  }

  /** Every string of `c` bits beginning with `cb` finds `e` in the table of `c` index bits at `at`. */
  ghost predicate Placed(t: seq<Entry>, at: nat, c: nat, cb: seq<bool>, e: Entry)
    requires at + Pow2(c) <= |t|
  {
    forall w {:trigger Slot(w)} :: |w| == c && cb <= w ==> t[at + Slot(w)] == e
  }

  /** The root entry for the strings that begin with the first `root` bits of `cb`. */
  function Link(t: seq<Entry>, root: nat, cb: seq<bool>): Entry
    requires root <= |cb| && Pow2(root) <= |t|
  {
    t[Slot(cb[..root])]
  }

  ghost predicate LinkOk(t: seq<Entry>, root: nat, len: nat, lk: Entry)
  {
    && lk.bits == root && 1 <= lk.op < 16 && len <= root + lk.op
    && Pow2(root) <= lk.val && lk.val + Pow2(lk.op) <= |t|
  }

  /** The table sends every string that begins with the code `cb` to an entry with action `a`. */
  ghost predicate Leads(t: seq<Entry>, root: nat, cb: seq<bool>, a: Action)
    requires Pow2(root) <= |t|
  {
    if |cb| <= root then
      Placed(t, 0, root, cb, Entry(a.op, |cb|, a.val))
    else
      var lk := Link(t, root, cb);
      LinkOk(t, root, |cb|, lk) && Placed(t, lk.val, lk.op, cb[root..], Entry(a.op, |cb| - root, a.val))
  }

  /** The low `n` bits of a bit accumulator that holds `bs`, with zeros above it. */
  function Peek(bs: seq<bool>, n: nat): (v: nat)
    ensures v < Pow2(n)
  {
    var w := if n <= |bs| then bs[..n] else bs;
    ValueBound(w);
    Pow2Mono(|w|, n);
    Value(w)
  }

  predicate IsLink(t: seq<Entry>, here: Entry)
  {
    0 < here.op < 16 && here.val + Pow2(here.op) <= |t|
  }

  /** Two-level lookup on the accumulator contents `bs`: the entry found and the number of bits to drop. */
  function Lookup(t: seq<Entry>, root: nat, bs: seq<bool>): (Entry, nat)
    requires Pow2(root) <= |t|
  {
    var here := t[Peek(bs, root)];
    if IsLink(t, here) && here.bits <= |bs| then
      var here2 := t[here.val + Peek(bs[here.bits..], here.op)];
      (here2, here.bits + here2.bits)
    else (here, here.bits)
  }

  /** Root lookup, followed if needed by the sub-table lookup, yields the action of the code the
      string begins with and drops exactly that code. */
  lemma LookupFinds(t: seq<Entry>, root: nat, cb: seq<bool>, a: Action, bs: seq<bool>)
    requires Pow2(root) <= |t| && cb <= bs && (a.op == 0 || 16 <= a.op) && Leads(t, root, cb, a)
    ensures var (e, drop) := Lookup(t, root, bs); e.op == a.op && e.val == a.val && drop == |cb|
  {
    hide Value, Pow2, Peek;
    if |cb| <= root {
      var w := Padded(bs, root);
      assert t[0 + Slot(w)] == Entry(a.op, |cb|, a.val);
    } else {
      FollowLink(t, root, cb, a, bs);
    }
  }

  lemma FollowLink(t: seq<Entry>, root: nat, cb: seq<bool>, a: Action, bs: seq<bool>)
    requires Pow2(root) <= |t| && cb <= bs && root < |cb| && Leads(t, root, cb, a)
    ensures var lk := t[Peek(bs, root)];
      lk.bits == root && IsLink(t, lk) && t[lk.val + Peek(bs[root..], lk.op)] == Entry(a.op, |cb| - root, a.val)
  {
    hide Value, Pow2;
    assert bs[..root] == cb[..root];
    var lk := Link(t, root, cb);
    var w := Padded(bs[root..], lk.op);
    assert cb[root..] <= bs[root..];
    assert t[lk.val + Slot(w)] == Entry(a.op, |cb| - root, a.val);
  }

  /** The string an accumulator shows to an index of `n` bits. */
  ghost function Padded(bs: seq<bool>, n: nat): (w: seq<bool>)
    ensures |w| == n && Slot(w) == Peek(bs, n)
    ensures forall cb :: cb <= bs && |cb| <= n ==> cb <= w
  {
    if n <= |bs| then bs[..n] else
      PadZeros(bs, n - |bs|);
      bs + Zeros(n - |bs|)
  }

  ghost predicate InUse(lens: seq<nat>)
  {
    exists s :: 0 <= s < |lens| && lens[s] > 0
  }

  /** The lengths denote no code the decoder accepts: they oversubscribe the code space, or leave some
      of it unused and are not the single one-bit code allowed for lengths and distances. */
  ghost predicate Rejected(ty: CodeType, lens: seq<nat>, m: nat)
  {
    InUse(lens) && (Kraft(lens, m) > Pow2(m) || (Kraft(lens, m) < Pow2(m) && (ty == CODES || !LensBounded(lens, 1))))
  }
}
