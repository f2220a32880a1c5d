/** The header of a block with dynamic trees (section 3.2.7 of RFC 1951): the bits send_all_trees sends,
    the states TABLE, LENLENS and CODELENS that read them, and that reading gives back the trees. */
module Header {
  import opened Bits
  import opened Canonical
  import opened CodeLengths
  import opened DecodeTable

  /** Reading from a bit string: a value and the bits after it, an error, or too few bits. */
  datatype Parse<T> = Ok(value: T, rest: seq<bool>) | Bad | Short

  const BL_ORDER: seq<nat> := [16, 17, 18, 0, 8, 7, 9, 6, 10, 5, 11, 4, 12, 3, 13, 2, 14, 1, 15]

  /** NEEDBITS, BITS, DROPBITS: a field of `n` bits. */
  function Field(bs: seq<bool>, n: nat): Parse<nat>
  {
    if |bs| < n then Short else Ok(Value(bs[..n]), bs[n..])
  }

  lemma FieldSent(v: nat, n: nat, rest: seq<bool>)
    requires v < Pow2(n)
    ensures Field(ToBits(v, n) + rest, n) == Ok(v, rest)
  {
    var bs := ToBits(v, n) + rest;
    assert bs[..n] == ToBits(v, n) && bs[n..] == rest;
    ValueToBits(v, n);
    DivModUnique(v, Pow2(n), 0, v);
  }

  /** The bits of one symbol of the bit length alphabet. */
  function ItemBits(blens: seq<nat>, it: Item): seq<bool>
  {
    (if it.sym < |blens| then CodeBits(blens, it.sym) else []) + ToBits(it.extra, ExtraBits(it.sym))
  }

  ghost predicate CanSend(blens: seq<nat>, items: seq<Item>)
  {
    forall i :: 0 <= i < |items| ==> ItemOk(items[i]) && items[i].sym < |blens| && blens[items[i].sym] > 0
  }

  function EncodeItems(blens: seq<nat>, items: seq<Item>): seq<bool>
  {
    if items == [] then [] else EncodeItems(blens, items[..|items| - 1]) + ItemBits(blens, items[|items| - 1])
  }

  lemma {:induction false} EncodeConcat(blens: seq<nat>, a: seq<Item>, b: seq<Item>)
    ensures EncodeItems(blens, a + b) == EncodeItems(blens, a) + EncodeItems(blens, b)
  {
    hide ItemBits;
    if b == [] {
      assert a + b == a;
    } else {
      var b' := b[..|b| - 1];
      assert (a + b)[..|a + b| - 1] == a + b';
      EncodeConcat(blens, a, b');
    }
  }

  lemma EncodeHead(blens: seq<nat>, items: seq<Item>)
    requires items != []
    ensures EncodeItems(blens, items) == ItemBits(blens, items[0]) + EncodeItems(blens, items[1..])
  {
    hide ItemBits;
    assert items == [items[0]] + items[1..];
    EncodeConcat(blens, [items[0]], items[1..]);
    assert [items[0]][..0] == [];
    assert EncodeItems(blens, [items[0]]) == [] + ItemBits(blens, items[0]);
  }

  /** CODELENS: read symbols until `limit` code lengths are known. The entry for an invalid code has the
      value zero, and is taken for the length zero. */
  ghost function ReadLens(blens: seq<nat>, m: nat, bs: seq<bool>, have: seq<nat>, limit: nat): Parse<seq<nat>>
    decreases limit - |have|
  {
    if |have| >= limit then Ok(have, bs)
    else
      match NextSymbol(blens, m, bs)
      case Invalid => ReadLens(blens, m, bs[1..], have + [0], limit)
      case NeedMore => Short
      case Sym(s) =>
        match Field(bs[blens[s]..], ExtraBits(s))
        case Bad => Bad
        case Short => Short
        case Ok(extra, rest) =>
          var r := Apply(have, Item(s, extra), limit);
          if r.BadRepeat? then Bad else ReadLens(blens, m, rest, r.have, limit)
  }

  /** Reading back the symbols sent applies them. */
  lemma {:induction false} ItemsRead(blens: seq<nat>, m: nat, items: seq<Item>, rest: seq<bool>, have: seq<nat>,
                                     limit: nat)
    requires LensBounded(blens, m) && Kraft(blens, m) <= Pow2(m) && CanSend(blens, items)
    requires var r := ApplyAll(have, items, limit); r.Lens? && |r.have| == limit
    ensures ReadLens(blens, m, EncodeItems(blens, items) + rest, have, limit) ==
      Ok(ApplyAll(have, items, limit).have, rest)
    decreases items
  {
    hide Value, ToBits, Kraft, CodeBits, EncodeItems, LensBounded;
    if items == [] {
      EncodeNone(blens);
      assert [] + rest == rest;
    } else {
      ApplyGrows(have, items, limit);
      EncodeHead(blens, items);
      var it := items[0];
      var tail := EncodeItems(blens, items[1..]) + rest;
      var after := ToBits(it.extra, ExtraBits(it.sym)) + tail;
      assert EncodeItems(blens, items) + rest == CodeBits(blens, it.sym) + after;
      SentSymbol(blens, m, it.sym, after);
      ItemExtraFits(it);
      FieldSent(it.extra, ExtraBits(it.sym), tail);
      ItemsRead(blens, m, items[1..], rest, Apply(have, it, limit).have, limit);
    }
  }

  lemma EncodeNone(blens: seq<nat>)
    ensures EncodeItems(blens, []) == []
  {
  }

  lemma {:induction false} ApplyGrows(have: seq<nat>, items: seq<Item>, limit: nat)
    requires ApplyAll(have, items, limit).Lens?
    ensures |ApplyAll(have, items, limit).have| >= |have| + |items|
    decreases items
  {
    if items != [] { ApplyGrows(Apply(have, items[0], limit).have, items[1..], limit); }
  }

  /** Where each bit length code stands in the order of sending. */
  const BL_RANK: seq<nat> := [3, 17, 15, 13, 11, 9, 7, 5, 4, 6, 8, 10, 12, 14, 16, 18, 0, 1, 2]

  lemma OrderIsPermutation()
    ensures |BL_ORDER| == |BL_RANK| == 19
    ensures forall i :: 0 <= i < 19 ==> BL_ORDER[i] < 19 && BL_RANK[BL_ORDER[i]] == i
    ensures forall s :: 0 <= s < 19 ==> BL_RANK[s] < 19 && BL_ORDER[BL_RANK[s]] == s
  {
  }

  /** Lengths of the first `k` bit length codes in the order of sending. */
  function OrderBits(blens: seq<nat>, k: nat): seq<bool>
    requires k <= 19 == |blens|
  {
    if k == 0 then [] else
      OrderIsPermutation();
      OrderBits(blens, k - 1) + ToBits(blens[BL_ORDER[k - 1]], 3)
  }

  /** LENLENS: `have` of the `ncode` lengths are read into `lens`. */
  function ReadOrder(bs: seq<bool>, lens: seq<nat>, have: nat, ncode: nat): Parse<seq<nat>>
    requires have <= ncode <= 19 == |lens|
    decreases ncode - have
  {
    if have == ncode then Ok(lens, bs)
    else
      match Field(bs, 3)
      case Ok(v, rest) =>
        OrderIsPermutation();
        ReadOrder(rest, lens[BL_ORDER[have] := v], have + 1, ncode)
      case Bad => Bad
      case Short => Short
  }

  /** The lengths sent before rank `k`, and zero for the others. */
  ghost predicate KnownBelow(lens: seq<nat>, blens: seq<nat>, k: nat)
    requires |lens| == |blens| == 19 == |BL_RANK|
  {
    forall s :: 0 <= s < 19 ==> lens[s] == if BL_RANK[s] < k then blens[s] else 0
  }

  lemma KnownStep(blens: seq<nat>, lens: seq<nat>, k: nat)
    requires k < 19 == |blens| == |lens| && |BL_RANK| == 19 == |BL_ORDER| && KnownBelow(lens, blens, k)
      && BL_ORDER[k] < 19
    ensures KnownBelow(lens[BL_ORDER[k] := blens[BL_ORDER[k]]], blens, k + 1)
  {
    OrderIsPermutation();
  }

  lemma AllKnown(blens: seq<nat>, lens: seq<nat>, k: nat)
    requires 19 == |blens| == |lens| && |BL_RANK| == 19 && KnownBelow(lens, blens, k)
    requires forall s :: 0 <= s < 19 ==> BL_RANK[s] >= k ==> blens[s] == 0
    ensures lens == blens
  {
  }

  /** Lengths from rank `k` on, as sent. */
  lemma {:induction false} OrderRead(blens: seq<nat>, lens: seq<nat>, k: nat, ncode: nat, rest: seq<bool>)
    requires k <= ncode <= 19 == |blens| == |lens| && |BL_RANK| == 19 && KnownBelow(lens, blens, k)
    requires forall s :: 0 <= s < 19 ==> blens[s] < 8 && (BL_RANK[s] >= ncode ==> blens[s] == 0)
    requires OrderBits(blens, k) <= OrderBits(blens, ncode)
    ensures ReadOrder(OrderBits(blens, ncode)[|OrderBits(blens, k)|..] + rest, lens, k, ncode) == Ok(blens, rest)
    decreases ncode - k
  {
    hide ToBits;
    OrderIsPermutation();
    var tail := OrderBits(blens, ncode)[|OrderBits(blens, k)|..];
    if k == ncode {
      assert tail + rest == rest;
      AllKnown(blens, lens, k);
    } else {
      KnownStep(blens, lens, k);
      OrderPrefix(blens, k + 1, ncode);
      var v := blens[BL_ORDER[k]];
      var tail' := OrderBits(blens, ncode)[|OrderBits(blens, k + 1)|..];
      assert tail == ToBits(v, 3) + tail';
      assert tail + rest == ToBits(v, 3) + (tail' + rest);
      assert Pow2(3) == 8;
      FieldSent(v, 3, tail' + rest);
      OrderRead(blens, lens[BL_ORDER[k] := v], k + 1, ncode, rest);
    }
  }

  lemma {:induction false} OrderPrefix(blens: seq<nat>, k: nat, n: nat)
    requires k <= n <= 19 == |blens|
    ensures OrderBits(blens, k) <= OrderBits(blens, n)
    decreases n
  {
    if k < n { OrderPrefix(blens, k, n - 1); }
  }

  /** The whole header. */
  function HeaderBits(llens: seq<nat>, dlens: seq<nat>, blens: seq<nat>, blcodes: nat): seq<bool>
    requires |llens| >= 257 && |dlens| >= 1 && 4 <= blcodes <= 19 == |blens|
  {
    ToBits(|llens| - 257, 5) + (ToBits(|dlens| - 1, 5) + (ToBits(blcodes - 4, 4)
      + (OrderBits(blens, blcodes) + EncodeItems(blens, TreeItems(llens) + TreeItems(dlens)))))
  }

  /** TABLE, LENLENS and CODELENS up to the construction of the two decoding tables. */
  ghost function ReadHeader(bs: seq<bool>, m: nat): Parse<(seq<nat>, seq<nat>)>
  {
    match Field(bs, 5)
    case Short => Short
    case Bad => Bad
    case Ok(hlit, bs1) =>
      match Field(bs1, 5)
      case Short => Short
      case Bad => Bad
      case Ok(hdist, bs2) =>
        match Field(bs2, 4)
        case Short => Short
        case Bad => Bad
        case Ok(hclen, bs3) => ReadTables(bs3, m, hlit + 257, hdist + 1, hclen + 4)
  }

  ghost function ReadTables(bs: seq<bool>, m: nat, nlen: nat, ndist: nat, ncode: nat): Parse<(seq<nat>, seq<nat>)>
  {
    if nlen > 286 || ndist > 30 || ncode > 19 then Bad
    else
      match ReadOrder(bs, seq(19, _ => 0), 0, ncode)
      case Short => Short
      case Bad => Bad
      case Ok(blens, bs4) =>
        if Rejected(CODES, blens, m) then Bad
        else
          match ReadLens(blens, m, bs4, [], nlen + ndist)
          case Short => Short
          case Bad => Bad
          case Ok(lens, rest) =>
            if |lens| != nlen + ndist || nlen <= 256 || lens[256] == 0 then Bad
            else if Rejected(LENS, lens[..nlen], m) || Rejected(DISTS, lens[nlen..], m) then Bad
            else Ok((lens[..nlen], lens[nlen..]), rest)
  }

  /** Trees a block header can carry: sizes, an end-of-block code, codes the decoder accepts, and a bit
      length code for every symbol of their run-length coding. */
  ghost predicate Sendable(llens: seq<nat>, dlens: seq<nat>, blens: seq<nat>, blcodes: nat, m: nat)
  {
    && 257 <= |llens| <= 286 && 1 <= |dlens| <= 30 && 4 <= blcodes <= 19 == |blens| == |BL_RANK|
    && (forall i :: 0 <= i < |llens| ==> llens[i] < 16) && (forall i :: 0 <= i < |dlens| ==> dlens[i] < 16)
    && llens[256] > 0 && !Rejected(LENS, llens, m) && !Rejected(DISTS, dlens, m)
    && (forall s :: 0 <= s < 19 ==> blens[s] < 8 && (BL_RANK[s] >= blcodes ==> blens[s] == 0))
    && LensBounded(blens, m) && Kraft(blens, m) <= Pow2(m) && !Rejected(CODES, blens, m)
    && CanSend(blens, TreeItems(llens) + TreeItems(dlens))
  }

  /** Reading back the header of a block gives the two trees it was sent for. */
  lemma HeaderRoundTrip(llens: seq<nat>, dlens: seq<nat>, blens: seq<nat>, blcodes: nat, m: nat, rest: seq<bool>)
    requires Sendable(llens, dlens, blens, blcodes, m)
    ensures ReadHeader(HeaderBits(llens, dlens, blens, blcodes) + rest, m) == Ok((llens, dlens), rest)
  {
    hide ReadTables, EncodeItems, OrderBits, TreeItems, ToBits, Rejected, Kraft, LensBounded, CanSend;
    var items := TreeItems(llens) + TreeItems(dlens);
    var e := EncodeItems(blens, items) + rest;
    var o := OrderBits(blens, blcodes) + e;
    var c := ToBits(blcodes - 4, 4) + o;
    var d := ToBits(|dlens| - 1, 5) + c;
    assert HeaderBits(llens, dlens, blens, blcodes) + rest == ToBits(|llens| - 257, 5) + d;
    Pow2Values();
    FieldSent(|llens| - 257, 5, d);
    FieldSent(|dlens| - 1, 5, c);
    assert blcodes - 4 < Pow2(4) by { assert Pow2(5) == 2 * Pow2(4); }
    FieldSent(blcodes - 4, 4, o);
    TablesRoundTrip(llens, dlens, blens, blcodes, m, rest);
  }

  lemma TablesRoundTrip(llens: seq<nat>, dlens: seq<nat>, blens: seq<nat>, blcodes: nat, m: nat, rest: seq<bool>)
    requires Sendable(llens, dlens, blens, blcodes, m)
    ensures ReadTables(OrderBits(blens, blcodes) + (EncodeItems(blens, TreeItems(llens) + TreeItems(dlens)) + rest),
                       m, |llens|, |dlens|, blcodes) == Ok((llens, dlens), rest)
  {
    hide EncodeItems, OrderBits, TreeItems, Rejected, Kraft, ReadOrder, ReadLens;
    var items := TreeItems(llens) + TreeItems(dlens);
    var e := EncodeItems(blens, items) + rest;
    var none := seq(19, _ => 0);
    OrderPrefix(blens, 0, blcodes);
    assert OrderBits(blens, 0) == [] by { OrderNone(blens); }
    assert OrderBits(blens, blcodes)[0..] == OrderBits(blens, blcodes);
    OrderRead(blens, none, 0, blcodes, e);
    TreesRoundTrip(llens, dlens);
    ItemsRead(blens, m, items, rest, [], |llens| + |dlens|);
    assert (llens + dlens)[..|llens|] == llens && (llens + dlens)[|llens|..] == dlens;
  }

  lemma OrderNone(blens: seq<nat>)
    requires |blens| == 19
    ensures OrderBits(blens, 0) == []
  {
  }
}
