/** What a stream inflates to grows as it is read, and no match reaches back further than 32768 bytes. */
module Outcomes {
  import opened Bits
  import opened BitWriter
  import opened Canonical
  import opened DecodeTable
  import opened Header
  import opened Tokens
  import opened Blocks
  import opened Stream
  import opened Inflated
  import opened TokenSteps

  /** Nothing yielded is taken back, and a window of 32768 bytes reaches back far enough. */
  ghost predicate Grown(hist: seq<Byte>, o: Outcome, w: nat)
  {
    hist <= o.hist && (w >= WSIZE ==> !o.TooFar?)
  }

  lemma DistBound(s: nat, bs: seq<bool>, len: nat)
    ensures ReadDistExtra(bs, len, DistKind(s)).Ok? ==>
      var t := ReadDistExtra(bs, len, DistKind(s)).value; t.Tok? && t.t.Match? && t.t.dist <= WSIZE
  {
    hide Value, SymbolAction, Pow2;
    if s < 32 {
      DistAction(s);
      if DistKind(s).KBase? && DistKind(s).extra <= |bs| { ValueBound(bs[..DistKind(s).extra]); }
    }
  }

  ghost predicate WithinWindow(r: Parse<Step>)
  {
    r.Ok? && r.value.Tok? && r.value.t.Match? ==> r.value.t.dist <= WSIZE
  }

  lemma DistWithin(c: Codes, bs: seq<bool>, len: nat)
    ensures WithinWindow(ReadDist(c, bs, len))
  {
    hide NextSymbol, ReadDistExtra, DistKind;
    match NextSymbol(c.dlens, c.m, bs)
    case Sym(s) => DistBound(s, bs[c.dlens[s]..], len);
    case Invalid =>
    case NeedMore =>
  }

  lemma MatchWithin(c: Codes, bs: seq<bool>, base: nat, extra: nat)
    ensures WithinWindow(ReadMatch(c, bs, base, extra))
  {
    hide ReadDist, Value;
    if extra <= |bs| { DistWithin(c, bs[extra..], base + Value(bs[..extra])); }
  }

  lemma StepWithin(c: Codes, bs: seq<bool>)
    ensures WithinWindow(ReadStep(c, bs))
  {
    hide NextSymbol, ReadMatch, LenKind;
    match NextSymbol(c.llens, c.m, bs)
    case Sym(s) => if LenKind(s).KBase? { MatchWithin(c, bs[c.llens[s]..], LenKind(s).base, LenKind(s).extra); }
    case Invalid =>
    case NeedMore =>
  }

  lemma {:induction false} InflateGrows(last: bool, hist: seq<Byte>, bs: seq<bool>, m: nat, w: nat)
    ensures Grown(hist, Inflate(last, hist, bs, m, w), w)
    decreases |bs|, 0
  {
    hide Value, ReadHeader, FixedCodes;
    if !last && |bs| >= 3 {
      var v, bs1 := Value(bs[..3]), bs[3..];
      if v / 2 == 0 {
        StoredGrows(v % 2 == 1, hist, bs1, m, w);
      } else if v / 2 == 1 {
        BodyGrows(v % 2 == 1, FixedCodes(m), hist, bs1, w);
      } else if v / 2 == 2 {
        HeaderShrinks(bs1, m);
        TreesGrow(v % 2 == 1, hist, ReadHeader(bs1, m), m, w);
      }
    }
  }

  lemma {:induction false} TreesGrow(last: bool, hist: seq<Byte>, r: Parse<(seq<nat>, seq<nat>)>, m: nat, w: nat)
    ensures Grown(hist, WithTrees(last, hist, r, m, w), w)
    decreases if r.Ok? then |r.rest| else 0, 3
  {
    if r.Ok? { BodyGrows(last, Codes(r.value.0, r.value.1, m), hist, r.rest, w); }
  }

  lemma {:induction false} StoredGrows(last: bool, hist: seq<Byte>, bs: seq<bool>, m: nat, w: nat)
    ensures Grown(hist, StoredBlock(last, hist, bs, m, w), w)
    decreases |bs|, 4
  {
    hide Value;
    var a := Inflated.Aligned(bs);
    if |a| >= 32 { BytesGrow(last, Value(a[..16]), hist, a[32..], m, w); }
  }

  lemma {:induction false} BytesGrow(last: bool, n: nat, hist: seq<Byte>, bs: seq<bool>, m: nat, w: nat)
    ensures Grown(hist, Bytes(last, n, hist, bs, m, w), w)
    decreases |bs|, 2
  {
    hide Value;
    if n == 0 {
      InflateGrows(last, hist, bs, m, w);
    } else if |bs| >= 8 {
      ValueBound(bs[..8]);
      Byte256();
      BytesGrow(last, n - 1, hist + [Value(bs[..8])], bs[8..], m, w);
    }
  }

  lemma {:induction false} BodyGrows(last: bool, c: Codes, hist: seq<Byte>, bs: seq<bool>, w: nat)
    ensures Grown(hist, Body(last, c, hist, bs, w), w)
    decreases |bs|, 2
  {
    hide ReadStep;
    StepShrinks(c, bs);
    StepWithin(c, bs);
    AfterGrows(last, c, hist, ReadStep(c, bs), w);
  }

  lemma {:induction false} AfterGrows(last: bool, c: Codes, hist: seq<Byte>, r: Parse<Step>, w: nat)
    ensures hist <= AfterStep(last, c, hist, r, w).hist
    ensures WithinWindow(r) ==> Grown(hist, AfterStep(last, c, hist, r, w), w)
    decreases if r.Ok? then |r.rest| + 1 else 0, 1
  {
    if r.Ok? {
      if r.value.EndOfBlock? {
        InflateGrows(last, hist, r.rest, c.m, w);
      } else if r.value.t.Match? ==> 1 <= r.value.t.dist <= |hist| {
        BodyGrows(last, c, ExpandOne(hist, r.value.t), r.rest, w);
      }
    }
  }

  /** A wider window makes no difference up to the first match that is not within the narrower one. */
  ghost predicate SameWider(o: Outcome, o2: Outcome)
  {
    if o.TooFar? then o.hist <= o2.hist else o2 == o
  }

  lemma {:induction false} InflateWider(last: bool, hist: seq<Byte>, bs: seq<bool>, m: nat, w: nat, w2: nat)
    requires w <= w2
    ensures SameWider(Inflate(last, hist, bs, m, w), Inflate(last, hist, bs, m, w2))
    decreases |bs|, 0
  {
    hide Value, ReadHeader, FixedCodes;
    if !last && |bs| >= 3 {
      var v, bs1 := Value(bs[..3]), bs[3..];
      if v / 2 == 0 {
        StoredWider(v % 2 == 1, hist, bs1, m, w, w2);
      } else if v / 2 == 1 {
        BodyWider(v % 2 == 1, FixedCodes(m), hist, bs1, w, w2);
      } else if v / 2 == 2 {
        HeaderShrinks(bs1, m);
        TreesWider(v % 2 == 1, hist, ReadHeader(bs1, m), m, w, w2);
      }
    }
  }

  lemma {:induction false} TreesWider(last: bool, hist: seq<Byte>, r: Parse<(seq<nat>, seq<nat>)>, m: nat, w: nat,
                                      w2: nat)
    requires w <= w2
    ensures SameWider(WithTrees(last, hist, r, m, w), WithTrees(last, hist, r, m, w2))
    decreases if r.Ok? then |r.rest| else 0, 3
  {
    if r.Ok? { BodyWider(last, Codes(r.value.0, r.value.1, m), hist, r.rest, w, w2); }
  }

  lemma {:induction false} StoredWider(last: bool, hist: seq<Byte>, bs: seq<bool>, m: nat, w: nat, w2: nat)
    requires w <= w2
    ensures SameWider(StoredBlock(last, hist, bs, m, w), StoredBlock(last, hist, bs, m, w2))
    decreases |bs|, 4
  {
    hide Value;
    var a := Inflated.Aligned(bs);
    if |a| >= 32 { BytesWider(last, Value(a[..16]), hist, a[32..], m, w, w2); }
  }

  lemma {:induction false} BytesWider(last: bool, n: nat, hist: seq<Byte>, bs: seq<bool>, m: nat, w: nat, w2: nat)
    requires w <= w2
    ensures SameWider(Bytes(last, n, hist, bs, m, w), Bytes(last, n, hist, bs, m, w2))
    decreases |bs|, 2
  {
    hide Value;
    if n == 0 {
      InflateWider(last, hist, bs, m, w, w2);
    } else if |bs| >= 8 {
      ValueBound(bs[..8]);
      Byte256();
      BytesWider(last, n - 1, hist + [Value(bs[..8])], bs[8..], m, w, w2);
    }
  }

  lemma {:induction false} BodyWider(last: bool, c: Codes, hist: seq<Byte>, bs: seq<bool>, w: nat, w2: nat)
    requires w <= w2
    ensures SameWider(Body(last, c, hist, bs, w), Body(last, c, hist, bs, w2))
    decreases |bs|, 2
  {
    hide ReadStep;
    StepShrinks(c, bs);
    var r := ReadStep(c, bs);
    AfterGrows(last, c, hist, r, w2);
    if r.Ok? {
      if r.value.EndOfBlock? {
        InflateWider(last, hist, r.rest, c.m, w, w2);
      } else {
        BodyWider(last, c, ExpandOne(hist, r.value.t), r.rest, w, w2);
      }
    }
  }
}
