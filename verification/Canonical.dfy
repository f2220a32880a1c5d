/** Canonical Huffman codes (section 3.2.2 of RFC 1951): the code a list of code lengths
    denotes, that it is prefix-free and how much of the code space it fills, and the two ways
    the library computes it. */
module Canonical {
  import opened Bits

  /** Number of symbols of code length `b`. */
  function Count(lens: seq<nat>, b: nat): nat
  {
    if lens == [] then 0
    else Count(lens[..|lens| - 1], b) + (if lens[|lens| - 1] == b then 1 else 0)
  }

  /** First code of length `b`: double the end of the codes of length `b - 1`. */
  function FirstCode(lens: seq<nat>, b: nat): nat
  {
    if b <= 1 then 0 else 2 * (FirstCode(lens, b - 1) + Count(lens, b - 1))
  }

  /** Code of symbol `s`, as an integer of `lens[s]` bits: codes of one length go up in symbol order. */
  function Code(lens: seq<nat>, s: nat): nat
    requires s < |lens|
  {
    FirstCode(lens, lens[s]) + Count(lens[..s], lens[s])
  }

  /** Code of symbol `s` in stream order, which is most significant bit first. */
  function CodeBits(lens: seq<nat>, s: nat): (bs: seq<bool>)
    requires s < |lens|
    ensures |bs| == lens[s]
  {
    ToMsb(Code(lens, s), lens[s])
  }

  /** Code space used by the codes shorter than `b`, in units of 2^-m. */
  function KraftBelow(lens: seq<nat>, m: nat, b: nat): nat
  {
    if lens == [] then 0
    else
      var l := lens[|lens| - 1];
      KraftBelow(lens[..|lens| - 1], m, b) + (if 0 < l < b && l <= m then Pow2(m - l) else 0)
  }

  function Kraft(lens: seq<nat>, m: nat): nat { KraftBelow(lens, m, m + 1) }

  predicate LensBounded(lens: seq<nat>, m: nat)
  {
    forall s :: 0 <= s < |lens| ==> lens[s] <= m
  }

  lemma {:induction false} KraftBelowStep(lens: seq<nat>, m: nat, b: nat)
    requires 1 <= b <= m
    ensures KraftBelow(lens, m, b + 1) == KraftBelow(lens, m, b) + Count(lens, b) * Pow2(m - b)
  {
    if lens != [] {
      KraftBelowStep(lens[..|lens| - 1], m, b);
      Distrib(Count(lens[..|lens| - 1], b), 1, Pow2(m - b));
    }
  }

  lemma {:induction false} KraftBelowMono(lens: seq<nat>, m: nat, b: nat, c: nat)
    requires b <= c
    ensures KraftBelow(lens, m, b) <= KraftBelow(lens, m, c)
  {
    if lens != [] { KraftBelowMono(lens[..|lens| - 1], m, b, c); }
  }

  lemma {:induction false} KraftBelowOne(lens: seq<nat>, m: nat)
    ensures KraftBelow(lens, m, 1) == 0
  {
    if lens != [] { KraftBelowOne(lens[..|lens| - 1], m); }
  }

  /** The codes shorter than `b` fill the code space exactly up to the first code of length `b`. */
  lemma {:induction false} FirstCodeIsKraft(lens: seq<nat>, m: nat, b: nat)
    requires 1 <= b <= m
    ensures FirstCode(lens, b) * Pow2(m - b) == KraftBelow(lens, m, b)
  {
    if b == 1 {
      KraftBelowOne(lens, m);
    } else {
      FirstCodeIsKraft(lens, m, b - 1);
      KraftBelowStep(lens, m, b - 1);
      var x := FirstCode(lens, b - 1) + Count(lens, b - 1);
      MulAssoc(x, 2, Pow2(m - b));
      Distrib(FirstCode(lens, b - 1), Count(lens, b - 1), Pow2(m - b + 1));
    }
  }

  lemma {:induction false} CountPrefix(lens: seq<nat>, s: nat, b: nat)
    requires s <= |lens|
    ensures Count(lens[..s], b) <= Count(lens, b)
    ensures s < |lens| && lens[s] == b ==> Count(lens[..s], b) < Count(lens, b)
  {
    if s < |lens| {
      var r := lens[..|lens| - 1];
      assert r[..s] == lens[..s];
      CountPrefix(r, s, b);
    } else {
      assert lens[..s] == lens;
    }
  }

  /** Position of the code of `s` in the code space, in units of 2^-m. */
  function Start(lens: seq<nat>, m: nat, s: nat): nat
    requires s < |lens| && lens[s] <= m
  {
    Code(lens, s) * Pow2(m - lens[s])
  }

  lemma StartBounds(lens: seq<nat>, m: nat, s: nat)
    requires s < |lens| && 0 < lens[s] <= m
    ensures KraftBelow(lens, m, lens[s]) <= Start(lens, m, s)
    ensures Start(lens, m, s) + Pow2(m - lens[s]) <= KraftBelow(lens, m, lens[s] + 1)
  {
    hide FirstCode, Count, KraftBelow, Pow2;
    var b, p := lens[s], Pow2(m - lens[s]);
    FirstCodeIsKraft(lens, m, b);
    KraftBelowStep(lens, m, b);
    CountPrefix(lens, s, b);
    var f, r, c := FirstCode(lens, b), Count(lens[..s], b), Count(lens, b);
    Distrib(f, r, p);
    MulStep(r, c, p);
  }

  /** Symbol order of the canonical code: shorter codes first, then lower symbols. */
  predicate Precedes(lens: seq<nat>, s: nat, t: nat)
    requires s < |lens| && t < |lens|
  {
    lens[s] < lens[t] || (lens[s] == lens[t] && s < t)
  }

  /** Codes occupy disjoint intervals of the code space, in canonical order. */
  lemma StartOrdered(lens: seq<nat>, m: nat, s: nat, t: nat)
    requires s < |lens| && t < |lens| && 0 < lens[s] <= m && 0 < lens[t] <= m
    requires Precedes(lens, s, t)
    ensures Start(lens, m, s) + Pow2(m - lens[s]) <= Start(lens, m, t)
  {
    StartBounds(lens, m, s);
    StartBounds(lens, m, t);
    if lens[s] < lens[t] {
      KraftBelowMono(lens, m, lens[s] + 1, lens[t]);
    } else {
      var b, p := lens[s], Pow2(m - lens[s]);
      assert lens[..t][..s] == lens[..s];
      CountPrefix(lens[..t], s, b);
      assert Code(lens, s) + 1 <= Code(lens, t);
      MulStep(Code(lens, s), Code(lens, t), p);
    }
  }

  /** When the lengths do not oversubscribe the code space, no code outgrows its length. */
  lemma CodeFits(lens: seq<nat>, m: nat, s: nat)
    requires s < |lens| && 0 < lens[s] <= m && Kraft(lens, m) <= Pow2(m)
    ensures Code(lens, s) < Pow2(lens[s])
    ensures MsbValue(CodeBits(lens, s)) == Code(lens, s)
  {
    var b, p := lens[s], Pow2(m - lens[s]);
    StartBounds(lens, m, s);
    KraftBelowMono(lens, m, b + 1, m + 1);
    Pow2Sub(m, m - b);
    if Code(lens, s) >= Pow2(b) {
      MulMono(Pow2(b), Code(lens, s), p);
      assert false;
    }
    MsbToMsb(Code(lens, s), b);
  }

  /** Nor does the code after the last one of a length. */
  lemma LengthFits(lens: seq<nat>, m: nat, b: nat)
    requires Kraft(lens, m) <= Pow2(m) && 1 <= b <= m
    ensures FirstCode(lens, b) + Count(lens, b) <= Pow2(b)
  {
    hide FirstCode, Count, KraftBelow, Pow2;
    FirstCodeIsKraft(lens, m, b);
    KraftBelowStep(lens, m, b);
    KraftBelowMono(lens, m, b + 1, m + 1);
    var u, e := Pow2(m - b), FirstCode(lens, b) + Count(lens, b);
    Pow2Sub(m, m - b);
    Distrib(FirstCode(lens, b), Count(lens, b), u);
    if e > Pow2(b) { MulStep(Pow2(b), e, u); }
  }

  /** `bs` begins with the code of `s`. */
  predicate Decodes(lens: seq<nat>, bs: seq<bool>, s: nat)
  {
    s < |lens| && lens[s] > 0 && lens[s] <= |bs| && bs[..lens[s]] == CodeBits(lens, s)
  }

  /** A string begins with the code of `s` exactly when its position lies in the interval of `s`. */
  lemma DecodesIsInterval(lens: seq<nat>, m: nat, bs: seq<bool>, s: nat)
    requires LensBounded(lens, m) && Kraft(lens, m) <= Pow2(m)
    requires s < |lens| && lens[s] > 0 && |bs| == m
    ensures Decodes(lens, bs, s)
       <==> Start(lens, m, s) <= MsbValue(bs) < Start(lens, m, s) + Pow2(m - lens[s])
  {
    var b, p := lens[s], Pow2(m - lens[s]);
    CodeFits(lens, m, s);
    MsbSplit(bs, b);
    var hi, lo, c := MsbValue(bs[..b]), MsbValue(bs[b..]), Code(lens, s);
    if bs[..b] != CodeBits(lens, s) {
      if hi == c { MsbInjective(bs[..b], CodeBits(lens, s)); }
      if hi < c { MulStep(hi, c, p); }
      if hi > c { MulStep(c, hi, p); }
    }
  }

  /** The canonical code is prefix-free: no bit string begins with the codes of two symbols. */
  lemma PrefixFree(lens: seq<nat>, m: nat, bs: seq<bool>, s: nat, t: nat)
    requires LensBounded(lens, m) && Kraft(lens, m) <= Pow2(m)
    requires Decodes(lens, bs, s) && Decodes(lens, bs, t)
    ensures s == t
  {
    if s != t {
      var a, b := if Precedes(lens, s, t) then s else t, if Precedes(lens, s, t) then t else s;
      var w := bs[..lens[b]] + seq(m - lens[b], _ => false);
      assert w[..lens[b]] == bs[..lens[b]] && w[..lens[a]] == bs[..lens[a]];
      DecodesIsInterval(lens, m, w, a);
      DecodesIsInterval(lens, m, w, b);
      StartOrdered(lens, m, a, b);
      assert false;
    }
  }

  lemma {:induction false} SymbolOfRank(lens: seq<nat>, b: nat, r: nat) returns (s: nat)
    requires r < Count(lens, b)
    ensures s < |lens| && lens[s] == b && Count(lens[..s], b) == r
  {
    var n := |lens| - 1;
    if lens[n] == b && Count(lens[..n], b) == r {
      s := n;
    } else {
      s := SymbolOfRank(lens[..n], b, r);
      assert lens[..n][..s] == lens[..s];
    }
  }

  lemma {:induction false} LengthAtPosition(lens: seq<nat>, m: nat, p: nat, top: nat) returns (b: nat)
    requires p < KraftBelow(lens, m, top + 1)
    ensures 1 <= b <= top && KraftBelow(lens, m, b) <= p < KraftBelow(lens, m, b + 1)
  {
    if top == 0 {
      KraftBelowOne(lens, m);
      assert false;
    } else if KraftBelow(lens, m, top) <= p {
      b := top;
    } else {
      b := LengthAtPosition(lens, m, p, top - 1);
    }
  }

  lemma QuotientInside(p: nat, u: nat, f: nat, c: nat)
    requires u > 0 && f * u <= p < f * u + c * u
    ensures f <= p / u < f + c
    ensures (p / u) * u <= p < (p / u) * u + u
  {
    var q := p / u;
    assert p == q * u + p % u;
    Distrib(f, c, u);
    if q < f { MulStep(q, f, u); }
    if q >= f + c { MulMono(f + c, q, u); }
  }

  /** A code that fills the code space decodes every string. */
  lemma CompleteDecodes(lens: seq<nat>, m: nat, bs: seq<bool>) returns (s: nat)
    requires LensBounded(lens, m) && Kraft(lens, m) == Pow2(m) && |bs| == m
    ensures Decodes(lens, bs, s)
  {
    MsbBound(bs);
    var p := MsbValue(bs);
    var b := LengthAtPosition(lens, m, p, m);
    var u := Pow2(m - b);
    FirstCodeIsKraft(lens, m, b);
    KraftBelowStep(lens, m, b);
    var f, c := FirstCode(lens, b), Count(lens, b);
    QuotientInside(p, u, f, c);
    var q := p / u;
    s := SymbolOfRank(lens, b, q - f);
    assert Code(lens, s) == q;
    DecodesIsInterval(lens, m, bs, s);
  }

  /** What the bits received so far say about the next symbol of a code. */
  datatype Next = Sym(s: nat) | Invalid | NeedMore

  /** Reading a code: the symbol whose code `bs` begins with; if there is none, a bit that begins no code
      (possible only when code space is left unused), or not enough bits yet. */
  ghost function NextSymbol(lens: seq<nat>, m: nat, bs: seq<bool>): (r: Next)
    ensures (r.Sym? ==> Decodes(lens, bs, r.s)) && (r.Invalid? ==> bs != [])
  {
    if exists s :: Decodes(lens, bs, s) then
      var s :| Decodes(lens, bs, s);
      Sym(s)
    else if Kraft(lens, m) < Pow2(m) && bs != [] then Invalid
    else NeedMore
  }

  /** A string that begins with a code reads as its symbol. */
  lemma NextSymbolIs(lens: seq<nat>, m: nat, bs: seq<bool>, s: nat)
    requires LensBounded(lens, m) && Kraft(lens, m) <= Pow2(m) && Decodes(lens, bs, s)
    ensures NextSymbol(lens, m, bs) == Sym(s)
  {
    PrefixFree(lens, m, bs, NextSymbol(lens, m, bs).s, s);
  }

  /** A code sent is the symbol read. */
  lemma SentSymbol(lens: seq<nat>, m: nat, s: nat, rest: seq<bool>)
    requires LensBounded(lens, m) && Kraft(lens, m) <= Pow2(m) && s < |lens| && lens[s] > 0
    ensures NextSymbol(lens, m, CodeBits(lens, s) + rest) == Sym(s)
    ensures (CodeBits(lens, s) + rest)[lens[s]..] == rest
  {
    NextSymbolIs(lens, m, CodeBits(lens, s) + rest, s);
  }
}
