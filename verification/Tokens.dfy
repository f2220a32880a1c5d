/** Literals and matches, the codes that stand for match lengths and distances, and what a sequence of
    them expands to. */
module Tokens {
  import opened Bits
  import opened BitWriter
  import opened DecodeTable

  const MIN_MATCH := 3
  const MAX_MATCH := 258
  const LITERALS := 256
  const END_BLOCK := 256

  /** One entry of the match buffer: a literal byte, or a match `dist` back. */
  datatype Token = Literal(b: Byte) | Match(len: nat, dist: nat)

  predicate TokenOk(t: Token)
  {
    t.Match? ==> MIN_MATCH <= t.len <= MAX_MATCH && 1 <= t.dist <= 0x8000
  }

  /** Go back `dist` bytes and copy `len`, byte by byte, so that the copy may overlap itself. */
  function Copied(hist: seq<Byte>, dist: nat, len: nat): (r: seq<Byte>)
    requires 1 <= dist <= |hist|
    ensures |r| == |hist| + len && hist <= r
    decreases len
  {
    if len == 0 then hist else Copied(hist + [hist[|hist| - dist]], dist, len - 1)
  }

  /** What the tokens stand for, after the history `hist`; distances must stay within it. */
  function Expand(hist: seq<Byte>, tokens: seq<Token>): (r: seq<Byte>)
    decreases tokens
  {
    if tokens == [] then hist
    else Expand(ExpandOne(hist, tokens[0]), tokens[1..])
  }

  function ExpandOne(hist: seq<Byte>, t: Token): seq<Byte>
  {
    match t
    case Literal(b) => hist + [b]
    case Match(len, dist) => if 1 <= dist <= |hist| then Copied(hist, dist, len) else hist
  }

  const BASE_LENGTH: seq<nat> := [0, 1, 2, 3, 4, 5, 6, 7, 8, 10, 12, 14, 16, 20, 24, 28, 32, 40, 48, 56,
                                  64, 80, 96, 112, 128, 160, 192, 224, 0]
  const EXTRA_LBITS: seq<nat> := [0, 0, 0, 0, 0, 0, 0, 0, 1, 1, 1, 1, 2, 2, 2, 2, 3, 3, 3, 3, 4, 4, 4, 4, 5, 5, 5, 5, 0]
  const BASE_DIST: seq<nat> := [0, 1, 2, 3, 4, 6, 8, 12, 16, 24, 32, 48, 64, 96, 128, 192, 256, 384, 512, 768,
                                1024, 1536, 2048, 3072, 4096, 6144, 8192, 12288, 16384, 24576]
  const EXTRA_DBITS: seq<nat> := [0, 0, 0, 0, 1, 1, 2, 2, 3, 3, 4, 4, 5, 5, 6, 6, 7, 7, 8, 8, 9, 9, 10, 10, 11, 11, 12,
    12, 13, 13]

  function BaseLength(c: nat): nat requires c < 29 { BASE_LENGTH[c] }
  function ExtraLength(c: nat): nat requires c < 29 { EXTRA_LBITS[c] }
  function BaseDist(c: nat): nat requires c < 30 { BASE_DIST[c] }
  function ExtraDist(c: nat): nat requires c < 30 { EXTRA_DBITS[c] }

  /** Length code of a normalized match length: the last code whose base does not exceed it, except that
      the longest match has a code of its own. */
  function LengthCode(lc: nat): (c: nat)
    requires lc < 256
    ensures c < 29
  {
    if lc == 255 then 28 else LengthSearch(lc, 27)
  }

  function LengthSearch(lc: nat, c: nat): (r: nat)
    requires c < 28
    ensures r <= c
  {
    if c == 0 || BaseLength(c) <= lc then c else LengthSearch(lc, c - 1)
  }

  /** The distance code table: its first half is indexed by the distance, the second by the distance
      divided by 128. */
  function DistCodeAt(i: nat): (c: nat)
    requires i < 512
    ensures c < 30
  {
    if i < 256 then DistSearch(i, 29) else DistSearch((i - 256) * 128, 29)
  }

  function DistSearch(d: nat, c: nat): (r: nat)
    requires c < 30
    ensures r <= c
  {
    if c == 0 || BaseDist(c) <= d then c else DistSearch(d, c - 1)
  }

  /** Distance code of a match distance less one. */
  function DCode(d: nat): (c: nat)
    requires d < 0x8000
    ensures c < 30
  {
    if d < 256 then DistCodeAt(d) else DistCodeAt(256 + d / 128)
  }

  lemma {:induction false} LengthSearchFinds(lc: nat, c: nat)
    requires c < 28 && (c < 27 ==> lc < BaseLength(c + 1))
    ensures var r := LengthSearch(lc, c); BaseLength(r) <= lc && (r < 27 ==> lc < BaseLength(r + 1))
  {
    if !(c == 0 || BaseLength(c) <= lc) { LengthSearchFinds(lc, c - 1); }
  }

  lemma {:induction false} DistSearchFinds(d: nat, c: nat)
    requires c < 30 && (c < 29 ==> d < BaseDist(c + 1))
    ensures var r := DistSearch(d, c); BaseDist(r) <= d && (r < 29 ==> d < BaseDist(r + 1))
  {
    if !(c == 0 || BaseDist(c) <= d) { DistSearchFinds(d, c - 1); }
  }

  /** Bases and extra bits of the encoder and of the decoder agree. */
  lemma LengthTablesAgree(c: nat)
    requires c < 29
    ensures LEXT[c] == 16 + ExtraLength(c) && ExtraLength(c) <= 5
    ensures LBASE[c] == if c == 28 then 258 else BaseLength(c) + 3
  {
  }

  lemma DistTablesAgree(c: nat)
    requires c < 30
    ensures DEXT[c] == 16 + ExtraDist(c) && ExtraDist(c) <= 13
    ensures DBASE[c] == BaseDist(c) + 1
  {
  }

  /** The extra bits of each code reach to the base of the next. */
  lemma LengthReach(c: nat)
    requires c < 28
    ensures BaseLength(c) + Pow2(ExtraLength(c)) == if c < 27 then BaseLength(c + 1) else 256
  {
    SmallPowers();
  }

  lemma DistReach(c: nat)
    requires c < 30
    ensures BaseDist(c) + Pow2(ExtraDist(c)) == if c < 29 then BaseDist(c + 1) else 0x8000
  {
    SmallPowers();
    if c < 15 { } else { }
  }

  lemma DistAligned(c: nat)
    requires c < 30
    ensures if c < 16 then BaseDist(c) < 256 else BaseDist(c) % 128 == 0
  {
  }

  lemma {:induction false} DistsApart(a: nat, b: nat)
    requires a < b < 30
    ensures BaseDist(a) + Pow2(ExtraDist(a)) <= BaseDist(b) < 0x8000
    decreases b
  {
    hide BaseDist, ExtraDist, Pow2;
    DistReach(b - 1);
    DistReach(b);
    DistSmall(b);
    if a < b - 1 { DistsApart(a, b - 1); }
  }

  lemma DistSmall(c: nat)
    requires c < 30
    ensures BaseDist(c) < 0x8000 && Pow2(ExtraDist(c)) >= 1
  {
  }

  lemma SmallPowers()
    ensures Pow2(0) == 1 && Pow2(1) == 2 && Pow2(2) == 4 && Pow2(3) == 8 && Pow2(4) == 16 && Pow2(5) == 32
    ensures Pow2(6) == 64 && Pow2(7) == 128 && Pow2(8) == 256 && Pow2(9) == 512 && Pow2(10) == 1024
    ensures Pow2(11) == 2048 && Pow2(12) == 4096 && Pow2(13) == 8192
  {
  }

  /** The extra bits of a length carry what its code leaves open. */
  lemma LengthCodeFits(lc: nat)
    requires lc < 256
    ensures var c := LengthCode(lc);
      c == 28 || (BaseLength(c) <= lc && lc - BaseLength(c) < Pow2(ExtraLength(c)))
    ensures LengthCode(lc) == 28 <==> lc == 255
  {
    hide BaseLength, ExtraLength, LengthSearch;
    if lc < 255 {
      LengthSearchFinds(lc, 27);
      LengthReach(LengthCode(lc));
    }
  }

  /** So do those of a distance, although distances above 256 are looked up by their high bits only. */
  lemma DistCodeFits(d: nat)
    requires d < 0x8000
    ensures var c := DCode(d); BaseDist(c) <= d < BaseDist(c) + Pow2(ExtraDist(c))
  {
    hide BaseDist, ExtraDist, DistSearch;
    if d < 256 {
      DistSearchFinds(d, 29);
      DistReach(DCode(d));
    } else {
      var h := (d / 128) * 128;
      DistSearchFinds(h, 29);
      var c := DCode(d);
      DistReach(c);
      HighPartEnough(h, d, c);
    }
  }

  /** A distance and its multiple of 128 below lie under the same base. */
  lemma HighPartEnough(h: nat, d: nat, c: nat)
    requires c < 29 ==> h < BaseDist(c + 1)
    requires c < 30 && h == (d / 128) * 128 && 256 <= d
    ensures c < 29 ==> d < BaseDist(c + 1)
  {
    if c < 29 { DistAligned(c + 1); }
  }
}
