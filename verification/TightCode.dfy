/** A valid code that inflate_table refuses: its table fits, but leaves no entry of the space unused. */
module TightCode {
  import opened Bits
  import opened Canonical
  import opened CodeOrder
  import opened DecodeTable
  import opened TableParts
  import opened TableSize
  import opened SubTables
  import opened InflateTable

  lemma {:induction false} AllCounted(lens: seq<nat>, b: nat)
    requires forall i :: 0 <= i < |lens| ==> 1 <= lens[i] < b
    ensures CountBelow(lens, b) == |lens|
  {
    if lens == [] {
      CountBelowEmpty(b);
    } else {
      CountBelowSnoc(lens, b);
      AllCounted(lens[..|lens| - 1], b);
    }
  }

  lemma {:induction false} PrefixBelow(lens: seq<nat>, s: nat, b: nat)
    requires s <= |lens| && forall i :: s <= i < |lens| ==> lens[i] >= b
    ensures CountBelow(lens, b) == CountBelow(lens[..s], b)
    decreases |lens|
  {
    if s < |lens| {
      CountBelowSnoc(lens, b);
      var l := lens[..|lens| - 1];
      PrefixBelow(l, s, b);
      assert l[..s] == lens[..s];
    } else {
      assert lens[..s] == lens;
    }
  }

  /** Lengths that are in order already stay in order. */
  lemma OrderedAlready(lens: seq<nat>, m: nat)
    requires Ascending(lens, m)
    ensures LensBounded(lens, m) && ByLength(lens, m) == lens
  {
    AllCounted(lens, m + 1);
    forall s | 0 <= s < |lens| ensures LenAt(lens, m, s) == lens[s] {
      var b := lens[s];
      PrefixBelow(lens, s, b);
      assert CountBelow(lens[..s], b + 1) == CountBelow(lens[..s], b) + Count(lens[..s], b);
      AllCounted(lens[..s], b + 1);
      LenAtIs(lens, m, s, s);
    }
  }

  /** 286 lengths: 1, 2, 232 times 10, 47 times 11, 12, 13, 14 and twice 15. */
  function Tight(): (ls: seq<nat>)
    ensures |ls| == 286
  {
    seq(286, (j: nat) => if j == 0 then 1 else if j == 1 then 2 else if j < 234 then 10 else if j < 281 then 11
      else if j < 285 then j - 269 else 15)
  }

  lemma Units()
    ensures Pow2(15 - 10) == 32 && Pow2(15 - 11) == 16 && Pow2(15 - 12) == 8 && Pow2(15 - 13) == 4 && Pow2(15 - 14) == 2
      && Pow2(15 - 15) == 1
    ensures Pow2(15 - 9) == 64 && Pow2(1) == 2 && Pow2(2) == 4 && Pow2(6) == 64 && Pow2(14) == 0x4000
      && Pow2(13) == 0x2000
    ensures Pow2(9) == 512 && Pow2(15) == 0x8000
  {
  }

  /** Codes of the group at hand fill it up one by one. */
  lemma Next(ls: seq<nat>, r: nat, j: nat, left: nat)
    requires Ascending(ls, 15) && r <= 15 && j < |ls| && ls[j] > r && left > 0
    ensures SubSizes(ls, 15, r, j, left) == SubSizes(ls, 15, r, j + 1, left - Pow2(15 - ls[j]))
    ensures Rest(ls, 15, j) == Pow2(15 - ls[j]) + Rest(ls, 15, j + 1)
    ensures Pow2(15 - ls[j]) < left && j + 1 < |ls| ==>
      GroupEnd(ls, 15, j, left) == GroupEnd(ls, 15, j + 1, left - Pow2(15 - ls[j]))
    ensures Pow2(15 - ls[j]) >= left ==> GroupEnd(ls, 15, j, left) == ls[j]
  {
  }

  lemma Open(ls: seq<nat>, r: nat, j: nat)
    requires Ascending(ls, 15) && r <= 15 && j < |ls| && ls[j] > r
    ensures SubSizes(ls, 15, r, j, 0) ==
      Pow2(GroupEnd(ls, 15, j, Pow2(15 - r)) - r) + SubSizes(ls, 15, r, j, Pow2(15 - r))
  {
  }

  lemma Ended(ls: seq<nat>, r: nat, left: int)
    requires Ascending(ls, 15) && r <= 15
    ensures SubSizes(ls, 15, r, |ls|, left) == 0 && Rest(ls, 15, |ls|) == 0
  {
  }

  lemma Short(ls: seq<nat>, r: nat, j: nat)
    requires Ascending(ls, 15) && r <= 15 && j < |ls| && ls[j] <= r
    ensures SubSizes(ls, 15, r, j, 0) == SubSizes(ls, 15, r, j + 1, 0)
    ensures Rest(ls, 15, j) == Pow2(15 - ls[j]) + Rest(ls, 15, j + 1)
  {
  }

  /** Pairs of codes of 10 bits. */
  lemma {:induction false} Twos(ls: seq<nat>, j: nat)
    requires Ascending(ls, 15) && |ls| == 286 && 2 <= j <= 234 && j % 2 == 0 && forall i :: 2 <= i < 234 ==> ls[i] == 10
    ensures SubSizes(ls, 15, 9, j, 0) == (234 - j) + SubSizes(ls, 15, 9, 234, 0)
    ensures Rest(ls, 15, j) == (234 - j) * 32 + Rest(ls, 15, 234)
    decreases 234 - j
  {
    hide SubSizes, Rest, GroupEnd, Pow2;
    Units();
    if j < 234 {
      Open(ls, 9, j);
      Next(ls, 9, j, 64);
      Next(ls, 9, j + 1, 32);
      Twos(ls, j + 2);
    }
  }

  /** Fours of codes of 11 bits. */
  lemma {:induction false} Fours(ls: seq<nat>, j: nat)
    requires Ascending(ls, 15) && |ls| == 286 && 234 <= j <= 278 && (278 - j) % 4 == 0 && forall i :: 234 <= i < 278 ==>
      ls[i] == 11
    ensures SubSizes(ls, 15, 9, j, 0) == (278 - j) + SubSizes(ls, 15, 9, 278, 0)
    ensures Rest(ls, 15, j) == (278 - j) * 16 + Rest(ls, 15, 278)
    decreases 278 - j
  {
    hide SubSizes, Rest, GroupEnd, Pow2;
    Units();
    if j < 278 {
      Open(ls, 9, j);
      Next(ls, 9, j, 64);
      Next(ls, 9, j + 1, 48);
      Next(ls, 9, j + 2, 32);
      Next(ls, 9, j + 3, 16);
      Fours(ls, j + 4);
    }
  }

  /** One group with codes of 11 up to 15 bits. */
  lemma LastGroup(ls: seq<nat>)
    requires Ascending(ls, 15) && |ls| == 286 && ls[278] == ls[279] == ls[280] == 11
    requires ls[281] == 12 && ls[282] == 13 && ls[283] == 14 && ls[284] == ls[285] == 15
    ensures SubSizes(ls, 15, 9, 278, 0) == 64 && Rest(ls, 15, 278) == 64
  {
    hide SubSizes, Rest, GroupEnd, Pow2;
    Units();
    Ended(ls, 9, 0);
    Open(ls, 9, 278);
    Next(ls, 9, 278, 64);
    Next(ls, 9, 279, 48);
    Next(ls, 9, 280, 32);
    Next(ls, 9, 281, 16);
    Next(ls, 9, 282, 8);
    Next(ls, 9, 283, 4);
    Next(ls, 9, 284, 2);
    Next(ls, 9, 285, 1);
  }

  lemma TightIs(ls: seq<nat>)
    requires ls == Tight()
    ensures Ascending(ls, 15) && ls[0] == 1 && ls[1] == 2 && (forall i :: 2 <= i < 234 ==> ls[i] == 10)
      && (forall i :: 234 <= i < 278 ==> ls[i] == 11)
    ensures ls[278] == ls[279] == ls[280] == 11 && ls[281] == 12 && ls[282] == 13 && ls[283] == 14
      && ls[284] == ls[285] == 15
  {
  }

  /** The lengths make a complete code, and its table has exactly as many entries as there is space for. */
  lemma TightSize()
    ensures LensBounded(Tight(), MAXBITS) && Kraft(Tight(), MAXBITS) == Pow2(MAXBITS)
    ensures FullSize(Tight(), MAXBITS, 9) == ENOUGH_LENS
  {
    hide Tight, SubSizes, Rest, KraftBelow, ByLength;
    var ls := Tight();
    TightIs(ls);
    OrderedAlready(ls, 15);
    InOrder(ls, 15);
    FirstTwo(ls);
    Twos(ls, 2);
    Fours(ls, 234);
    LastGroup(ls);
    Units();
  }

  lemma FirstTwo(ls: seq<nat>)
    requires Ascending(ls, 15) && |ls| == 286 && ls[0] == 1 && ls[1] == 2
    ensures SubSizes(ls, 15, 9, 0, 0) == SubSizes(ls, 15, 9, 2, 0) && Rest(ls, 15, 0) == 0x6000 + Rest(ls, 15, 2)
  {
    hide Pow2, GroupEnd;
    Units();
    assert SubSizes(ls, 15, 9, 0, 0) == SubSizes(ls, 15, 9, 1, 0);
    assert Rest(ls, 15, 0) == Pow2(15 - 1) + Rest(ls, 15, 1) && Rest(ls, 15, 1) == Pow2(15 - 2) + Rest(ls, 15, 2);
  }

  /** inflate_table does not reject these lengths as invalid, yet it makes no table for them. */
  method RefusesTight() returns (ret: int)
    ensures !Rejected(LENS, Tight(), MAXBITS) && ret == 1
  {
    hide Tight, FullSize, Kraft;
    TightSize();
    var table := new Entry[ENOUGH_LENS];
    var root, used;
    ret, root, used := Build(LENS, Tight(), table, 0, 9, MAXBITS);
  }

  /** 29 distance lengths: 1, 2, 3, 13 times 7, 5 times 8, 9 up to 14, and twice 15. */
  function TightDists(): (ls: seq<nat>)
    ensures |ls| == 29
  {
    seq(29, (j: nat) => if j < 3 then j + 1 else if j < 16 then 7 else if j < 21 then 8 else if j < 27 then j - 12
      else 15)
  }

  lemma DistUnits()
    ensures Pow2(15 - 1) == 0x4000 && Pow2(15 - 2) == 0x2000 && Pow2(15 - 3) == 0x1000 && Pow2(15 - 6) == 512
    ensures Pow2(15 - 7) == 256 && Pow2(15 - 8) == 128 && Pow2(15 - 9) == 64 && Pow2(15 - 10) == 32
      && Pow2(15 - 11) == 16
    ensures Pow2(15 - 12) == 8 && Pow2(15 - 13) == 4 && Pow2(15 - 14) == 2 && Pow2(15 - 15) == 1
    ensures Pow2(1) == 2 && Pow2(2) == 4 && Pow2(6) == 64 && Pow2(9) == 512 && Pow2(15) == 0x8000
  {
  }

  /** Pairs of codes of 7 bits. */
  lemma {:induction false} DistTwos(ls: seq<nat>, j: nat)
    requires Ascending(ls, 15) && |ls| == 29 && 3 <= j <= 15 && j % 2 == 1 && forall i :: 3 <= i < 16 ==> ls[i] == 7
    ensures SubSizes(ls, 15, 6, j, 0) == (15 - j) + SubSizes(ls, 15, 6, 15, 0)
    ensures Rest(ls, 15, j) == (15 - j) * 256 + Rest(ls, 15, 15)
    decreases 15 - j
  {
    hide SubSizes, Rest, GroupEnd, Pow2;
    DistUnits();
    if j < 15 {
      Open(ls, 6, j);
      Next(ls, 6, j, 512);
      Next(ls, 6, j + 1, 256);
      DistTwos(ls, j + 2);
    }
  }

  /** A group of one code of 7 bits and two of 8. */
  lemma DistThree(ls: seq<nat>)
    requires Ascending(ls, 15) && |ls| == 29 && ls[15] == 7 && ls[16] == ls[17] == 8
    ensures SubSizes(ls, 15, 6, 15, 0) == 4 + SubSizes(ls, 15, 6, 18, 0) && Rest(ls, 15, 15) == 512 + Rest(ls, 15, 18)
  {
    hide SubSizes, Rest, GroupEnd, Pow2;
    DistUnits();
    Open(ls, 6, 15);
    Next(ls, 6, 15, 512);
    Next(ls, 6, 16, 256);
    Next(ls, 6, 17, 128);
  }

  /** One group with codes of 8 up to 15 bits. */
  lemma DistLast(ls: seq<nat>)
    requires Ascending(ls, 15) && |ls| == 29 && ls[18] == ls[19] == ls[20] == 8 && ls[21] == 9 && ls[22] == 10
      && ls[23] == 11
    requires ls[24] == 12 && ls[25] == 13 && ls[26] == 14 && ls[27] == ls[28] == 15
    ensures SubSizes(ls, 15, 6, 18, 0) == 512 && Rest(ls, 15, 18) == 512
  {
    hide SubSizes, Rest, GroupEnd, Pow2;
    DistUnits();
    Ended(ls, 6, 0);
    Open(ls, 6, 18);
    Next(ls, 6, 18, 512);
    Next(ls, 6, 19, 384);
    Next(ls, 6, 20, 256);
    Next(ls, 6, 21, 128);
    Next(ls, 6, 22, 64);
    Next(ls, 6, 23, 32);
    Next(ls, 6, 24, 16);
    Next(ls, 6, 25, 8);
    Next(ls, 6, 26, 4);
    Next(ls, 6, 27, 2);
    Next(ls, 6, 28, 1);
  }

  lemma TightDistsAre(ls: seq<nat>)
    requires ls == TightDists()
    ensures Ascending(ls, 15) && ls[0] == 1 && ls[1] == 2 && ls[2] == 3 && (forall i :: 3 <= i < 16 ==> ls[i] == 7)
    ensures ls[16] == ls[17] == ls[18] == ls[19] == ls[20] == 8 && ls[21] == 9 && ls[22] == 10 && ls[23] == 11
    ensures ls[24] == 12 && ls[25] == 13 && ls[26] == 14 && ls[27] == ls[28] == 15
  {
  }

  lemma DistShort(ls: seq<nat>)
    requires Ascending(ls, 15) && |ls| == 29 && ls[0] == 1 && ls[1] == 2 && ls[2] == 3
    ensures SubSizes(ls, 15, 6, 0, 0) == SubSizes(ls, 15, 6, 3, 0) && Rest(ls, 15, 0) == 0x7000 + Rest(ls, 15, 3)
  {
    hide SubSizes, Rest, GroupEnd, Pow2;
    DistUnits();
    Short(ls, 6, 0);
    Short(ls, 6, 1);
    Short(ls, 6, 2);
  }

  lemma DistSizes(ls: seq<nat>)
    requires ls == TightDists() && Ascending(ls, 15)
    ensures SubSizes(ls, 15, 6, 0, 0) == 528 && Rest(ls, 15, 0) == 0x8000
  {
    hide TightDists, SubSizes, Rest, GroupEnd, Pow2;
    TightDistsAre(ls);
    DistShort(ls);
    DistTwos(ls, 3);
    DistThree(ls);
    DistLast(ls);
  }

  /** These lengths too make a complete code whose table has as many entries as there is space for. */
  lemma TightDistsSize()
    ensures LensBounded(TightDists(), MAXBITS) && Kraft(TightDists(), MAXBITS) == Pow2(MAXBITS)
    ensures FullSize(TightDists(), MAXBITS, 6) == ENOUGH_DISTS
  {
    hide TightDists, SubSizes, Rest, KraftBelow, ByLength, Pow2, GroupEnd, Ascending;
    var ls := TightDists();
    TightDistsAre(ls);
    OrderedAlready(ls, 15);
    InOrder(ls, 15);
    DistSizes(ls);
    DistUnits();
  }

  /** So the same goes for distances. */
  method RefusesTightDists() returns (ret: int)
    ensures !Rejected(DISTS, TightDists(), MAXBITS) && ret == 1
  {
    hide TightDists, FullSize, Kraft;
    TightDistsSize();
    var table := new Entry[ENOUGH_DISTS];
    var root, used;
    ret, root, used := Build(DISTS, TightDists(), table, 0, 6, MAXBITS);
  }
}
