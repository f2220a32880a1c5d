/** The static trees: tr_static_init, and that any tokens can be sent with them. */
module StaticTrees {
  import opened Bits
  import opened Canonical
  import opened GenCodes
  import opened CodeLengths
  import opened Tokens
  import opened Blocks
  import opened BlockEncoder
  import opened BlockSize
  import opened Stream

  lemma {:induction false} KraftRun(a: seq<nat>, x: nat, n: nat, m: nat)
    requires 1 <= x <= m
    ensures Kraft(a + Repeat(x, n), m) == Kraft(a, m) + n * Pow2(m - x)
  {
    hide Pow2;
    if n == 0 {
      assert a + Repeat(x, 0) == a;
    } else {
      KraftRun(a, x, n - 1, m);
      var r := a + Repeat(x, n);
      assert r[..|r| - 1] == a + Repeat(x, n - 1);
      Distrib(n - 1, 1, Pow2(m - x));
    }
  }

  lemma StaticRuns()
    ensures StaticLens(288) == [] + Repeat(8, 144) + Repeat(9, 112) + Repeat(7, 24) + Repeat(8, 8)
    ensures forall n :: Fives(n) == [] + Repeat(5, n)
  {
  }

  /** The static codes fill the code space exactly. */
  lemma StaticComplete(m: nat)
    requires m >= 9
    ensures Kraft(StaticLens(288), m) == Pow2(m) && Kraft(Fives(32), m) == Pow2(m) && Kraft(Fives(30), m) <= Pow2(m)
  {
    hide Pow2, Kraft, StaticLens, Fives;
    StaticRuns();
    KraftNone(m);
    var a, b := Repeat(8, 144), Repeat(9, 112);
    KraftRun([], 8, 144, m);
    KraftRun([] + a, 9, 112, m);
    KraftRun([] + a + b, 7, 24, m);
    KraftRun([] + a + b + Repeat(7, 24), 8, 8, m);
    KraftRun([], 5, 32, m);
    KraftRun([], 5, 30, m);
    Doubles(m, 9);
    Doubles(m, 8);
    Doubles(m, 7);
    Doubles(m, 6);
    Doubles(m, 5);
    Doubles(m, 4);
    Doubles(m, 3);
    Doubles(m, 2);
    Doubles(m, 1);
  }

  lemma KraftNone(m: nat)
    ensures Kraft([], m) == 0
  {
  }

  lemma Doubles(m: nat, k: nat)
    requires 1 <= k <= m
    ensures Pow2(m - (k - 1)) == 2 * Pow2(m - k)
  {
  }

  lemma FixedValid(m: nat)
    requires m >= 9
    ensures FixedCodes(m).Valid()
  {
    hide Kraft, Pow2;
    StaticComplete(m);
  }

  /** The static trees have a code for every symbol. */
  lemma FixedSendsAll(tokens: seq<Token>, m: nat)
    requires forall i :: 0 <= i < |tokens| ==> TokenOk(tokens[i])
    ensures CanSendAll(FixedCodes(m), tokens) && CanSendAll(Codes(StaticLens(288), Fives(30), m), tokens)
  {
    hide LengthCode, DCode, StaticLens, Fives;
    assert forall s :: 0 <= s < 288 ==> StaticLens(288)[s] > 0;
  }

  lemma {:induction false} FivesCount(n: nat, b: nat)
    ensures Count(Fives(n), b) == if b == 5 then n else 0
  {
    if n > 0 {
      FivesCount(n - 1, b);
      assert Fives(n)[..n - 1] == Fives(n - 1);
    }
  }

  /** Five-bit codes are the symbols themselves, however many there are. */
  lemma FivesCode(n: nat, s: nat)
    requires s < n
    ensures Code(Fives(n), s) == s
  {
    hide Fives;
    FivesFirst(n, 5);
    assert Fives(n)[..s] == Fives(s);
    FivesCount(s, 5);
  }

  lemma {:induction false} FivesFirst(n: nat, b: nat)
    requires b <= 5
    ensures FirstCode(Fives(n), b) == 0
  {
    if b > 1 {
      FivesFirst(n, b - 1);
      FivesCount(n, b - 1);
    }
  }

  lemma {:induction false} ThirtyEnough(tokens: seq<Token>, m: nat)
    requires forall i :: 0 <= i < |tokens| ==> TokenOk(tokens[i])
    ensures TokensBits(Codes(StaticLens(288), Fives(30), m), tokens) == TokensBits(FixedCodes(m), tokens)
  {
    hide LengthCode, DCode, CodeBits, BaseDist, ExtraDist, BaseLength, ExtraLength, StaticLens;
    if tokens != [] {
      var t := tokens[|tokens| - 1];
      ThirtyEnough(tokens[..|tokens| - 1], m);
      if t.Match? {
        FiveBits(DCode(t.dist - 1));
      }
    }
  }

  lemma FiveBits(s: nat)
    requires s < 30
    ensures CodeBits(Fives(30), s) == CodeBits(Fives(32), s)
  {
    hide Code, Fives;
    FivesCode(30, s);
    FivesCode(32, s);
  }

  lemma CountLast(lens: seq<nat>, b: nat)
    requires lens != []
    ensures Count(lens, b) == Count(lens[..|lens| - 1], b) + if lens[|lens| - 1] == b then 1 else 0
  {
  }

  /** The lengths of the static literal tree, and how many there are of each. */
  method StaticLengths(dl: array<nat>, blCount: array<nat>)
    requires dl.Length == 288 && blCount.Length == 16 && dl != blCount
    modifies dl, blCount
    ensures dl[..] == StaticLens(288) && blCount[0] == 0 && forall b :: 0 <= b < 16 ==>
      blCount[b] == Count(StaticLens(288), b)
  {
    hide Count;
    for bits := 0 to 16
      invariant forall b :: 0 <= b < bits ==> blCount[b] == 0
    {
      blCount[bits] := 0;
    }
    assert forall b :: 0 <= b < 16 ==> blCount[b] == Count(dl[..0], b) by { CountNothing(); }
    var n := 0;
    while n <= 287
      invariant 0 <= n <= 288 && dl[..n] == StaticLens(n) && blCount[0] == 0
      invariant forall b :: 0 <= b < 16 ==> blCount[b] == Count(StaticLens(n), b)
    {
      var len := if n <= 143 then 8 else if n <= 255 then 9 else if n <= 279 then 7 else 8;
      dl[n] := len;
      blCount[len] := blCount[len] + 1;
      forall b | 0 <= b < 16 ensures Count(StaticLens(n + 1), b) == Count(StaticLens(n), b) + if len == b then 1
        else 0 {
        CountLast(StaticLens(n + 1), b);
        assert StaticLens(n + 1)[..n] == StaticLens(n);
      }
      n := n + 1;
    }
  }

  lemma CountNothing()
    ensures forall b :: Count([], b) == 0
  {
  }

  /** Build the two static trees. */
  method StaticInit() returns (lt: Tree, dt: Tree)
    ensures fresh(lt.fc) && fresh(lt.dl) && fresh(dt.fc) && fresh(dt.dl)
    ensures lt.codes == 288 == lt.dl.Length && lt.Lens() == StaticLens(288) && lt.Valid()
    ensures dt.codes == 30 == dt.dl.Length && dt.Lens() == Fives(30) && dt.Valid()
  {
    hide Kraft, Count, CodeBits, Value, Pow2, StaticLens, Fives;
    var lfc, ldl, blCount := new nat[288], new nat[288], new nat[16];
    StaticLengths(ldl, blCount);
    StaticComplete(MAX_BITS);
    assert ldl[..288] == StaticLens(288);
    GenCodes.GenCodes(lfc, ldl, 287, blCount, MAX_BITS);
    lt := Tree(lfc, ldl, 288);
    dt := StaticDistances();
  }

  method StaticDistances() returns (dt: Tree)
    ensures fresh(dt.fc) && fresh(dt.dl)
    ensures dt.codes == 30 == dt.dl.Length && dt.Lens() == Fives(30) && dt.Valid()
  {
    hide CodeBits, Value, Fives, ToMsb, Pow2, Code;
    var fc, dl := new nat[30], new nat[30];
    var n := 0;
    while n < 30
      invariant 0 <= n <= 30 && forall s :: 0 <= s < n ==> dl[s] == 5 && fc[s] == Value(CodeBits(Fives(30), s))
    {
      dl[n] := 5;
      fc[n] := BiReverse(n, 5);
      FivesBits(n);
      n := n + 1;
    }
    dt := Tree(fc, dl, 30);
    assert dl[..30] == Fives(30);
  }

  lemma FivesBits(n: nat)
    requires n < 30
    ensures CodeBits(Fives(30), n) == ToMsb(n, 5)
  {
    FivesCode(30, n);
  }
}
