/** adler32.c: the checksum of RFC 1950, with its remainders deferred, and its combination. */
module Adler32 {
  import opened BitWriter
  import opened Bits

  const BASE := 65521
  const NMAX := 5552
  const WORD := 0x1_0000_0000

  /** The two sums. */
  datatype Sums = Sums(a: nat, b: nat)

  ghost predicate Valid(s: Sums) { s.a < BASE && s.b < BASE }

  /** Each sum in half a word, with a remainder taken or not. */
  ghost predicate Wide(s: Sums) { s.a < 0x1_0000 && s.b < 0x1_0000 }

  /** One byte, as section 8.2 of RFC 1950 defines it. */
  function Step(s: Sums, x: Byte): Sums { Sums((s.a + x) % BASE, (s.b + s.a + x) % BASE) }

  function Checksum(s: Sums, bytes: seq<Byte>): Sums
    decreases |bytes|
  {
    if bytes == [] then s else Checksum(Step(s, bytes[0]), bytes[1..])
  }

  /** The word that holds the two sums, and the sums in a word. */
  function Word(s: Sums): nat { s.a + 0x1_0000 * s.b }

  function Halves(w: nat): Sums { Sums(w % 0x1_0000, w / 0x1_0000 % 0x1_0000) }

  lemma WordHalves(s: Sums)
    requires Wide(s)
    ensures Word(s) < WORD && Halves(Word(s)) == s
  {
  }

  /** The same sums, without a remainder. */
  function RawStep(s: Sums, x: Byte): Sums { Sums(s.a + x, s.b + s.a + x) }

  function Raw(s: Sums, bytes: seq<Byte>): Sums
    decreases |bytes|
  {
    if bytes == [] then s else Raw(RawStep(s, bytes[0]), bytes[1..])
  }

  function Rest(s: Sums): Sums { Sums(s.a % BASE, s.b % BASE) }

  lemma {:induction false} RawSnoc(s: Sums, bytes: seq<Byte>, x: Byte)
    ensures Raw(s, bytes + [x]) == RawStep(Raw(s, bytes), x)
    decreases |bytes|
  {
    if bytes == [] {
      assert ([] + [x])[1..] == [];
    } else {
      assert (bytes + [x])[1..] == bytes[1..] + [x];
      RawSnoc(RawStep(s, bytes[0]), bytes[1..], x);
    }
  }

  lemma RestStep(s: Sums, x: Byte)
    ensures Step(Rest(s), x) == Rest(RawStep(s, x))
  {
    SumRest(x, s.a);
    Shift(s.a % BASE + s.b % BASE + x, s.a / BASE + s.b / BASE);
  }

  /** The remainder may be left to the end. */
  lemma {:induction false} Deferred(s: Sums, bytes: seq<Byte>)
    ensures Checksum(Rest(s), bytes) == Rest(Raw(s, bytes))
    decreases |bytes|
  {
    hide Rest;
    if bytes != [] {
      RestStep(s, bytes[0]);
      Deferred(RawStep(s, bytes[0]), bytes[1..]);
    }
  }

  lemma {:induction false} ChecksumConcat(s: Sums, x: seq<Byte>, y: seq<Byte>)
    ensures Checksum(s, x + y) == Checksum(Checksum(s, x), y)
    decreases |x|
  {
    if x == [] {
      assert x + y == y;
    } else {
      assert (x + y)[1..] == x[1..] + y;
      ChecksumConcat(Step(s, x[0]), x[1..], y);
    }
  }

  /** How large the sums get after `n` bytes. */
  function MostA(n: nat): nat { BASE - 1 + 255 * n }

  function MostB(n: nat): nat { (n + 1) * (BASE - 1) + 255 * (n * (n + 1) / 2) }

  lemma MostStep(n: nat)
    ensures MostA(n + 1) == MostA(n) + 255 && MostB(n + 1) == MostB(n) + MostA(n + 1)
  {
    assert (n + 1) * (n + 2) == n * (n + 1) + 2 * (n + 1);
    assert (n * (n + 1) + 2 * (n + 1)) / 2 == n * (n + 1) / 2 + (n + 1);
    assert (n + 2) * (BASE - 1) == (n + 1) * (BASE - 1) + (BASE - 1);
  }

  lemma {:induction false} MostGrows(n: nat, k: nat)
    requires n <= k
    ensures MostA(n) <= MostA(k) && MostB(n) <= MostB(k)
    decreases k
  {
    hide MostA, MostB;
    if n < k {
      MostStep(k - 1);
      MostGrows(n, k - 1);
    }
  }

  /** NMAX is the largest number of bytes whose sums are sure to fit in 32 bits. */
  lemma NmaxIsTight(n: nat)
    ensures n <= NMAX <==> MostB(n) < WORD
  {
    if n <= NMAX { MostGrows(n, NMAX); } else { MostGrows(NMAX + 1, n); }
  }

  /** 32-bit addition. */
  function Add(x: nat, y: nat): nat { (x + y) % WORD }

  /** The same for sums that start without a remainder taken: there is room for that, too. */
  lemma RoomFor(n: nat)
    requires n <= NMAX
    ensures MostB(n) + 15 * (n + 1) < WORD
  {
    hide MostB;
    MostGrows(n, NMAX);
    assert MostB(NMAX) + 15 * (NMAX + 1) < WORD by { AtNmax(); }
  }

  lemma AtNmax()
    ensures MostB(NMAX) + 15 * (NMAX + 1) < WORD
  {
  }

  /** Add up bytes without a remainder; the sums do not wrap. */
  method Accumulate(buf: seq<Byte>, from: nat, n: nat, adler0: nat, sum0: nat) returns (adler: nat, sum2: nat)
    requires from + n <= |buf| && n <= NMAX && adler0 < 0x1_0000 && sum0 < 0x1_0000
    ensures Sums(adler, sum2) == Raw(Sums(adler0, sum0), buf[from..from + n])
    ensures adler <= MostA(n) + 15 && sum2 < WORD
  {
    hide MostA, MostB, Raw;
    var i := 0;
    adler, sum2 := adler0, sum0;
    NoBytes(Sums(adler0, sum0), buf, from);
    while i < n
      invariant 0 <= i <= n && Sums(adler, sum2) == Raw(Sums(adler0, sum0), buf[from..from + i])
      invariant adler <= MostA(i) + 15 && sum2 <= MostB(i) + 15 * (i + 1)
    {
      MostStep(i);
      RoomFor(i + 1);
      BelowB(i);
      assert buf[from..from + i + 1] == buf[from..from + i] + [buf[from + i]];
      RawSnoc(Sums(adler0, sum0), buf[from..from + i], buf[from + i]);
      adler := Add(adler, buf[from + i]);
      sum2 := Add(sum2, adler);
      i := i + 1;
    }
    RoomFor(n);
  }

  lemma NoBytes(s: Sums, buf: seq<Byte>, from: nat)
    requires from <= |buf|
    ensures Raw(s, buf[from..from + 0]) == s
    ensures (s.a < 0x1_0000 ==> s.a <= MostA(0) + 15) && (s.b < 0x1_0000 ==> s.b <= MostB(0) + 15)
  {
    assert buf[from..from + 0] == [];
  }

  lemma BelowB(n: nat)
    ensures MostA(n + 1) <= MostB(n + 1)
  {
    MostStep(n);
    assert MostB(n) >= 0;
  }

  // The remainder without a division.

  function Chop(a: nat): nat { a % 0x1_0000 + (a / 0x1_0000 * 16 - a / 0x1_0000) }

  function Mod28(a: nat): nat { if Chop(a) >= BASE then Chop(a) - BASE else Chop(a) }

  function Mod(a: nat): nat { Mod28(Chop(a)) }

  function Mod63(a: nat): nat
  {
    var t := a / WORD;
    var c := Chop(Chop(a % WORD + (t * 256 - t * 32 + t)));
    if c >= BASE then c - BASE else c
  }

  lemma Shift(x: int, k: int)
    ensures (x + k * BASE) % BASE == x % BASE
  {
  }

  /** One subtraction is enough below twice BASE. */
  lemma OneOff(x: nat)
    requires x < 2 * BASE
    ensures x % BASE == if x >= BASE then x - BASE else x
  {
    if x >= BASE { Shift(x, -1); }
  }

  lemma ChopRest(a: nat)
    ensures Chop(a) % BASE == a % BASE
  {
    var t := a / 0x1_0000;
    assert a == Chop(a) + t * BASE;
    Shift(Chop(a), t);
  }

  lemma ChopBound(a: nat, k: nat)
    requires 1 <= k && a < k * 0x1_0000
    ensures Chop(a) <= 0xffff + 15 * (k - 1)
  {
    assert a / 0x1_0000 <= k - 1;
  }

  lemma Mod28Is(a: nat)
    requires a < 0x1000_0000
    ensures Mod28(a) == a % BASE
  {
    hide Chop;
    ChopRest(a);
    ChopBound(a, 0x1000);
    OneOff(Chop(a));
  }

  lemma ModIs(a: nat)
    requires a < WORD
    ensures Mod(a) == a % BASE
  {
    hide Chop, Mod28;
    ChopRest(a);
    ChopBound(a, 0x1_0000);
    Mod28Is(Chop(a));
  }

  lemma Mod63Is(a: nat)
    requires a < 0x8000_0000_0000_0000
    ensures Mod63(a) == a % BASE
  {
    hide Chop;
    var t := a / WORD;
    var x := a % WORD + (t * 256 - t * 32 + t);
    FoldHigh(a);
    ChopRest(x);
    ChopBound(x, 0x100_0000);
    ChopRest(Chop(x));
    ChopBound(Chop(x), 0x1000);
    OneOff(Chop(Chop(x)));
  }

  lemma FoldHigh(a: nat)
    requires a < 0x8000_0000_0000_0000
    ensures var t := a / WORD; var x := a % WORD + (t * 256 - t * 32 + t);
      x % BASE == a % BASE && x < 0x100_0000 * 0x1_0000
  {
    var t := a / WORD;
    var x := a % WORD + (t * 256 - t * 32 + t);
    assert a == x + (t * 65551) * BASE;
    Shift(x, t * 65551);
  }

  datatype Buf = Null | Bytes(bytes: seq<Byte>)

  /** adler | (sum2 << 16) */
  function Packed(adler: nat, sum2: nat): nat { Word(Sums(adler, sum2)) }

  /** adler32(): the checksum goes on from any start; a null buffer asks for the initial value. The result stands for
      the checksum, and is the checksum itself unless a single byte is added to a second sum that is too large: there a
      single subtraction is not enough. */
  method Adler32(adler0: nat, buf: Buf) returns (r: nat)
    requires adler0 < WORD
    ensures buf == Null ==> r == Word(Sums(1, 0))
    ensures buf.Bytes? ==> var s := Halves(adler0);
      && r < WORD && Rest(Halves(r)) == Checksum(Rest(s), buf.bytes) && Valid(Checksum(Rest(s), buf.bytes))
      && (r == Word(Checksum(Rest(s), buf.bytes)) <==>
        !(|buf.bytes| == 1 && s.b + (s.a + buf.bytes[0]) % BASE >= 2 * BASE))
  {
    hide Rest, Halves, Word, Checksum, Step;
    InitialWord();
    if buf == Null { return 1; }
    var s := Halves(adler0);
    HalvesWide(adler0);
    var len := |buf.bytes|;
    if len == 1 {
      r := OneByte(s, buf.bytes);
    } else if len < 16 {
      r := FewBytes(s, buf.bytes);
    } else {
      r := ManyBytes(s, buf.bytes);
    }
    RestOf(Checksum(Rest(s), buf.bytes));
    WordHalves(Checksum(Rest(s), buf.bytes));
  }

  lemma InitialWord()
    ensures Word(Sums(1, 0)) == 1
  {
  }

  lemma HalvesWide(w: nat)
    ensures Wide(Halves(w))
  {
  }

  /** The second sum is never too large if it comes from an earlier call. */
  lemma ReducedStart(s: Sums, x: Byte)
    requires s.b < BASE
    ensures s.b + (s.a + x) % BASE < 2 * BASE
  {
  }

  lemma NoWrap(x: nat, y: nat)
    requires x + y < WORD
    ensures Add(x, y) == x + y
  {
  }

  /** One subtraction does for one addition. */
  lemma OneStep(s: Sums, x: Byte)
    requires Wide(s)
    ensures var a := if Add(s.a, x) >= BASE then Add(s.a, x) - BASE else Add(s.a, x);
      var b := if Add(s.b, a) >= BASE then Add(s.b, a) - BASE else Add(s.b, a);
      && a == (s.a + x) % BASE && Wide(Sums(a, b)) && Rest(Sums(a, b)) == Step(Rest(s), x)
      && (b < BASE <==> s.b + a < 2 * BASE)
  {
    hide Add, Step, Rest;
    NoWrap(s.a, x);
    OneOff(s.a + x);
    var a := (s.a + x) % BASE;
    NoWrap(s.b, a);
    OneLessRest(s, x, s.b + a);
    OneLessRest(s, x, s.b + a - BASE);
  }

  /** Taking BASE off the second sum or not leaves the same rests. */
  lemma OneLessRest(s: Sums, x: Byte, b: int)
    requires b == s.b + (s.a + x) % BASE || b == s.b + (s.a + x) % BASE - BASE
    ensures b >= 0 ==> Rest(Sums((s.a + x) % BASE, b)) == Step(Rest(s), x)
  {
    hide Step;
    RestStep(s, x);
    RestTwice(s.a + x);
    LessRest(s.b, s.a + x, b);
  }

  lemma RestTwice(x: nat)
    ensures x % BASE % BASE == x % BASE
  {
  }

  lemma LessRest(y: nat, x: nat, b: int)
    requires b == y + x % BASE || b == y + x % BASE - BASE
    ensures b % BASE == (y + x) % BASE
  {
    SumRest(y, x);
    Shift(y + x % BASE, -1);
  }

  lemma SumRest(b: nat, x: nat)
    ensures (b + x % BASE) % BASE == (b + x) % BASE
  {
    Shift(b + x % BASE, x / BASE);
  }

  method OneByte(s: Sums, bytes: seq<Byte>) returns (r: nat)
    requires Wide(s) && |bytes| == 1
    ensures r < WORD && Rest(Halves(r)) == Checksum(Rest(s), bytes) && Valid(Checksum(Rest(s), bytes))
    ensures r == Word(Checksum(Rest(s), bytes)) <==> s.b + (s.a + bytes[0]) % BASE < 2 * BASE
  {
    hide Add, Rest, Halves, Word, Step, Checksum;
    OneChecksum(Rest(s), bytes);
    OneStep(s, bytes[0]);
    var adler, sum2 := s.a, s.b;
    adler := Add(adler, bytes[0]);
    if adler >= BASE { adler := adler - BASE; }
    sum2 := Add(sum2, adler);
    if sum2 >= BASE { sum2 := sum2 - BASE; }
    WordHalves(Sums(adler, sum2));
    SameWord(Sums(adler, sum2), Checksum(Rest(s), bytes));
    return Packed(adler, sum2);
  }

  lemma OneChecksum(s: Sums, bytes: seq<Byte>)
    requires |bytes| == 1
    ensures Checksum(s, bytes) == Step(s, bytes[0])
  {
    assert bytes[1..] == [];
  }

  lemma SameWord(x: Sums, y: Sums)
    requires Wide(x) && Rest(x) == y
    ensures Valid(y) && (Word(x) == Word(y) <==> Valid(x))
  {
    hide Halves;
    WordHalves(x);
    WordHalves(y);
    if Valid(x) { RestOf(x); }
  }

  lemma RestOf(s: Sums)
    requires Valid(s)
    ensures Rest(s) == s
  {
  }

  method FewBytes(s: Sums, bytes: seq<Byte>) returns (r: nat)
    requires Wide(s) && |bytes| < 16
    ensures r == Word(Checksum(Rest(s), bytes)) && Valid(Checksum(Rest(s), bytes))
  {
    hide Raw, Checksum, MostB;
    var adler, sum2 := Accumulate(bytes, 0, |bytes|, s.a, s.b);
    assert bytes[0..0 + |bytes|] == bytes;
    Deferred(s, bytes);
    OneOff(adler);
    if adler >= BASE { adler := adler - BASE; }
    return Packed(adler, sum2 % BASE);
  }

  /** Blocks of NMAX bytes, each with one remainder, and what is left. */
  method ManyBytes(s: Sums, bytes: seq<Byte>) returns (r: nat)
    requires Wide(s) && |bytes| >= 16
    ensures r == Word(Checksum(Rest(s), bytes)) && Valid(Checksum(Rest(s), bytes))
  {
    hide Raw, MostA, MostB, Rest;
    var adler: nat, sum2: nat, pos: nat := s.a, s.b, 0;
    assert bytes[..0] == [];
    while |bytes| - pos >= NMAX
      invariant 0 <= pos <= |bytes| && Rest(Sums(adler, sum2)) == Checksum(Rest(s), bytes[..pos])
      invariant Wide(Sums(adler, sum2)) && (pos > 0 ==> Valid(Sums(adler, sum2)))
    {
      adler, sum2 := Block(s, bytes, pos, NMAX, adler, sum2);
      pos := pos + NMAX;
    }
    if pos < |bytes| {
      adler, sum2 := Block(s, bytes, pos, |bytes| - pos, adler, sum2);
    }
    assert bytes[..|bytes|] == bytes;
    RestOf(Sums(adler, sum2));
    return Packed(adler, sum2);
  }

  method Block(ghost s: Sums, bytes: seq<Byte>, pos: nat, n: nat, adler0: nat, sum0: nat)
    returns (adler: nat, sum2: nat)
    requires pos + n <= |bytes| && n <= NMAX && Rest(Sums(adler0, sum0)) == Checksum(Rest(s), bytes[..pos])
      && Wide(Sums(adler0, sum0))
    ensures Rest(Sums(adler, sum2)) == Checksum(Rest(s), bytes[..pos + n]) && Valid(Sums(adler, sum2))
  {
    hide Raw, Checksum, MostA, MostB;
    adler, sum2 := Accumulate(bytes, pos, n, adler0, sum0);
    Deferred(Sums(adler0, sum0), bytes[pos..pos + n]);
    ChecksumConcat(Rest(s), bytes[..pos], bytes[pos..pos + n]);
    assert bytes[..pos] + bytes[pos..pos + n] == bytes[..pos + n];
    adler, sum2 := adler % BASE, sum2 % BASE;
  }

  // Combination.

  function Total(bytes: seq<Byte>): nat { if bytes == [] then 0 else bytes[0] + Total(bytes[1..]) }

  /** Each byte counts once for itself and once for every byte after it. */
  function Weighted(bytes: seq<Byte>): nat { if bytes == [] then 0 else |bytes| * bytes[0] + Weighted(bytes[1..]) }

  lemma MulSum(n: nat, a: nat, x: nat)
    ensures n * (a + x) == n * a + n * x && (n + 1) * (a + x) == n * (a + x) + a + x && (n + 1) * a == n * a + a
      && (n + 1) * x == n * x + x
  {
  }

  lemma {:induction false} RawIs(s: Sums, bytes: seq<Byte>)
    ensures Raw(s, bytes) == Sums(s.a + Total(bytes), s.b + |bytes| * s.a + Weighted(bytes))
    decreases |bytes|
  {
    if bytes != [] {
      RawIs(RawStep(s, bytes[0]), bytes[1..]);
      MulSum(|bytes| - 1, s.a, bytes[0]);
    }
  }

  /** At most two times BASE too much. */
  function TwoOff(x: nat): nat
  {
    var x1 := if x >= BASE then x - BASE else x;
    if x1 >= BASE then x1 - BASE else x1
  }

  /** At most three times BASE too much. */
  function ThreeOff(y: nat): nat
  {
    var y1 := if y >= 2 * BASE then y - 2 * BASE else y;
    if y1 >= BASE then y1 - BASE else y1
  }

  function CombineSums(s1: Sums, s2: Sums, rem: nat): Sums
    requires rem <= BASE
  {
    Sums(TwoOff(s1.a + s2.a + BASE - 1), ThreeOff(rem * s1.a % WORD % BASE + s1.b + s2.b + BASE - rem))
  }

  /** z_off64_t. */
  type Off64 = x: int | -0x8000_0000_0000_0000 <= x < 0x8000_0000_0000_0000

  /** adler32_combine: the checksum of two strings from their checksums and the length of the second. */
  function Combine(adler1: nat, adler2: nat, len2: Off64): nat
  {
    if len2 < 0 then 0xffff_ffff
    else
      Mod63Is(len2);
      Word(CombineSums(Halves(adler1), Halves(adler2), Mod63(len2)))
  }

  lemma TwoOffIs(x: nat)
    requires x < 3 * BASE
    ensures TwoOff(x) == x % BASE
  {
    Shift(x, -1);
    Shift(x, -2);
  }

  lemma ThreeOffIs(y: nat)
    requires y < 4 * BASE
    ensures ThreeOff(y) == y % BASE
  {
    Shift(y, -1);
    Shift(y, -2);
    Shift(y, -3);
  }

  /** The product does not wrap. */
  lemma ProductFits(rem: nat, a: nat)
    requires rem < BASE && a < BASE
    ensures rem * a % WORD == rem * a
  {
    MulMono(rem, BASE - 1, a);
    MulMono(a, BASE - 1, BASE - 1);
  }

  lemma SameRest(x: int, y: int, k: int)
    requires x == y + k * BASE
    ensures x % BASE == y % BASE
  {
    Shift(y, k);
  }

  lemma FirstSum(a1: nat, total: nat)
    requires a1 < BASE
    ensures (a1 + (1 + total) % BASE + BASE - 1) % BASE == (a1 + total) % BASE
  {
    var q := (1 + total) / BASE;
    SameRest(a1 + total, a1 + (1 + total) % BASE + BASE - 1, q - 1);
  }

  lemma SecondSum(a1: nat, b1: nat, n: nat, weighted: nat)
    ensures ((n % BASE) * a1 % BASE + b1 + (n + weighted) % BASE + BASE - n % BASE) % BASE ==
      (b1 + n * a1 + weighted) % BASE
  {
    var rem, q := n % BASE, n / BASE;
    var p, i := rem * a1 % BASE, rem * a1 / BASE;
    var b2, j := (n + weighted) % BASE, (n + weighted) / BASE;
    assert n * a1 == rem * a1 + (q * a1) * BASE by { assert n == rem + q * BASE; }
    SameRest(b1 + n * a1 + weighted, p + b1 + b2 + BASE - rem, i + q * a1 + j - q - 1);
  }

  lemma SumsCombine(s1: Sums, s2: Sums, n: nat, total: nat, weighted: nat)
    requires Valid(s1) && s2 == Sums((1 + total) % BASE, (n + weighted) % BASE)
    ensures CombineSums(s1, s2, n % BASE) == Sums((s1.a + total) % BASE, (s1.b + n * s1.a + weighted) % BASE)
  {
    hide TwoOff, ThreeOff;
    var rem := n % BASE;
    ProductFits(rem, s1.a);
    FirstSum(s1.a, total);
    SecondSum(s1.a, s1.b, n, weighted);
    TwoOffIs(s1.a + s2.a + BASE - 1);
    ThreeOffIs(rem * s1.a % BASE + s1.b + s2.b + BASE - rem);
  }

  /** Combining the checksums of two strings gives that of the two in a row. */
  lemma CombineIs(s: Sums, x: seq<Byte>, y: seq<Byte>)
    requires Valid(s) && |y| < 0x8000_0000_0000_0000
    ensures Combine(Word(Checksum(s, x)), Word(Checksum(Sums(1, 0), y)), |y|) == Word(Checksum(s, x + y))
  {
    hide Checksum, Raw, Mod63, Halves, CombineSums, Word;
    var s1, s2, n := Checksum(s, x), Checksum(Sums(1, 0), y), |y|;
    SumsOf(s, x);
    SumsOf(s1, y);
    SumsOf(Sums(1, 0), y);
    ChecksumConcat(s, x, y);
    WordHalves(s1);
    WordHalves(s2);
    Mod63Is(n);
    SumsCombine(s1, s2, n, Total(y), Weighted(y));
  }

  lemma SumsOf(s: Sums, y: seq<Byte>)
    requires Valid(s)
    ensures Checksum(s, y) == Sums((s.a + Total(y)) % BASE, (s.b + |y| * s.a + Weighted(y)) % BASE)
      && Valid(Checksum(s, y))
  {
    hide Checksum, Raw, Total, Weighted;
    Deferred(s, y);
    RawIs(s, y);
    RestOf(s);
  }
}
