/** crc32.c: the cyclic redundancy check of RFC 1952, a byte at a time, and its combination. */
module Crc32 {
  const POLY: bv32 := 0xedb88320
  const ALL: bv32 := 0xffff_ffff

  function Xor(a: bv32, b: bv32): bv32 { a ^ b }

  /** One zero bit: multiplication by x, with the low bit standing for the highest power. */
  function Shift(c: bv32): bv32 { if c & 1 == 1 then POLY ^ (c >> 1) else c >> 1 }

  function Zeros(c: bv32, n: nat): bv32
    decreases n
  {
    if n == 0 then c else Zeros(Shift(c), n - 1)
  }

  function Wide(x: bv8): bv32 { x as bv32 }

  /** One byte, bit by bit. */
  function Feed(c: bv32, x: bv8): bv32 { Zeros(Xor(c, Wide(x)), 8) }

  function Register(c: bv32, bytes: seq<bv8>): bv32
    decreases |bytes|
  {
    if bytes == [] then c else Register(Feed(c, bytes[0]), bytes[1..])
  }

  /** The check value of some bytes, going on from that of the bytes before them. */
  function Crc(crc: bv32, bytes: seq<bv8>): bv32 { Xor(Register(Xor(crc, ALL), bytes), ALL) }

  // Everything is linear.

  lemma XorLaws(a: bv32, b: bv32, c: bv32)
    ensures Xor(Xor(a, b), c) == Xor(a, Xor(b, c)) && Xor(a, b) == Xor(b, a)
    ensures Xor(a, a) == 0 && Xor(a, 0) == a && Xor(0, a) == a
  {
  }

  lemma XorSwap(c: bv32, d: bv32, x: bv32)
    ensures Xor(Xor(c, d), x) == Xor(Xor(c, x), d)
  {
    XorAssoc(c, d, x);
    XorAssoc(c, x, d);
    assert d ^ x == x ^ d;
  }

  lemma XorAssoc(a: bv32, b: bv32, c: bv32)
    ensures (a ^ b) ^ c == a ^ (b ^ c)
  {
  }

  lemma ShiftXor(a: bv32, b: bv32)
    ensures (a ^ b) >> 1 == (a >> 1) ^ (b >> 1)
  {
  }

  lemma LowXor(a: bv32, b: bv32)
    ensures (a ^ b) & 1 == 1 <==> ((a & 1 == 1) != (b & 1 == 1))
  {
  }

  lemma Cancel(p: bv32, a: bv32, b: bv32)
    ensures (p ^ a) ^ (p ^ b) == a ^ b
  {
  }

  lemma Swap(p: bv32, a: bv32, b: bv32)
    ensures (p ^ a) ^ b == p ^ (a ^ b) && a ^ (p ^ b) == p ^ (a ^ b)
  {
  }

  lemma LinearShift(a: bv32, b: bv32)
    ensures Shift(a ^ b) == Shift(a) ^ Shift(b)
  {
    LowXor(a, b);
    ShiftXor(a, b);
    var x, y := a >> 1, b >> 1;
    if a & 1 == 1 {
      if b & 1 == 1 { Cancel(POLY, x, y); } else { Swap(POLY, x, y); }
    } else {
      if b & 1 == 1 { Swap(POLY, x, y); }
    }
  }

  lemma Linear(a: bv32, b: bv32)
    ensures Shift(Xor(a, b)) == Xor(Shift(a), Shift(b))
  {
    hide Shift;
    LinearShift(a, b);
  }

  lemma {:induction false} ZerosXor(a: bv32, b: bv32, n: nat)
    ensures Zeros(Xor(a, b), n) == Xor(Zeros(a, n), Zeros(b, n))
    decreases n
  {
    hide Shift, Xor;
    if n > 0 {
      Linear(a, b);
      ZerosXor(Shift(a), Shift(b), n - 1);
    }
  }

  lemma {:induction false} ZerosAdd(c: bv32, a: nat, b: nat)
    ensures Zeros(c, a + b) == Zeros(Zeros(c, a), b)
    decreases a
  {
    hide Shift;
    if a > 0 { ZerosAdd(Shift(c), a - 1, b); }
  }

  lemma {:induction false} ZerosNone(n: nat)
    ensures Zeros(0, n) == 0
  {
    if n > 0 { ZerosNone(n - 1); }
  }

  lemma {:induction false} RegisterConcat(c: bv32, x: seq<bv8>, y: seq<bv8>)
    ensures Register(c, x + y) == Register(Register(c, x), y)
    decreases |x|
  {
    hide Feed;
    if x == [] {
      assert x + y == y;
    } else {
      assert (x + y)[1..] == x[1..] + y;
      RegisterConcat(Feed(c, x[0]), x[1..], y);
    }
  }

  lemma {:induction false} RegisterSnoc(c: bv32, x: seq<bv8>, b: bv8)
    ensures Register(c, x + [b]) == Feed(Register(c, x), b)
  {
    hide Feed;
    RegisterConcat(c, x, [b]);
    assert [b][1..] == [];
  }

  /** What a different start adds: itself, after as many zero bits. */
  lemma {:induction false} RegisterXor(c: bv32, d: bv32, bytes: seq<bv8>)
    ensures Register(Xor(c, d), bytes) == Xor(Register(c, bytes), Zeros(d, 8 * |bytes|))
    decreases |bytes|
  {
    hide Zeros, Xor, Wide;
    if bytes == [] {
      NoZeros(d);
    } else {
      var x := Wide(bytes[0]);
      XorSwap(c, d, x);
      ZerosXor(Xor(c, x), d, 8);
      RegisterXor(Feed(c, bytes[0]), Zeros(d, 8), bytes[1..]);
      ZerosAdd(d, 8, 8 * (|bytes| - 1));
    }
  }

  lemma NoZeros(d: bv32)
    ensures Zeros(d, 0) == d
  {
  }

  /** The check value of two strings in a row, from that of each. */
  lemma CrcConcat(crc: bv32, x: seq<bv8>, y: seq<bv8>)
    ensures Crc(crc, x + y) == Xor(Zeros(Crc(crc, x), 8 * |y|), Crc(0, y))
  {
    hide Register, Zeros, Xor;
    RegisterConcat(Xor(crc, ALL), x, y);
    var r := Register(Xor(crc, ALL), x);
    XorTwice(r);
    RegisterXor(ALL, Xor(r, ALL), y);
    Rearranged(Register(ALL, y), Zeros(Xor(r, ALL), 8 * |y|));
  }

  lemma XorTwice(r: bv32)
    ensures Xor(ALL, Xor(r, ALL)) == r && Xor(0, ALL) == ALL
  {
  }

  lemma Rearranged(a: bv32, z: bv32)
    ensures Xor(Xor(a, z), ALL) == Xor(z, Xor(a, ALL))
  {
  }

  // The table.

  function Half(c: bv32): bv32 { c >> 1 }
  function Low(w: bv32): bv8 { (w & 0xff) as bv8 }
  function High(w: bv32): bv32 { w & 0xffff_ff00 }
  function Top(w: bv32): bv32 { w >> 8 }
  predicate Even(c: bv32) { c & 1 == 0 }

  lemma EvenStep(c: bv32)
    requires Even(c)
    ensures Shift(c) == Half(c)
  {
  }

  /** The low eight bits of the high part are zero. */
  lemma EightEven(w: bv32)
    ensures var c := High(w);
      && Even(c) && Even(Half(c)) && Even(Half(Half(c))) && Even(Half(Half(Half(c)))) && Even(Half(Half(Half(Half(c)))))
      && Even(Half(Half(Half(Half(Half(c)))))) && Even(Half(Half(Half(Half(Half(Half(c)))))))
      && Even(Half(Half(Half(Half(Half(Half(Half(c))))))))
      && Half(Half(Half(Half(Half(Half(Half(Half(c)))))))) == Top(w)
  {
  }

  lemma ZerosStep(c: bv32, n: nat)
    requires Even(c)
    ensures Zeros(c, n + 1) == Zeros(Half(c), n)
  {
    hide Shift, Half;
    EvenStep(c);
  }

  /** Eight zero bits after a multiple of 256 only move it down. */
  lemma HighZeros(w: bv32)
    ensures Zeros(High(w), 8) == Top(w)
  {
    hide Zeros, Half, High, Top, Even;
    EightEven(w);
    var c := High(w);
    var c1 := Half(c);
    var c2 := Half(c1);
    var c3 := Half(c2);
    var c4 := Half(c3);
    var c5 := Half(c4);
    var c6 := Half(c5);
    var c7 := Half(c6);
    ZerosStep(c, 7);
    ZerosStep(c1, 6);
    ZerosStep(c2, 5);
    ZerosStep(c3, 4);
    ZerosStep(c4, 3);
    ZerosStep(c5, 2);
    ZerosStep(c6, 1);
    ZerosStep(c7, 0);
    NoZeros(Half(c7));
  }

  lemma Parts(w: bv32)
    ensures w == Xor(Wide(Low(w)), High(w))
  {
  }

  lemma TopKept(c: bv32, x: bv8)
    ensures Top(Xor(c, Wide(x))) == Top(c)
  {
  }

  /** The table holds the check value of every byte. */
  ghost predicate IsTable(t: seq<bv32>)
  {
    |t| == 256 && forall x: bv8 {:trigger Wide(x)} :: t[x as int] == Zeros(Wide(x), 8)
  }

  /** One look-up does for eight bits. */
  lemma TableStep(t: seq<bv32>, c: bv32, x: bv8)
    requires IsTable(t)
    ensures Xor(t[Low(Xor(c, Wide(x))) as int], Top(c)) == Feed(c, x)
  {
    hide Zeros, Xor, High, Top, Low, Wide;
    var w := Xor(c, Wide(x));
    Parts(w);
    ZerosXor(Wide(Low(w)), High(w), 8);
    HighZeros(w);
    TopKept(c, x);
  }

  lemma IntByte(x: bv8)
    ensures (x as int) as bv8 == x && (x as int) < 256
  {
  }

  method ByteCheck(x: bv8) returns (c: bv32)
    ensures c == Zeros(Wide(x), 8)
  {
    hide Zeros, Shift, Wide;
    c := Wide(x);
    for k := 0 to 8
      invariant Zeros(c, 8 - k) == Zeros(Wide(x), 8)
    {
      OneMore(c, 7 - k);
      c := Shift(c);
    }
    NoZeros(c);
  }

  /** make_crc_table: the check value of every 8-bit value. */
  method MakeCrcTable() returns (t: array<bv32>)
    ensures fresh(t) && IsTable(t[..])
  {
    hide Zeros, Shift, Wide;
    t := new bv32[256];
    for n := 0 to 256
      invariant forall x: bv8 {:trigger Wide(x)} :: (x as int) < n ==> t[x as int] == Zeros(Wide(x), 8)
    {
      var c := ByteCheck(n as bv8);
      t[n] := c;
      forall x: bv8 {:trigger Wide(x)} | (x as int) < n + 1 ensures t[x as int] == Zeros(Wide(x), 8) {
        IntByte(x);
        if x as int == n { assert x == n as bv8; }
      }
    }
    forall x: bv8 {:trigger Wide(x)} ensures t[..][x as int] == Zeros(Wide(x), 8) { IntByte(x); }
  }

  lemma OneMore(c: bv32, n: nat)
    ensures Zeros(c, n + 1) == Zeros(Shift(c), n)
  {
  }

  datatype Buf = Null | Bytes(bytes: seq<bv8>)

  /** crc32(): eight bytes at a time while there are as many. */
  method Crc32(t: array<bv32>, crc0: bv32, buf: Buf) returns (crc: bv32)
    requires IsTable(t[..])
    ensures crc == if buf == Null then 0 else Crc(crc0, buf.bytes)
  {
    hide Zeros, Xor, Wide, Low, Top, Feed, Register;
    if buf == Null { return 0; }
    var bytes, i := buf.bytes, 0;
    crc := Xor(crc0, ALL);
    NoBytes(crc, bytes);
    while |bytes| - i >= 8
      invariant 0 <= i <= |bytes| && crc == Register(Xor(crc0, ALL), bytes[..i])
    {
      for k := 0 to 8
        invariant i + k <= |bytes| && crc == Register(Xor(crc0, ALL), bytes[..i + k])
      {
        Do1(t[..], Xor(crc0, ALL), bytes, i + k);
        crc := Xor(t[Low(Xor(crc, Wide(bytes[i + k]))) as int], Top(crc));
      }
      i := i + 8;
    }
    while i < |bytes|
      invariant 0 <= i <= |bytes| && crc == Register(Xor(crc0, ALL), bytes[..i])
    {
      Do1(t[..], Xor(crc0, ALL), bytes, i);
      crc := Xor(t[Low(Xor(crc, Wide(bytes[i]))) as int], Top(crc));
      i := i + 1;
    }
    assert bytes[..|bytes|] == bytes;
    crc := Xor(crc, ALL);
  }

  lemma NoBytes(c: bv32, bytes: seq<bv8>)
    ensures Register(c, bytes[..0]) == c
  {
  }

  lemma Do1(t: seq<bv32>, c: bv32, bytes: seq<bv8>, i: nat)
    requires IsTable(t) && i < |bytes|
    ensures var crc := Register(c, bytes[..i]);
      Register(c, bytes[..i + 1]) == Xor(t[Low(Xor(crc, Wide(bytes[i]))) as int], Top(crc))
  {
    hide Zeros, Xor, Wide, Low, Top, Feed, Register, IsTable;
    assert bytes[..i + 1] == bytes[..i] + [bytes[i]];
    RegisterSnoc(c, bytes[..i], bytes[i]);
    TableStep(t, Register(c, bytes[..i]), bytes[i]);
  }

  // Linear maps as matrices over GF(2).

  const DIM := 32

  function Double(c: bv32): bv32 { c << 1 }
  predicate Odd(v: bv32) { v & 1 == 1 }

  /** The vector with bit `i` set. */
  function Unit(i: nat): bv32 { if i == 0 then 1 else Double(Unit(i - 1)) }

  function Up(v: bv32, i: nat): bv32
    decreases i
  {
    if i == 0 then v else Up(Double(v), i - 1)
  }

  function Down(v: bv32, k: nat): bv32
    decreases k
  {
    if k == 0 then v else Down(Half(v), k - 1)
  }

  /** The sum of the rows whose bit is set. */
  function Times(ms: seq<bv32>, v: bv32): bv32
    decreases |ms|
  {
    if ms == [] then 0 else Xor(if Odd(v) then ms[0] else 0, Times(ms[1..], Half(v)))
  }

  /** The matrix of `n` zero bits. */
  ghost predicate Represents(mat: seq<bv32>, n: nat)
  {
    |mat| == DIM && forall i :: 0 <= i < DIM ==> mat[i] == Zeros(Unit(i), n)
  }

  lemma Split(v: bv32)
    ensures v == Xor(if Odd(v) then 1 else 0, Double(Half(v)))
  {
  }

  lemma DoubleXor(a: bv32, b: bv32)
    ensures Double(Xor(a, b)) == Xor(Double(a), Double(b))
  {
  }

  lemma {:induction false} UpXor(a: bv32, b: bv32, i: nat)
    ensures Up(Xor(a, b), i) == Xor(Up(a, i), Up(b, i))
    decreases i
  {
    hide Xor, Double;
    if i > 0 {
      DoubleXor(a, b);
      UpXor(Double(a), Double(b), i - 1);
    }
  }

  lemma {:induction false} UpUnit(j: nat, i: nat)
    ensures Up(Unit(j), i) == Unit(j + i)
    decreases i
  {
    hide Double;
    if i > 0 { UpUnit(j + 1, i - 1); }
  }

  lemma {:induction false} UpNone(i: nat)
    ensures Up(0, i) == 0
  {
    if i > 0 { UpNone(i - 1); }
  }

  /** A matrix times a vector is the map it stands for, applied to the vector. */
  lemma {:induction false} TimesFrom(mat: seq<bv32>, n: nat, i: nat, v: bv32)
    requires Represents(mat, n) && i <= DIM && Down(v, DIM - i) == 0
    ensures Times(mat[i..], v) == Zeros(Up(v, i), n)
    decreases DIM - i
  {
    hide Xor, Double, Half, Zeros, Odd, Up, Unit;
    if i == DIM {
      UpNone(DIM);
      ZerosNone(n);
    } else {
      var h := Half(v);
      TimesFrom(mat, n, i + 1, h);
      assert mat[i..][1..] == mat[i + 1..];
      Split(v);
      var low: bv32 := if Odd(v) then 1 else 0;
      UpXor(low, Double(h), i);
      UpMore(h, i);
      ZerosXor(Up(low, i), Up(Double(h), i), n);
      if Odd(v) { UnitZero(); UpUnit(0, i); } else { UpNone(i); ZerosNone(n); }
    }
  }

  lemma UnitZero()
    ensures Unit(0) == 1
  {
  }

  lemma UpMore(h: bv32, i: nat)
    ensures Up(Double(h), i) == Up(h, i + 1)
  {
  }

  function By3(v: bv32): bv32 { v >> 3 }
  function By4(v: bv32): bv32 { v >> 4 }

  lemma FourDown(v: bv32)
    ensures Down(v, 4) == By4(v)
  {
    hide Half, By4;
    FourHalves(v);
    assert Down(v, 4) == Down(Half(v), 3) == Down(Half(Half(v)), 2) == Down(Half(Half(Half(v))), 1) ==
      Half(Half(Half(Half(v))));
  }

  lemma FourHalves(v: bv32)
    ensures Half(Half(Half(Half(v)))) == By4(v) && Half(Half(Half(v))) == By3(v)
  {
  }

  lemma ThreeDown(v: bv32)
    ensures Down(v, 3) == By3(v)
  {
    hide Half, By3;
    FourHalves(v);
    assert Down(v, 3) == Down(Half(v), 2) == Down(Half(Half(v)), 1) == Half(Half(Half(v)));
  }

  lemma {:induction false} DownAdd(v: bv32, a: nat, b: nat)
    ensures Down(v, a + b) == Down(Down(v, a), b)
    decreases a
  {
    hide Half;
    if a > 0 { DownAdd(Half(v), a - 1, b); }
  }

  lemma TwoFours(v: bv32)
    ensures By4(By4(v)) == Top(v)
  {
  }

  lemma DownEight(v: bv32)
    ensures Down(v, 8) == Top(v)
  {
    hide Down, By4, Top;
    DownAdd(v, 4, 4);
    FourDown(v);
    FourDown(By4(v));
    TwoFours(v);
  }

  lemma FourTops(v: bv32)
    ensures Top(Top(Top(Top(v)))) == 0
  {
  }

  /** No bits are left after 32 shifts. */
  lemma AllDown(v: bv32)
    ensures Down(v, DIM) == 0
  {
    hide Down, Top;
    FourTops(v);
    DownAdd(v, 8, 24);
    DownEight(v);
    DownAdd(Top(v), 8, 16);
    DownEight(Top(v));
    DownAdd(Top(Top(v)), 8, 8);
    DownEight(Top(Top(v)));
    DownEight(Top(Top(Top(v))));
  }

  /** gf2_matrix_times: rows are added up as long as bits are left. */
  method MatrixTimes(mat: array<bv32>, vec0: bv32) returns (sum: bv32)
    requires mat.Length == DIM
    ensures sum == Times(mat[..], vec0)
  {
    hide Xor, Half, Odd;
    var vec, i := vec0, 0;
    sum := 0;
    AllDown(vec0);
    assert mat[0..] == mat[..];
    XorLaws(Times(mat[..], vec0), 0, 0);
    while vec != 0
      invariant 0 <= i <= DIM && Down(vec, DIM - i) == 0 && Xor(sum, Times(mat[i..], vec)) == Times(mat[..], vec0)
      decreases DIM - i
    {
      assert i < DIM by { NoneDown(vec); }
      assert mat[i..][1..] == mat[i + 1..];
      XorLaws(sum, if Odd(vec) then mat[i] else 0, Times(mat[i + 1..], Half(vec)));
      XorLaws(sum, 0, 0);
      if Odd(vec) {
        sum := Xor(sum, mat[i]);
      }
      vec := Half(vec);
      i := i + 1;
    }
    TimesNone(mat[i..]);
    XorLaws(sum, 0, 0);
  }

  lemma NoneDown(v: bv32)
    ensures Down(v, 0) == v
  {
  }

  lemma {:induction false} TimesNone(ms: seq<bv32>)
    ensures Times(ms, 0) == 0
    decreases |ms|
  {
    if ms != [] { TimesNone(ms[1..]); }
  }

  /** gf2_matrix_square: the matrix of twice as many zero bits. */
  method MatrixSquare(square: array<bv32>, mat: array<bv32>, ghost n: nat)
    requires square != mat && square.Length == DIM == mat.Length && Represents(mat[..], n)
    modifies square
    ensures Represents(square[..], 2 * n)
  {
    hide Times, Zeros, Unit;
    for i := 0 to DIM
      invariant Represents(mat[..], n) && forall j :: 0 <= j < i ==> square[j] == Zeros(Unit(j), 2 * n)
    {
      var row := MatrixTimes(mat, mat[i]);
      TimesIs(mat[..], n, mat[i]);
      ZerosAdd(Unit(i), n, n);
      square[i] := row;
    }
  }

  lemma TimesIs(mat: seq<bv32>, n: nat, v: bv32)
    requires Represents(mat, n)
    ensures Times(mat, v) == Zeros(v, n)
  {
    hide Times, Zeros, Down;
    AllDown(v);
    TimesFrom(mat, n, 0, v);
    assert mat[0..] == mat;
  }

  /** The top bit is clear. */
  predicate Fits(v: bv32) { v & 0x8000_0000 == 0 }

  lemma HalfDouble(v: bv32)
    requires Fits(v)
    ensures Half(Double(v)) == v && Even(Double(v))
  {
  }

  lemma {:induction false} DownNone(k: nat)
    ensures Down(0, k) == 0
  {
    if k > 0 { DownNone(k - 1); }
  }

  lemma DownMore(v: bv32, a: nat, b: nat)
    requires a <= b && Down(v, a) == 0
    ensures Down(v, b) == 0
  {
    DownAdd(v, a, b - a);
    DownNone(b - a);
  }

  lemma LastBit(v: bv32)
    ensures Down(v, 31) == 0 ==> Fits(v)
  {
    hide Down, Top, By3, By4, Fits;
    var t := Top(Top(Top(v)));
    DownAdd(v, 8, 23);
    DownEight(v);
    DownAdd(Top(v), 8, 15);
    DownEight(Top(v));
    DownAdd(Top(Top(v)), 8, 7);
    DownEight(Top(Top(v)));
    DownAdd(t, 4, 3);
    FourDown(t);
    ThreeDown(By4(t));
    TopOf(v);
  }

  lemma TopOf(v: bv32)
    ensures By3(By4(Top(Top(Top(v))))) == 0 ==> Fits(v)
  {
  }

  lemma {:induction false} UnitBelow(i: nat)
    requires i < DIM
    ensures Down(Unit(i), i + 1) == 0 && (i > 0 ==> Half(Unit(i)) == Unit(i - 1) && Even(Unit(i)))
  {
    hide Double, Half, Fits, Even;
    if i == 0 {
      HalfOne();
    } else {
      UnitBelow(i - 1);
      var u := Unit(i - 1);
      DownMore(u, i, 31);
      LastBit(u);
      HalfDouble(u);
    }
  }

  lemma HalfOne()
    ensures Half(1) == 0 && Shift(1) == POLY
  {
  }

  /** The operator for one zero bit: the polynomial, and below it the identity one place up. */
  method OneZeroBit(odd: array<bv32>)
    requires odd.Length == DIM
    modifies odd
    ensures Represents(odd[..], 1)
  {
    hide Double, Half, Even, Shift, Zeros;
    odd[0] := POLY;
    var row: bv32 := 1;
    HalfOne();
    UnitZero();
    OneMore(1, 0);
    NoZeros(POLY);
    for n := 1 to DIM
      invariant row == Unit(n - 1) && forall j :: 0 <= j < n ==> odd[j] == Zeros(Unit(j), 1)
    {
      odd[n] := row;
      UnitBelow(n);
      EvenStep(Unit(n));
      OneMore(Unit(n), 0);
      NoZeros(Shift(Unit(n)));
      row := Double(row);
    }
  }

  lemma Halved(q: nat, len: nat)
    ensures q * len == (2 * q) * (len / 2) + (if len % 2 == 1 then q else 0)
  {
    var h := len / 2;
    if len % 2 == 1 { assert len == 2 * h + 1; assert q * (2 * h + 1) == (2 * q) * h + q; }
      else { assert len == 2 * h; assert q * (2 * h) == (2 * q) * h; }
  }

  /** One round of the loop: the operator for twice as many zeros, used if the low bit of the length is set. */
  method Round(square: array<bv32>, mat: array<bv32>, ghost n: nat, crc0: bv32, len0: nat) returns (crc: bv32, len: nat)
    requires square != mat && square.Length == DIM == mat.Length && Represents(mat[..], n)
    modifies square
    ensures Represents(square[..], 2 * n) && len == len0 / 2
    ensures Zeros(crc, (2 * (2 * n)) * len) == Zeros(crc0, (2 * n) * len0)
  {
    hide Zeros, Represents, Times;
    MatrixSquare(square, mat, n);
    crc, len := crc0, len0;
    Halved(2 * n, len0);
    if len0 % 2 == 1 {
      crc := MatrixTimes(square, crc0);
      SquareTimes(square[..], 2 * n, crc0);
      ZerosAdd(crc0, 2 * n, (2 * (2 * n)) * (len0 / 2));
    }
    len := len / 2;
  }

  lemma SquareTimes(mat: seq<bv32>, n: nat, v: bv32)
    requires Represents(mat, n)
    ensures Times(mat, v) == Zeros(v, n) && |mat| == DIM
  {
    TimesIs(mat, n, v);
  }

  /** crc32_combine: put as many zeros as the second string has bits after the first, and add its check. */
  method Combine(crc10: bv32, crc2: bv32, len20: int) returns (crc1: bv32)
    ensures crc1 == if len20 <= 0 then crc10 else Xor(Zeros(crc10, 8 * len20), crc2)
  {
    hide Zeros, Represents, Xor;
    if len20 <= 0 { return crc10; }
    crc1 := crc10;
    var len2: nat := len20;
    var even, odd := new bv32[DIM], new bv32[DIM];
    OneZeroBit(odd);
    MatrixSquare(even, odd, 1);
    MatrixSquare(odd, even, 2);
    ghost var n: nat := 4;
    while true
      invariant Represents(odd[..], n) && Zeros(crc1, (2 * n) * len2) == Zeros(crc10, 8 * len20)
      decreases len2
    {
      ghost var was := len2;
      crc1, len2 := Round(even, odd, n, crc1, len2);
      if len2 == 0 { break; }
      crc1, len2 := Round(odd, even, 2 * n, crc1, len2);
      n := 4 * n;
      if len2 == 0 { break; }
      assert len2 < was;
    }
    NoZeros(crc1);
    crc1 := Xor(crc1, crc2);
  }

  /** Combining the checks of two strings gives that of the two in a row. */
  method CombineStrings(t: array<bv32>, x: seq<bv8>, y: seq<bv8>) returns (crc: bv32)
    requires IsTable(t[..])
    ensures crc == Crc(0, x + y)
  {
    hide Zeros, Register, Xor, Crc;
    var crc1 := Crc32(t, 0, Bytes(x));
    var crc2 := Crc32(t, 0, Bytes(y));
    crc := Combine(crc1, crc2, |y|);
    CrcConcat(0, x, y);
    if y == [] {
      EmptyCheck(crc1);
    }
  }

  lemma EmptyCheck(c: bv32)
    ensures Xor(Zeros(c, 8 * 0), Crc(0, [])) == c
  {
    XorTwice(0);
    XorLaws(ALL, 0, 0);
    XorLaws(c, 0, 0);
  }
}
