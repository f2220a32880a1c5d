/** Powers of two and bit strings. A bit string is in stream order: index 0 is the bit sent
    (and received) first, which is the least significant bit of a DEFLATE integer field and
    the most significant bit of a Huffman code. */
module Bits {
  function Pow2(n: nat): (p: nat)
    ensures p >= 1
  {
    if n == 0 then 1 else 2 * Pow2(n - 1)
  }

  lemma MulAssoc(a: int, b: int, c: int)
    ensures (a * b) * c == a * (b * c)
  {
  }

  lemma {:induction false} Pow2Add(a: nat, b: nat)
    ensures Pow2(a + b) == Pow2(a) * Pow2(b)
  {
    if a > 0 {
      Pow2Add(a - 1, b);
      MulAssoc(2, Pow2(a - 1), Pow2(b));
    }
  }

  lemma Pow2Sub(a: nat, b: nat)
    requires b <= a
    ensures Pow2(a - b) * Pow2(b) == Pow2(a)
  {
    Pow2Add(a - b, b);
  }

  lemma {:induction false} Pow2Mono(a: nat, b: nat)
    requires a <= b
    ensures Pow2(a) <= Pow2(b)
    decreases b
  {
    if a < b { Pow2Mono(a, b - 1); }
  }

  lemma Pow2Values()
    ensures Pow2(1) == 2 && Pow2(5) == 32 && Pow2(7) == 128 && Pow2(8) == 256 && Pow2(9) == 512
    ensures Pow2(14) == 0x4000 && Pow2(15) == 0x8000 && Pow2(16) == 0x1_0000
  {
  }

  /** Storing into a 16-bit word. */
  function U16(x: nat): (r: nat)
    ensures r < 0x1_0000
    ensures x < 0x1_0000 ==> r == x
  {
    x % 0x1_0000
  }

  function Bit(b: bool): nat { if b then 1 else 0 }

  /** The integer whose least significant bit is the first bit of the string. */
  function Value(bs: seq<bool>): nat
  {
    if bs == [] then 0 else Bit(bs[0]) + 2 * Value(bs[1..])
  }

  /** The low `n` bits of `v`, least significant first. */
  function ToBits(v: nat, n: nat): (bs: seq<bool>)
    ensures |bs| == n
  {
    if n == 0 then [] else [v % 2 == 1] + ToBits(v / 2, n - 1)
  }

  /** The integer whose most significant bit is the first bit of the string. */
  function MsbValue(bs: seq<bool>): nat
  {
    if bs == [] then 0 else 2 * MsbValue(bs[..|bs| - 1]) + Bit(bs[|bs| - 1])
  }

  /** The `n` low bits of `v`, most significant first. */
  function ToMsb(v: nat, n: nat): (bs: seq<bool>)
    ensures |bs| == n
  {
    if n == 0 then [] else ToMsb(v / 2, n - 1) + [v % 2 == 1]
  }

  lemma {:induction false} ValueBound(bs: seq<bool>)
    ensures Value(bs) < Pow2(|bs|)
  {
    if bs != [] { ValueBound(bs[1..]); }
  }

  lemma {:induction false} MsbBound(bs: seq<bool>)
    ensures MsbValue(bs) < Pow2(|bs|)
  {
    if bs != [] { MsbBound(bs[..|bs| - 1]); }
  }

  lemma {:induction false} ValueConcat(a: seq<bool>, b: seq<bool>)
    ensures Value(a + b) == Value(a) + Pow2(|a|) * Value(b)
  {
    if a == [] {
      assert a + b == b;
    } else {
      assert (a + b)[1..] == a[1..] + b;
      ValueConcat(a[1..], b);
      MulAssoc(2, Pow2(|a| - 1), Value(b));
      assert Value(a + b) == Bit(a[0]) + 2 * (Value(a[1..]) + Pow2(|a| - 1) * Value(b));
    }
  }

  lemma {:induction false} MsbConcat(a: seq<bool>, b: seq<bool>)
    ensures MsbValue(a + b) == MsbValue(a) * Pow2(|b|) + MsbValue(b)
  {
    if b == [] {
      assert a + b == a;
    } else {
      var b' := b[..|b| - 1];
      assert (a + b)[..|a + b| - 1] == a + b';
      MsbConcat(a, b');
      Doubled(MsbValue(a), Pow2(|b'|), MsbValue(b'), Bit(b[|b| - 1]));
    }
  }

  lemma Doubled(v: int, p: int, w: int, x: int)
    ensures 2 * (v * p + w) + x == v * (2 * p) + (2 * w + x)
  {
  }

  /** Reading back a written field gives its value. */
  lemma {:induction false} ValueToBits(v: nat, n: nat)
    ensures Value(ToBits(v, n)) == v % Pow2(n)
  {
    if n > 0 {
      var bs := ToBits(v, n);
      assert bs[1..] == ToBits(v / 2, n - 1);
      ValueToBits(v / 2, n - 1);
      HalfMod(v, Pow2(n - 1));
    }
  }

  lemma HalfMod(v: nat, p: nat)
    requires p > 0
    ensures v % (2 * p) == v % 2 + 2 * ((v / 2) % p)
  {
    var q, r := (v / 2) / p, (v / 2) % p;
    assert v / 2 == q * p + r;
    assert v == q * (2 * p) + (2 * r + v % 2) by {
      assert q * (2 * p) == 2 * (q * p);
    }
    DivModUnique(v, 2 * p, q, 2 * r + v % 2);
  }

  /** Quotient and remainder are determined by the division equation. */
  lemma DivModUnique(v: int, d: int, q: int, r: int)
    requires d > 0 && 0 <= r < d && v == q * d + r
    ensures v / d == q && v % d == r
  {
    var dq := q - v / d;
    assert dq * d == v % d - r by {
      assert v == (v / d) * d + v % d;
      assert dq * d == q * d - (v / d) * d;
    }
    MulOutside(dq, d);
  }

  lemma MulOutside(a: int, d: int)
    requires d > 0
    ensures a >= 1 ==> a * d >= d
    ensures a <= -1 ==> a * d <= -d
  {
  }

  lemma {:induction false} ToBitsValue(bs: seq<bool>)
    ensures ToBits(Value(bs), |bs|) == bs
  {
    if bs != [] {
      ToBitsValue(bs[1..]);
      var v := Value(bs);
      assert v % 2 == Bit(bs[0]) && v / 2 == Value(bs[1..]);
      assert [bs[0]] + bs[1..] == bs;
    }
  }

  lemma {:induction false} MsbToMsb(v: nat, n: nat)
    requires v < Pow2(n)
    ensures MsbValue(ToMsb(v, n)) == v
  {
    if n > 0 {
      var bs := ToMsb(v, n);
      assert bs[..n - 1] == ToMsb(v / 2, n - 1);
      MsbToMsb(v / 2, n - 1);
    }
  }

  lemma {:induction false} ToMsbValue(bs: seq<bool>)
    ensures ToMsb(MsbValue(bs), |bs|) == bs
  {
    if bs != [] {
      var n := |bs|;
      ToMsbValue(bs[..n - 1]);
      assert MsbValue(bs) / 2 == MsbValue(bs[..n - 1]);
      assert bs[..n - 1] + [bs[n - 1]] == bs;
    }
  }

  /** Two strings of one length with one value are one string. */
  lemma ValueInjective(a: seq<bool>, b: seq<bool>)
    requires |a| == |b| && Value(a) == Value(b)
    ensures a == b
  {
    ToBitsValue(a);
    ToBitsValue(b);
  }

  lemma MsbInjective(a: seq<bool>, b: seq<bool>)
    requires |a| == |b| && MsbValue(a) == MsbValue(b)
    ensures a == b
  {
    ToMsbValue(a);
    ToMsbValue(b);
  }

  /** The low bits of a value are the bits of its remainder, the high bits those of its quotient. */
  lemma ValueSplit(bs: seq<bool>, k: nat)
    requires k <= |bs|
    ensures Value(bs) % Pow2(k) == Value(bs[..k])
    ensures Value(bs) / Pow2(k) == Value(bs[k..])
  {
    assert bs == bs[..k] + bs[k..];
    ValueConcat(bs[..k], bs[k..]);
    ValueBound(bs[..k]);
    assert Pow2(k) * Value(bs[k..]) == Value(bs[k..]) * Pow2(k);
    DivModUnique(Value(bs), Pow2(k), Value(bs[k..]), Value(bs[..k]));
  }

  lemma MsbSplit(bs: seq<bool>, k: nat)
    requires k <= |bs|
    ensures MsbValue(bs) / Pow2(|bs| - k) == MsbValue(bs[..k])
    ensures MsbValue(bs) == MsbValue(bs[..k]) * Pow2(|bs| - k) + MsbValue(bs[k..])
    ensures MsbValue(bs[k..]) < Pow2(|bs| - k)
  {
    assert bs == bs[..k] + bs[k..];
    MsbConcat(bs[..k], bs[k..]);
    MsbBound(bs[k..]);
    DivModUnique(MsbValue(bs), Pow2(|bs| - k), MsbValue(bs[..k]), MsbValue(bs[k..]));
  }

  lemma DivDiv(v: nat, a: nat, b: nat)
    requires a > 0 && b > 0
    ensures a * b > 0 && (v / a) / b == v / (a * b)
  {
    var q, r := v / a, v % a;
    var q2, r2 := q / b, q % b;
    assert v == (q2 * b + r2) * a + r;
    assert (q2 * b + r2) * a == q2 * (a * b) + r2 * a by { MulAssoc(q2, b, a); }
    assert r2 * a + r < a * b by {
      assert (r2 + 1) * a <= b * a by { MulMono(r2 + 1, b, a); }
      assert (r2 + 1) * a == r2 * a + a;
    }
    assert r2 * a >= 0;
    DivModUnique(v, a * b, q2, r2 * a + r);
  }

  lemma MulMono(a: int, b: int, c: int)
    requires a <= b && c >= 0
    ensures a * c <= b * c
  {
  }

  lemma Distrib(a: int, b: int, c: int)
    ensures (a + b) * c == a * c + b * c
  {
  }

  /** Multiples of `p` that differ do so by at least `p`. */
  lemma MulStep(a: int, b: int, p: int)
    requires a < b && p >= 0
    ensures a * p + p <= b * p
  {
    MulMono(a + 1, b, p);
    Distrib(a, 1, p);
  }

  /** Taking one more bit of `v` most-significant-first puts bit `i` of `v` in front. */
  lemma {:induction false} ToMsbFront(v: nat, i: nat)
    ensures ToMsb(v, i + 1) == [(v / Pow2(i)) % 2 == 1] + ToMsb(v, i)
  {
    if i > 0 {
      ToMsbFront(v / 2, i - 1);
      DivDiv(v, 2, Pow2(i - 1));
    }
  }

  /** `v & ((1 << n) - 1)`. */
  function LowBits(v: nat, n: nat): nat
  {
    if n == 0 then 0 else v % 2 + 2 * LowBits(v / 2, n - 1)
  }

  /** `v >> n`. */
  function Shr(v: nat, n: nat): nat
  {
    if n == 0 then v else Shr(v / 2, n - 1)
  }

  /** `v << n`. */
  function Shl(v: nat, n: nat): nat
  {
    if n == 0 then v else 2 * Shl(v, n - 1)
  }

  /** Masking keeps the first bits of a string, shifting drops them. */
  lemma {:induction false} MaskShift(bs: seq<bool>, k: nat)
    requires k <= |bs|
    ensures LowBits(Value(bs), k) == Value(bs[..k])
    ensures Shr(Value(bs), k) == Value(bs[k..])
  {
    if k > 0 {
      MaskShift(bs[1..], k - 1);
      assert Value(bs) % 2 == Bit(bs[0]) && Value(bs) / 2 == Value(bs[1..]);
      assert bs[..k][1..] == bs[1..][..k - 1];
      assert bs[k..] == bs[1..][k - 1..];
    }
  }
}
