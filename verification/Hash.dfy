/** deflate.c: the rolling hash of three bytes. */
module Hash {
  import opened Bits
  import opened BitWriter

  /** Bitwise exclusive or. */
  function Xor(a: nat, b: nat): nat
    decreases a + b
  {
    if a == 0 then b else if b == 0 then a
    else (if a % 2 != b % 2 then 1 else 0) + 2 * Xor(a / 2, b / 2)
  }

  /** UPDATE_HASH. */
  function Update(h: nat, c: nat, shift: nat, bits: nat): nat
  {
    LowBits(Xor(Shl(h, shift), c), bits)
  }

  lemma {:induction false} XorStep(a: nat, b: nat)
    ensures Xor(a, b) % 2 == (if a % 2 != b % 2 then 1 else 0) && Xor(a, b) / 2 == Xor(a / 2, b / 2)
  {
    if a > 0 && b > 0 {
      hide Xor;
      XorIs(a, b);
      Joined(if a % 2 != b % 2 then 1 else 0, Xor(a / 2, b / 2));
    }
  }

  lemma XorIs(a: nat, b: nat)
    requires a > 0 && b > 0
    ensures Xor(a, b) == (if a % 2 != b % 2 then 1 else 0) + 2 * Xor(a / 2, b / 2)
  {
  }

  lemma Joined(bit: nat, rest: nat)
    requires bit < 2
    ensures (bit + 2 * rest) % 2 == bit && (bit + 2 * rest) / 2 == rest
  {
  }

  lemma {:induction false} LowXor(a: nat, b: nat, n: nat)
    ensures LowBits(Xor(a, b), n) == Xor(LowBits(a, n), LowBits(b, n))
  {
    if n > 0 {
      LowXor(a / 2, b / 2, n - 1);
      XorStep(a, b);
      var x, y := LowBits(a, n), LowBits(b, n);
      XorStep(x, y);
      assert x / 2 == LowBits(a / 2, n - 1) && y / 2 == LowBits(b / 2, n - 1);
    }
  }

  lemma {:induction false} LowShl(h: nat, s: nat, n: nat)
    ensures LowBits(Shl(h, s), n) == if s <= n then Shl(LowBits(h, n - s), s) else 0
  {
    if s > 0 {
      if n > 0 { LowShl(h, s - 1, n - 1); }
    }
  }

  lemma {:induction false} ShlZero(s: nat)
    ensures Shl(0, s) == 0
  {
    if s > 0 { ShlZero(s - 1); }
  }

  /** An update depends only on the low bits of the hash. */
  lemma UpdateLow(h: nat, h2: nat, c: nat, shift: nat, bits: nat)
    requires shift <= bits ==> LowBits(h, bits - shift) == LowBits(h2, bits - shift)
    ensures Update(h, c, shift, bits) == Update(h2, c, shift, bits)
  {
    LowXor(Shl(h, shift), c, bits);
    LowXor(Shl(h2, shift), c, bits);
    LowShl(h, shift, bits);
    LowShl(h2, shift, bits);
  }

  /** Two hashes that agree on their low bits agree on more of them after the same byte. */
  lemma UpdateAgrees(h: nat, h2: nat, c: nat, shift: nat, bits: nat, k: nat)
    requires k <= bits && (shift <= k ==> LowBits(h, k - shift) == LowBits(h2, k - shift))
    ensures LowBits(Update(h, c, shift, bits), k) == LowBits(Update(h2, c, shift, bits), k)
  {
    LowOf(Xor(Shl(h, shift), c), bits, k);
    LowOf(Xor(Shl(h2, shift), c), bits, k);
    LowXor(Shl(h, shift), c, k);
    LowXor(Shl(h2, shift), c, k);
    LowShl(h, shift, k);
    LowShl(h2, shift, k);
  }

  lemma {:induction false} LowOf(v: nat, n: nat, k: nat)
    requires k <= n
    ensures LowBits(LowBits(v, n), k) == LowBits(v, k)
  {
    if k > 0 { LowOf(v / 2, n - 1, k - 1); }
  }

  /** Hash of three bytes. */
  function Hash3(a: nat, b: nat, c: nat, shift: nat, bits: nat): nat
  {
    Update(Update(a, b, shift, bits), c, shift, bits)
  }

  /** What came before the last three bytes does not matter. */
  lemma Rolls(h: nat, a: nat, b: nat, c: nat, shift: nat, bits: nat)
    requires 3 * shift >= bits
    ensures Update(Update(Update(h, a, shift, bits), b, shift, bits), c, shift, bits) == Hash3(a, b, c, shift, bits)
  {
    var u := Update(h, a, shift, bits);
    if 2 * shift <= bits {
      var k := bits - 2 * shift;
      LowOf(Xor(Shl(h, shift), a), bits, k);
      LowXor(Shl(h, shift), a, k);
      LowShl(h, shift, k);
      ShlZero(shift);
      assert LowBits(u, k) == LowBits(a, k);
    }
    if shift <= bits { UpdateAgrees(u, a, b, shift, bits, bits - shift); }
    UpdateLow(Update(u, b, shift, bits), Update(a, b, shift, bits), c, shift, bits);
  }

  lemma {:induction false} XorCancel(x: nat, c: nat, d: nat)
    requires Xor(x, c) == Xor(x, d)
    ensures c == d
    decreases x + c + d
  {
    XorStep(x, c);
    XorStep(x, d);
    if x != 0 || c != 0 || d != 0 {
      if x + c + d > x / 2 + c / 2 + d / 2 { XorCancel(x / 2, c / 2, d / 2); }
    }
  }

  /** With at least eight bits, the last byte can be told from the hash and what went before. */
  lemma LastByte(h: nat, c: Byte, d: Byte, shift: nat, bits: nat)
    requires bits >= 8 && Update(h, c, shift, bits) == Update(h, d, shift, bits)
    ensures c == d
  {
    LowXor(Shl(h, shift), c, bits);
    LowXor(Shl(h, shift), d, bits);
    ByteFits(c, bits);
    ByteFits(d, bits);
    XorCancel(LowBits(Shl(h, shift), bits), c, d);
  }

  lemma ByteFits(c: Byte, bits: nat)
    requires bits >= 8
    ensures LowBits(c, bits) == c
  {
    Pow2Mono(8, bits);
    Pow2Values();
    LowSmall(c, bits);
  }

  lemma {:induction false} LowSmall(v: nat, n: nat)
    requires v < Pow2(n)
    ensures LowBits(v, n) == v
  {
    if n > 0 { LowSmall(v / 2, n - 1); }
  }

  lemma {:induction false} LowBound(v: nat, n: nat)
    ensures LowBits(v, n) < Pow2(n)
  {
    if n > 0 { LowBound(v / 2, n - 1); }
  }
}
