/** inflate.c: the input bit accumulator. What is held followed by what is not read yet is always the rest of
    the input, so taking bits from the accumulator takes them from the stream. */
module BitReader {
  import opened Bits
  import opened BitWriter

  class BitReader {
    var input: seq<Byte>
    var next: nat
    var hold: nat
    var bits: nat

    ghost predicate Valid()
      reads this
    {
      next <= |input| && hold < Pow2(bits)
    }

    /** Bits in the accumulator. */
    ghost function Held(): (bs: seq<bool>)
      reads this
      ensures |bs| == bits
    {
      ToBits(hold, bits)
    }

    /** All bits to come in the input at hand. */
    ghost function Ahead(): (bs: seq<bool>)
      requires Valid()
      reads this
    {
      Held() + BytesToBits(input[next..])
    }

    constructor ()
      ensures Valid() && Ahead() == []
    {
      input, next, hold, bits := [], 0, 0, 0;
    }

    /** A new piece of input, after the last has been used up or put back. */
    method Feed(more: seq<Byte>)
      requires Valid()
      modifies this
      ensures Valid() && input == old(input[next..]) + more && next == 0 && Held() == old(Held()) && bits == old(bits)
      ensures Ahead() == old(Ahead()) + BytesToBits(more)
    {
      hide ToBits, BytesToBits, Pow2;
      ghost var rest := input[next..];
      input, next := input[next..] + more, 0;
      BytesConcat(rest, more);
      assert input[next..] == rest + more;
    }

    /** PULLBYTE: move a byte of input into the accumulator, if there is one. */
    method PullByte() returns (ok: bool)
      requires Valid()
      modifies this
      ensures Valid() && input == old(input) && Ahead() == old(Ahead())
      ensures ok <==> old(next) < |input|
      ensures next == old(next) + (if ok then 1 else 0) && bits == old(bits) + if ok then 8 else 0
      ensures old(Held()) <= Held() && (!ok ==> Held() == old(Held()))
    {
      hide ToBits, BytesToBits, Pow2, Shl;
      if next == |input| { return false; }
      var b := input[next];
      PullStep(hold, bits, b);
      assert input[next..] == [b] + input[next + 1..];
      BytesConcat([b], input[next + 1..]);
      OneByte(b);
      next, hold, bits := next + 1, hold + Shl(b, bits), bits + 8;
      return true;
    }

    /** NEEDBITS: make sure that `n` bits are held, if the input has them. */
    method NeedBits(n: nat) returns (ok: bool)
      requires Valid()
      modifies this
      ensures Valid() && input == old(input) && Ahead() == old(Ahead())
      ensures ok ==> n <= bits && (bits == old(bits) || bits < n + 8)
      ensures !ok ==> next == |input| && bits < n && |Ahead()| < n
      ensures old(next) <= next && bits == old(bits) + 8 * (next - old(next))
    {
      hide ToBits, BytesToBits, Pow2, Held;
      while bits < n
        invariant Valid() && input == old(input) && Ahead() == old(Ahead())
        invariant bits == old(bits) || bits < n + 8
        invariant old(next) <= next && bits == old(bits) + 8 * (next - old(next))
        decreases n - bits
      {
        var got := PullByte();
        if !got {
          NothingLeft();
          return false;
        }
      }
      return true;
    }

    lemma NothingLeft()
      requires Valid() && next == |input|
      ensures Ahead() == Held() && |Ahead()| == bits
    {
      assert input[next..] == [];
    }

    /** BITS: the low `n` bits of the accumulator. */
    method Bits(n: nat) returns (v: nat)
      requires Valid() && n <= bits
      ensures v == Value(Held()[..n]) && v == Value(Ahead()[..n])
    {
      hide ToBits, BytesToBits, Pow2, LowBits, Value;
      HeldValue(hold, bits);
      MaskShift(Held(), n);
      assert Ahead()[..n] == Held()[..n];
      v := LowBits(hold, n);
    }

    /** DROPBITS: remove `n` bits from the accumulator. */
    method DropBits(n: nat)
      requires Valid() && n <= bits
      modifies this
      ensures Valid() && input == old(input) && next == old(next) && bits == old(bits) - n
      ensures Ahead() == old(Ahead()[n..]) && Held() == old(Held()[n..])
    {
      hide ToBits, BytesToBits, Pow2, Shr, Value;
      DropStep(hold, bits, n);
      ghost var h := Held();
      hold, bits := Shr(hold, n), bits - n;
      assert old(Ahead()[n..]) == h[n..] + BytesToBits(input[next..]);
    }

    /** BITS and DROPBITS: a field of `n` bits. */
    method Take(n: nat) returns (v: nat)
      requires Valid() && n <= bits
      modifies this
      ensures Valid() && input == old(input) && next == old(next) && bits == old(bits) - n
      ensures v == Value(old(Ahead())[..n]) && Ahead() == old(Ahead())[n..] && Held() == old(Held())[n..]
    {
      v := Bits(n);
      DropBits(n);
    }

    /** Return the last `n` bytes pulled to the input. */
    method PutBack(n: nat)
      requires Valid() && 8 * n <= bits && n <= next && Held()[bits - 8 * n..] == BytesToBits(input[next - n..next])
      modifies this
      ensures Valid() && input == old(input) && next == old(next) - n && bits == old(bits) - 8 * n
        && Ahead() == old(Ahead())
    {
      hide ToBits, BytesToBits, Pow2, LowBits, Value;
      ghost var h, k := Held(), bits - 8 * n;
      HeldValue(hold, bits);
      MaskShift(h, k);
      ValueBound(h[..k]);
      ToBitsValue(h[..k]);
      assert h == h[..k] + h[k..];
      assert input[next - n..] == input[next - n..next] + input[next..];
      BytesConcat(input[next - n..next], input[next..]);
      next, bits := next - n, bits - 8 * n;
      hold := LowBits(hold, bits);
    }

    /** Skip bytes of input that were copied directly; the accumulator is empty. */
    method SkipBytes(n: nat)
      requires Valid() && bits == 0 && next + n <= |input|
      modifies this
      ensures Valid() && input == old(input) && next == old(next) + n && bits == 0
      ensures old(Ahead()) == BytesToBits(input[old(next)..next]) + Ahead()
    {
      hide BytesToBits, Pow2;
      NoBits();
      assert input[next..] == input[next..next + n] + input[next + n..];
      BytesConcat(input[next..next + n], input[next + n..]);
      next := next + n;
      assert Held() == [];
    }
  }

  lemma OneByte(b: Byte)
    ensures BytesToBits([b]) == ToBits(b, 8)
  {
    BytesSnoc([], b);
    assert [] + [b] == [b];
    assert [] + ToBits(b, 8) == ToBits(b, 8);
  }

  lemma {:induction false} ShlIs(v: nat, n: nat)
    ensures Shl(v, n) == Pow2(n) * v
  {
    if n > 0 { ShlIs(v, n - 1); MulAssoc(2, Pow2(n - 1), v); }
  }

  /** A byte added above the held bits comes after them. */
  lemma PullStep(hold: nat, bits: nat, b: Byte)
    requires hold < Pow2(bits)
    ensures hold + Shl(b, bits) < Pow2(bits + 8)
    ensures ToBits(hold + Shl(b, bits), bits + 8) == ToBits(hold, bits) + ToBits(b, 8)
  {
    hide ToBits, Pow2, Value, Shl;
    var x := ToBits(hold, bits) + ToBits(b, 8);
    ValueConcat(ToBits(hold, bits), ToBits(b, 8));
    HeldValue(hold, bits);
    NoBits();
    HeldValue(b, 8);
    ShlIs(b, bits);
    ValueBound(x);
    ToBitsValue(x);
  }

  lemma DropStep(hold: nat, bits: nat, n: nat)
    requires hold < Pow2(bits) && n <= bits
    ensures Shr(hold, n) < Pow2(bits - n) && ToBits(Shr(hold, n), bits - n) == ToBits(hold, bits)[n..]
  {
    hide ToBits, Pow2, Value, Shr;
    var x := ToBits(hold, bits);
    HeldValue(hold, bits);
    MaskShift(x, n);
    ValueBound(x[n..]);
    ToBitsValue(x[n..]);
  }
}
