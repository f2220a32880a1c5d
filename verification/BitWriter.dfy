/** trees.c: the output bit buffer. Whatever the sequence of calls, the bytes put out followed by the bits
    still held are exactly the bits sent, in order. */
module BitWriter {
  import opened Bits

  const BUF_SIZE := 16

  type Byte = x: nat | x < 256

  /** The bits of a byte string, in the order they are packed into it. */
  function BytesToBits(bytes: seq<Byte>): (bs: seq<bool>)
    ensures |bs| == 8 * |bytes|
  {
    if bytes == [] then [] else ToBits(bytes[0], 8) + BytesToBits(bytes[1..])
  }

  lemma {:induction false} BytesConcat(a: seq<Byte>, b: seq<Byte>)
    ensures BytesToBits(a + b) == BytesToBits(a) + BytesToBits(b)
  {
    if a == [] {
      assert a + b == b;
    } else {
      assert (a + b)[1..] == a[1..] + b;
      BytesConcat(a[1..], b);
    }
  }

  lemma BytesSnoc(a: seq<Byte>, x: Byte)
    ensures BytesToBits(a + [x]) == BytesToBits(a) + ToBits(x, 8)
  {
    BytesConcat(a, [x]);
    assert [x][1..] == [];
    assert ToBits(x, 8) + [] == ToBits(x, 8);
  }

  /** Bitwise or. */
  function BitOr(a: nat, b: nat): nat
  {
    if a == 0 then b else if b == 0 then a
    else (if a % 2 == 1 || b % 2 == 1 then 1 else 0) + 2 * BitOr(a / 2, b / 2)
  }

  /** Or-ing a value in above the valid bits puts its bits after them. */
  lemma {:induction false} OrAppends(a: seq<bool>, b: seq<bool>)
    ensures BitOr(Value(a), Shl(Value(b), |a|)) == Value(a + b)
  {
    if a == [] {
      assert a + b == b;
    } else {
      OrAppends(a[1..], b);
      assert (a + b)[1..] == a[1..] + b;
      OrShifted(Bit(a[0]), Value(a[1..]), Shl(Value(b), |a| - 1));
    }
  }

  lemma OrShifted(bit: nat, a: nat, b: nat)
    requires bit <= 1
    ensures BitOr(bit + 2 * a, 2 * b) == bit + 2 * BitOr(a, b)
  {
  }

  /** What `SendBits` does to a buffer that holds `buf` in `valid` bits: the word it forms carries the
      held bits and then the field; past 16 bits it is put out and the rest of the field is kept. */
  lemma SendStep(buf: nat, valid: nat, value: nat, length: nat)
    requires valid <= BUF_SIZE && length <= BUF_SIZE && buf < Pow2(valid) && value < Pow2(length)
    ensures var x := ToBits(buf, valid) + ToBits(value, length);
            var word := BitOr(buf, Shl(value, valid));
      if valid > BUF_SIZE - length then
        var rest := Shr(value, BUF_SIZE - valid);
        && LowBits(word, 16) < 0x1_0000 && rest < Pow2(valid + length - BUF_SIZE)
        && x == ToBits(LowBits(word, 16), 16) + ToBits(rest, valid + length - BUF_SIZE)
      else
        word < Pow2(valid + length) && x == ToBits(word, valid + length)
  {
    var bits, field := ToBits(buf, valid), ToBits(value, length);
    var x := bits + field;
    HeldValue(buf, valid);
    HeldValue(value, length);
    OrAppends(bits, field);
    if valid > BUF_SIZE - length {
      SplitAt16(bits, field);
    } else {
      ToBitsValue(x);
      ValueBound(x);
    }
  }

  lemma SplitAt16(bits: seq<bool>, field: seq<bool>)
    requires |bits| <= 16 < |bits| + |field|
    ensures var x := bits + field;
            var rest := Shr(Value(field), 16 - |bits|);
      && LowBits(Value(x), 16) < 0x1_0000 && rest < Pow2(|x| - 16)
      && x == ToBits(LowBits(Value(x), 16), 16) + ToBits(rest, |x| - 16)
  {
    hide Pow2, Value, ToBits, LowBits, Shr;
    var x := bits + field;
    MaskShift(x, 16);
    MaskShift(field, 16 - |bits|);
    assert x[16..] == field[16 - |bits|..];
    ToBitsValue(x[..16]);
    ToBitsValue(x[16..]);
    ValueBound(x[..16]);
    ValueBound(x[16..]);
    Pow2Values();
    assert x == x[..16] + x[16..];
  }

  class BitWriter {
    var pending: seq<Byte>
    var biBuf: nat
    var biValid: nat
    ghost var base: nat  // bytes that were put out when the buffer was last flushed

    /** Bits above the last valid bit are always zero. */
    ghost predicate Valid()
      reads this
    {
      biValid <= BUF_SIZE && biBuf < Pow2(biValid) && Words()
    }

    /** Since the last flush only whole words were put out, and never all there was. */
    ghost predicate Words()
      reads this
    {
      base <= |pending| && (|pending| - base) % 2 == 0 && (base < |pending| ==> 1 <= biValid)
    }

    ghost function Held(): (bs: seq<bool>)
      reads this
    {
      ToBits(biBuf, biValid)
    }

    /** All bits sent so far. */
    ghost function Sent(): (bs: seq<bool>)
      reads this
    {
      BytesToBits(pending) + Held()
    }

    constructor ()
      ensures Valid() && Sent() == [] && pending == [] && biValid == 0 == base
    {
      pending, biBuf, biValid, base := [], 0, 0, 0;
    }

    method PutByte(x: Byte)
      modifies this
      ensures pending == old(pending) + [x] && biBuf == old(biBuf) && biValid == old(biValid)
      ensures base == |pending|
    {
      pending := pending + [x];
      base := |pending|;
    }

    /** Put out a 16-bit word, low byte first. */
    method PutShort(w: nat)
      requires w < 0x1_0000
      modifies this
      ensures BytesToBits(pending) == BytesToBits(old(pending)) + ToBits(w, 16) && |pending| == |old(pending)| + 2
      ensures biBuf == old(biBuf) && biValid == old(biValid) && base == old(base)
    {
      hide BytesToBits, ToBits;
      ghost var p, b := pending, base;
      PutByte(w % 256);
      PutByte(w / 256);
      assert pending == (p + [w % 256]) + [w / 256];
      BytesSnoc(p, w % 256);
      BytesSnoc(p + [w % 256], w / 256);
      WordBits(w);
      base := b;
    }

    /** Send the low `length` bits of `value`, least significant first. */
    method SendBits(value: nat, length: nat)
      requires Valid() && length <= BUF_SIZE && value < Pow2(length)
      modifies this
      ensures Valid() && base == old(base) && Sent() == old(Sent()) + ToBits(value, length)
    {
      hide ToBits, BytesToBits, BitOr, Shl, Shr, LowBits, Pow2;
      SendStep(biBuf, biValid, value, length);
      ghost var sent := BytesToBits(pending);
      var word := BitOr(biBuf, Shl(value, biValid));
      if biValid > BUF_SIZE - length {
        PutShort(LowBits(word, 16));
        biBuf := Shr(value, BUF_SIZE - biValid);
        biValid := biValid + length - BUF_SIZE;
        assert Sent() == sent + (ToBits(LowBits(word, 16), 16) + Held());
      } else {
        biBuf := word;
        biValid := biValid + length;
      }
    }

    /** Put out the whole bytes of the buffer; fewer than eight bits stay. */
    method Flush()
      requires Valid()
      modifies this
      ensures Valid() && biValid < 8 && Sent() == old(Sent()) && base == |pending|
    {
      hide BytesToBits, ToBits, Pow2;
      NoBits();
      if biValid == 16 {
        PutShort(biBuf);
        biBuf, biValid := 0, 0;
      } else if biValid >= 8 {
        FlushStep(biBuf, biValid);
        BytesSnoc(pending, biBuf % 256);
        PutByte(biBuf % 256);
        biBuf, biValid := biBuf / 256, biValid - 8;
      }
      base := |pending|;
    }

    /** Put out the buffer padded with zero bits to a byte boundary. */
    method Windup()
      requires Valid()
      modifies this
      ensures Valid() && biValid == 0
      ensures |old(Sent())| <= |Sent()| < |old(Sent())| + 8 && |Sent()| % 8 == 0
      ensures Sent() == old(Sent()) + ToBits(0, |Sent()| - |old(Sent())|)
    {
      hide BytesToBits, ToBits, Pow2;
      NoBits();
      if biValid > 8 {
        PadField(biBuf, biValid, 16);
        PutShort(biBuf);
      } else if biValid > 0 {
        PadField(biBuf, biValid, 8);
        BytesSnoc(pending, biBuf);
        PutByte(biBuf);
      }
      biBuf, biValid, base := 0, 0, |pending|;
    }
  }

  lemma NoBits()
    ensures forall v :: ToBits(v, 0) == []
    ensures Pow2(0) == 1 && Pow2(8) == 256 && Pow2(16) == 0x1_0000
  {
  }

  lemma FlushStep(buf: nat, valid: nat)
    requires 8 <= valid <= 16 && buf < Pow2(valid)
    ensures buf / 256 < Pow2(valid - 8)
    ensures ToBits(buf, valid) == ToBits(buf % 256, 8) + ToBits(buf / 256, valid - 8)
  {
    var x := ToBits(buf, valid);
    HeldValue(buf, valid);
    ValueSplit(x, 8);
    Pow2Values();
    ToBitsValue(x[..8]);
    ToBitsValue(x[8..]);
    ValueBound(x[8..]);
  }

  /** A value written in more bits than it needs ends in zeros. */
  lemma PadField(v: nat, n: nat, m: nat)
    requires n <= m && v < Pow2(n)
    ensures v < Pow2(m) && ToBits(v, m) == ToBits(v, n) + ToBits(0, m - n)
  {
    Pow2Mono(n, m);
    var x := ToBits(v, n) + ToBits(0, m - n);
    HeldValue(v, n);
    HeldValue(0, m - n);
    HeldValue(v, m);
    ValueConcat(ToBits(v, n), ToBits(0, m - n));
    ValueInjective(x, ToBits(v, m));
  }

  lemma HeldValue(v: nat, n: nat)
    requires v < Pow2(n)
    ensures Value(ToBits(v, n)) == v
  {
    ValueToBits(v, n);
    DivModUnique(v, Pow2(n), 0, v);
  }

  lemma WordBits(w: nat)
    requires w < 0x1_0000
    ensures ToBits(w, 16) == ToBits(w % 256, 8) + ToBits(w / 256, 8)
  {
    var x := ToBits(w % 256, 8) + ToBits(w / 256, 8);
    Pow2Values();
    HeldValue(w % 256, 8);
    HeldValue(w / 256, 8);
    HeldValue(w, 16);
    ValueConcat(ToBits(w % 256, 8), ToBits(w / 256, 8));
    ValueInjective(x, ToBits(w, 16));
  }
}
