/** inflate.c: the circular window. It holds the last bytes of everything written by earlier calls, and a
    match copied from it and from the output at hand is a match copied from the whole history. */
module Window {
  import opened BitWriter
  import opened Tokens

  function Min(a: nat, b: nat): nat { if a <= b then a else b }

  /** `r` continues `h` by `n` bytes, each the one `dist` before it. */
  ghost predicate Continues(h: seq<Byte>, dist: nat, n: nat, r: seq<Byte>)
  {
    && 1 <= dist <= |h| && |r| == |h| + n && h <= r
    && forall i :: |h| <= i < |r| ==> r[i] == r[i - dist]
  }

  /** That is what a match stands for. */
  lemma {:induction false} ContinuesIsCopied(h: seq<Byte>, dist: nat, n: nat, r: seq<Byte>)
    requires Continues(h, dist, n, r)
    ensures r == Copied(h, dist, n)
    decreases n
  {
    if n > 0 {
      var h1 := h + [h[|h| - dist]];
      assert r[|h|] == r[|h| - dist] == h[|h| - dist];
      ContinuesIsCopied(h1, dist, n - 1, r);
    }
  }

  /** A match may be copied in pieces. */
  lemma {:induction false} CopiedInPieces(h: seq<Byte>, dist: nat, a: nat, b: nat)
    requires 1 <= dist <= |h|
    ensures Copied(Copied(h, dist, a), dist, b) == Copied(h, dist, a + b)
    decreases a
  {
    if a > 0 { CopiedInPieces(h + [h[|h| - dist]], dist, a - 1, b); }
  }

  /** `bytes` was written from position `at` on, and from the start of the array after its end. */
  ghost predicate CopiedAround(w0: seq<Byte>, w1: seq<Byte>, bytes: seq<Byte>, at: nat)
  {
    && |w1| == |w0| && at < |w0| && |bytes| < |w0|
    && (forall i :: at <= i < at + |bytes| && i < |w0| ==> w1[i] == bytes[i - at])
    && (forall i :: 0 <= i < at + |bytes| - |w0| ==> w1[i] == bytes[i + |w0| - at])
    && (forall i :: 0 <= i < |w0| && !(at <= i < at + |bytes|) && i >= at + |bytes| - |w0| ==> w1[i] == w0[i])
  }

  /** Position of the byte `j` before position `at` in a circle of `n`. */
  function Before(n: nat, at: nat, j: nat): int { if j <= at then at - j else n + at - j }

  /** The last `have` bytes of `hist` lie before position `at` in the circle. */
  ghost predicate Ring(w: seq<Byte>, at: nat, have: nat, hist: seq<Byte>)
  {
    && at < |w| && have == Min(|hist|, |w|) && (have < |w| ==> at == have)
    && forall j :: 1 <= j <= have ==> w[Before(|w|, at, j)] == hist[|hist| - j]
  }

  lemma RingGrows(w0: seq<Byte>, w1: seq<Byte>, bytes: seq<Byte>, at: nat, at2: nat, have: nat, have2: nat,
                  hist: seq<Byte>)
    requires Ring(w0, at, have, hist) && CopiedAround(w0, w1, bytes, at) && have2 == Min(have + |bytes|, |w0|)
    requires at2 == if at + |bytes| < |w0| then at + |bytes| else at + |bytes| - |w0|
    ensures Ring(w1, at2, have2, hist + bytes)
  {
    var h := hist + bytes;
    forall j | 1 <= j <= have2 ensures w1[Before(|w0|, at2, j)] == h[|h| - j] {
      AroundByte(w0, w1, bytes, at, at2, j);
      if j > |bytes| { assert w0[Before(|w0|, at, j - |bytes|)] == hist[|hist| - (j - |bytes|)]; }
    }
  }

  lemma RingHas(w: seq<Byte>, at: nat, have: nat, hist: seq<Byte>)
    requires Ring(w, at, have, hist)
    ensures at < |w| && have <= |hist| && have <= |w|
  {
  }

  /** Bytes in one piece of the array, the first of them `back` before the newest. */
  lemma RingPiece(w: seq<Byte>, at: nat, have: nat, hist: seq<Byte>, back: nat, from: nat, n: nat)
    requires Ring(w, at, have, hist) && 1 <= back <= have && from == Before(|w|, at, back)
      && n <= (if back > at then back - at else back)
    ensures from + n <= |w| && back <= |hist| && forall x :: from <= x < from + n ==>
      w[x] == hist[|hist| - back + (x - from)]
  {
    forall x | from <= x < from + n ensures w[x] == hist[|hist| - back + (x - from)] {
      assert x == Before(|w|, at, back - (x - from));
    }
  }

  lemma AroundByte(w0: seq<Byte>, w1: seq<Byte>, bytes: seq<Byte>, at: nat, at2: nat, j: nat)
    requires CopiedAround(w0, w1, bytes, at) && 1 <= j <= |w0|
    requires at2 == if at + |bytes| < |w0| then at + |bytes| else at + |bytes| - |w0|
    ensures w1[Before(|w0|, at2, j)] == if j <= |bytes| then bytes[|bytes| - j] else w0[Before(|w0|, at, j - |bytes|)]
  {
  }

  class Window {
    const window: array<Byte>
    var wsize: nat
    var wnext: nat
    var whave: nat

    constructor (size: nat)
      requires size >= 1
      ensures Holds([]) && wsize == 0 && fresh(window) && window.Length == size
    {
      window := new Byte[size];
      wsize, wnext, whave := 0, 0, 0;
    }

    /** The window holds the last bytes of `hist`, as many as it has room for. */
    ghost predicate Holds(hist: seq<Byte>)
      reads this, window
    {
      if wsize == 0 then wnext == 0 && whave == 0 && window.Length >= 1
      else
        wsize == window.Length && Ring(window[..], wnext, whave, hist)
    }

    /** Once in use, it holds as much as it has room for. */
    lemma HaveAll(hist: seq<Byte>)
      requires Holds(hist) && (wsize == 0 ==> hist == [])
      ensures whave == Min(|hist|, window.Length)
    {
    }

    /** Copy bytes of the output into the window. */
    method CopyIn(at: nat, out: array<Byte>, from: nat, n: nat)
      requires at + n <= window.Length && from + n <= out.Length && out != window
      modifies window
      ensures forall i :: 0 <= i < window.Length ==>
        window[i] == if at <= i < at + n then out[from + (i - at)] else old(window[i])
    {
      for k := 0 to n
        invariant forall i :: 0 <= i < window.Length ==>
          window[i] == if at <= i < at + k then out[from + (i - at)] else old(window[i])
      {
        window[at + k] := out[from + k];
      }
    }

    /** Copy fewer bytes than the window holds in behind the newest, around the end of the array if need be. */
    method CopyWrapped(out: array<Byte>, put: nat) returns (dist: nat)
      requires wsize == window.Length && wnext < wsize && put <= out.Length && out != window && put < wsize
      modifies window
      ensures dist == Min(put, wsize - wnext)
      ensures CopiedAround(old(window[..]), window[..], out[..put], wnext)
    {
      var copy := put;
      dist := wsize - wnext;
      if dist > copy { dist := copy; }
      CopyIn(wnext, out, put - copy, dist);
      copy := copy - dist;
      if copy != 0 {
        CopyIn(0, out, put - copy, copy);
      }
    }

    method Append(out: array<Byte>, put: nat, ghost hist: seq<Byte>)
      requires Holds(hist) && put <= out.Length && out != window && put < wsize
      modifies this, window
      ensures Holds(hist + out[..put]) && wsize == old(wsize)
    {
      var dist := CopyWrapped(out, put);
      if dist < put {
        wnext, whave := put - dist, wsize;
      } else {
        wnext := wnext + dist;
        if wnext == wsize { wnext := 0; }
        if whave < wsize { whave := whave + dist; }
      }
      RingGrows(old(window[..]), window[..], out[..put], old(wnext), wnext, old(whave), whave, hist);
    }

    /** updatewindow: take in the output of this call, `out[..put]`. */
    method Update(out: array<Byte>, put: nat, ghost hist: seq<Byte>)
      requires Holds(hist) && put <= out.Length && out != window && (wsize == 0 ==> hist == [])
      modifies this, window
      ensures Holds(hist + out[..put]) && wsize == window.Length
    {
      if wsize == 0 {
        wsize, wnext, whave := window.Length, 0, 0;
      }
      if put >= wsize {
        CopyIn(0, out, put - wsize, wsize);
        wnext, whave := 0, wsize;
      } else {
        Append(out, put, hist);
      }
    }

    method CopyOut(from: nat, out: array<Byte>, put0: nat, n: nat) returns (put: nat)
      requires from + n <= window.Length && put0 + n <= out.Length && out != window
      modifies out
      ensures put == put0 + n
      ensures forall i :: 0 <= i < out.Length ==>
        out[i] == if put0 <= i < put then window[from + (i - put0)] else old(out[i])
    {
      put := put0;
      for k := 0 to n
        invariant put == put0 + k
        invariant forall i :: 0 <= i < out.Length ==>
          out[i] == if put0 <= i < put then window[from + (i - put0)] else old(out[i])
      {
        out[put] := window[from + k];
        put := put + 1;
      }
    }

    static method CopyOver(out: array<Byte>, from: nat, put0: nat, n: nat) returns (put: nat)
      requires from < put0 && put0 + n <= out.Length
      modifies out
      ensures put == put0 + n && (forall i :: put0 <= i < put ==> out[i] == out[i - (put0 - from)])
      ensures forall i :: 0 <= i < put0 || put <= i < out.Length ==> out[i] == old(out[i])
    {
      put := put0;
      for k := 0 to n
        invariant put == put0 + k && (forall i :: put0 <= i < put ==> out[i] == out[i - (put0 - from)])
        invariant forall i :: 0 <= i < put0 || put <= i < out.Length ==> out[i] == old(out[i])
      {
        out[put] := out[from + k];
        put := put + 1;
      }
    }

    /** The bytes from `back` before the newest on, as far as they lie in one piece. */
    method Piece(back: nat, ghost hist: seq<Byte>) returns (from: nat, copy: nat)
      requires Holds(hist) && 1 <= back <= whave
      ensures 1 <= copy <= back <= |hist| && from + copy <= window.Length
      ensures forall x :: from <= x < from + copy ==> window[x] == hist[|hist| - back + (x - from)]
    {
      copy := back;
      if copy > wnext {
        copy := copy - wnext;
        from := wsize - copy;
      } else {
        from := wnext - copy;
      }
      RingPiece(window[..], wnext, whave, hist, back, from, copy);
    }

    /** One step of MATCH: copy from the window or from the output of this call as far as one piece goes.
        `ok` is false if the distance reaches back before everything the window remembers. */
    method CopyMatch(out: array<Byte>, put0: nat, offset: nat, length0: nat, ghost hist: seq<Byte>)
      returns (ok: bool, put: nat, length: nat)
      requires Holds(hist) && put0 < out.Length && out != window && offset >= 1 && length0 >= 1
      modifies out
      ensures ok <==> offset <= put0 + whave
      ensures if !ok then put == put0 && length == length0
        else put0 < put <= out.Length && length < length0 && put - put0 == length0 - length
      ensures ok ==> offset <= |hist| + put0 && hist + out[..put] == Copied(hist + old(out[..put0]), offset, put - put0)
      ensures forall i :: 0 <= i < put0 || put <= i < out.Length ==> out[i] == old(out[i])
    {
      put, length := put0, length0;
      var copy := put0;
      if offset > copy {
        copy := offset - copy;
        if copy > whave { return false, put, length; }
        var from;
        from, copy := Piece(copy, hist);
        if copy > length { copy := length; }
        if copy > out.Length - put { copy := out.Length - put; }
        length := length - copy;
        put := CopyOut(from, out, put, copy);
      } else {
        copy := length;
        if copy > out.Length - put { copy := out.Length - put; }
        length := length - copy;
        put := CopyOver(out, put - offset, put, copy);
      }
      ok := true;
      ghost var h, r := hist + old(out[..put0]), hist + out[..put];
      assert Continues(h, offset, put - put0, r);
      ContinuesIsCopied(h, offset, put - put0, r);
    }

    /** inffast.c: the bytes from `back` before the newest on, at most `len` of them: from the end of the array,
        from its start, or from both. */
    method FastFromWindow(out: array<Byte>, put0: nat, back: nat, len: nat, ghost hist: seq<Byte>) returns (put: nat)
      requires Holds(hist) && 1 <= back <= whave && put0 + len <= out.Length && out != window
      modifies out
      ensures put == put0 + Min(back, len) && back <= |hist|
      ensures forall i :: put0 <= i < put ==> out[i] == hist[|hist| - back + (i - put0)]
      ensures forall i :: 0 <= i < put0 || put <= i < out.Length ==> out[i] == old(out[i])
    {
      hide Ring;
      RingHas(window[..], wnext, whave, hist);
      ghost var w := window[..];
      if wnext == 0 {
        RingPiece(w, wnext, whave, hist, back, wsize - back, Min(back, len));
        put := CopyOut(wsize - back, out, put0, Min(back, len));
      } else if wnext < back {
        var op := back - wnext;
        RingPiece(w, wnext, whave, hist, back, wsize - op, Min(op, len));
        put := CopyOut(wsize - op, out, put0, Min(op, len));
        if op < len {
          RingPiece(w, wnext, whave, hist, wnext, 0, Min(wnext, len - op));
          put := CopyOut(0, out, put, Min(wnext, len - op));
        }
      } else {
        RingPiece(w, wnext, whave, hist, back, wnext - back, Min(back, len));
        put := CopyOut(wnext - back, out, put0, Min(back, len));
      }
    }

    /** inffast.c: a whole match at once, first from the window as far as it reaches back, then from the output. */
    method FastCopy(out: array<Byte>, put0: nat, dist: nat, len: nat, ghost hist: seq<Byte>)
      returns (ok: bool, put: nat)
      requires Holds(hist) && put0 + len <= out.Length && out != window && dist >= 1 && len >= 1
      modifies out
      ensures ok <==> dist <= put0 + whave
      ensures if ok then put == put0 + len else put == put0
      ensures ok ==> dist <= |hist| + put0 && hist + out[..put] == Copied(hist + old(out[..put0]), dist, len)
      ensures forall i :: 0 <= i < put0 ==> out[i] == old(out[i])
    {
      put := put0;
      if dist > put0 {
        if dist - put0 > whave { return false, put; }
        put := FastFromWindow(out, put0, dist - put0, len, hist);
      }
      ghost var mid := put;
      if put < put0 + len {
        put := CopyOver(out, put - dist, put, put0 + len - put);
      }
      ok := true;
      ghost var h, r := hist + old(out[..put0]), hist + out[..put];
      assert Continues(h, dist, len, r);
      ContinuesIsCopied(h, dist, len, r);
    }
  }
}
