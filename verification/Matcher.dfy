/** deflate.c: the sliding window and the search for matches in it. */
module Matcher {
  import opened Bits
  import opened BitWriter
  import opened Hash
  import opened Chains
  import opened Tokens

  const MIN_LOOKAHEAD := 262
  const WIN_INIT := 258

  /** The hash stands for two bytes: the third makes it the hash of all three. */
  ghost predicate Primed(h: nat, a: Byte, b: Byte, k: Params)
  {
    forall c: Byte {:trigger Update(h, c, k.shift, k.bits)} ::
      Update(h, c, k.shift, k.bits) == Hash3(a, b, c, k.shift, k.bits)
  }

  lemma PrimedStart(a: Byte, b: Byte, k: Params)
    ensures Primed(Update(a, b, k.shift, k.bits), a, b, k)
  {
  }

  lemma PrimedNext(h: nat, a: Byte, b: Byte, c: Byte, k: Params)
    requires k.Valid() && Primed(h, a, b, k)
    ensures Update(h, c, k.shift, k.bits) == Hash3(a, b, c, k.shift, k.bits)
      && Primed(Update(h, c, k.shift, k.bits), b, c, k)
  {
    forall d: Byte ensures Update(Update(h, c, k.shift, k.bits), d, k.shift, k.bits) ==
      Hash3(b, c, d, k.shift, k.bits) {
      Rolls(a, b, c, d, k.shift, k.bits);
    }
  }

  /** The input has the same `len` bytes at `p` and at `q`. */
  ghost predicate Same(stream: seq<Byte>, p: int, q: int, len: nat)
  {
    0 <= p <= q && q + len <= |stream| && forall i :: p <= i < p + len ==> stream[i] == stream[i + (q - p)]
  }

  /** The positions on a chain from `cur` on: `n` of them, but none at or below `limit`. */
  ghost function Candidates(prev: seq<nat>, cur: nat, limit: nat, n: int): seq<nat>
    decreases cur
  {
    if |prev| == 0 then [] else
      var q := prev[Slot(cur, |prev|)];
      [cur] + (if q >= cur || q <= limit || n == 1 then [] else Candidates(prev, q, limit, n - 1))
  }

  lemma MoreCandidates(prev: seq<nat>, cur: nat, limit: nat, n: int)
    requires |prev| > 0
    ensures var q := prev[Slot(cur, |prev|)];
      forall c :: c in Candidates(prev, cur, limit, n) ==>
        c == cur || (limit < q < cur && n != 1 && c in Candidates(prev, q, limit, n - 1))
  {
  }

  /** The next position on the chain is not before `c`, if `c` has the same hash. */
  lemma NotPassed(stream: seq<Byte>, base: nat, start: nat, ins: set<nat>, head: seq<nat>, prev: seq<nat>, cur: nat,
                  limit: nat, c: nat, k: Params) returns (q: nat)
    requires Chained(stream, base, start, ins, head, prev, k) && |prev| == k.wSize > 0 && start < limit + k.wSize
    requires limit < c < cur && base + c in ins && Known(stream, base, ins, cur, HashAt(stream, base + c, k), k)
    ensures q == prev[Slot(cur, k.wSize)] && c <= q < cur
      && Known(stream, base, ins, q, HashAt(stream, base + c, k), k)
  {
    hide HashAt, Slot;
    assert Linked(stream, base, start, ins, prev, base + cur, k);
    q := prev[Slot(cur, k.wSize)];
  }

  /** No inserted position with the same hash is passed over, as far as the chain is followed. */
  lemma {:induction false} NoneSkipped(stream: seq<Byte>, base: nat, start: nat, ins: set<nat>, head: seq<nat>,
                                       prev: seq<nat>, cur: nat, limit: nat, n: int, c: nat, k: Params)
    requires Chained(stream, base, start, ins, head, prev, k) && |prev| == k.wSize > 0 && start < limit + k.wSize
    requires limit < c <= cur && base + c in ins
      && Known(stream, base, ins, cur, HashAt(stream, base + c, k), k)
    ensures c in Candidates(prev, cur, limit, n) || |Candidates(prev, cur, limit, n)| == n
    decreases cur
  {
    hide HashAt, Slot, Chained;
    if c < cur {
      var q := NotPassed(stream, base, start, ins, head, prev, cur, limit, c, k);
      if n != 1 { NoneSkipped(stream, base, start, ins, head, prev, q, limit, n - 1, c, k); }
    }
  }

  lemma SameMore(stream: seq<Byte>, more: seq<Byte>, p: int, q: int, len: nat)
    requires Same(stream, p, q, len) && stream <= more
    ensures Same(more, p, q, len)
  {
  }

  class Matcher {
    const k: Params
    const window: array<Byte>
    const prev: array<nat>
    const head: array<nat>
    var avail: seq<Byte>          // input not yet in the window
    var strstart: nat
    var lookahead: nat
    var insH: nat
    var insert: nat
    var matchStart: int
    var prevLength: nat
    var blockStart: int
    var highWater: nat
    ghost var stream: seq<Byte>   // all input that has been in the window
    ghost var base: nat           // position in it of the first byte of the window
    ghost var ins: set<nat>       // positions in it that are on the chains

    function MaxDist(): int { k.wSize - MIN_LOOKAHEAD }

    ghost predicate Sizes()
    {
      k.Valid() && window.Length == 2 * k.wSize && prev.Length == k.wSize && head.Length == Pow2(k.bits) && prev != head
    }

    /** The window shows the input. */
    ghost predicate Shows()
      reads `stream, `base, `strstart, `lookahead, window
    {
      && |stream| == base + strstart + lookahead && strstart + lookahead <= window.Length
      && forall i :: 0 <= i < strstart + lookahead ==> window[i] == stream[base + i]
    }

    ghost predicate HashReady(str: nat)
      reads `insH, window
    {
      str + 1 < window.Length && Primed(insH, window[str], window[str + 1], k)
    }

    /** Strings up to `str` are on the chains, and no others. */
    ghost predicate ChainsOk(str: int)
      reads `stream, `base, `strstart, `ins, prev, head
    {
      Chained(stream, base, strstart, ins, head[..], prev[..], k) && forall a :: a in ins ==> a < base + str
    }

    ghost predicate Valid()
      reads this, window, prev, head
    {
      && Sizes() && Shows() && insert <= 2 && insert <= strstart && ChainsOk(strstart - insert)
      && (lookahead >= 3 ==> insert == 0 && HashReady(strstart))
    }

    /** The string at `strstart` is on its chain, if its three bytes are there. */
    ghost predicate Inserted()
      reads this, window, prev, head
    {
      && Sizes() && Shows() && insert <= 2 && insert <= strstart
      && (if lookahead >= 3 then insert == 0 && ChainsOk(strstart + 1)
        && HashReady(strstart + 1) else ChainsOk(strstart - insert))
    }

    /** The `len` bytes at `pos` are those at `start`, which is not too far back. */
    ghost predicate IsMatch(start: int, pos: int, len: nat)
      reads this
    {
      0 < pos - start <= MaxDist() && len <= MAX_MATCH && Same(stream, base + start, base + pos, len)
    }

    constructor (wSize: nat, shift: nat, bits: nat)
      requires Params(wSize, shift, bits).Valid()
      ensures Valid() && stream == [] && avail == [] && strstart == 0 && lookahead == 0 && blockStart == 0 && base == 0
      ensures k == Params(wSize, shift, bits) && prevLength == 2 && fresh(window) && fresh(prev) && fresh(head)
    {
      k := Params(wSize, shift, bits);
      window := new Byte[2 * wSize];
      prev := new nat[wSize];
      head := new nat[Pow2(bits)](_ => 0);
      avail, strstart, lookahead, insH, insert, matchStart, prevLength, blockStart, highWater :=
        [], 0, 0, 0, 0, 0, 2, 0, 0;
      stream, base, ins := [], 0, {};
    }

    /** INSERT_STRING: put the string at `str` on its chain; the head of the chain before it, or none. */
    method InsertString(str: nat) returns (hashHead: nat)
      requires Sizes() && Shows() && ChainsOk(str) && HashReady(str) && str <= strstart < str + k.wSize
        && str + 2 < strstart + lookahead
      modifies this`insH, this`ins, prev, head
      ensures Shows() && ChainsOk(str + 1) && HashReady(str + 1) && ins == old(ins) + {base + str}
      ensures hashHead == 0 || (hashHead < str && Known(stream, base, ins, hashHead, HashAt(stream, base + str, k), k))
      ensures NoneBetween(stream, base, strstart, ins, hashHead, base + str, HashAt(stream, base + str, k), k)
    {
      hide Hash3, Update, Chained, Pow2, Slot;
      PrimedNext(insH, window[str], window[str + 1], window[str + 2], k);
      HashFits(insH, window[str + 2], k);
      ghost var h0, p0 := head[..], prev[..];
      ChainedInsert(stream, base, strstart, ins, h0, p0, str, k);
      HeadKnown(stream, base, strstart, ins, h0, p0, HashAt(stream, base + str, k), k);
      insH := Update(insH, window[str + 2], k.shift, k.bits);
      hashHead := head[insH];
      prev[Slot(str, k.wSize)] := hashHead;
      head[insH] := str;
      ins := ins + {base + str};
      assert head[..] == h0[insH := str] && prev[..] == p0[Slot(str, k.wSize) := hashHead];
    }

    /** The length of the match at `cur`, once its first two bytes agree: the third does too. */
    method MatchLength(cur: nat) returns (len: nat)
      requires Sizes() && Shows() && cur < strstart <= window.Length - MIN_LOOKAHEAD && lookahead >= 3
      requires window[cur] == window[strstart] && window[cur + 1] == window[strstart + 1]
      requires base + cur + 2 < |stream| && HashAt(stream, base + cur, k) == HashAt(stream, base + strstart, k)
      ensures 3 <= len <= MAX_MATCH && forall i :: cur <= i < cur + len ==> window[i] == window[i + (strstart - cur)]
      ensures len == MAX_MATCH || window[strstart + len] != window[cur + len]
    {
      hide Update, Pow2;
      LastByte(Update(window[cur], window[cur + 1], k.shift, k.bits), window[cur + 2], window[strstart + 2], k.shift,
        k.bits);
      len := 3;
      while len < MAX_MATCH && window[strstart + len] == window[cur + len]
        invariant 3 <= len <= MAX_MATCH && forall i :: cur <= i < cur + len ==>
          window[i] == window[i + (strstart - cur)]
      {
        len := len + 1;
      }
    }

    /** Compare the string at `cur`, unless it cannot give a match longer than `bestLen`. */
    method TryMatch(cur: nat, bestLen: nat) returns (n: nat)
      requires Sizes() && Shows() && ChainsOk(strstart + 1) && strstart <= window.Length - MIN_LOOKAHEAD
        && lookahead >= 3
      requires 1 <= bestLen <= MAX_MATCH && 0 < cur < strstart <= cur + MaxDist()
      requires Known(stream, base, ins, cur, HashAt(stream, base + strstart, k), k)
      ensures n <= MAX_MATCH && (n > 0 ==> Found(cur, n)) && !Agrees(cur, if n > bestLen then n else bestLen)
    {
      hide HashAt, Known, Chained, Pow2;
      KnownInside(stream, base, strstart, ins, head[..], prev[..], cur, HashAt(stream, base + strstart, k), k);
      if window[cur + bestLen] != window[strstart + bestLen]
        || window[cur + bestLen - 1] != window[strstart + bestLen - 1]
         || window[cur] != window[strstart] || window[cur + 1] != window[strstart + 1] {
        return 0;
      }
      n := MatchLength(cur);
    }

    /** Walk the chain from `cur0` on, for a match longer than `prevLength`. */
    method Search(cur0: nat, limit: nat, chain0: int, niceMatch: nat) returns (start: int, bestLen: nat)
      requires Sizes() && Shows() && ChainsOk(strstart + 1) && strstart <= window.Length - MIN_LOOKAHEAD
        && lookahead >= 3
      requires 1 <= prevLength <= MAX_MATCH && 0 < cur0 < strstart <= cur0 + MaxDist() && strstart <= limit + MaxDist()
      requires Known(stream, base, ins, cur0, HashAt(stream, base + strstart, k), k)
      ensures prevLength <= bestLen <= MAX_MATCH && (bestLen > prevLength ==> Found(start, bestLen))
      ensures (bestLen > prevLength && bestLen >= niceMatch) || forall c ::
        c in Candidates(prev[..], cur0, limit, chain0) ==> !Agrees(c, bestLen)
    {
      hide HashAt, Known, Chained, Pow2, Same, Slot, Found, Shows, Candidates, Agrees;
      var chainLength := chain0;
      var cur := cur0;
      bestLen, start := prevLength, matchStart;
      while true
        invariant prevLength <= bestLen <= MAX_MATCH && 0 < cur < strstart <= cur + MaxDist()
        invariant Known(stream, base, ins, cur, HashAt(stream, base + strstart, k), k)
        invariant bestLen > prevLength ==> Found(start, bestLen)
        invariant forall c :: c in Candidates(prev[..], cur0, limit, chain0) ==>
          c in Candidates(prev[..], cur, limit, chainLength) || !Agrees(c, bestLen)
        decreases cur
      {
        var n := TryMatch(cur, bestLen);
        AgreesLonger(bestLen, n);
        if n > bestLen {
          start, bestLen := cur, n;
          if n >= niceMatch { break; }
        }
        NextLink(stream, base, strstart, ins, head[..], prev[..], cur, HashAt(stream, base + strstart, k), k);
        MoreCandidates(prev[..], cur, limit, chainLength);
        cur := prev[Slot(cur, k.wSize)];
        if cur <= limit { break; }
        chainLength := chainLength - 1;
        if chainLength == 0 { break; }
      }
    }

    /** The string at `c` agrees with that at `strstart` in more than `len` bytes. */
    ghost predicate Agrees(c: nat, len: nat)
      reads `strstart, window
    {
      && len < MAX_MATCH && c < strstart && strstart + len < window.Length
      && forall i :: c <= i <= c + len ==> window[i] == window[i + (strstart - c)]
    }

    lemma AgreesLonger(len: nat, len2: nat)
      ensures len <= len2 ==> forall c :: Agrees(c, len2) ==> Agrees(c, len)
    {
    }

    /** longest_match: a match longer than `prevLength`, if one is found on the chain from `cur0` on. It is the
        longest of those looked at, unless one was nice enough, and no other is passed over. */
    method LongestMatch(cur0: nat, maxChain: nat, goodMatch: nat, niceMatch0: nat) returns (len: nat)
      requires Inserted() && strstart <= window.Length - MIN_LOOKAHEAD && lookahead >= 3
      requires 2 <= prevLength <= MAX_MATCH && 0 < cur0 < strstart <= cur0 + MaxDist()
      requires Known(stream, base, ins, cur0, HashAt(stream, base + strstart, k), k)
      modifies this`matchStart
      ensures Inserted() && len <= lookahead && len <= MAX_MATCH && (len >= prevLength || len == lookahead)
      ensures len > prevLength ==> IsMatch(matchStart, strstart, len)
      ensures len >= niceMatch0 || len == lookahead || Longest(cur0, ChainLength(maxChain, goodMatch), len)
    {
      hide HashAt, Known, Chained, Pow2, Same, Found, Primed, Candidates, Agrees, Longest, HashReady, Shows;
      var niceMatch := if niceMatch0 > lookahead then lookahead else niceMatch0;
      var start, bestLen := Search(cur0, Limit(), ChainLength(maxChain, goodMatch), niceMatch);
      len := if bestLen <= lookahead then bestLen else lookahead;
      if len > prevLength { FoundSame(start, bestLen, len); }
      if len < niceMatch { IsLongest(cur0, ChainLength(maxChain, goodMatch), len); }
      matchStart := start;
    }

    /** No string on the chain agrees with that at `strstart` in more than `len` bytes, among the first `n`; and none at
        all that was inserted and is not too far back, if there are fewer. */
    ghost predicate Longest(cur0: nat, n: nat, len: nat)
      reads `strstart, `base, `ins, window, prev
    {
      var looked := Candidates(prev[..], cur0, Limit(), n);
      && (forall c :: c in looked ==> !Agrees(c, len))
      && (|looked| == n || forall c :: base + c in ins && Limit() < c <= cur0 ==> !Agrees(c, len))
    }

    lemma IsLongest(cur0: nat, n: nat, len: nat)
      requires Inserted() && lookahead >= 3 && len >= 2
      requires Known(stream, base, ins, cur0, HashAt(stream, base + strstart, k), k)
      requires forall c :: c in Candidates(prev[..], cur0, Limit(), n) ==> !Agrees(c, len)
      ensures Longest(cur0, n, len)
    {
      hide Chained, Pow2, Known, Candidates, Primed, Hash3;
      forall c | base + c in ins && Limit() < c <= cur0 && Agrees(c, len)
        ensures |Candidates(prev[..], cur0, Limit(), n)| == n
      {
        SameHash(c, len);
        NoneSkipped(stream, base, strstart, ins, head[..], prev[..], cur0, Limit(), n, c, k);
      }
    }

    lemma SameHash(c: nat, len: nat)
      requires Sizes() && Shows() && lookahead >= 3 && len >= 2 && Agrees(c, len)
      ensures HashAt(stream, base + c, k) == HashAt(stream, base + strstart, k)
    {
      hide Hash3;
      assert window[c] == window[c + (strstart - c)] && window[c + 1] == window[c + 1 + (strstart - c)]
        && window[c + 2] == window[c + 2 + (strstart - c)];
    }

    /** Matches do not start at or below this position. */
    function Limit(): nat
      reads `strstart
    {
      if strstart > MaxDist() >= 0 then strstart - MaxDist() else 0
    }

    /** How far to follow the chain: not so far if there is a good match already. */
    function ChainLength(maxChain: nat, goodMatch: nat): nat
      reads this
    {
      if prevLength >= goodMatch then maxChain / 4 else maxChain
    }

    ghost predicate Found(start: int, len: nat)
      reads this, window
    {
      && strstart + len <= window.Length && 0 <= start < strstart <= start + MaxDist()
      && forall i :: start <= i < start + len ==> window[i] == window[i + (strstart - start)]
    }

    lemma FoundSame(start: int, len: nat, len2: nat)
      requires Sizes() && Shows() && Found(start, len) && len2 <= len && len2 <= lookahead
      ensures Same(stream, base + start, base + strstart, len2) && 0 <= start < strstart <= start + MaxDist()
    {
      forall i | base + start <= i < base + start + len2 ensures stream[i] == stream[i + (strstart - start)] {
        assert window[i - base] == window[i - base + (strstart - start)];
      }
    }

    /** Move the upper half of the window to the lower, and all positions with it. */
    method SlideWindow()
      requires Sizes() && Shows() && ChainsOk(strstart - insert) && k.wSize <= strstart
        && (lookahead >= 3 ==> HashReady(strstart))
      modifies this`strstart, this`matchStart, this`blockStart, this`base, window, prev, head
      ensures base == old(base) + k.wSize && strstart == old(strstart) - k.wSize
        && matchStart == old(matchStart) - k.wSize
      ensures blockStart == old(blockStart) - k.wSize
      ensures Shows() && ChainsOk(strstart - insert) && (lookahead >= 3 ==> HashReady(strstart))
    {
      hide Primed, Chained, Pow2;
      ghost var h0, p0 := head[..], prev[..];
      MoveDown();
      matchStart, strstart, blockStart := matchStart - k.wSize, strstart - k.wSize, blockStart - k.wSize;
      SlideTable(head, k.wSize);
      SlideTable(prev, k.wSize);
      ChainedSlide(stream, base, old(strstart), ins, h0, p0, head[..], prev[..], k);
      base := base + k.wSize;
    }

    method MoveDown()
      requires Sizes()
      modifies window
      ensures forall i :: 0 <= i < k.wSize ==> window[i] == old(window[i + k.wSize])
    {
      for n := 0 to k.wSize
        invariant forall i :: 0 <= i < n ==> window[i] == old(window[i + k.wSize])
        invariant forall i :: n <= i < window.Length ==> window[i] == old(window[i])
      {
        window[n] := window[n + k.wSize];
      }
    }

    /** read_buf: as much input as there is room for. */
    method ReadBuf(more: nat)
      requires Sizes() && Shows() && ChainsOk(strstart - insert) && strstart + lookahead + more <= window.Length
      modifies this`avail, this`lookahead, this`stream, window
      ensures Shows() && ChainsOk(strstart - insert) && stream + avail == old(stream + avail) && old(stream) <= stream
      ensures |avail| == if more >= |old(avail)| then 0 else |old(avail)| - more
      ensures lookahead == old(lookahead) + (|old(avail)| - |avail|)
    {
      hide Chained, Pow2;
      var n := if |avail| > more then more else |avail|;
      ghost var s0 := stream;
      CopyBytes(window, strstart + lookahead, avail[..n]);
      ChainedMore(stream, avail[..n], base, strstart, ins, head[..], prev[..], k);
      stream := stream + avail[..n];
      assert avail == avail[..n] + avail[n..];
      assert stream + avail[n..] == s0 + avail;
      lookahead, avail := lookahead + n, avail[n..];
    }

    /** Start the hash at the first string not on the chains, and put on those whose third byte has come. */
    method InsertPending()
      requires Sizes() && Shows() && insert <= 2 && insert <= strstart && ChainsOk(strstart - insert)
      modifies this`insH, this`insert, this`ins, prev, head
      ensures Shows() && insert <= 2 && insert <= strstart && ChainsOk(strstart - insert)
      ensures lookahead >= 3 ==> insert == 0 && HashReady(strstart)
    {
      hide Primed, Chained, Pow2, Update;
      if lookahead + insert >= MIN_MATCH {
        var str := strstart - insert;
        insH := Update(window[str], window[str + 1], k.shift, k.bits);
        PrimedStart(window[str], window[str + 1], k);
        while insert != 0
          invariant Shows() && insert <= 2 && insert <= strstart && str == strstart - insert && ChainsOk(str)
            && HashReady(str)
          invariant lookahead + insert >= MIN_MATCH
          decreases insert
        {
          var h := InsertString(str);
          str, insert := str + 1, insert - 1;
          if lookahead + insert < MIN_MATCH { break; }
        }
      }
    }

    /** Zero the bytes after the data that the search may read but that were never written. */
    method ZeroAhead()
      requires Sizes() && Shows()
      modifies this`highWater, window
      ensures forall i :: 0 <= i < strstart + lookahead ==> window[i] == old(window[i])
    {
      if highWater < window.Length {
        var curr := strstart + lookahead;
        if highWater < curr {
          var init := window.Length - curr;
          if init > WIN_INIT { init := WIN_INIT; }
          ZeroBytes(window, curr, init);
          highWater := curr + init;
        } else if highWater < curr + WIN_INIT {
          var init := curr + WIN_INIT - highWater;
          if init > window.Length - highWater { init := window.Length - highWater; }
          ZeroBytes(window, highWater, init);
          highWater := highWater + init;
        }
      }
    }

    /** Slide if the window is almost full, then read; false if there is no input. */
    method FillOnce() returns (read: bool)
      requires Valid() && lookahead < MIN_LOOKAHEAD
      modifies this, window, prev, head
      ensures Valid() && strstart <= window.Length - MIN_LOOKAHEAD
        && (if read then |avail| < |old(avail)| else avail == [] == old(avail))
      ensures stream + avail == old(stream + avail) && old(stream) <= stream && base + strstart == old(base + strstart)
      ensures base + matchStart == old(base + matchStart) && base + blockStart == old(base + blockStart)
        && prevLength == old(prevLength)
      ensures (!read ==> lookahead == old(lookahead)) && (old(strstart) >= 1 ==> strstart >= 1)
    {
      hide Primed, Chained, Pow2;
      var more := window.Length - lookahead - strstart;
      if strstart >= k.wSize + MaxDist() {
        SlideWindow();
        more := more + k.wSize;
      }
      if |avail| == 0 { return false; }
      assert more >= 2;
      ReadBuf(more);
      InsertPending();
      return true;
    }

    /** fill_window: make room if need be, and read input until there is enough of it ahead. */
    method FillWindow()
      requires Valid() && lookahead < MIN_LOOKAHEAD
      modifies this, window, prev, head
      ensures Valid() && strstart <= window.Length - MIN_LOOKAHEAD && (lookahead >= MIN_LOOKAHEAD || avail == [])
      ensures old(strstart) >= 1 ==> strstart >= 1
      ensures stream + avail == old(stream + avail) && old(stream) <= stream && base + strstart == old(base + strstart)
      ensures base + matchStart == old(base + matchStart) && base + blockStart == old(base + blockStart)
        && prevLength == old(prevLength)
    {
      hide Primed, Chained, Pow2;
      while true
        invariant Valid() && lookahead < MIN_LOOKAHEAD && (old(strstart) >= 1 ==> strstart >= 1)
        invariant stream + avail == old(stream + avail) && old(stream) <= stream
          && base + strstart == old(base + strstart)
        invariant base + matchStart == old(base + matchStart) && base + blockStart == old(base + blockStart)
          && prevLength == old(prevLength)
        decreases |avail|
      {
        var read := FillOnce();
        if !read || !(lookahead < MIN_LOOKAHEAD && |avail| != 0) { break; }
      }
      ZeroAhead();
    }

    /** The search moves on by `n` bytes. */
    method Skip(n: nat)
      requires Sizes() && Shows() && n <= lookahead && Chained(stream, base, strstart, ins, head[..], prev[..], k)
      modifies this`strstart, this`lookahead
      ensures strstart == old(strstart) + n && lookahead == old(lookahead) - n
      ensures Shows() && Chained(stream, base, strstart, ins, head[..], prev[..], k)
    {
      hide Chained, Pow2;
      ChainedAhead(stream, base, strstart, strstart + n, ins, head[..], prev[..], k);
      strstart, lookahead := strstart + n, lookahead - n;
    }

    lemma MatchFits(start: int, pos: int, len: nat)
      requires IsMatch(start, pos, len)
      ensures base + pos + len <= |stream| && len <= MAX_MATCH
    {
    }

    lemma Inside()
      ensures Valid() || Inserted() ==>
        Sizes() && Shows() && |stream| == base + strstart + lookahead && strstart + lookahead <= window.Length
    {
    }

    /** A match of this length is put off. */
    method PutOff(len: nat)
      requires Inserted()
      modifies this`prevLength
      ensures Inserted() && prevLength == len
    {
      hide Primed, Chained, Pow2;
      prevLength := len;
    }

    /** The input of a call. */
    method Offer(input: seq<Byte>)
      modifies this`avail
      ensures avail == input && (old(Valid()) ==> Valid())
    {
      hide Primed, Chained, Pow2;
      avail := input;
    }

    /** All input is used up: the last two strings are not on the chains. */
    method EndInput()
      requires Valid() && lookahead == 0
      modifies this`insert
      ensures Valid()
    {
      hide Primed, Pow2, Linked, Known;
      insert := if strstart < MIN_MATCH - 1 then strstart else MIN_MATCH - 1;
    }

    /** The next block starts here. */
    method StartBlock()
      requires Sizes() && Shows()
      modifies this`blockStart
      ensures Shows() && blockStart == strstart && (old(Valid()) ==> Valid()) && (old(Inserted()) ==> Inserted())
    {
      hide Primed, Chained, Pow2;
      blockStart := strstart;
    }

    /** A full flush: no later match reaches back into what precedes it. */
    method Forget()
      requires Valid() && blockStart == strstart
      modifies this`strstart, this`blockStart, this`insert, this`base, this`ins, head
      ensures Valid() && ins == {} && blockStart == strstart && base + strstart == old(base + strstart)
    {
      hide Primed, Pow2;
      ClearHash();
      ins := {};
      if lookahead == 0 {
        base := base + strstart;
        strstart, blockStart, insert := 0, 0, 0;
      }
    }

    method ClearHash()
      modifies head
      ensures forall i :: 0 <= i < head.Length ==> head[i] == 0
    {
      for i := 0 to head.Length
        invariant forall j :: 0 <= j < i ==> head[j] == 0
      {
        head[i] := 0;
      }
    }

    /** The string at `strstart` goes on its chain if its three bytes are there; the head of the chain, or none. */
    method InsertHere() returns (hashHead: nat)
      requires Valid()
      modifies this`insH, this`ins, prev, head
      ensures Inserted()
      ensures hashHead == 0 || (lookahead >= 3 && hashHead < strstart
        && Known(stream, base, ins, hashHead, HashAt(stream, base + strstart, k), k))
    {
      hide Primed, Chained, Pow2, HashAt;
      hashHead := 0;
      if lookahead >= MIN_MATCH {
        hashHead := InsertString(strstart);
      }
    }

    /** deflate_fast, after a literal. */
    method AfterLiteral()
      requires Inserted() && lookahead >= 1
      modifies this`strstart, this`lookahead
      ensures Valid() && strstart == old(strstart) + 1 && lookahead == old(lookahead) - 1
    {
      hide Primed, Chained, Pow2;
      Skip(1);
    }

    /** deflate_fast, after a match of length `len` at `strstart`: short matches put all their strings on the
        chains, long ones none. */
    method AfterMatch(len: nat, maxInsert: nat)
      requires Inserted() && 3 <= len <= lookahead && len <= MAX_MATCH && strstart <= window.Length - MIN_LOOKAHEAD
      modifies this`strstart, this`lookahead, this`insH, this`ins, prev, head
      ensures Valid() && strstart == old(strstart) + len && lookahead == old(lookahead) - len
    {
      hide Primed, Chained, Pow2, Update, HashAt, Known;
      if len <= maxInsert && lookahead - len >= MIN_MATCH {
        var left := len - 1;
        while left != 0
          invariant 0 <= left < len && strstart == old(strstart) + (len - 1 - left)
            && lookahead == old(lookahead) - (len - 1 - left)
          invariant Shows() && ChainsOk(strstart + 1) && HashReady(strstart + 1)
          decreases left
        {
          Skip(1);
          var h := InsertString(strstart);
          left := left - 1;
        }
        Skip(1);
      } else {
        Skip(len);
        insH := Update(window[strstart], window[strstart + 1], k.shift, k.bits);
        PrimedStart(window[strstart], window[strstart + 1], k);
      }
    }

    /** The string at `strstart` is on its chain, if it starts at `maxInsert` or before. */
    ghost predicate InsertedUpTo(maxInsert: int)
      reads this, window, prev, head
    {
      if strstart <= maxInsert then insert == 0 && ChainsOk(strstart + 1)
        && HashReady(strstart + 1) else ChainsOk(strstart - insert)
    }

    /** On to the next string. */
    method InsertNext(maxInsert: int)
      requires Sizes() && Shows() && InsertedUpTo(maxInsert) && lookahead >= 1 && insert <= strstart
      requires maxInsert == strstart + lookahead - MIN_MATCH
      modifies this`strstart, this`lookahead, this`insH, this`ins, prev, head
      ensures Shows() && InsertedUpTo(maxInsert) && strstart == old(strstart) + 1 && lookahead == old(lookahead) - 1
    {
      hide Primed, Chained, Pow2, HashAt, Known;
      Skip(1);
      if strstart <= maxInsert {
        var h := InsertString(strstart);
      }
    }

    /** deflate_slow, after a match of length `len` at `strstart - 1`: all its strings whose bytes are there go on
        the chains. */
    method AfterLazyMatch(len: nat)
      requires Inserted() && 3 <= len <= lookahead + 1 && len <= MAX_MATCH && strstart >= 1
      modifies this`strstart, this`lookahead, this`insH, this`ins, this`prevLength, prev, head
      ensures Valid() && strstart == old(strstart) + len - 1 && lookahead == old(lookahead) - (len - 1)
        && prevLength == 0
    {
      hide Primed, Chained, Pow2, HashAt, Known;
      ghost var s0, l0 := strstart, lookahead;
      var maxInsert := strstart + lookahead - MIN_MATCH;
      prevLength := len - 2;
      while true
        invariant 1 <= prevLength <= len - 2 && strstart == s0 + (len - 2 - prevLength)
          && lookahead == l0 - (len - 2 - prevLength)
        invariant Shows() && InsertedUpTo(maxInsert)
        decreases prevLength
      {
        InsertNext(maxInsert);
        prevLength := prevLength - 1;
        if prevLength == 0 { break; }
      }
      Skip(1);
    }
  }

  /** Slide the positions in a table down, newest last. */
  method SlideTable(a: array<nat>, wSize: nat)
    modifies a
    ensures forall i :: 0 <= i < a.Length ==> a[i] == Slid(old(a[i]), wSize)
  {
    var n := a.Length;
    while n != 0
      invariant 0 <= n <= a.Length
      invariant forall i :: 0 <= i < n ==> a[i] == old(a[i])
      invariant forall i :: n <= i < a.Length ==> a[i] == Slid(old(a[i]), wSize)
    {
      n := n - 1;
      var m := a[n];
      a[n] := if m >= wSize then m - wSize else 0;
    }
  }

  method CopyBytes(a: array<Byte>, at: nat, src: seq<Byte>)
    requires at + |src| <= a.Length
    modifies a
    ensures forall i :: 0 <= i < at ==> a[i] == old(a[i])
    ensures forall i :: at <= i < at + |src| ==> a[i] == src[i - at]
  {
    for j := 0 to |src|
      invariant forall i :: 0 <= i < at ==> a[i] == old(a[i])
      invariant forall i :: at <= i < at + j ==> a[i] == src[i - at]
    {
      a[at + j] := src[j];
    }
  }

  method ZeroBytes(a: array<Byte>, from: nat, n: nat)
    requires from + n <= a.Length
    modifies a
    ensures forall i :: 0 <= i < from ==> a[i] == old(a[i])
  {
    for j := 0 to n
      invariant forall i :: 0 <= i < from ==> a[i] == old(a[i])
    {
      a[from + j] := 0;
    }
  }

  lemma HashFits(h: nat, c: Byte, k: Params)
    ensures Update(h, c, k.shift, k.bits) < Pow2(k.bits)
  {
    LowBound(Xor(Shl(h, k.shift), c), k.bits);
  }

  lemma HeadKnown(stream: seq<Byte>, base: nat, start: nat, ins: set<nat>, head: seq<nat>, prev: seq<nat>, h: nat,
                  k: Params)
    requires Chained(stream, base, start, ins, head, prev, k) && h < |head|
    ensures head[h] == 0 || Known(stream, base, ins, head[h], h, k)
  {
  }

  /** A position on the chains has its three bytes. */
  lemma KnownInside(stream: seq<Byte>, base: nat, start: nat, ins: set<nat>, head: seq<nat>, prev: seq<nat>, cur: nat,
                    h: nat, k: Params)
    requires Chained(stream, base, start, ins, head, prev, k) && Known(stream, base, ins, cur, h, k)
    ensures base + cur + 2 < |stream| && HashAt(stream, base + cur, k) == h
  {
  }

  /** The next position on a chain is earlier, and on the same chain if it is not too far back. */
  lemma NextLink(stream: seq<Byte>, base: nat, start: nat, ins: set<nat>, head: seq<nat>, prev: seq<nat>, cur: nat,
                 h: nat, k: Params)
    requires Chained(stream, base, start, ins, head, prev, k) && Known(stream, base, ins, cur, h, k)
      && cur + k.wSize > start && k.wSize > 0
    ensures |prev| == k.wSize
    ensures var q := prev[Slot(cur, k.wSize)];
      q == 0 || (q < cur && (q + k.wSize > start ==> Known(stream, base, ins, q, h, k)))
  {
    assert Linked(stream, base, start, ins, prev, base + cur, k);
  }
}
