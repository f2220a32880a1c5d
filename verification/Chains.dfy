/** deflate.c: the hash chains. `head` has the newest position of each hash, `prev` the position before each one
    with the same hash, as far as the window reaches back. */
module Chains {
  import opened Bits
  import opened BitWriter
  import opened Hash

  /** Index into `prev`: `p & w_mask`. */
  function Slot(p: nat, wSize: nat): (i: nat)
    requires wSize > 0
    ensures i < wSize
  {
    p % wSize
  }

  lemma SlotShift(p: nat, wSize: nat)
    requires wSize > 0 && p >= wSize
    ensures Slot(p - wSize, wSize) == Slot(p, wSize)
  {
    assert p == (p - wSize) + wSize;
    ModAdd(p - wSize, wSize);
  }

  lemma ModAdd(a: nat, n: nat)
    requires n > 0
    ensures (a + n) % n == a % n
  {
    var q, r := a / n, a % n;
    assert a == q * n + r;
    assert a + n == (q + 1) * n + r by { Distrib(q, 1, n); }
    DivModUnique(a + n, n, q + 1, r);
  }

  /** Two positions less than a window apart have different slots. */
  lemma SlotsApart(p: nat, s: nat, wSize: nat)
    requires wSize > 0 && p < s < p + wSize
    ensures Slot(p, wSize) != Slot(s, wSize)
  {
    var q, r, q2, r2 := p / wSize, p % wSize, s / wSize, s % wSize;
    assert p == q * wSize + r && s == q2 * wSize + r2;
    Distrib(q2, -q, wSize);
    MulOutside(q2 - q, wSize);
  }

  /** How positions are hashed. */
  datatype Params = Params(wSize: nat, shift: nat, bits: nat)
  {
    ghost predicate Valid() { wSize >= 512 && bits >= 8 && 3 * shift >= bits }
  }

  /** Hash of the three bytes at `a`. */
  function HashAt(stream: seq<Byte>, a: nat, k: Params): nat
  {
    if a + 2 < |stream| then Hash3(stream[a], stream[a + 1], stream[a + 2], k.shift, k.bits) else 0
  }

  /** A position with a hash, in terms of the window that starts at `base`. */
  ghost predicate Known(stream: seq<Byte>, base: nat, ins: set<nat>, q: nat, h: nat, k: Params)
  {
    base + q in ins && HashAt(stream, base + q, k) == h
  }

  /** No inserted position between `q` and `to` has this hash, unless it is too far back to be looked at. */
  ghost predicate NoneBetween(stream: seq<Byte>, base: nat, start: nat, ins: set<nat>, q: nat, to: nat, h: nat,
                              k: Params)
  {
    forall b :: b in ins && base + q < b < to && b + k.wSize > base + start ==> HashAt(stream, b, k) != h
  }

  /** Following the chain from position `a`: the end, or the last position before it with the same hash, unless that is
      too far back to be looked at. */
  ghost predicate Linked(stream: seq<Byte>, base: nat, start: nat, ins: set<nat>, prev: seq<nat>, a: nat, k: Params)
  {
    && |prev| == k.wSize > 0 && a >= base
    && var q := prev[Slot(a - base, k.wSize)];
       && (q == 0 || (q < a - base && (q + k.wSize > start ==> Known(stream, base, ins, q, HashAt(stream, a, k), k))))
       && NoneBetween(stream, base, start, ins, q, a, HashAt(stream, a, k), k)
  }

  /** The chains over the inserted positions `ins` of the input, when the search is at window position `start`. */
  ghost predicate Chained(stream: seq<Byte>, base: nat, start: nat, ins: set<nat>, head: seq<nat>, prev: seq<nat>,
                          k: Params)
  {
    && (forall a :: a in ins ==> a + 2 < |stream|)
    && (forall h :: 0 <= h < |head| ==> head[h] == 0 || Known(stream, base, ins, head[h], h, k))
    && (forall h :: 0 <= h < |head| ==> NoneBetween(stream, base, start, ins, head[h], |stream|, h, k))
    && (forall a :: a in ins && a >= base && a + k.wSize > base + start ==>
      Linked(stream, base, start, ins, prev, a, k))
  }

  /** More input does not change the hashes. */
  lemma ChainedMore(stream: seq<Byte>, more: seq<Byte>, base: nat, start: nat, ins: set<nat>, head: seq<nat>,
                    prev: seq<nat>, k: Params)
    requires Chained(stream, base, start, ins, head, prev, k)
    ensures Chained(stream + more, base, start, ins, head, prev, k)
  {
    hide Hash3;
    forall a | a in ins ensures HashAt(stream + more, a, k) == HashAt(stream, a, k) {
      assert (stream + more)[a] == stream[a] && (stream + more)[a + 1] == stream[a + 1]
        && (stream + more)[a + 2] == stream[a + 2];
    }
  }

  /** Moving on looks back less far. */
  lemma ChainedAhead(stream: seq<Byte>, base: nat, start: nat, start2: nat, ins: set<nat>, head: seq<nat>,
                     prev: seq<nat>, k: Params)
    requires Chained(stream, base, start, ins, head, prev, k) && start <= start2
    ensures Chained(stream, base, start2, ins, head, prev, k)
  {
    hide HashAt, Slot;
  }

  /** The chain from position `a` goes on as before when a later position is inserted. */
  lemma LinkKept(stream: seq<Byte>, base: nat, start: nat, ins: set<nat>, prev: seq<nat>, a: nat, s: nat, v: nat,
                 k: Params)
    requires Linked(stream, base, start, ins, prev, a, k) && a < base + s && s <= start < a - base + k.wSize
    ensures Linked(stream, base, start, ins + {base + s}, prev[Slot(s, k.wSize) := v], a, k)
  {
    hide HashAt, Slot;
    SlotsApart(a - base, s, k.wSize);
  }

  /** Inserting the string at window position `s`. */
  lemma ChainedInsert(stream: seq<Byte>, base: nat, start: nat, ins: set<nat>, head: seq<nat>, prev: seq<nat>, s: nat,
                      k: Params)
    requires k.Valid() && Chained(stream, base, start, ins, head, prev, k) && |prev| == k.wSize
    requires s <= start < s + k.wSize && base + s + 2 < |stream| && (forall a :: a in ins ==> a < base + s)
    requires HashAt(stream, base + s, k) < |head|
    ensures var h := HashAt(stream, base + s, k);
      && Chained(stream, base, start, ins + {base + s}, head[h := s], prev[Slot(s, k.wSize) := head[h]], k)
      && (head[h] < s || head[h] == 0) && NoneBetween(stream, base, start, ins + {base + s}, head[h], base + s, h, k)
  {
    hide HashAt, Slot, Linked;
    var h := HashAt(stream, base + s, k);
    var ins2, prev2 := ins + {base + s}, prev[Slot(s, k.wSize) := head[h]];
    forall a | a in ins2 && a >= base && a + k.wSize > base + start
      ensures Linked(stream, base, start, ins2, prev2, a, k) {
      if a == base + s {
        NewLink(stream, base, start, ins, prev, s, head[h], k);
      } else {
        LinkKept(stream, base, start, ins, prev, a, s, head[h], k);
      }
    }
  }

  /** The chain from the new position goes on to the one that was the newest of its hash. */
  lemma NewLink(stream: seq<Byte>, base: nat, start: nat, ins: set<nat>, prev: seq<nat>, s: nat, q: nat, k: Params)
    requires |prev| == k.wSize > 0
    requires q == 0 || (q < s && Known(stream, base, ins, q, HashAt(stream, base + s, k), k))
    requires NoneBetween(stream, base, start, ins, q, |stream|, HashAt(stream, base + s, k), k) && base + s < |stream|
    ensures Linked(stream, base, start, ins + {base + s}, prev[Slot(s, k.wSize) := q], base + s, k)
  {
    hide HashAt, Slot;
  }

  /** A position after the window has slid down by its size, or none. */
  function Slid(m: nat, wSize: nat): nat { if m >= wSize then m - wSize else 0 }

  lemma NoneSlides(stream: seq<Byte>, base: nat, start: nat, ins: set<nat>, q: nat, to: nat, h: nat, k: Params)
    requires NoneBetween(stream, base, start, ins, q, to, h, k) && start >= k.wSize
    ensures NoneBetween(stream, base + k.wSize, start - k.wSize, ins, Slid(q, k.wSize), to, h, k)
  {
    hide HashAt;
  }

  lemma LinkSlides(stream: seq<Byte>, base: nat, start: nat, ins: set<nat>, prev: seq<nat>, prev2: seq<nat>, a: nat,
                   k: Params)
    requires Linked(stream, base, start, ins, prev, a, k) && a >= base + k.wSize && start >= k.wSize
    requires |prev2| == |prev| && forall i :: 0 <= i < |prev| ==> prev2[i] == Slid(prev[i], k.wSize)
    ensures Linked(stream, base + k.wSize, start - k.wSize, ins, prev2, a, k)
  {
    hide HashAt, Slot, NoneBetween;
    SlotShift(a - base, k.wSize);
    NoneSlides(stream, base, start, ins, prev[Slot(a - base, k.wSize)], a, HashAt(stream, a, k), k);
  }

  /** Sliding keeps all positions still in the window. */
  lemma ChainedSlide(stream: seq<Byte>, base: nat, start: nat, ins: set<nat>, head: seq<nat>, prev: seq<nat>,
                     head2: seq<nat>, prev2: seq<nat>, k: Params)
    requires k.Valid() && Chained(stream, base, start, ins, head, prev, k) && |prev| == k.wSize && start >= k.wSize
    requires |head2| == |head| && forall i :: 0 <= i < |head| ==> head2[i] == Slid(head[i], k.wSize)
    requires |prev2| == |prev| && forall i :: 0 <= i < |prev| ==> prev2[i] == Slid(prev[i], k.wSize)
    ensures Chained(stream, base + k.wSize, start - k.wSize, ins, head2, prev2, k)
  {
    hide HashAt, Slot, Linked, NoneBetween;
    forall a | a in ins && a >= base + k.wSize && a + k.wSize > base + start
      ensures Linked(stream, base + k.wSize, start - k.wSize, ins, prev2, a, k)
    {
      LinkSlides(stream, base, start, ins, prev, prev2, a, k);
    }
    forall h | 0 <= h < |head|
      ensures NoneBetween(stream, base + k.wSize, start - k.wSize, ins, head2[h], |stream|, h, k)
    {
      NoneSlides(stream, base, start, ins, head[h], |stream|, h, k);
    }
  }
}
