/** The codes of a canonical code in order, as the list the decoding table is filled from: prefix-free,
    grouped by their first `root` bits, and how long the codes of one group can be. */
module CodeGroups {
  import opened Bits
  import opened Canonical
  import opened CodeOrder
  import opened TableFill

  ghost function CodeList(lens: seq<nat>, work: seq<nat>): (codes: seq<seq<bool>>)
    requires forall j :: 0 <= j < |work| ==> work[j] < |lens|
    ensures |codes| == |work|
    ensures forall j :: 0 <= j < |work| ==> codes[j] == CodeBits(lens, work[j])
  {
    seq(|work|, j requires 0 <= j < |work| => CodeBits(lens, work[j]))
  }

  ghost predicate Ordered(lens: seq<nat>, m: nat, work: seq<nat>)
  {
    LensBounded(lens, m) && IsOrder(lens, m, work) && Kraft(lens, m) <= Pow2(m)
  }

  lemma CodesPrefixFree(lens: seq<nat>, m: nat, work: seq<nat>)
    requires Ordered(lens, m, work)
    ensures PrefixFreeList(CodeList(lens, work))
  {
    var codes := CodeList(lens, work);
    forall i, j | 0 <= i < |codes| && 0 <= j < |codes| && i != j
      ensures !(codes[i] <= codes[j])
    {
      if codes[i] <= codes[j] {
        assert Index(lens, work[i]) == i && Index(lens, work[j]) == j;
        assert Decodes(lens, codes[j], work[i]) && Decodes(lens, codes[j], work[j]);
        PrefixFree(lens, m, codes[j], work[i], work[j]);
      }
    }
  }

  /** The group of a code: its first `root` bits, as an integer. */
  function Group(lens: seq<nat>, root: nat, s: nat): nat
    requires s < |lens| && root <= lens[s]
  {
    MsbValue(CodeBits(lens, s)[..root])
  }

  /** A code lies inside the interval of its group. */
  lemma InsideGroup(lens: seq<nat>, m: nat, root: nat, s: nat)
    requires s < |lens| && root <= lens[s] <= m && 0 < lens[s] && Kraft(lens, m) <= Pow2(m)
    ensures Group(lens, root, s) * Pow2(m - root) <= Start(lens, m, s)
    ensures Start(lens, m, s) + Pow2(m - lens[s]) <= Group(lens, root, s) * Pow2(m - root) + Pow2(m - root)
  {
    CodeFits(lens, m, s);
    MsbSplit(CodeBits(lens, s), root);
    ScaleInside(Code(lens, s), Group(lens, root, s), MsbValue(CodeBits(lens, s)[root..]), m, root, lens[s]);
  }

  lemma ScaleInside(c: nat, g: nat, x: nat, m: nat, root: nat, len: nat)
    requires root <= len <= m && c == g * Pow2(len - root) + x && x < Pow2(len - root)
    ensures g * Pow2(m - root) <= c * Pow2(m - len)
    ensures c * Pow2(m - len) + Pow2(m - len) <= g * Pow2(m - root) + Pow2(m - root)
  {
    var d, u := Pow2(len - root), Pow2(m - len);
    Pow2Add(len - root, m - len);
    MulAssoc(g, d, u);
    Distrib(g * d, x, u);
    MulStep(x, d, u);
  }

  lemma GroupMono(lens: seq<nat>, m: nat, root: nat, s: nat, t: nat)
    requires s < |lens| && t < |lens| && root <= lens[s] <= m && root <= lens[t] <= m && 0 < lens[s] && 0 < lens[t]
    requires Kraft(lens, m) <= Pow2(m) && Precedes(lens, s, t)
    ensures Group(lens, root, s) <= Group(lens, root, t)
  {
    InsideGroup(lens, m, root, s);
    InsideGroup(lens, m, root, t);
    StartOrdered(lens, m, s, t);
    if Group(lens, root, t) < Group(lens, root, s) {
      MulStep(Group(lens, root, t), Group(lens, root, s), Pow2(m - root));
    }
  }

  lemma CodesGrouped(lens: seq<nat>, m: nat, work: seq<nat>, root: nat)
    requires Ordered(lens, m, work)
    ensures Grouped(root, CodeList(lens, work))
  {
    var codes := CodeList(lens, work);
    forall i, k | 0 <= i < k < |codes| && SameGroup(root, codes[i], codes[k])
      ensures SameGroup(root, codes[k - 1], codes[k])
    {
      if i < k - 1 {
        OrderSorted(lens, m, work, i, k - 1);
        OrderSorted(lens, m, work, k - 1, k);
        GroupMono(lens, m, root, work[i], work[k - 1]);
        GroupMono(lens, m, root, work[k - 1], work[k]);
        MsbInjective(codes[k - 1][..root], codes[k][..root]);
      }
    }
  }

  /** A group opens at the start of its interval. */
  lemma GroupOpens(lens: seq<nat>, m: nat, root: nat, s: nat, t: nat)
    requires s < |lens| && t < |lens| && 0 < lens[s] <= m && root < lens[t] <= m && root <= m
    requires Kraft(lens, m) <= Pow2(m) && Index(lens, t) == Index(lens, s) + 1
    requires lens[s] <= root || Group(lens, root, s) != Group(lens, root, t)
    ensures Start(lens, m, t) == Group(lens, root, t) * Pow2(m - root)
  {
    Consecutive(lens, m, s, t);
    InsideGroup(lens, m, root, t);
    if lens[s] <= root {
      AlignedEnd(Code(lens, s), m, root, lens[s], Group(lens, root, t));
    } else {
      if !Precedes(lens, s, t) && s != t { IndexOrdered(lens, m, t, s); }
      NextGroupOpens(lens, m, root, s, t);
    }
  }

  lemma NextGroupOpens(lens: seq<nat>, m: nat, root: nat, s: nat, t: nat)
    requires s < |lens| && t < |lens| && root < lens[s] <= m && root < lens[t] <= m
    requires Kraft(lens, m) <= Pow2(m) && Precedes(lens, s, t)
    requires Start(lens, m, t) == Start(lens, m, s) + Pow2(m - lens[s])
    requires Group(lens, root, s) != Group(lens, root, t)
    ensures Start(lens, m, t) == Group(lens, root, t) * Pow2(m - root)
  {
    InsideGroup(lens, m, root, t);
    InsideGroup(lens, m, root, s);
    GroupMono(lens, m, root, s, t);
    MulStep(Group(lens, root, s), Group(lens, root, t), Pow2(m - root));
  }

  /** A code of at most `root` bits ends where a group starts. */
  lemma AlignedEnd(c: nat, m: nat, root: nat, len: nat, g: nat)
    requires len <= root <= m
    requires g * Pow2(m - root) <= c * Pow2(m - len) + Pow2(m - len) < g * Pow2(m - root) + Pow2(m - root)
    ensures c * Pow2(m - len) + Pow2(m - len) == g * Pow2(m - root)
  {
    var d := Pow2(m - root);
    Pow2Add(root - len, m - root);
    Distrib(c, 1, Pow2(m - len));
    MulAssoc(c + 1, Pow2(root - len), d);
    SameMultiple((c + 1) * Pow2(root - len), g, d);
  }

  lemma SameMultiple(a: int, b: int, d: int)
    requires d > 0 && b * d <= a * d < b * d + d
    ensures a == b
  {
    if a > b { MulStep(b, a, d); }
    if a < b { MulStep(a, b, d); }
  }

  /** If the codes of at most `root + c` bits fill the interval of a group from its start, no code of
      the group is longer. */
  lemma GroupCapacity(lens: seq<nat>, m: nat, root: nat, c: nat, s: nat, t: nat)
    requires s < |lens| && t < |lens| && root < lens[s] <= m && root < lens[t] <= m && Kraft(lens, m) <= Pow2(m)
    requires Start(lens, m, s) == Group(lens, root, s) * Pow2(m - root)
    requires KraftBelow(lens, m, root + c + 1) >= Start(lens, m, s) + Pow2(m - root)
    requires Group(lens, root, s) == Group(lens, root, t)
    ensures lens[t] <= root + c
  {
    if lens[t] > root + c {
      StartBounds(lens, m, t);
      KraftBelowMono(lens, m, root + c + 1, lens[t]);
      InsideGroup(lens, m, root, t);
    }
  }
}
