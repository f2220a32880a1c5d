/** Code lengths as they travel in a block header (section 3.2.7 of RFC 1951): the run-length coding of
    trees.c, and the decoding of inflate.c that undoes it. */
module CodeLengths {
  import opened Bits

  const REP_3_6 := 16
  const REPZ_3_10 := 17
  const REPZ_11_138 := 18

  /** One symbol of the bit length alphabet with the value of its extra bits. */
  datatype Item = Item(sym: nat, extra: nat)

  function ExtraBits(sym: nat): nat
  {
    if sym == REP_3_6 then 2 else if sym == REPZ_3_10 then 3 else if sym == REPZ_11_138 then 7 else 0
  }

  predicate ItemOk(it: Item)
  {
    && it.sym <= REPZ_11_138
    && it.extra < if it.sym == REP_3_6 then 4 else if it.sym == REPZ_3_10 then 8 else if it.sym == REPZ_11_138 then 128
      else 1
  }

  ghost predicate AllOk(items: seq<Item>)
  {
    forall i :: 0 <= i < |items| ==> ItemOk(items[i])
  }

  lemma ItemExtraFits(it: Item)
    requires ItemOk(it)
    ensures it.extra < Pow2(ExtraBits(it.sym))
  {
    assert Pow2(2) == 4 && Pow2(3) == 8 && Pow2(7) == 128;
  }

  function Repeat(x: nat, n: nat): (s: seq<nat>)
    ensures |s| == n && forall i :: 0 <= i < n ==> s[i] == x
  {
    seq(n, _ => x)
  }

  datatype Lens = Lens(have: seq<nat>) | BadRepeat

  /** inflate.c: what one symbol adds to the `have` lengths read so far, out of `limit`. */
  function Apply(have: seq<nat>, it: Item, limit: nat): Lens
  {
    if it.sym < 16 then Lens(have + [it.sym])
    else if it.sym == REP_3_6 && have == [] then BadRepeat
    else
      var len := if it.sym == REP_3_6 then have[|have| - 1] else 0;
      var copy := (if it.sym == REPZ_11_138 then 11 else 3) + it.extra;
      if |have| + copy > limit then BadRepeat else Lens(have + Repeat(len, copy))
  }

  function ApplyAll(have: seq<nat>, items: seq<Item>, limit: nat): Lens
    decreases items
  {
    if items == [] then Lens(have)
    else
      var r := Apply(have, items[0], limit);
      if r.BadRepeat? then BadRepeat else ApplyAll(r.have, items[1..], limit)
  }

  lemma {:induction false} ApplyConcat(have: seq<nat>, a: seq<Item>, b: seq<Item>, limit: nat)
    ensures var r := ApplyAll(have, a, limit);
      ApplyAll(have, a + b, limit) == if r.BadRepeat? then BadRepeat else ApplyAll(r.have, b, limit)
    decreases a
  {
    if a == [] {
      assert a + b == b;
    } else {
      assert (a + b)[1..] == a[1..] + b;
      var r := Apply(have, a[0], limit);
      if r.Lens? { ApplyConcat(r.have, a[1..], b, limit); }
    }
  }

  lemma ApplyNone(have: seq<nat>, limit: nat)
    ensures ApplyAll(have, [], limit) == Lens(have)
  {
  }

  /** Longest and shortest run worth a repeat symbol, for a run of `cur` after a length `prev`. */
  function MaxCount(prev: int, cur: nat): nat { if cur == 0 then 138 else if cur == prev then 6 else 7 }
  function MinCount(prev: int, cur: nat): nat { if cur == 0 || cur == prev then 3 else 4 }

  function Items(it: Item, n: nat): (s: seq<Item>)
    ensures |s| == n && forall i :: 0 <= i < n ==> s[i] == it
  {
    seq(n, _ => it)
  }

  /** The symbols for `count` times `cur` after a length `prev`. */
  function Run(prev: int, cur: nat, count: nat): (items: seq<Item>)
    requires 1 <= count <= MaxCount(prev, cur)
  {
    if count < MinCount(prev, cur) then Items(Item(cur, 0), count)
    else if cur != 0 then
      if cur != prev then [Item(cur, 0), Item(REP_3_6, count - 1 - 3)] else [Item(REP_3_6, count - 3)]
    else if count <= 10 then [Item(REPZ_3_10, count - 3)]
    else [Item(REPZ_11_138, count - 11)]
  }

  /** The symbols for `lens[n..]`, when `count` lengths equal to `lens[n]` before it are still to be sent. */
  function Runs(lens: seq<nat>, n: nat, prev: int, count: nat): (items: seq<Item>)
    requires n <= |lens| && (n < |lens| ==> count < MaxCount(prev, lens[n]))
    decreases |lens| - n
  {
    if n == |lens| then []
    else if count + 1 < MaxCount(prev, lens[n]) && n + 1 < |lens| && lens[n + 1] == lens[n] then
      Runs(lens, n + 1, prev, count + 1)
    else
      Run(prev, lens[n], count + 1) + Runs(lens, n + 1, lens[n], 0)
  }

  /** The symbols sent for a tree with code lengths `lens`. */
  function TreeItems(lens: seq<nat>): seq<Item> { Runs(lens, 0, -1, 0) }

  /** `prev` is the length sent last, or -1 at the start of a tree. */
  predicate PrevIs(have: seq<nat>, prev: int)
  {
    prev >= 0 ==> have != [] && have[|have| - 1] == prev
  }

  lemma {:induction false} LiteralRun(have: seq<nat>, cur: nat, count: nat, limit: nat)
    requires cur < 16
    ensures ApplyAll(have, Items(Item(cur, 0), count), limit) == Lens(have + Repeat(cur, count))
    decreases count
  {
    var items := Items(Item(cur, 0), count);
    if count == 0 {
      assert have + Repeat(cur, 0) == have;
    } else {
      assert items[1..] == Items(Item(cur, 0), count - 1);
      LiteralRun(have + [cur], cur, count - 1, limit);
      assert (have + [cur]) + Repeat(cur, count - 1) == have + Repeat(cur, count);
    }
  }

  /** Decoding a run gives back the run. */
  lemma RunDecodes(have: seq<nat>, prev: int, cur: nat, count: nat, limit: nat)
    requires cur < 16 && 1 <= count <= MaxCount(prev, cur) && PrevIs(have, prev) && |have| + count <= limit
    ensures ApplyAll(have, Run(prev, cur, count), limit) == Lens(have + Repeat(cur, count))
  {
    var items := Run(prev, cur, count);
    if count < MinCount(prev, cur) {
      LiteralRun(have, cur, count, limit);
    } else if cur != 0 && cur != prev {
      var rep := Item(REP_3_6, count - 4);
      assert items[1..] == [rep] && [rep][1..] == [];
      assert Apply(have, items[0], limit) == Lens(have + [cur]);
      assert Apply(have + [cur], rep, limit) == Lens((have + [cur]) + Repeat(cur, count - 1));
      assert ApplyAll(have + [cur], [rep], limit) == Lens((have + [cur]) + Repeat(cur, count - 1));
      assert (have + [cur]) + Repeat(cur, count - 1) == have + Repeat(cur, count);
    } else {
      assert items[1..] == [];
    }
  }

  lemma {:induction false} RunsDecode(lens: seq<nat>, n: nat, prev: int, count: nat, have: seq<nat>, limit: nat)
    requires n <= |lens| && (n < |lens| ==> count < MaxCount(prev, lens[n]))
    requires forall i :: 0 <= i < |lens| ==> lens[i] < 16
    requires PrevIs(have, prev) && |have| + count + (|lens| - n) <= limit && (n == |lens| ==> count == 0)
    ensures ApplyAll(have, Runs(lens, n, prev, count), limit)
         == Lens(have + (if n == |lens| then [] else Repeat(lens[n], count)) + lens[n..])
    decreases |lens| - n
  {
    hide ApplyAll, Run;
    if n == |lens| {
      ApplyNone(have, limit);
      assert have + [] + lens[n..] == have;
    } else {
      var cur := lens[n];
      assert lens[n..] == [cur] + lens[n + 1..];
      if count + 1 < MaxCount(prev, cur) && n + 1 < |lens| && lens[n + 1] == cur {
        RunsDecode(lens, n + 1, prev, count + 1, have, limit);
        assert Repeat(cur, count + 1) == Repeat(cur, count) + [cur];
      } else {
        RunDecodes(have, prev, cur, count + 1, limit);
        var have' := have + Repeat(cur, count + 1);
        ApplyConcat(have, Run(prev, cur, count + 1), Runs(lens, n + 1, cur, 0), limit);
        RunsDecode(lens, n + 1, cur, 0, have', limit);
        OneMore(have, cur, count, lens[n + 1..]);
      }
    }
  }

  lemma OneMore(have: seq<nat>, cur: nat, count: nat, rest: seq<nat>)
    ensures have + Repeat(cur, count + 1) + [] + rest == have + Repeat(cur, count) + ([cur] + rest)
  {
    assert Repeat(cur, count + 1) == Repeat(cur, count) + [cur];
  }

  /** Extra values fit their bits. */
  lemma {:induction false} RunsOk(lens: seq<nat>, n: nat, prev: int, count: nat)
    requires n <= |lens| && (n < |lens| ==> count < MaxCount(prev, lens[n]))
    requires forall i :: 0 <= i < |lens| ==> lens[i] < 16
    ensures AllOk(Runs(lens, n, prev, count))
    decreases |lens| - n
  {
    if n < |lens| {
      if count + 1 < MaxCount(prev, lens[n]) && n + 1 < |lens| && lens[n + 1] == lens[n] {
        RunsOk(lens, n + 1, prev, count + 1);
      } else {
        RunsOk(lens, n + 1, lens[n], 0);
      }
    }
  }

  /** Decoding what is sent for the literal tree and then for the distance tree gives back every length in
      order, with no invalid repeat; no repeat crosses from one tree to the other. */
  lemma TreesRoundTrip(llens: seq<nat>, dlens: seq<nat>)
    requires forall i :: 0 <= i < |llens| ==> llens[i] < 16
    requires forall i :: 0 <= i < |dlens| ==> dlens[i] < 16
    ensures ApplyAll([], TreeItems(llens), |llens| + |dlens|) == Lens(llens)
    ensures ApplyAll([], TreeItems(llens) + TreeItems(dlens), |llens| + |dlens|) == Lens(llens + dlens)
  {
    hide Runs, ApplyAll;
    var limit := |llens| + |dlens|;
    RunsDecode(llens, 0, -1, 0, [], limit);
    assert [] + (if 0 == |llens| then [] else Repeat(llens[0], 0)) + llens[0..] == llens;
    RunsDecode(dlens, 0, -1, 0, llens, limit);
    assert llens + (if 0 == |dlens| then [] else Repeat(dlens[0], 0)) + dlens[0..] == llens + dlens;
    ApplyConcat([], TreeItems(llens), TreeItems(dlens), limit);
  }

  /** How often `items` has the symbol `sym`. */
  function Uses(items: seq<Item>, sym: nat): nat
  {
    if items == [] then 0 else Uses(items[..|items| - 1], sym) + if items[|items| - 1].sym == sym then 1 else 0
  }
}
