/** The random numbers of gtest-all.cc and the shuffle of a range by them: which orders it
    gives, and that the drawn numbers decide the order. */
module Shuffling {

  type UInt32 = u: int | 0 <= u < 0x1_0000_0000

  const MAX_RANGE := 0x8000_0000

  // ---------------------------------------------------------------- random numbers

  /** The linear congruential step, in 64 bits, cut to 32 and then to 31. */
  function NextState(state: UInt32): UInt32 {
    (1103515245 * state + 12345) % 0x1_0000_0000 % MAX_RANGE
  }

  class Random {
    var state: UInt32

    constructor (seed: UInt32)
      ensures state == seed
    {
      state := seed;
    }

    method Reseed(seed: UInt32)
      modifies this
      ensures state == seed
    {
      state := seed;
    }

    method Generate(range: UInt32) returns (n: UInt32)
      requires 0 < range <= MAX_RANGE
      modifies this
      ensures state == NextState(old(state)) && n == state % range
    {
      state := (1103515245 * state + 12345) % 0x1_0000_0000 % MAX_RANGE;
      n := state % range;
    }
  }

  // ---------------------------------------------------------------- shuffling a range

  function Swapped<T>(v: seq<T>, i: nat, j: nat): (r: seq<T>)
    requires i < |v| && j < |v|
  {
    v[i := v[j]][j := v[i]]
  }

  /** The random position in the range. */
  function Chosen(begin: nat, width: nat, state: UInt32): (i: nat)
    requires width > 0
    ensures begin <= i < begin + width
  {
    begin + state % width
  }

  /** Fisher-Yates on the `width` elements from `begin` on: the last of them is swapped with a
      random one, then the others are shuffled. */
  function Shuffled<T>(v: seq<T>, begin: nat, width: nat, state: UInt32): (r: seq<T>)
    requires begin + width <= |v|
    ensures |r| == |v|
    decreases width
  {
    if width < 2 then v
    else
      var s := NextState(state);
      Shuffled(Swapped(v, Chosen(begin, width, s), begin + width - 1), begin, width - 1, s)
  }

  function StateAfter(width: nat, state: UInt32): UInt32
    decreases width
  {
    if width < 2 then state else StateAfter(width - 1, NextState(state))
  }

  method ShuffleRange<T>(random: Random, begin: nat, end: nat, v: seq<T>) returns (v': seq<T>)
    requires begin <= end <= |v| && end - begin <= MAX_RANGE
    modifies random
    ensures v' == Shuffled(v, begin, end - begin, old(random.state))
    ensures random.state == StateAfter(end - begin, old(random.state))
  {
    v' := v;
    var rangeWidth := end - begin;
    while rangeWidth >= 2
      invariant 0 <= rangeWidth <= end - begin && |v'| == |v|
      invariant Shuffled(v', begin, rangeWidth, random.state) == Shuffled(v, begin, end - begin, old(random.state))
      invariant StateAfter(rangeWidth, random.state) == StateAfter(end - begin, old(random.state))
    {
      var lastInRange := begin + rangeWidth - 1;
      var n := random.Generate(rangeWidth);
      var selected := begin + n;
      v' := v'[selected := v'[lastInRange]][lastInRange := v'[selected]];
      rangeWidth := rangeWidth - 1;
    }
  }

  /** r is v with the elements of [begin, end) in another order. */
  ghost predicate Permutes<T>(r: seq<T>, v: seq<T>, begin: nat, end: nat)
    requires begin <= end <= |v|
  {
    && |r| == |v| && r[..begin] == v[..begin] && r[end..] == v[end..]
    && multiset(r[begin..end]) == multiset(v[begin..end])
  }

  lemma {:induction false} SwapPermutes<T>(v: seq<T>, begin: nat, end: nat, i: nat, j: nat)
    requires begin <= i < end <= |v| && begin <= j < end
    ensures Permutes(Swapped(v, i, j), v, begin, end)
  {
    assert Swapped(v, i, j)[begin..end] == Swapped(v[begin..end], i - begin, j - begin);
  }

  lemma {:induction false} ShuffledPermutes<T>(v: seq<T>, begin: nat, width: nat, end: nat, state: UInt32)
    requires begin + width <= end <= |v|
    ensures Permutes(Shuffled(v, begin, width, state), v, begin, end)
    decreases width
  {
    if width >= 2 {
      var s := NextState(state);
      SwapPermutes(v, begin, end, Chosen(begin, width, s), begin + width - 1);
      ShuffledPermutes(Swapped(v, Chosen(begin, width, s), begin + width - 1), begin, width - 1, end, s);
    }
  }

  // ---------------------------------------------------------------- the draws decide the order

  /** The numbers drawn for a shuffle of `width` elements: below width, below width - 1, and so
      on down to below 2. */
  function Draws(width: nat, state: UInt32): seq<nat>
    decreases width
  {
    if width < 2 then [] else [NextState(state) % width] + Draws(width - 1, NextState(state))
  }

  predicate Drawable(draws: seq<nat>, width: nat)
    decreases width
  {
    if width < 2 then draws == [] else draws != [] && draws[0] < width && Drawable(draws[1..], width - 1)
  }

  /** Where the draws put the elements of the range. */
  function Dealt<T>(v: seq<T>, begin: nat, width: nat, draws: seq<nat>): (r: seq<T>)
    requires begin + width <= |v| && Drawable(draws, width)
    ensures |r| == |v|
    decreases width
  {
    if width < 2 then v
    else Dealt(Swapped(v, begin + draws[0], begin + width - 1), begin, width - 1, draws[1..])
  }

  lemma {:induction false} ShuffledIsDealt<T>(v: seq<T>, begin: nat, width: nat, state: UInt32)
    requires begin + width <= |v|
    ensures Drawable(Draws(width, state), width)
    ensures Shuffled(v, begin, width, state) == Dealt(v, begin, width, Draws(width, state))
    decreases width
  {
    if width >= 2 {
      var s := NextState(state);
      var v' := Swapped(v, Chosen(begin, width, s), begin + width - 1);
      ShuffledIsDealt(v', begin, width - 1, s);
      FirstDealt(v, begin, width, Chosen(begin, width, s), v', Draws(width - 1, s));
    }
  }

  /** No element of the range is there twice. */
  ghost predicate AllDifferent<T>(v: seq<T>, begin: nat, end: nat)
    requires begin <= end <= |v|
  {
    forall i, j :: begin <= i < j < end ==> v[i] != v[j]
  }

  /** Dealing leaves what is outside the range. */
  lemma {:induction false} DealtOutside<T>(v: seq<T>, begin: nat, width: nat, draws: seq<nat>, k: nat)
    requires begin + width <= |v| && Drawable(draws, width) && k < |v| && !(begin <= k < begin + width)
    ensures Dealt(v, begin, width, draws)[k] == v[k]
    decreases width
  {
    if width >= 2 {
      DealtOutside(Swapped(v, begin + draws[0], begin + width - 1), begin, width - 1, draws[1..], k);
    }
  }

  lemma {:induction false} SwappedDifferent<T>(v: seq<T>, begin: nat, end: nat, i: nat)
    requires begin <= i < end <= |v| && AllDifferent(v, begin, end)
    ensures AllDifferent(Swapped(v, i, end - 1), begin, end - 1)
  {
  }

  /** Different draws deal different orders. */
  lemma {:induction false} DrawsDecide<T>(v: seq<T>, begin: nat, width: nat, a: seq<nat>, b: seq<nat>)
    requires begin + width <= |v| && AllDifferent(v, begin, begin + width) && Drawable(a, width) && Drawable(b, width)
    ensures Dealt(v, begin, width, a) == Dealt(v, begin, width, b) <==> a == b
    decreases width
  {
    if width >= 2 {
      var last := begin + width - 1;
      var va, vb := Swapped(v, begin + a[0], last), Swapped(v, begin + b[0], last);
      DealtOutside(va, begin, width - 1, a[1..], last);
      DealtOutside(vb, begin, width - 1, b[1..], last);
      if Dealt(v, begin, width, a) == Dealt(v, begin, width, b) {
        assert v[begin + a[0]] == v[begin + b[0]];
        assert a[0] == b[0];
        SwappedDifferent(v, begin, begin + width, begin + a[0]);
        DrawsDecide(va, begin, width - 1, a[1..], b[1..]);
        assert a == [a[0]] + a[1..] && b == [b[0]] + b[1..];
      }
    }
  }

  /** Two shuffles of different elements agree exactly when all their drawn numbers do. */
  lemma {:induction false} ShufflesAgreeIff<T>(v: seq<T>, begin: nat, width: nat, s: UInt32, t: UInt32)
    requires begin + width <= |v| && AllDifferent(v, begin, begin + width)
    ensures Shuffled(v, begin, width, s) == Shuffled(v, begin, width, t) <==> Draws(width, s) == Draws(width, t)
  {
    ShuffledIsDealt(v, begin, width, s);
    ShuffledIsDealt(v, begin, width, t);
    DrawsDecide(v, begin, width, Draws(width, s), Draws(width, t));
  }

  /** What the first three seeds draw for three elements, and the orders dealt. */
  lemma {:induction false} FirstSeeds<T>(a: T, b: T, c: T)
    ensures Draws(3, 1) == [0, 1] && Shuffled([a, b, c], 0, 3, 1) == [c, b, a]
    ensures Draws(3, 2) == [1, 0] && Shuffled([a, b, c], 0, 3, 2) == [c, a, b]
    ensures Draws(3, 3) == [1, 1] && Shuffled([a, b, c], 0, 3, 3) == [a, c, b]
  {
    FirstStates();
    DealThree(a, b, c);
    SeedDeals([a, b, c], 1, 1103527590, 377401575, [0, 1]);
    SeedDeals([a, b, c], 2, 59559187, 1495354192, [1, 0]);
    SeedDeals([a, b, c], 3, 1163074432, 465823161, [1, 1]);
  }

  lemma {:induction false} FirstStates()
    ensures NextState(1) == 1103527590 && NextState(1103527590) == 377401575
    ensures NextState(2) == 59559187 && NextState(59559187) == 1495354192
    ensures NextState(3) == 1163074432 && NextState(1163074432) == 465823161
  {
  }

  lemma {:induction false} SeedDeals<T>(v: seq<T>, seed: UInt32, s: UInt32, t: UInt32, draws: seq<nat>)
    requires |v| == 3 && NextState(seed) == s && NextState(s) == t && draws == [s % 3, t % 2]
    ensures Draws(3, seed) == draws && Drawable(draws, 3) && Shuffled(v, 0, 3, seed) == Dealt(v, 0, 3, draws)
  {
    assert Draws(2, s) == [t % 2] + Draws(1, t) == [t % 2];
    ShuffledIsDealt(v, 0, 3, seed);
  }

  lemma {:induction false} DealThree<T>(a: T, b: T, c: T)
    ensures Dealt([a, b, c], 0, 3, [0, 1]) == [c, b, a] && Dealt([a, b, c], 0, 3, [1, 0]) == [c, a, b]
    ensures Dealt([a, b, c], 0, 3, [1, 1]) == [a, c, b]
  {
    assert Dealt([c, b, a], 0, 2, [1]) == [c, b, a];
    assert Dealt([a, c, b], 0, 2, [0]) == [c, a, b];
    assert Dealt([a, c, b], 0, 2, [1]) == [a, c, b];
    assert [0, 1][1..] == [1] && [1, 0][1..] == [0] && [1, 1][1..] == [1];
  }

  /** Every order of the range is dealt by some draws. */
  lemma {:induction false} EveryOrderIsDealt<T>(v: seq<T>, begin: nat, width: nat, end: nat, r: seq<T>)
    returns (draws: seq<nat>)
    requires begin + width == end <= |v| && Permutes(r, v, begin, end)
    ensures Drawable(draws, width) && Dealt(v, begin, width, draws) == r
    decreases width
  {
    if width < 2 {
      draws := [];
      NothingPermuted(v, begin, width, r);
    } else {
      var last := end - 1;
      var i, v' := LastInPlace(v, begin, last, r);
      var rest := EveryOrderIsDealt(v', begin, width - 1, last, r);
      FirstDealt(v, begin, width, i, v', rest);
      draws := [i - begin] + rest;
    }
  }

  lemma {:induction false} LastInPlace<T>(v: seq<T>, begin: nat, last: nat, r: seq<T>) returns (i: nat, v': seq<T>)
    requires begin <= last < |v| && Permutes(r, v, begin, last + 1)
    ensures begin <= i <= last && v' == Swapped(v, i, last) && |v'| == |v| && Permutes(r, v', begin, last)
  {
    i := LastFound(v, begin, last, r);
    v' := Swapped(v, i, last);
    SwappedPermuted(v, begin, last + 1, r, i, last);
    RestPermutes(v', begin, last, r);
  }

  lemma {:induction false} FirstDealt<T>(v: seq<T>, begin: nat, width: nat, i: nat, v': seq<T>, draws: seq<nat>)
    requires begin + width <= |v| && width >= 2 && begin <= i < begin + width && v' == Swapped(v, i, begin + width - 1)
    requires |v'| == |v| && Drawable(draws, width - 1)
    ensures Drawable([i - begin] + draws, width)
    ensures Dealt(v, begin, width, [i - begin] + draws) == Dealt(v', begin, width - 1, draws)
  {
    var more := [i - begin] + draws;
    assert more[0] == i - begin && more[1..] == draws;
  }

  /** Every order of different elements is dealt by exactly one sequence of draws: the shuffle
      favours no order that the draws do not favour. */
  lemma {:induction false} EveryOrderIsDealtOnce<T>(v: seq<T>, begin: nat, width: nat, r: seq<T>)
    returns (draws: seq<nat>)
    requires begin + width <= |v| && AllDifferent(v, begin, begin + width) && Permutes(r, v, begin, begin + width)
    ensures forall ds :: Drawable(ds, width) ==> (Dealt(v, begin, width, ds) == r <==> ds == draws)
    ensures Drawable(draws, width)
  {
    draws := EveryOrderIsDealt(v, begin, width, begin + width, r);
    forall ds | Drawable(ds, width) ensures Dealt(v, begin, width, ds) == r <==> ds == draws {
      DrawsDecide(v, begin, width, ds, draws);
    }
  }

  lemma {:induction false} NothingPermuted<T>(v: seq<T>, begin: nat, width: nat, r: seq<T>)
    requires width < 2 && begin + width <= |v| && Permutes(r, v, begin, begin + width)
    ensures r == v
  {
    var end := begin + width;
    assert r == r[..begin] + r[begin..end] + r[end..] && v == v[..begin] + v[begin..end] + v[end..];
    if width == 1 {
      assert r[begin..end] == [r[begin]] && v[begin..end] == [v[begin]];
      assert r[begin] in multiset(v[begin..end]);
    }
  }

  lemma {:induction false} LastFound<T>(v: seq<T>, begin: nat, last: nat, r: seq<T>) returns (i: nat)
    requires begin <= last < |v| && Permutes(r, v, begin, last + 1)
    ensures begin <= i <= last && v[i] == r[last]
  {
    assert r[last] == r[begin..last + 1][last - begin];
    assert r[last] in multiset(v[begin..last + 1]);
    var k :| 0 <= k < last + 1 - begin && v[begin..last + 1][k] == r[last];
    i := begin + k;
  }

  /** With its last element in place the rest of the range is permuted. */
  lemma {:induction false} RestPermutes<T>(v: seq<T>, begin: nat, last: nat, r: seq<T>)
    requires begin <= last < |v| && Permutes(r, v, begin, last + 1) && v[last] == r[last]
    ensures Permutes(r, v, begin, last)
  {
    FrontPermutes(r[begin..last + 1], v[begin..last + 1]);
    FrontOf(r, begin, last);
    FrontOf(v, begin, last);
    SameFrom(r, v, last);
  }

  lemma {:induction false} FrontOf<T>(v: seq<T>, begin: nat, last: nat)
    requires begin <= last < |v|
    ensures v[begin..last + 1][..|v[begin..last + 1]| - 1] == v[begin..last]
  {
  }

  lemma {:induction false} SameFrom<T>(r: seq<T>, v: seq<T>, last: nat)
    requires last < |v| == |r| && r[last] == v[last] && r[last + 1..] == v[last + 1..]
    ensures r[last..] == v[last..]
  {
    assert r[last..] == [r[last]] + r[last + 1..] && v[last..] == [v[last]] + v[last + 1..];
  }

  lemma {:induction false} SwappedPermuted<T>(v: seq<T>, begin: nat, end: nat, r: seq<T>, i: nat, j: nat)
    requires begin <= i < end <= |v| && begin <= j < end && Permutes(r, v, begin, end)
    ensures Permutes(r, Swapped(v, i, j), begin, end)
  {
    SwapPermutes(v, begin, end, i, j);
  }

  lemma {:induction false} FrontPermutes<T>(a: seq<T>, b: seq<T>)
    requires |a| == |b| > 0 && a[|a| - 1] == b[|b| - 1] && multiset(a) == multiset(b)
    ensures multiset(a[..|a| - 1]) == multiset(b[..|b| - 1])
  {
    var n := |a| - 1;
    assert a == a[..n] + [a[n]] && b == b[..n] + [b[n]];
    assert multiset(a[..n]) == multiset(a) - multiset{a[n]};
    assert multiset(b[..n]) == multiset(b) - multiset{b[n]};
  }

  lemma {:induction false} PermutesAll<T>(r: seq<T>, v: seq<T>, begin: nat, end: nat)
    requires begin <= end <= |v| && Permutes(r, v, begin, end)
    ensures multiset(r) == multiset(v)
    ensures forall k :: 0 <= k < begin || end <= k < |v| ==> r[k] == v[k]
    ensures forall k :: begin <= k < end ==> r[k] in v[begin..end]
  {
    assert r == r[..begin] + r[begin..end] + r[end..] && v == v[..begin] + v[begin..end] + v[end..];
    forall k ensures (0 <= k < begin ==> r[k] == v[k]) && (end <= k < |v| ==> r[k] == v[k]) {
      assert 0 <= k < begin ==> r[k] == r[..begin][k] && v[k] == v[..begin][k];
      assert end <= k < |v| ==> r[k] == r[end..][k - end] && v[k] == v[end..][k - end];
    }
    forall k | begin <= k < end ensures r[k] in v[begin..end] {
      assert r[k] == r[begin..end][k - begin];
      assert r[k] in multiset(v[begin..end]);
    }
  }

  function Identity(n: nat): (r: seq<int>)
    ensures |r| == n && forall k :: 0 <= k < n ==> r[k] == k
  {
    seq(n, k => k)
  }

  /** Each of 0 .. |s|-1, once. */
  ghost predicate IsPermutation(s: seq<int>) {
    multiset(s) == multiset(Identity(|s|))
  }

  lemma {:induction false} IdentityOnce(n: nat, k: int)
    ensures multiset(Identity(n))[k] == if 0 <= k < n then 1 else 0
  {
    if n > 0 {
      assert Identity(n) == Identity(n - 1) + [n - 1];
      IdentityOnce(n - 1, k);
    }
  }

  lemma {:induction false} CountTwice<T>(s: seq<T>, p: nat, q: nat)
    requires p < q < |s| && s[p] == s[q]
    ensures multiset(s)[s[p]] >= 2
  {
    assert s == s[..p] + [s[p]] + s[p + 1..q] + [s[q]] + s[q + 1..];
  }

  /** A permutation has every index at exactly one position. */
  lemma {:induction false} PermutationPositions(s: seq<int>)
    requires IsPermutation(s)
    ensures forall p :: 0 <= p < |s| ==> 0 <= s[p] < |s|
    ensures forall p, q :: 0 <= p < q < |s| ==> s[p] != s[q]
    ensures forall k :: 0 <= k < |s| ==> k in s
  {
    forall p | 0 <= p < |s| ensures 0 <= s[p] < |s| {
      assert s[p] in multiset(s);
      IdentityOnce(|s|, s[p]);
    }
    forall p, q | 0 <= p < q < |s| ensures s[p] != s[q] {
      IdentityOnce(|s|, s[p]);
      if s[p] == s[q] { CountTwice(s, p, q); }
    }
    forall k | 0 <= k < |s| ensures k in s {
      IdentityOnce(|s|, k);
      assert k in multiset(s);
    }
  }
}
