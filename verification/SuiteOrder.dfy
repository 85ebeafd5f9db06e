/** The order in which gtest-all.cc runs test suites: registration, shuffling, unshuffling. */
module SuiteOrder {
  import opened Glob
  import opened Shuffling

  const DEATH_TEST_SUITE_FILTER := "*DeathTest:*DeathTest/*"

  // ---------------------------------------------------------------- the order of suites

  ghost predicate Death(name: string) {
    AcceptedFrom(DEATH_TEST_SUITE_FILTER, 0, name)
  }

  const DEATH_TEST := "DeathTest"

  /** A suite is a death suite exactly when its name ends in `DeathTest` or contains
      `DeathTest/`. */
  lemma {:induction false} DeathIff(name: string)
    ensures Death(name) <==> EndsIn(name, DEATH_TEST) || Contains(name, DEATH_TEST + "/")
  {
    DeathLiterals();
    TwoPatterns("*DeathTest", "*DeathTest/*", name);
    BelongsAfterStar(DEATH_TEST, false, name);
    BelongsAfterStar(DEATH_TEST + "/", true, name);
  }

  lemma {:induction false} DeathLiterals()
    ensures DEATH_TEST_SUITE_FILTER == "*DeathTest" + ":" + "*DeathTest/*"
    ensures ':' !in "*DeathTest" && ':' !in "*DeathTest/*" && Literal(DEATH_TEST) && Literal(DEATH_TEST + "/")
    ensures "*" + DEATH_TEST + Tail(false) == "*DeathTest" && "*" + (DEATH_TEST + "/") + Tail(true) == "*DeathTest/*"
  {
  }

  /** The suites' names as registered, the order to run them in, and the last death suite. */
  datatype Order = Order(names: seq<string>, indices: seq<int>, last: int)

  ghost predicate Distinct(names: seq<string>) {
    forall i, j :: 0 <= i < j < |names| ==> names[i] != names[j]
  }

  ghost predicate Shaped(o: Order) {
    |o.indices| == |o.names| && -1 <= o.last < |o.names| && Distinct(o.names)
  }

  /** Death suites first, in both lists. */
  ghost predicate Grouped(o: Order) {
    && Shaped(o) && IsPermutation(o.indices)
    && (forall k :: 0 <= k < |o.names| ==> (Death(o.names[k]) <==> k <= o.last))
    && Split(o.indices, o.last)
  }

  predicate Split(indices: seq<int>, last: int) {
    forall p :: 0 <= p < |indices| ==> (indices[p] <= last <==> p <= last)
  }

  ghost function Register(o: Order, name: string): Order
    requires -1 <= o.last < |o.names|
  {
    var n := |o.indices|;
    if name in o.names then o
    else if Death(name) then
      Order(o.names[..o.last + 1] + [name] + o.names[o.last + 1..], o.indices + [n], o.last + 1)
    else Order(o.names + [name], o.indices + [n], o.last)
  }

  function ShuffleOrder(o: Order, state: UInt32): Order
    requires |o.indices| == |o.names| && -1 <= o.last < |o.names|
  {
    var deaths := Shuffled(o.indices, 0, o.last + 1, state);
    var others := |o.names| - (o.last + 1);
    o.(indices := Shuffled(deaths, o.last + 1, others, StateAfter(o.last + 1, state)))
  }

  function UnshuffleOrder(o: Order): Order {
    o.(indices := Identity(|o.names|))
  }

  predicate InRange(o: Order) {
    forall p :: 0 <= p < |o.indices| ==> 0 <= o.indices[p] < |o.names|
  }

  /** The suites in the order they run. */
  function RunOrder(o: Order): (r: seq<string>)
    requires InRange(o)
    ensures |r| == |o.indices| && forall p :: 0 <= p < |r| ==> r[p] == o.names[o.indices[p]]
  {
    seq(|o.indices|, p requires 0 <= p < |o.indices| => o.names[o.indices[p]])
  }

  /** Every suite runs once, and every death suite before every other suite. */
  lemma {:induction false} DeathFirst(o: Order)
    requires Grouped(o)
    ensures InRange(o)
    ensures forall p, q :: 0 <= p < q < |o.names| && Death(RunOrder(o)[q]) ==> Death(RunOrder(o)[p])
    ensures Distinct(RunOrder(o))
    ensures forall name :: name in RunOrder(o) <==> name in o.names
  {
    PermutationPositions(o.indices);
    forall name | name in o.names ensures name in RunOrder(o) {
      var k :| 0 <= k < |o.names| && o.names[k] == name;
      assert k in o.indices;
      var p :| 0 <= p < |o.indices| && o.indices[p] == k;
      assert RunOrder(o)[p] == name;
    }
  }

  lemma {:induction false} ShuffleKeepsGrouped(o: Order, state: UInt32)
    requires Grouped(o)
    ensures Grouped(ShuffleOrder(o, state))
  {
    var n, m := |o.names|, o.last + 1;
    var deaths := Shuffled(o.indices, 0, m, state);
    var all := ShuffleOrder(o, state).indices;
    ShuffledPermutes(o.indices, 0, m, m, state);
    ShuffledPermutes(deaths, m, n - m, n, StateAfter(m, state));
    PermutesAll(deaths, o.indices, 0, m);
    PermutesAll(all, deaths, m, n);
    PermutesKeepsSplit(deaths, o.indices, 0, m, o.last);
    PermutesKeepsSplit(all, deaths, m, n, o.last);
  }

  lemma {:induction false} PermutesKeepsSplit(r: seq<int>, v: seq<int>, begin: nat, end: nat, last: int)
    requires begin <= end <= |v| && Permutes(r, v, begin, end) && Split(v, last)
    requires end <= last + 1 <= |v| || begin == last + 1
    ensures Split(r, last)
  {
    PermutesAll(r, v, begin, end);
    forall p | 0 <= p < |r| ensures r[p] <= last <==> p <= last {
      if begin <= p < end {
        var q :| 0 <= q < |v[begin..end]| && v[begin..end][q] == r[p];
        assert v[begin + q] == r[p];
      }
    }
  }

  lemma {:induction false} UnshuffleKeepsGrouped(o: Order)
    requires Grouped(o)
    ensures Grouped(UnshuffleOrder(o))
  {
  }

  // ---------------------------------------------------------------- registration

  /** A new suite keeps the groups exactly when it is no death suite, or no other suite has
      been moved to the place where it would run. */
  lemma {:induction false} RegisterKeepsGroupedIff(o: Order, name: string)
    requires Grouped(o)
    ensures Grouped(Register(o, name)) <==>
      name in o.names || !Death(name) || o.last + 1 == |o.names| || o.indices[o.last + 1] == o.last + 1
  {
    var n := |o.names|;
    var r := Register(o, name);
    if name !in o.names {
      MorePermutation(o.indices);
      PermutationPositions(o.indices);
      RegisterShaped(o, name);
      if !Death(name) || o.last + 1 == n || o.indices[o.last + 1] == o.last + 1 {
        RegisterSplit(o, name);
      } else {
        assert r.indices[r.last] == o.indices[r.last] > r.last;
      }
    }
  }

  /** No death suite runs after another suite. */
  ghost predicate DeathsRunFirst(o: Order)
    requires InRange(o)
  {
    forall p, q :: 0 <= p < q < |RunOrder(o)| && Death(RunOrder(o)[q]) ==> Death(RunOrder(o)[p])
  }

  lemma {:induction false} RegisterInRange(o: Order, name: string)
    requires Grouped(o)
    ensures InRange(o) && InRange(Register(o, name))
  {
    PermutationPositions(o.indices);
    if name !in o.names {
      MorePermutation(o.indices);
      PermutationPositions(o.indices + [|o.indices|]);
    }
  }

  /** Exactly then the death suites also still run first. */
  lemma {:induction false} RegisterRunsDeathFirstIff(o: Order, name: string)
    requires Grouped(o)
    ensures InRange(Register(o, name))
    ensures DeathsRunFirst(Register(o, name)) <==>
      name in o.names || !Death(name) || o.last + 1 == |o.names| || o.indices[o.last + 1] == o.last + 1
  {
    RegisterInRange(o, name);
    RegisterKeepsGroupedIff(o, name);
    if Grouped(Register(o, name)) {
      DeathFirst(Register(o, name));
    } else {
      DisplacedRunsLate(o, name);
    }
  }

  /** The suite in the first place after the death suites runs before the new one. */
  lemma {:induction false} DisplacedRunsLate(o: Order, name: string)
    requires Grouped(o) && name !in o.names && Death(name) && InRange(Register(o, name))
    requires o.last + 1 < |o.names| && o.indices[o.last + 1] != o.last + 1
    ensures !DeathsRunFirst(Register(o, name))
  {
    var r, p := Register(o, name), o.last + 1;
    PermutationPositions(o.indices);
    RegisterShaped(o, name);
    assert p in o.indices;
    var q :| 0 <= q < |o.indices| && o.indices[q] == p;
    assert r.indices[p] == o.indices[p] > r.last && r.indices[q] == r.last;
    assert !Death(RunOrder(r)[p]) && Death(RunOrder(r)[q]);
  }

  lemma {:induction false} MorePermutation(s: seq<int>)
    requires IsPermutation(s)
    ensures IsPermutation(s + [|s|])
  {
    assert Identity(|s| + 1) == Identity(|s|) + [|s|];
  }

  lemma {:induction false} RegisterShaped(o: Order, name: string)
    requires Grouped(o) && name !in o.names
    ensures Shaped(Register(o, name))
    ensures var r := Register(o, name);
      forall k :: 0 <= k < |r.names| ==> (Death(r.names[k]) <==> k <= r.last)
  {
    var k := if Death(name) then o.last + 1 else |o.names|;
    var r := Register(o, name);
    assert o.names[..|o.names|] + [name] + o.names[|o.names|..] == o.names + [name];
    assert r.names == o.names[..k] + [name] + o.names[k..];
    InsertedDistinct(o.names, k, name);
    forall i | 0 <= i < |r.names| ensures Death(r.names[i]) <==> i <= r.last {
      InsertedAt(o.names, k, name, i);
    }
  }

  lemma {:induction false} InsertedAt(names: seq<string>, k: nat, name: string, i: nat)
    requires k <= |names| && i <= |names|
    ensures (names[..k] + [name] + names[k..])[i] == if i < k then names[i] else if i == k then name else names[i - 1]
  {
  }

  lemma {:induction false} InsertedDistinct(names: seq<string>, k: nat, name: string)
    requires k <= |names| && Distinct(names) && name !in names
    ensures Distinct(names[..k] + [name] + names[k..])
  {
  }

  lemma {:induction false} RegisterSplit(o: Order, name: string)
    requires Grouped(o) && name !in o.names && (forall p :: 0 <= p < |o.indices| ==> o.indices[p] < |o.indices|)
    requires forall p, q :: 0 <= p < q < |o.indices| ==> o.indices[p] != o.indices[q]
    requires !Death(name) || o.last + 1 == |o.names| || o.indices[o.last + 1] == o.last + 1
    ensures Split(Register(o, name).indices, Register(o, name).last)
  {
  }

  datatype Op = OpRegister(name: string) | OpShuffle(state: UInt32) | OpUnshuffle

  ghost predicate Indexed(o: Order) {
    |o.indices| == |o.names| && -1 <= o.last < |o.names|
  }

  ghost function Do(o: Order, op: Op): (r: Order)
    requires Indexed(o)
    ensures Indexed(r)
  {
    match op
    case OpRegister(name) => Register(o, name)
    case OpShuffle(state) => ShuffleOrder(o, state)
    case OpUnshuffle => UnshuffleOrder(o)
  }

  /** The suites after a run of operations. */
  ghost function After(ops: seq<Op>): (o: Order)
    ensures Indexed(o)
  {
    if ops == [] then Order([], [], -1) else Do(After(ops[..|ops| - 1]), ops[|ops| - 1])
  }

  predicate Unshuffled(o: Order) {
    o.indices == Identity(|o.names|)
  }

  /** Suites are registered only while they are not shuffled. */
  ghost predicate Allowed(ops: seq<Op>) {
    forall k :: 0 <= k < |ops| && ops[k].OpRegister? ==> Unshuffled(After(ops[..k]))
  }

  /** Over every such run the death suites stay first. */
  lemma {:induction false} RunsStayGrouped(ops: seq<Op>)
    requires Allowed(ops)
    ensures Grouped(After(ops))
  {
    if ops == [] {
      assert Identity(0) == [];
    } else {
      var before, op := ops[..|ops| - 1], ops[|ops| - 1];
      assert forall k :: 0 <= k < |before| ==> before[..k] == ops[..k];
      RunsStayGrouped(before);
      match op {
        case OpRegister(name) => RegisterKeepsGroupedIff(After(before), name);
        case OpShuffle(state) => ShuffleKeepsGrouped(After(before), state);
        case OpUnshuffle => UnshuffleKeepsGrouped(After(before));
      }
    }
  }

  lemma {:induction false} FirstDraw()
    ensures NextState(1) == 1103527590 && Chosen(0, 2, 1103527590) == 0
  {
  }

  lemma {:induction false} PairTurned()
    ensures Shuffled([0, 1], 0, 2, 1) == [1, 0]
  {
    FirstDraw();
    assert Swapped([0, 1], 0, 1) == [1, 0];
    assert Shuffled([1, 0], 0, 1, 1103527590) == [1, 0];
  }

  /** The shuffle of two suites by seed 1 turns them round. */
  lemma {:induction false} PairShuffled(a: string, b: string)
    ensures ShuffleOrder(Order([a, b], [0, 1], -1), 1) == Order([a, b], [1, 0], -1)
  {
    PairTurned();
    assert Shuffled([0, 1], 0, 0, 1) == [0, 1] && StateAfter(0, 1) == 1;
  }

  lemma {:induction false} RegisterIntoTurned(o: Order, a: string, b: string, d: string)
    requires !Death(a) && !Death(b) && Death(d) && a != b && o == Order([a, b], [1, 0], -1)
    ensures Grouped(o) && InRange(Register(o, d)) && RunOrder(Register(o, d)) == [a, d, b]
  {
    assert Identity(2) == [0, 1];
    assert Register(o, d) == Order([d, a, b], [1, 0, 2], 0);
  }

  /** Registering while shuffled can run a death test after another: two suites, shuffled to
      run in the other order, then a death suite. */
  lemma {:induction false} RegisterWhileShuffled(a: string, b: string, d: string)
    requires !Death(a) && !Death(b) && Death(d) && a != b
    ensures var o := ShuffleOrder(Order([a, b], [0, 1], -1), 1);
      Grouped(o) && InRange(Register(o, d)) && RunOrder(Register(o, d)) == [a, d, b]
  {
    PairShuffled(a, b);
    RegisterIntoTurned(ShuffleOrder(Order([a, b], [0, 1], -1), 1), a, b, d);
  }

  /** The death suites among names, or the others, in order. */
  ghost function Only(names: seq<string>, death: bool): seq<string> {
    if names == [] then []
    else
      var (rest, name) := (Only(names[..|names| - 1], death), names[|names| - 1]);
      if Death(name) == death then rest + [name] else rest
  }

  ghost function Registrations(names: seq<string>): (ops: seq<Op>)
    ensures |ops| == |names| && forall k :: 0 <= k < |ops| ==> ops[k] == OpRegister(names[k])
  {
    seq(|names|, k requires 0 <= k < |names| => OpRegister(names[k]))
  }

  lemma {:induction false} OnlyHolds(names: seq<string>)
    ensures forall name :: name in names <==> name in Only(names, true) || name in Only(names, false)
  {
    if names != [] {
      OnlyHolds(names[..|names| - 1]);
      assert names == names[..|names| - 1] + [names[|names| - 1]];
    }
  }

  /** Registering suites of different names lists the death suites in the order of their
      registration, then the others in theirs, to be run in that order. */
  lemma {:induction false} RegisteredInOrder(names: seq<string>)
    requires Distinct(names)
    ensures var o := After(Registrations(names));
      && o.names == Only(names, true) + Only(names, false) && o.last == |Only(names, true)| - 1 && Unshuffled(o)
  {
    if names == [] {
      assert Identity(0) == [];
    } else {
      var before, name := names[..|names| - 1], names[|names| - 1];
      var o := After(Registrations(before));
      RegisteredInOrder(before);
      assert Registrations(names)[..|before|] == Registrations(before);
      OnlyHolds(before);
      assert name !in before;
      RegisteredLast(o, Only(before, true), Only(before, false), name);
    }
  }

  lemma {:induction false} RegisteredLast(o: Order, deaths: seq<string>, others: seq<string>, name: string)
    requires o.names == deaths + others && o.last == |deaths| - 1 && Unshuffled(o) && name !in o.names
    ensures var r := Register(o, name);
      && Unshuffled(r)
      && (Death(name) ==> r.names == deaths + [name] + others && r.last == |deaths|)
      && (!Death(name) ==> r.names == deaths + (others + [name]) && r.last == |deaths| - 1)
  {
    assert o.names[..|deaths|] == deaths && o.names[|deaths|..] == others;
    assert Identity(|o.names| + 1) == Identity(|o.names|) + [|o.names|];
  }

  // ---------------------------------------------------------------- the classes

  class TestSuite {
    const name: string
    var testCount: nat
    var testIndices: seq<int>

    ghost predicate Valid()
      reads this
    {
      |testIndices| == testCount <= MAX_RANGE && IsPermutation(testIndices)
    }

    constructor (name: string)
      ensures this.name == name && testCount == 0 && Valid()
    {
      this.name := name;
      testCount, testIndices := 0, [];
      assert Identity(0) == [];
    }

    method AddTestInfo()
      requires Valid() && testCount < MAX_RANGE
      modifies this
      ensures Valid() && testCount == old(testCount) + 1 && testIndices == old(testIndices) + [old(testCount)]
    {
      MorePermutation(testIndices);
      testCount := testCount + 1;
      testIndices := testIndices + [|testIndices|];
    }

    method ShuffleTests(random: Random)
      requires Valid()
      modifies this, random
      ensures Valid() && testCount == old(testCount)
      ensures testIndices == Shuffled(old(testIndices), 0, testCount, old(random.state))
      ensures random.state == StateAfter(testCount, old(random.state))
    {
      ShuffledPermutes(testIndices, 0, testCount, testCount, random.state);
      PermutesAll(Shuffled(testIndices, 0, testCount, random.state), testIndices, 0, testCount);
      testIndices := ShuffleRange(random, 0, |testIndices|, testIndices);
    }

    method UnshuffleTests()
      requires Valid()
      modifies this
      ensures Valid() && testCount == old(testCount) && testIndices == Identity(testCount)
    {
      var i := 0;
      while i < |testIndices|
        invariant 0 <= i <= |testIndices| == testCount == old(testCount)
        invariant testIndices[..i] == Identity(i)
      {
        testIndices := testIndices[i := i];
        i := i + 1;
        assert testIndices[..i] == testIndices[..i - 1] + [i - 1];
      }
      assert testIndices[..i] == testIndices;
    }
  }

  function Names(suites: seq<TestSuite>): (r: seq<string>)
    ensures |r| == |suites| && forall i :: 0 <= i < |r| ==> r[i] == suites[i].name
  {
    seq(|suites|, i requires 0 <= i < |suites| => suites[i].name)
  }

  lemma {:induction false} NamesDiffer(suites: seq<TestSuite>)
    requires Distinct(Names(suites))
    ensures forall i, j :: 0 <= i < j < |suites| ==> suites[i] != suites[j]
  {
    assert forall i, j :: 0 <= i < j < |suites| ==> Names(suites)[i] != Names(suites)[j];
  }

  lemma {:induction false} NameDecides(suites: seq<TestSuite>, suite: TestSuite)
    requires Distinct(Names(suites)) && suite in suites
    ensures forall s :: s in suites && s.name == suite.name ==> s == suite
  {
    forall s | s in suites && s.name == suite.name ensures s == suite {
      var i :| 0 <= i < |suites| && suites[i] == s;
      var j :| 0 <= j < |suites| && suites[j] == suite;
      assert Names(suites)[i] == Names(suites)[j];
    }
  }

  /** The test indices of every suite. */
  ghost function AllIndices(suites: seq<TestSuite>): (lists: seq<seq<int>>)
    reads suites
    ensures |lists| == |suites| && forall k :: 0 <= k < |suites| ==> lists[k] == suites[k].testIndices
  {
    seq(|suites|, k requires 0 <= k < |suites| reads suites => suites[k].testIndices)
  }

  /** The generator's state when list n is shuffled, one list after another. */
  ghost function StateBefore(lists: seq<seq<int>>, n: nat, state: UInt32): UInt32
    requires n <= |lists|
  {
    if n == 0 then state else StateAfter(|lists[n - 1]|, StateBefore(lists, n - 1, state))
  }

  /** The first n lists shuffled. */
  ghost function ShuffledLists(lists: seq<seq<int>>, n: nat, state: UInt32): (r: seq<seq<int>>)
    requires n <= |lists|
    ensures |r| == |lists| && forall k :: n <= k < |lists| ==> r[k] == lists[k]
    ensures forall k :: 0 <= k < |lists| ==> |r[k]| == |lists[k]|
  {
    if n == 0 then lists
    else
      var list := lists[n - 1];
      ShuffledLists(lists, n - 1, state)[n - 1 := Shuffled(list, 0, |list|, StateBefore(lists, n - 1, state))]
  }

  lemma {:induction false} ShuffledNext(lists: seq<seq<int>>, n: nat, state: UInt32)
    requires n < |lists|
    ensures
      var (list, s) := (lists[n], StateBefore(lists, n, state));
      && ShuffledLists(lists, n, state)[n] == list
      && ShuffledLists(lists, n + 1, state) == ShuffledLists(lists, n, state)[n := Shuffled(list, 0, |list|, s)]
      && StateBefore(lists, n + 1, state) == StateAfter(|list|, s)
  {
  }

  ghost predicate AllValid(suites: seq<TestSuite>)
    reads suites
  {
    forall s :: s in suites ==> s.Valid()
  }

  method ShuffleOne(suites: seq<TestSuite>, i: nat, random: Random)
    requires i < |suites| && AllValid(suites) && forall j, k :: 0 <= j < k < |suites| ==> suites[j] != suites[k]
    modifies random, suites[i]
    ensures AllValid(suites) && suites[i].testCount == old(suites[i].testCount)
    ensures
      var list := old(AllIndices(suites)[i]);
      && AllIndices(suites) == old(AllIndices(suites))[i := Shuffled(list, 0, |list|, old(random.state))]
      && random.state == StateAfter(|list|, old(random.state))
  {
    suites[i].ShuffleTests(random);
  }

  /** Shuffles the tests of each suite. */
  method ShuffleEach(suites: seq<TestSuite>, random: Random)
    requires AllValid(suites) && forall j, k :: 0 <= j < k < |suites| ==> suites[j] != suites[k]
    modifies random, suites
    ensures AllValid(suites) && forall s :: s in suites ==> s.testCount == old(s.testCount)
    ensures AllIndices(suites) == ShuffledLists(old(AllIndices(suites)), |suites|, old(random.state))
    ensures random.state == StateBefore(old(AllIndices(suites)), |suites|, old(random.state))
  {
    ghost var lists, state := AllIndices(suites), random.state;
    for i := 0 to |suites|
      invariant AllValid(suites)
      invariant AllIndices(suites) == ShuffledLists(lists, i, state)
      invariant random.state == StateBefore(lists, i, state)
    {
      ShuffledNext(lists, i, state);
      ShuffleOne(suites, i, random);
    }
    forall s | s in suites ensures s.testCount == old(s.testCount) {
      var k :| 0 <= k < |suites| && suites[k] == s;
      assert |AllIndices(suites)[k]| == |lists[k]|;
    }
  }

  class UnitTestImpl {
    var testSuites: seq<TestSuite>
    var testSuiteIndices: seq<int>
    var lastDeathTestSuite: int
    const random: Random

    function Current(): Order
      reads this
    {
      Order(Names(testSuites), testSuiteIndices, lastDeathTestSuite)
    }

    ghost predicate Valid()
      reads this, testSuites
    {
      Shaped(Current()) && |testSuites| <= MAX_RANGE && forall s :: s in testSuites ==> s.Valid()
    }

    constructor (random: Random)
      ensures Valid() && Grouped(Current()) && Current() == After([]) && this.random == random && testSuites == []
    {
      this.random := random;
      testSuites, testSuiteIndices, lastDeathTestSuite := [], [], -1;
      assert Identity(0) == [];
    }

    /** The last suite of that name. */
    method FindTestSuite(name: string) returns (suite: TestSuite?)
      ensures suite == null <==> name !in Names(testSuites)
      ensures suite != null ==> suite in testSuites && suite.name == name
    {
      var i := |testSuites|;
      while i > 0
        invariant 0 <= i <= |testSuites|
        invariant forall k :: i <= k < |testSuites| ==> testSuites[k].name != name
      {
        i := i - 1;
        if testSuites[i].name == name {
          assert Names(testSuites)[i] == name;
          return testSuites[i];
        }
      }
      return null;
    }

    /** Registers a suite of a new name. */
    method AddTestSuite(name: string) returns (suite: TestSuite)
      requires Valid() && |testSuites| < MAX_RANGE && name !in Names(testSuites)
      modifies this`testSuites, this`testSuiteIndices, this`lastDeathTestSuite
      ensures Valid() && Current() == Register(old(Current()), name)
      ensures suite in testSuites && suite.name == name && fresh(suite) && suite.testCount == 0
      ensures forall s :: s in testSuites <==> s in old(testSuites) || s == suite
    {
      RegisterKeepsShaped(Current(), name);
      suite := new TestSuite(name);
      var death := MatchesFilter(name, DEATH_TEST_SUITE_FILTER);
      if death {
        lastDeathTestSuite := lastDeathTestSuite + 1;
        NamesInserted(testSuites, suite, lastDeathTestSuite);
        testSuites := testSuites[..lastDeathTestSuite] + [suite] + testSuites[lastDeathTestSuite..];
      } else {
        NamesInserted(testSuites, suite, |testSuites|);
        testSuites := testSuites + [suite];
      }
      testSuiteIndices := testSuiteIndices + [|testSuiteIndices|];
    }

    /** Finds the suite of that name, or registers one: a death suite after the last death suite,
        any other at the end. */
    method GetTestSuite(name: string) returns (suite: TestSuite)
      requires Valid() && |testSuites| < MAX_RANGE
      modifies this`testSuites, this`testSuiteIndices, this`lastDeathTestSuite
      ensures Valid() && Current() == Register(old(Current()), name)
      ensures suite in testSuites && suite.name == name
      ensures suite in old(testSuites) || (fresh(suite) && suite.testCount == 0)
      ensures forall s :: s in old(testSuites) ==> s in testSuites
    {
      ghost var was := Current();
      RegisterKeepsShaped(was, name);
      var found := FindTestSuite(name);
      if found != null {
        return found;
      }
      suite := AddTestSuite(name);
    }

    /** Adds a test to the suite of that name, registering the suite if need be; the suites are
        not shuffled while tests are added. */
    method AddTestInfo(suiteName: string)
      requires Valid() && |testSuites| < MAX_RANGE && Grouped(Current()) && Unshuffled(Current())
      requires forall s :: s in testSuites ==> s.testCount < MAX_RANGE
      modifies this`testSuites, this`testSuiteIndices, this`lastDeathTestSuite, testSuites
      ensures Valid() && Current() == Register(old(Current()), suiteName)
      ensures Grouped(Current()) && Unshuffled(Current())
      ensures forall s :: s in old(testSuites) ==>
                s in testSuites && s.testCount == old(s.testCount) + if s.name == suiteName then 1 else 0
    {
      RegisterUnshuffled(Current(), suiteName);
      var suite := GetTestSuite(suiteName);
      NameDecides(testSuites, suite);
      suite.AddTestInfo();
    }

    /** The i-th suite in running order. */
    function GetMutableSuiteCase(i: int): (suite: TestSuite?)
      requires Indexed(Current()) && InRange(Current())
      reads this
      ensures if 0 <= i < |testSuites| then suite != null && suite in testSuites && suite.name == RunOrder(Current())[i]
              else suite == null
    {
      var index := if 0 <= i < |testSuiteIndices| then testSuiteIndices[i] else -1;
      if index < 0 then null else testSuites[index]
    }

    /** The read-only accessor looks the index up, but then takes the i-th registered suite. */
    function TestSuiteAt(i: int): TestSuite?
      requires |testSuiteIndices| == |testSuites|
      reads this
    {
      var index := if 0 <= i < |testSuiteIndices| then testSuiteIndices[i] else -1;
      if index < 0 then null else testSuites[i]
    }

    /** So the two accessors agree exactly while the suites are not shuffled. */
    lemma {:induction false} AccessorsAgreeIff()
      requires Grouped(Current()) && InRange(Current())
      ensures (forall i :: TestSuiteAt(i) == GetMutableSuiteCase(i)) <==> Unshuffled(Current())
    {
      PermutationPositions(testSuiteIndices);
      NamesDiffer(testSuites);
      if forall i :: TestSuiteAt(i) == GetMutableSuiteCase(i) {
        forall i | 0 <= i < |testSuites| ensures testSuiteIndices[i] == i {
          assert TestSuiteAt(i) == GetMutableSuiteCase(i);
        }
      }
    }

    /** The two calls that shuffle the suites. */
    method ShuffleSuites()
      requires Valid()
      modifies this`testSuiteIndices, random
      ensures Valid() && Current() == ShuffleOrder(old(Current()), old(random.state))
      ensures random.state == old(SuitesShuffled())
    {
      testSuiteIndices := ShuffleRange(random, 0, lastDeathTestSuite + 1, testSuiteIndices);
      testSuiteIndices := ShuffleRange(random, lastDeathTestSuite + 1, |testSuites|, testSuiteIndices);
    }

    /** Shuffles the death suites, the other suites, and the tests of each suite. */
    method ShuffleTests()
      requires Valid()
      modifies this`testSuiteIndices, random, testSuites
      ensures Valid() && Current() == ShuffleOrder(old(Current()), old(random.state))
      ensures forall s :: s in testSuites ==> s.testCount == old(s.testCount)
      ensures AllIndices(testSuites) == ShuffledLists(old(AllIndices(testSuites)), |testSuites|, old(SuitesShuffled()))
    {
      NamesDiffer(testSuites);
      ShuffleSuites();
      ShuffleEach(testSuites, random);
    }

    /** The generator's state after the suites are shuffled. */
    ghost function SuitesShuffled(): UInt32
      requires -1 <= lastDeathTestSuite < |testSuites|
      reads this, random
    {
      StateAfter(|testSuites| - (lastDeathTestSuite + 1), StateAfter(lastDeathTestSuite + 1, random.state))
    }

    /** Restores the order of the suites and of the tests in each. */
    method UnshuffleTests()
      requires Valid()
      modifies this`testSuiteIndices, testSuites
      ensures Valid() && Current() == UnshuffleOrder(old(Current()))
      ensures forall s :: s in testSuites ==> s.testCount == old(s.testCount) && s.testIndices == Identity(s.testCount)
    {
      for i := 0 to |testSuites|
        invariant |testSuiteIndices| == |testSuites| && testSuiteIndices[..i] == Identity(i)
        invariant forall s :: s in testSuites ==> s.Valid() && s.testCount == old(s.testCount)
        invariant forall k :: 0 <= k < i ==> testSuites[k].testIndices == Identity(testSuites[k].testCount)
      {
        testSuites[i].UnshuffleTests();
        testSuiteIndices := testSuiteIndices[i := i];
        assert testSuiteIndices[..i + 1] == testSuiteIndices[..i] + [i];
      }
      assert testSuiteIndices[..|testSuites|] == testSuiteIndices;
    }

    /** Runs the suites once: the log is their names. */
    method RunSuites() returns (ran: seq<string>)
      requires Grouped(Current())
      ensures InRange(Current()) && ran == RunOrder(Current())
    {
      ran := [];
      PermutationPositions(testSuiteIndices);
      for testIndex := 0 to |testSuites|
        invariant ran == RunOrder(Current())[..testIndex]
      {
        var suite := GetMutableSuiteCase(testIndex);
        ran := ran + [suite.name];
      }
    }
  }

  lemma {:induction false} NamesInserted(suites: seq<TestSuite>, suite: TestSuite, k: nat)
    requires k <= |suites|
    ensures Names(suites[..k] + [suite] + suites[k..]) == Names(suites)[..k] + [suite.name] + Names(suites)[k..]
    ensures k == |suites| ==> suites[..k] + [suite] + suites[k..] == suites + [suite]
    ensures Names(suites + [suite]) == Names(suites) + [suite.name]
    ensures forall s :: s in suites[..k] + [suite] + suites[k..] <==> s in suites || s == suite
  {
    assert suites == suites[..k] + suites[k..];
  }

  lemma {:induction false} RegisterKeepsShaped(o: Order, name: string)
    requires Shaped(o)
    ensures Shaped(Register(o, name))
  {
  }

  /** What callers must see to: registering into unshuffled suites keeps the groups, and leaves
      the suites unshuffled. */
  lemma {:induction false} RegisterUnshuffled(o: Order, name: string)
    requires Grouped(o) && Unshuffled(o)
    ensures Grouped(Register(o, name)) && Unshuffled(Register(o, name))
  {
    RegisterKeepsGroupedIff(o, name);
    assert Identity(|o.names| + 1) == Identity(|o.names|) + [|o.names|];
  }

  const MAX_RANDOM_SEED := 99999

  function GetNextRandomSeed(seed: UInt32): (next: UInt32)
    requires 1 <= seed <= MAX_RANDOM_SEED
    ensures 1 <= next <= MAX_RANDOM_SEED
  {
    if seed + 1 > MAX_RANDOM_SEED then 1 else seed + 1
  }

  /** The seed of the k-th iteration. */
  function SeedOf(seed: UInt32, k: nat): (s: UInt32)
    requires 1 <= seed <= MAX_RANDOM_SEED
    ensures 1 <= s <= MAX_RANDOM_SEED
  {
    if k == 0 then seed else GetNextRandomSeed(SeedOf(seed, k - 1))
  }

  /** The seeds go round: 99999 repetitions in a row have different ones. */
  lemma {:induction false} SeedsGoRound(seed: UInt32, k: nat)
    requires 1 <= seed <= MAX_RANDOM_SEED
    ensures SeedOf(seed, k) == (seed - 1 + k) % MAX_RANDOM_SEED + 1
  {
    if k > 0 { SeedsGoRound(seed, k - 1); }
  }

  lemma {:induction false} SeedsDiffer(seed: UInt32, j: nat, k: nat)
    requires 1 <= seed <= MAX_RANDOM_SEED && j < k < j + MAX_RANDOM_SEED
    ensures SeedOf(seed, j) != SeedOf(seed, k)
  {
    SeedsGoRound(seed, j);
    SeedsGoRound(seed, k);
    RemaindersDiffer(seed - 1 + j, seed - 1 + k);
  }

  lemma {:induction false} RemaindersDiffer(a: nat, b: nat)
    requires a < b < a + MAX_RANDOM_SEED
    ensures a % MAX_RANDOM_SEED != b % MAX_RANDOM_SEED
  {
  }

  /** The order of one iteration: shuffled from the unshuffled order, by its own seed. */
  function Iteration(o: Order, shuffle: bool, seed: UInt32): Order
    requires Indexed(o)
  {
    if shuffle then ShuffleOrder(o, seed) else o
  }

  lemma {:induction false} IterationGrouped(o: Order, shuffle: bool, seed: UInt32)
    requires Grouped(o)
    ensures Grouped(Iteration(o, shuffle, seed)) && InRange(Iteration(o, shuffle, seed))
  {
    if shuffle {
      ShuffleKeepsGrouped(o, seed);
    }
    PermutationPositions(Iteration(o, shuffle, seed).indices);
  }

  /** Nothing runs when no test does. */
  ghost function IterationRun(o: Order, hasTestsToRun: bool, shuffle: bool, seed: UInt32): seq<string>
    requires Grouped(o)
  {
    IterationGrouped(o, shuffle, seed);
    if hasTestsToRun then RunOrder(Iteration(o, shuffle, seed)) else []
  }

  /** What a repetition does before its suites run. */
  method BeginIteration(impl: UnitTestImpl, hasTestsToRun: bool, shuffle: bool, seed: UInt32)
    requires impl.Valid()
    modifies impl`testSuiteIndices, impl.random, impl.testSuites
    ensures impl.Valid() && impl.testSuites == old(impl.testSuites)
    ensures impl.Current()
            == if hasTestsToRun then Iteration(old(impl.Current()), shuffle, seed) else old(impl.Current())
  {
    if hasTestsToRun && shuffle {
      impl.random.Reseed(seed);
      impl.ShuffleTests();
    }
  }

  /** One repetition. */
  method RunIteration(impl: UnitTestImpl, hasTestsToRun: bool, shuffle: bool, seed: UInt32) returns (ran: seq<string>)
    requires impl.Valid() && Grouped(impl.Current()) && Unshuffled(impl.Current())
    modifies impl`testSuiteIndices, impl.random, impl.testSuites
    ensures impl.Valid() && impl.Current() == old(impl.Current()) && impl.testSuites == old(impl.testSuites)
    ensures ran == IterationRun(old(impl.Current()), hasTestsToRun, shuffle, seed)
  {
    IterationGrouped(impl.Current(), shuffle, seed);
    BeginIteration(impl, hasTestsToRun, shuffle, seed);
    ran := [];
    if hasTestsToRun {
      ran := impl.RunSuites();
    }
    impl.UnshuffleTests();
  }

  /** What n repetitions run: each in the order that its own seed gives, whatever ran before. */
  ghost function Log(o: Order, hasTestsToRun: bool, shuffle: bool, seed: UInt32, n: nat): (log: seq<seq<string>>)
    requires Grouped(o) && 1 <= seed <= MAX_RANDOM_SEED
    ensures |log| == n && forall k :: 0 <= k < n ==> log[k] == IterationRun(o, hasTestsToRun, shuffle, SeedOf(seed, k))
  {
    if n == 0 then []
    else Log(o, hasTestsToRun, shuffle, seed, n - 1) + [IterationRun(o, hasTestsToRun, shuffle, SeedOf(seed, n - 1))]
  }

  lemma {:induction false} LogNext(o: Order, hasTestsToRun: bool, shuffle: bool, seed: UInt32, i: nat,
                                   randomSeed: UInt32)
    requires Grouped(o) && 1 <= seed <= MAX_RANDOM_SEED && (shuffle ==> randomSeed == SeedOf(seed, i))
    ensures Log(o, hasTestsToRun, shuffle, seed, i + 1)
         == Log(o, hasTestsToRun, shuffle, seed, i) + [IterationRun(o, hasTestsToRun, shuffle, randomSeed)]
  {
    if !shuffle {
      assert Iteration(o, false, randomSeed) == Iteration(o, false, SeedOf(seed, i));
    }
  }

  /** The test program's repetitions; afterwards the suites are as registered again. */
  method RunAllTests(impl: UnitTestImpl, hasTestsToRun: bool, repeat: nat, shuffle: bool, seed: UInt32)
    returns (log: seq<seq<string>>)
    requires impl.Valid() && Grouped(impl.Current()) && Unshuffled(impl.Current()) && 1 <= seed <= MAX_RANDOM_SEED
    modifies impl`testSuiteIndices, impl.random, impl.testSuites
    ensures impl.Valid() && impl.Current() == old(impl.Current())
    ensures log == Log(old(impl.Current()), hasTestsToRun, shuffle, seed, repeat)
  {
    log := [];
    ghost var start := impl.Current();
    var randomSeed := seed;
    for i := 0 to repeat
      invariant impl.Valid() && impl.Current() == start && impl.testSuites == old(impl.testSuites)
      invariant 1 <= randomSeed <= MAX_RANDOM_SEED && (shuffle ==> randomSeed == SeedOf(seed, i))
      invariant log == Log(start, hasTestsToRun, shuffle, seed, i)
    {
      LogNext(start, hasTestsToRun, shuffle, seed, i, randomSeed);
      var ran := RunIteration(impl, hasTestsToRun, shuffle, randomSeed);
      log := log + [ran];
      if shuffle {
        randomSeed := GetNextRandomSeed(randomSeed);
      }
    }
  }
}
