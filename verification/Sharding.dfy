/** The choice of the tests to run in gtest-all.cc, and their distribution over shards. */
module Sharding {
  import opened Glob

  const DISABLE_TEST_FILTER := "DISABLED_*:*/DISABLED_*"

  const DISABLED := "DISABLED_"

  /** A name is one of a disabled test or suite exactly when it begins with `DISABLED_` or
      contains `/DISABLED_`. */
  lemma {:induction false} DisabledIff(name: string)
    ensures AcceptedFrom(DISABLE_TEST_FILTER, 0, name) <==> DISABLED <= name || Contains(name, "/" + DISABLED)
  {
    DisabledLiterals();
    TwoPatterns("DISABLED_*", "*/DISABLED_*", name);
    BelongsLiteral(DISABLED, true, name);
    BelongsAfterStar("/" + DISABLED, true, name);
  }

  lemma {:induction false} DisabledLiterals()
    ensures DISABLE_TEST_FILTER == "DISABLED_*" + ":" + "*/DISABLED_*"
    ensures ':' !in "DISABLED_*" && ':' !in "*/DISABLED_*" && Literal(DISABLED) && Literal("/" + DISABLED)
    ensures DISABLED + Tail(true) == "DISABLED_*" && "*" + ("/" + DISABLED) + Tail(true) == "*/DISABLED_*"
  {
  }

  // ---------------------------------------------------------------- shards of a list of tests

  /** How many tests are runnable. */
  function Count(flags: seq<bool>): (n: nat)
    ensures n <= |flags|
  {
    if flags == [] then 0
    else Count(flags[..|flags| - 1]) + if flags[|flags| - 1] then 1 else 0
  }

  predicate ShouldRunTestOnShard(totalShards: int, shardIndex: int, testId: nat)
    requires totalShards > 0
  {
    testId % totalShards == shardIndex
  }

  /** A runnable test's id is the number of runnable tests before it. */
  predicate Selected(flags: seq<bool>, i: nat, total: int, shard: int)
    requires i < |flags| && total > 0
  {
    flags[i] && ShouldRunTestOnShard(total, shard, Count(flags[..i]))
  }

  /** How many tests run on a shard. */
  function SelectedCount(flags: seq<bool>, total: int, shard: int): (n: nat)
    requires total > 0
    ensures n <= |flags|
  {
    if flags == [] then 0
    else
      var before := SelectedCount(flags[..|flags| - 1], total, shard);
      before + if Selected(flags, |flags| - 1, total, shard) then 1 else 0
  }

  /** Every runnable test runs on exactly one shard. */
  lemma {:induction false} OnOneShard(flags: seq<bool>, i: nat, total: int)
    requires i < |flags| && total > 0 && flags[i]
    ensures exists shard :: 0 <= shard < total && Selected(flags, i, total, shard)
    ensures forall s, t :: Selected(flags, i, total, s) && Selected(flags, i, total, t) ==> s == t
  {
    assert Selected(flags, i, total, Count(flags[..i]) % total);
  }

  /** A shard runs an equal share of the runnable tests, rounded up for the first ones. */
  lemma {:induction false} EqualShare(flags: seq<bool>, total: int, shard: int)
    requires 0 <= shard < total
    ensures SelectedCount(flags, total, shard) == (Count(flags) + total - 1 - shard) / total
  {
    if flags == [] {
      NoShare(total, shard);
    } else {
      var before := flags[..|flags| - 1];
      EqualShare(before, total, shard);
      if flags[|flags| - 1] {
        ShareGrows(Count(before), total, shard);
      }
    }
  }

  lemma {:induction false} NoShare(total: int, shard: int)
    requires 0 <= shard < total
    ensures (total - 1 - shard) / total == 0
  {
  }

  lemma {:induction false} ShareGrows(n: nat, total: int, shard: int)
    requires 0 <= shard < total
    ensures (n + total - shard) / total == (n + total - 1 - shard) / total + if n % total == shard then 1 else 0
  {
    var (q, r) := (n / total, n % total);
    assert n == q * total + r;
    if r < shard {
      Quotient(n + total - shard, q, r + total - shard, total);
      Quotient(n + total - 1 - shard, q, r + total - 1 - shard, total);
    } else if r == shard {
      Quotient(n + total - shard, q + 1, 0, total);
      Quotient(n + total - 1 - shard, q, total - 1, total);
    } else {
      Quotient(n + total - shard, q + 1, r - shard, total);
      Quotient(n + total - 1 - shard, q + 1, r - 1 - shard, total);
    }
  }

  lemma {:induction false} Quotient(n: int, q: int, r: int, total: int)
    requires 0 <= r < total && n == q * total + r
    ensures n / total == q
  {
    var (p, s) := (n / total, n % total);
    assert n == p * total + s;
    assert (p - q) * total == p * total - q * total == r - s;
    NoMultiple(p - q, total);
  }

  lemma {:induction false} NoMultiple(d: int, total: int)
    requires -total < d * total < total
    ensures d == 0
  {
    if d >= 1 {
      Product(d - 1, total);
    } else if d <= -1 {
      Product(-d - 1, total);
    }
  }

  lemma {:induction false} Product(a: nat, b: nat)
    ensures var (x: int, y: int) := (a, b); x * y >= 0 && (x + 1) * y >= y && (-x - 1) * y <= -y
  {
  }

  /** No shard runs two tests more than another. */
  lemma {:induction false} Balanced(flags: seq<bool>, total: int, s: int, t: int)
    requires 0 <= s < total && 0 <= t < total
    ensures -1 <= SelectedCount(flags, total, s) - SelectedCount(flags, total, t) <= 1
  {
    EqualShare(flags, total, s);
    EqualShare(flags, total, t);
    if s <= t {
      NearQuotients(Count(flags) + total - 1 - t, t - s, total);
    } else {
      NearQuotients(Count(flags) + total - 1 - s, s - t, total);
    }
  }

  lemma {:induction false} NearQuotients(n: int, d: int, total: int)
    requires 0 <= d < total
    ensures n / total <= (n + d) / total <= n / total + 1
  {
    var (q, r) := (n / total, n % total);
    assert n == q * total + r;
    if r + d < total {
      Quotient(n + d, q, r + d, total);
    } else {
      Quotient(n + d, q + 1, r + d - total, total);
    }
  }

  /** How many tests run on the first n shards. */
  function SelectedUpTo(flags: seq<bool>, total: int, n: nat): nat
    requires total > 0
  {
    if n == 0 then 0 else SelectedUpTo(flags, total, n - 1) + SelectedCount(flags, total, n - 1)
  }

  /** Together the shards run every runnable test once. */
  lemma {:induction false} ShardsPartition(flags: seq<bool>, total: nat)
    requires total > 0
    ensures SelectedUpTo(flags, total, total) == Count(flags)
  {
    if flags == [] {
      NothingSelected(total, total);
    } else {
      ShardsPartition(flags[..|flags| - 1], total);
      OneMoreTest(flags, total, total);
    }
  }

  lemma {:induction false} NothingSelected(total: int, n: nat)
    requires total > 0
    ensures SelectedUpTo([], total, n) == 0
  {
    if n > 0 { NothingSelected(total, n - 1); }
  }

  lemma {:induction false} OneMoreTest(flags: seq<bool>, total: int, n: nat)
    requires total > 0 && flags != []
    ensures var (before, id) := (flags[..|flags| - 1], Count(flags[..|flags| - 1]));
      SelectedUpTo(flags, total, n) ==
      SelectedUpTo(before, total, n) + if flags[|flags| - 1] && id % total < n then 1 else 0
  {
    if n > 0 { OneMoreTest(flags, total, n - 1); }
  }

  // ---------------------------------------------------------------- filtering

  class TestInfo {
    const name: string
    var isDisabled: bool
    var matchesFilter: bool
    var isInAnotherShard: bool
    var shouldRun: bool

    constructor (name: string)
      ensures this.name == name
    {
      this.name := name;
    }
  }

  class TestSuite {
    const name: string
    const tests: seq<TestInfo>
    var shouldRun: bool

    constructor (name: string, tests: seq<TestInfo>)
      ensures this.name == name && this.tests == tests
    {
      this.name, this.tests := name, tests;
    }
  }

  /** The flags of the command line, and the shard of the environment if sharding is on. */
  datatype Options =
    Options(filter: string, alsoRunDisabledTests: bool, sharding: bool, totalShards: int, shardIndex: int)

  ghost predicate Disabled(suite: string, test: string) {
    AcceptedFrom(DISABLE_TEST_FILTER, 0, suite) || AcceptedFrom(DISABLE_TEST_FILTER, 0, test)
  }

  /** What the names of a suite and a test decide. */
  datatype Verdict = Verdict(disabled: bool, matches: bool)

  ghost function VerdictOf(filter: string, suite: string, test: string): Verdict {
    Verdict(Disabled(suite, test), Passes(filter, suite + "." + test))
  }

  /** The verdicts on all names. */
  type Rule = (string, string) -> Verdict

  ghost function RuleOf(filter: string): Rule {
    (suite, test) => VerdictOf(filter, suite, test)
  }

  ghost predicate Follows(rule: Rule, filter: string) {
    forall suite, test {:trigger VerdictOf(filter, suite, test)} :: rule(suite, test) == VerdictOf(filter, suite, test)
  }

  lemma {:induction false} RuleFollows(filter: string)
    ensures Follows(RuleOf(filter), filter)
  {
  }

  predicate ShardingOk(o: Options) {
    o.sharding ==> o.totalShards > 1 && 0 <= o.shardIndex < o.totalShards
  }

  /** Is the runnable test of this id to run here. */
  predicate Mine(o: Options, id: nat)
    requires ShardingOk(o)
  {
    o.sharding ==> ShouldRunTestOnShard(o.totalShards, o.shardIndex, id)
  }

  ghost predicate Runnable(o: Options, rule: Rule, suite: TestSuite, j: nat)
    requires j < |suite.tests|
  {
    var v := rule(suite.name, suite.tests[j].name);
    (o.alsoRunDisabledTests || !v.disabled) && v.matches
  }

  /** How many of a suite's first n tests are runnable. */
  ghost function RunnableIn(o: Options, rule: Rule, suite: TestSuite, n: nat): nat
    requires n <= |suite.tests|
  {
    if n == 0 then 0 else RunnableIn(o, rule, suite, n - 1) + if Runnable(o, rule, suite, n - 1) then 1 else 0
  }

  /** How many of them run here, when `base` runnable tests come before. */
  ghost function ChosenIn(o: Options, rule: Rule, suite: TestSuite, base: nat, n: nat): nat
    requires ShardingOk(o) && n <= |suite.tests|
  {
    if n == 0 then 0
    else
      var runs := Runnable(o, rule, suite, n - 1) && Mine(o, base + RunnableIn(o, rule, suite, n - 1));
      ChosenIn(o, rule, suite, base, n - 1) + if runs then 1 else 0
  }

  /** The same over the first n suites. */
  ghost function RunnableBefore(o: Options, rule: Rule, suites: seq<TestSuite>, n: nat): nat
    requires n <= |suites|
  {
    if n == 0 then 0
    else RunnableBefore(o, rule, suites, n - 1) + RunnableIn(o, rule, suites[n - 1], |suites[n - 1].tests|)
  }

  ghost function ChosenBefore(o: Options, rule: Rule, suites: seq<TestSuite>, n: nat): nat
    requires ShardingOk(o) && n <= |suites|
  {
    if n == 0 then 0
    else
      var suite, base := suites[n - 1], RunnableBefore(o, rule, suites, n - 1);
      ChosenBefore(o, rule, suites, n - 1) + ChosenIn(o, rule, suite, base, |suite.tests|)
  }

  /** What is recorded for the j-th test of a suite, when `base` runnable tests come before the
      suite. */
  ghost predicate Recorded(o: Options, rule: Rule, suite: TestSuite, j: nat, base: nat)
    requires ShardingOk(o) && j < |suite.tests|
    reads suite.tests[j]
  {
    var t, mine := suite.tests[j], Mine(o, base + RunnableIn(o, rule, suite, j));
    && rule(suite.name, t.name) == Verdict(t.isDisabled, t.matchesFilter)
    && t.isInAnotherShard == !mine
    && t.shouldRun == (Runnable(o, rule, suite, j) && mine)
  }

  method FilterTest(o: Options, suite: TestSuite, j: nat, numRunnable: nat, ghost rule: Rule, ghost base: nat)
    returns (runnable: bool, selected: bool)
    requires ShardingOk(o) && Follows(rule, o.filter)
    requires j < |suite.tests| && numRunnable == base + RunnableIn(o, rule, suite, j)
    modifies suite.tests[j]
    ensures Recorded(o, rule, suite, j, base) && selected == suite.tests[j].shouldRun
    ensures RunnableIn(o, rule, suite, j + 1) == RunnableIn(o, rule, suite, j) + if runnable then 1 else 0
    ensures ChosenIn(o, rule, suite, base, j + 1) == ChosenIn(o, rule, suite, base, j) + if selected then 1 else 0
  {
    var t := suite.tests[j];
    t.isDisabled, t.matchesFilter := Judge(suite.name, t.name, o.filter);
    assert rule(suite.name, t.name) == VerdictOf(o.filter, suite.name, t.name);
    runnable := (o.alsoRunDisabledTests || !t.isDisabled) && t.matchesFilter;
    t.isInAnotherShard := o.sharding && !ShouldRunTestOnShard(o.totalShards, o.shardIndex, numRunnable);
    selected := runnable && !t.isInAnotherShard;
    t.shouldRun := selected;
  }

  method Judge(suite: string, test: string, filter: string) returns (isDisabled: bool, matchesFilter: bool)
    ensures Verdict(isDisabled, matchesFilter) == VerdictOf(filter, suite, test)
  {
    var suiteDisabled := MatchesFilter(suite, DISABLE_TEST_FILTER);
    var testDisabled := MatchesFilter(test, DISABLE_TEST_FILTER);
    isDisabled := suiteDisabled || testDisabled;
    matchesFilter := FilterMatchesTest(suite, test, filter);
  }

  /** No test is in a suite twice. */
  ghost predicate TestsDiffer(suite: TestSuite) {
    forall i, j :: 0 <= i < j < |suite.tests| ==> suite.tests[i] != suite.tests[j]
  }

  /** What is recorded for a suite. */
  ghost predicate SuiteRecorded(o: Options, rule: Rule, suite: TestSuite, base: nat)
    requires ShardingOk(o)
    reads suite, suite.tests
  {
    && (forall j :: 0 <= j < |suite.tests| ==> Recorded(o, rule, suite, j, base))
    && (suite.shouldRun <==> exists j :: 0 <= j < |suite.tests| && suite.tests[j].shouldRun)
  }

  /** The first n tests. */
  ghost predicate TestsRecorded(o: Options, rule: Rule, suite: TestSuite, base: nat, n: nat)
    requires ShardingOk(o) && n <= |suite.tests|
    reads suite.tests[..n]
  {
    n == 0 || (
      assert suite.tests[..n - 1] == suite.tests[..n][..n - 1];
      TestsRecorded(o, rule, suite, base, n - 1) && Recorded(o, rule, suite, n - 1, base))
  }

  lemma {:induction false} EachRecorded(o: Options, rule: Rule, suite: TestSuite, base: nat, n: nat)
    requires ShardingOk(o) && n <= |suite.tests| && TestsRecorded(o, rule, suite, base, n)
    ensures forall j :: 0 <= j < n ==> Recorded(o, rule, suite, j, base)
  {
    if n > 0 { EachRecorded(o, rule, suite, base, n - 1); }
  }

  /** One of the first n tests runs. */
  ghost predicate AnyRuns(suite: TestSuite, n: nat)
    requires n <= |suite.tests|
    reads suite.tests[..n]
  {
    n > 0 && (
      assert suite.tests[..n - 1] == suite.tests[..n][..n - 1];
      AnyRuns(suite, n - 1) || suite.tests[n - 1].shouldRun)
  }

  lemma {:induction false} AnyRunsIff(suite: TestSuite, n: nat)
    requires n <= |suite.tests|
    ensures AnyRuns(suite, n) <==> exists j :: 0 <= j < n && suite.tests[j].shouldRun
  {
    if n > 0 { AnyRunsIff(suite, n - 1); }
  }

  /** The tests of one suite. */
  method FilterSuite(o: Options, suite: TestSuite, base: nat, ghost rule: Rule)
    returns (numRunnable: nat, numSelected: nat)
    requires ShardingOk(o) && Follows(rule, o.filter) && TestsDiffer(suite)
    modifies suite`shouldRun, suite.tests
    ensures SuiteRecorded(o, rule, suite, base)
    ensures numRunnable == RunnableIn(o, rule, suite, |suite.tests|)
    ensures numSelected == ChosenIn(o, rule, suite, base, |suite.tests|)
  {
    suite.shouldRun := false;
    numRunnable, numSelected := 0, 0;
    for j := 0 to |suite.tests|
      invariant numRunnable == RunnableIn(o, rule, suite, j) && numSelected == ChosenIn(o, rule, suite, base, j)
      invariant TestsRecorded(o, rule, suite, base, j)
      invariant suite.shouldRun == AnyRuns(suite, j)
    {
      var runnable, selected := FilterTest(o, suite, j, base + numRunnable, rule, base);
      numRunnable := numRunnable + if runnable then 1 else 0;
      numSelected := numSelected + if selected then 1 else 0;
      suite.shouldRun := suite.shouldRun || selected;
    }
    EachRecorded(o, rule, suite, base, |suite.tests|);
    AnyRunsIff(suite, |suite.tests|);
  }

  /** Every suite and every test is listed once. */
  ghost predicate Separate(suites: seq<TestSuite>) {
    && (forall i :: 0 <= i < |suites| ==> TestsDiffer(suites[i]))
    && (forall i, k :: 0 <= i < k < |suites| ==> suites[i] != suites[k])
    && (forall i, k, t :: 0 <= i < k < |suites| && t in suites[i].tests ==> t !in suites[k].tests)
  }

  ghost function AllTests(suites: seq<TestSuite>): (tests: set<TestInfo>)
    ensures forall i, t :: 0 <= i < |suites| && t in suites[i].tests ==> t in tests
  {
    set s, t | s in suites && t in s.tests :: t
  }

  /** What is recorded for the first n suites. */
  ghost predicate AllRecorded(o: Options, rule: Rule, suites: seq<TestSuite>, n: nat)
    requires ShardingOk(o) && n <= |suites|
    reads suites[..n], AllTests(suites[..n])
  {
    n == 0 ||
    (AllTests(suites[..n - 1]) <= AllTests(suites[..n])
     && AllRecorded(o, rule, suites, n - 1)
     && SuiteRecorded(o, rule, suites[n - 1], RunnableBefore(o, rule, suites, n - 1)))
  }

  /** One turn of the suite loop. */
  method FilterNext(o: Options, suites: seq<TestSuite>, i: nat, base: nat, ghost rule: Rule)
    returns (numRunnable: nat, numSelected: nat)
    requires ShardingOk(o) && Follows(rule, o.filter) && Separate(suites)
    requires i < |suites| && AllRecorded(o, rule, suites, i)
    requires base == RunnableBefore(o, rule, suites, i)
    modifies suites[i], suites[i].tests
    ensures AllRecorded(o, rule, suites, i + 1)
    ensures RunnableBefore(o, rule, suites, i + 1) == base + numRunnable
    ensures ChosenBefore(o, rule, suites, i + 1) == ChosenBefore(o, rule, suites, i) + numSelected
  {
    ApartFrom(suites, i);
    numRunnable, numSelected := FilterSuite(o, suites[i], base, rule);
    assert AllRecorded(o, rule, suites, i);
    RecordedMore(o, rule, suites, i);
  }

  /** The loop over the suites. */
  method FilterSuites(o: Options, suites: seq<TestSuite>, ghost rule: Rule) returns (numSelected: nat)
    requires ShardingOk(o) && Follows(rule, o.filter) && Separate(suites)
    modifies suites, AllTests(suites)
    ensures AllRecorded(o, rule, suites, |suites|)
    ensures numSelected == ChosenBefore(o, rule, suites, |suites|)
  {
    var numRunnable := 0;
    numSelected := 0;
    for i := 0 to |suites|
      invariant numRunnable == RunnableBefore(o, rule, suites, i) && numSelected == ChosenBefore(o, rule, suites, i)
      invariant AllRecorded(o, rule, suites, i)
    {
      var runnable, selected := FilterNext(o, suites, i, numRunnable, rule);
      numRunnable := numRunnable + runnable;
      numSelected := numSelected + selected;
    }
  }

  /** Decides for every test whether it runs here; the result is how many do. */
  method FilterTests(o: Options, suites: seq<TestSuite>) returns (numSelected: nat)
    requires ShardingOk(o) && Separate(suites)
    modifies suites, AllTests(suites)
    ensures AllRecorded(o, RuleOf(o.filter), suites, |suites|)
    ensures numSelected == ChosenBefore(o, RuleOf(o.filter), suites, |suites|)
  {
    RuleFollows(o.filter);
    numSelected := FilterSuites(o, suites, RuleOf(o.filter));
  }

  lemma {:induction false} RecordedMore(o: Options, rule: Rule, suites: seq<TestSuite>, i: nat)
    requires ShardingOk(o) && i < |suites| && AllTests(suites[..i]) <= AllTests(suites[..i + 1])
    requires AllRecorded(o, rule, suites, i) && SuiteRecorded(o, rule, suites[i], RunnableBefore(o, rule, suites, i))
    ensures AllRecorded(o, rule, suites, i + 1)
  {
  }

  lemma {:induction false} ApartFrom(suites: seq<TestSuite>, i: nat)
    requires Separate(suites) && i < |suites|
    ensures suites[i] !in suites[..i] && (forall t :: t in suites[i].tests ==> t !in AllTests(suites[..i]))
    ensures TestsDiffer(suites[i]) && AllTests(suites[..i]) <= AllTests(suites[..i + 1])
  {
    assert forall s :: s in suites[..i] ==> s in suites[..i + 1];
  }

  // ---------------------------------------------------------------- all shards together

  /** Which of the first n tests are runnable. */
  ghost function TestFlags(o: Options, rule: Rule, suite: TestSuite, n: nat): seq<bool>
    requires n <= |suite.tests|
  {
    if n == 0 then [] else TestFlags(o, rule, suite, n - 1) + [Runnable(o, rule, suite, n - 1)]
  }

  /** Which tests of the first n suites are runnable, in order. */
  ghost function AllFlags(o: Options, rule: Rule, suites: seq<TestSuite>, n: nat): seq<bool>
    requires n <= |suites|
  {
    if n == 0 then []
    else AllFlags(o, rule, suites, n - 1) + TestFlags(o, rule, suites[n - 1], |suites[n - 1].tests|)
  }

  function OnShard(o: Options, shard: int): Options {
    o.(shardIndex := shard)
  }

  lemma {:induction false} OneMoreFlag(flags: seq<bool>, more: seq<bool>, flag: bool, total: int, shard: int)
    requires total > 0
    ensures Count(flags + (more + [flag])) == Count(flags + more) + if flag then 1 else 0
    ensures SelectedCount(flags + (more + [flag]), total, shard) == SelectedCount(flags + more, total, shard)
      + if flag && ShouldRunTestOnShard(total, shard, Count(flags + more)) then 1 else 0
  {
    var all := flags + (more + [flag]);
    assert all[..|all| - 1] == flags + more && all[|all| - 1] == flag;
  }

  /** Runnability does not depend on the shard. */
  lemma {:induction false} SuiteOnShard(o: Options, rule: Rule, suite: TestSuite, before: seq<bool>, shard: int, n: nat)
    requires o.sharding && o.totalShards > 1 && 0 <= shard < o.totalShards && n <= |suite.tests|
    ensures
      var flags := before + TestFlags(o, rule, suite, n);
      && RunnableIn(OnShard(o, shard), rule, suite, n) == RunnableIn(o, rule, suite, n)
      && Count(flags) == Count(before) + RunnableIn(o, rule, suite, n)
      && SelectedCount(flags, o.totalShards, shard)
         == SelectedCount(before, o.totalShards, shard) + ChosenIn(OnShard(o, shard), rule, suite, Count(before), n)
  {
    if n == 0 {
      assert before + TestFlags(o, rule, suite, 0) == before;
    } else {
      SuiteOnShard(o, rule, suite, before, shard, n - 1);
      OneMoreFlag(before, TestFlags(o, rule, suite, n - 1), Runnable(o, rule, suite, n - 1), o.totalShards, shard);
    }
  }

  lemma {:induction false} SuitesOnShard(o: Options, rule: Rule, suites: seq<TestSuite>, shard: int, n: nat)
    requires o.sharding && o.totalShards > 1 && 0 <= shard < o.totalShards && n <= |suites|
    ensures
      var flags := AllFlags(o, rule, suites, n);
      && RunnableBefore(OnShard(o, shard), rule, suites, n) == RunnableBefore(o, rule, suites, n) == Count(flags)
      && ChosenBefore(OnShard(o, shard), rule, suites, n) == SelectedCount(flags, o.totalShards, shard)
  {
    if n > 0 {
      SuitesOnShard(o, rule, suites, shard, n - 1);
      SuiteOnShard(o, rule, suites[n - 1], AllFlags(o, rule, suites, n - 1), shard, |suites[n - 1].tests|);
    }
  }

  /** How many tests FilterTests selects in all on the first n shards. */
  ghost function ChosenUpTo(o: Options, rule: Rule, suites: seq<TestSuite>, n: nat): nat
    requires o.sharding && o.totalShards > 1 && n <= o.totalShards
  {
    if n == 0 then 0
    else ChosenUpTo(o, rule, suites, n - 1) + ChosenBefore(OnShard(o, n - 1), rule, suites, |suites|)
  }

  lemma {:induction false} ChosenIsSelected(o: Options, rule: Rule, suites: seq<TestSuite>, n: nat)
    requires o.sharding && o.totalShards > 1 && n <= o.totalShards
    ensures ChosenUpTo(o, rule, suites, n) == SelectedUpTo(AllFlags(o, rule, suites, |suites|), o.totalShards, n)
  {
    if n > 0 {
      ChosenIsSelected(o, rule, suites, n - 1);
      SuitesOnShard(o, rule, suites, n - 1, |suites|);
    }
  }

  /** The shards' counts add up to the number of runnable tests, and differ by at most one. */
  lemma {:induction false} ShardsShareTests(o: Options, rule: Rule, suites: seq<TestSuite>, s: int, t: int)
    requires o.sharding && o.totalShards > 1 && 0 <= s < o.totalShards && 0 <= t < o.totalShards
    ensures ChosenUpTo(o, rule, suites, o.totalShards) == RunnableBefore(o, rule, suites, |suites|)
    ensures
      -1 <= ChosenBefore(OnShard(o, s), rule, suites, |suites|)
            - ChosenBefore(OnShard(o, t), rule, suites, |suites|) <= 1
  {
    var flags := AllFlags(o, rule, suites, |suites|);
    ChosenIsSelected(o, rule, suites, o.totalShards);
    ShardsPartition(flags, o.totalShards);
    SuitesOnShard(o, rule, suites, s, |suites|);
    SuitesOnShard(o, rule, suites, t, |suites|);
    Balanced(flags, o.totalShards, s, t);
  }
}
