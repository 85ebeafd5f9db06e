/** Edit scripts: the dynamic programme of CalculateOptimalEdits in gtest-all.cc. */
module EditScript {

  datatype EditType = Match | Add | Remove | Replace

  const REPLACE_COST: real := 1.00001

  function EditCost(e: EditType): real {
    match e
    case Match => 0.0
    case Add => 1.0
    case Remove => 1.0
    case Replace => REPLACE_COST
  }

  /** The table of costs: entry (i, j) is for the first i lines of left, j of right. */
  function Cost<T(==)>(left: seq<T>, right: seq<T>, i: nat, j: nat): real
    requires i <= |left| && j <= |right|
    decreases i + j
  {
    if j == 0 then i as real
    else if i == 0 then j as real
    else if left[i - 1] == right[j - 1] then Cost(left, right, i - 1, j - 1)
    else
      var add, remove := Cost(left, right, i, j - 1), Cost(left, right, i - 1, j);
      var replace := Cost(left, right, i - 1, j - 1);
      if add < remove && add < replace then add + 1.0
      else if remove < add && remove < replace then remove + 1.0
      else replace + REPLACE_COST
  }

  /** The table of moves. */
  function Move<T(==)>(left: seq<T>, right: seq<T>, i: nat, j: nat): EditType
    requires i <= |left| && j <= |right|
  {
    if j == 0 then Remove
    else if i == 0 then Add
    else if left[i - 1] == right[j - 1] then Match
    else
      var add, remove := Cost(left, right, i, j - 1), Cost(left, right, i - 1, j);
      var replace := Cost(left, right, i - 1, j - 1);
      if add < remove && add < replace then Add
      else if remove < add && remove < replace then Remove
      else Replace
  }

  /** The moves that lead to entry (i, j). */
  function Path<T(==)>(left: seq<T>, right: seq<T>, i: nat, j: nat): seq<EditType>
    requires i <= |left| && j <= |right|
    decreases i + j
  {
    if i == 0 && j == 0 then []
    else
      var m := Move(left, right, i, j);
      Path(left, right, if m == Add then i else i - 1, if m == Remove then j else j - 1) + [m]
  }

  method CalculateOptimalEdits<T(==)>(left: seq<T>, right: seq<T>) returns (path: seq<EditType>)
    ensures path == Path(left, right, |left|, |right|)
    ensures FewestEdits(path, left, right) <==> WalkShort(left, right, |left|, |right|)
    ensures Optimal(path, left, right) <==> WalkTight(left, right, |left|, |right|)
  {
    var m, n := |left|, |right|;
    var costs := new real[m + 1, n + 1];
    var bestMove := new EditType[m + 1, n + 1];
    FillTables(left, right, costs, bestMove);
    path := WalkBack(left, right, bestMove);
    FewestEditsIff(left, right);
    ReturnedScriptIsOptimalIff(left, right);
  }

  /** Rows above `rows`, and row `rows` left of column `cols`, are filled in. */
  ghost predicate Filled<T>(left: seq<T>, right: seq<T>, costs: array2<real>, bestMove: array2<EditType>, rows: int,
                            cols: int)
    requires costs.Length0 == bestMove.Length0 == |left| + 1
    requires costs.Length1 == bestMove.Length1 == |right| + 1
    reads costs, bestMove
  {
    forall i, j {:trigger costs[i, j]} {:trigger bestMove[i, j]} ::
      0 <= i <= |left| && 0 <= j <= |right| && (i < rows || (i == rows && j < cols) || j == 0) ==>
      costs[i, j] == Cost(left, right, i, j) && (i + j > 0 ==> bestMove[i, j] == Move(left, right, i, j))
  }

  method FillTables<T(==)>(left: seq<T>, right: seq<T>, costs: array2<real>, bestMove: array2<EditType>)
    requires costs.Length0 == bestMove.Length0 == |left| + 1
    requires costs.Length1 == bestMove.Length1 == |right| + 1
    modifies costs, bestMove
    ensures Filled(left, right, costs, bestMove, |left| + 1, 0)
  {
    FillEdges(left, right, costs, bestMove);
    var li := 0;
    while li < |left|
      invariant 0 <= li <= |left|
      invariant Filled(left, right, costs, bestMove, li + 1, 0)
    {
      FillRow(left, right, costs, bestMove, li);
      li := li + 1;
    }
  }

  /** The inner loop. */
  method FillRow<T(==)>(left: seq<T>, right: seq<T>, costs: array2<real>, bestMove: array2<EditType>, li: nat)
    requires costs.Length0 == bestMove.Length0 == |left| + 1
    requires costs.Length1 == bestMove.Length1 == |right| + 1
    requires li < |left| && Filled(left, right, costs, bestMove, li + 1, 0)
    modifies costs, bestMove
    ensures Filled(left, right, costs, bestMove, li + 2, 0)
  {
    var ri := 0;
    while ri < |right|
      invariant 0 <= ri <= |right|
      invariant Filled(left, right, costs, bestMove, li + 1, ri + 1)
    {
      FillEntry(left, right, costs, bestMove, li, ri);
      ri := ri + 1;
    }
  }

  /** The entries where one of the inputs is empty. */
  method FillEdges<T(==)>(left: seq<T>, right: seq<T>, costs: array2<real>, bestMove: array2<EditType>)
    requires costs.Length0 == bestMove.Length0 == |left| + 1
    requires costs.Length1 == bestMove.Length1 == |right| + 1
    modifies costs, bestMove
    ensures Filled(left, right, costs, bestMove, 1, 0)
  {
    var li := 0;
    while li < costs.Length0
      invariant 0 <= li <= costs.Length0
      invariant forall i :: 0 <= i < li ==> costs[i, 0] == i as real && bestMove[i, 0] == Remove
    {
      costs[li, 0] := li as real;
      bestMove[li, 0] := Remove;
      li := li + 1;
    }
    var ri := 1;
    while ri < costs.Length1
      invariant 1 <= ri <= costs.Length1
      invariant forall i :: 0 <= i <= |left| ==> costs[i, 0] == i as real && bestMove[i, 0] == Remove
      invariant forall j :: 1 <= j < ri ==> costs[0, j] == j as real && bestMove[0, j] == Add
    {
      costs[0, ri] := ri as real;
      bestMove[0, ri] := Add;
      ri := ri + 1;
    }
  }

  /** The body of the two nested loops. */
  method FillEntry<T(==)>(left: seq<T>, right: seq<T>, costs: array2<real>, bestMove: array2<EditType>, li: nat,
                     ri: nat)
    requires costs.Length0 == bestMove.Length0 == |left| + 1
    requires costs.Length1 == bestMove.Length1 == |right| + 1
    requires li < |left| && ri < |right|
    requires costs[li, ri] == Cost(left, right, li, ri)
    requires costs[li, ri + 1] == Cost(left, right, li, ri + 1)
    requires costs[li + 1, ri] == Cost(left, right, li + 1, ri)
    modifies costs, bestMove
    ensures costs[li + 1, ri + 1] == Cost(left, right, li + 1, ri + 1)
    ensures bestMove[li + 1, ri + 1] == Move(left, right, li + 1, ri + 1)
    ensures forall i, j :: 0 <= i <= |left| && 0 <= j <= |right| && (i != li + 1 || j != ri + 1) ==>
              costs[i, j] == old(costs[i, j]) && bestMove[i, j] == old(bestMove[i, j])
  {
    if left[li] == right[ri] {
      costs[li + 1, ri + 1] := costs[li, ri];
      bestMove[li + 1, ri + 1] := Match;
      return;
    }
    var add := costs[li + 1, ri];
    var remove := costs[li, ri + 1];
    var replace := costs[li, ri];
    if add < remove && add < replace {
      costs[li + 1, ri + 1] := add + 1.0;
      bestMove[li + 1, ri + 1] := Add;
    } else if remove < add && remove < replace {
      costs[li + 1, ri + 1] := remove + 1.0;
      bestMove[li + 1, ri + 1] := Remove;
    } else {
      costs[li + 1, ri + 1] := replace + REPLACE_COST;
      bestMove[li + 1, ri + 1] := Replace;
    }
  }

  /** Collects the moves from the end and turns them round. */
  method WalkBack<T(==)>(left: seq<T>, right: seq<T>, bestMove: array2<EditType>) returns (path: seq<EditType>)
    requires bestMove.Length0 == |left| + 1 && bestMove.Length1 == |right| + 1
    requires forall i, j :: 0 <= i <= |left| && 0 <= j <= |right| && i + j > 0 ==>
                              bestMove[i, j] == Move(left, right, i, j)
    ensures path == Path(left, right, |left|, |right|)
  {
    var back: seq<EditType> := [];
    var li, ri := |left|, |right|;
    while li > 0 || ri > 0
      invariant 0 <= li <= |left| && 0 <= ri <= |right|
      invariant Path(left, right, li, ri) + Reversed(back) == Path(left, right, |left|, |right|)
      decreases li + ri
    {
      var move := bestMove[li, ri];
      ReversedSnoc(back, move);
      back := back + [move];
      if move != Add { li := li - 1; }
      if move != Remove { ri := ri - 1; }
    }
    path := Reversed(back);
  }

  function Reversed<T>(s: seq<T>): seq<T> {
    if s == [] then [] else Reversed(s[1..]) + [s[0]]
  }

  lemma {:induction false} ReversedSnoc<T>(s: seq<T>, x: T)
    ensures Reversed(s + [x]) == [x] + Reversed(s)
  {
    if s == [] {
      assert s + [x] == [x];
      assert [x][1..] == [];
    } else {
      assert (s + [x])[1..] == s[1..] + [x];
      ReversedSnoc(s[1..], x);
    }
  }

  // ---------------------------------------------------------------- what a script is

  /** `edits` turns the first i lines of left into the first j lines of right: a match keeps
      equal lines, a replacement changes unequal ones, all of both is used up. */
  ghost predicate Script<T>(edits: seq<EditType>, left: seq<T>, right: seq<T>, i: nat, j: nat)
    requires i <= |left| && j <= |right|
    decreases |edits|
  {
    if edits == [] then i == 0 && j == 0
    else
      var rest := edits[..|edits| - 1];
      match edits[|edits| - 1]
      case Match => i > 0 && j > 0 && left[i - 1] == right[j - 1] && Script(rest, left, right, i - 1, j - 1)
      case Replace => i > 0 && j > 0 && left[i - 1] != right[j - 1] && Script(rest, left, right, i - 1, j - 1)
      case Add => j > 0 && Script(rest, left, right, i, j - 1)
      case Remove => i > 0 && Script(rest, left, right, i - 1, j)
  }

  function ScriptCost(edits: seq<EditType>): real
    decreases |edits|
  {
    if edits == [] then 0.0 else ScriptCost(edits[..|edits| - 1]) + EditCost(edits[|edits| - 1])
  }

  lemma {:induction false} ScriptSnoc<T>(edits: seq<EditType>, e: EditType, left: seq<T>, right: seq<T>, i: nat, j: nat)
    requires i <= |left| && j <= |right| && Script(edits, left, right, i, j)
    requires e == Match ==> i < |left| && j < |right| && left[i] == right[j]
    requires e == Replace ==> i < |left| && j < |right| && left[i] != right[j]
    requires e == Add ==> j < |right|
    requires e == Remove ==> i < |left|
    ensures Script(edits + [e], left, right, if e == Add then i else i + 1, if e == Remove then j else j + 1)
    ensures ScriptCost(edits + [e]) == ScriptCost(edits) + EditCost(e)
  {
    assert (edits + [e])[..|edits|] == edits;
  }

  /** Every move of the table is possible where it stands, and is what the entry adds. */
  lemma {:induction false} MoveFits<T>(left: seq<T>, right: seq<T>, i: nat, j: nat)
    requires i <= |left| && j <= |right| && i + j > 0
    ensures
      var m := Move(left, right, i, j);
      && (m == Match ==> i > 0 && j > 0 && left[i - 1] == right[j - 1])
      && (m == Replace ==> i > 0 && j > 0 && left[i - 1] != right[j - 1])
      && (m == Add ==> j > 0) && (m == Remove ==> i > 0)
      && Cost(left, right, i, j) ==
         Cost(left, right, if m == Add then i else i - 1, if m == Remove then j else j - 1) + EditCost(m)
  {
  }

  /** The path replays left into right, and the table holds what it costs. */
  lemma {:induction false} PathReplays<T>(left: seq<T>, right: seq<T>, i: nat, j: nat)
    requires i <= |left| && j <= |right|
    ensures Script(Path(left, right, i, j), left, right, i, j)
    ensures ScriptCost(Path(left, right, i, j)) == Cost(left, right, i, j)
    decreases i + j
  {
    if i > 0 || j > 0 {
      var m := Move(left, right, i, j);
      MoveFits(left, right, i, j);
      var i', j' := if m == Add then i else i - 1, if m == Remove then j else j - 1;
      var before := Path(left, right, i', j');
      assert Path(left, right, i, j) == before + [m];
      PathReplays(left, right, i', j');
      ScriptSnoc(Path(left, right, i', j'), m, left, right, i', j');
    }
  }

  /** Nothing is charged exactly when there is nothing to change. */
  lemma {:induction false} CostZeroIffEqual<T>(left: seq<T>, right: seq<T>, i: nat, j: nat)
    requires i <= |left| && j <= |right|
    ensures Cost(left, right, i, j) >= 0.0
    ensures Cost(left, right, i, j) == 0.0 <==> left[..i] == right[..j]
    decreases i + j
  {
    if i > 0 && j > 0 {
      CostZeroIffEqual(left, right, i - 1, j - 1);
      CostZeroIffEqual(left, right, i, j - 1);
      CostZeroIffEqual(left, right, i - 1, j);
      assert left[..i] == left[..i - 1] + [left[i - 1]];
      assert right[..j] == right[..j - 1] + [right[j - 1]];
    }
  }

  // ---------------------------------------------------------------- optimality

  /** An entry whose replacement is taken although adding or removing would be cheaper: the
      last branch also gets the ties between adding and removing. */
  ghost predicate Overpriced<T>(left: seq<T>, right: seq<T>, i: nat, j: nat)
    requires i <= |left| && j <= |right|
  {
    && i > 0 && j > 0 && Move(left, right, i, j) == Replace
    && (|| Cost(left, right, i, j - 1) + 1.0 < Cost(left, right, i - 1, j - 1) + REPLACE_COST
        || Cost(left, right, i - 1, j) + 1.0 < Cost(left, right, i - 1, j - 1) + REPLACE_COST)
  }

  ghost predicate NoneOverpriced<T>(left: seq<T>, right: seq<T>, m: nat, n: nat)
    requires m <= |left| && n <= |right|
  {
    forall i: nat, j: nat :: i <= m && j <= n ==> !Overpriced(left, right, i, j)
  }

  /** No script for this entry is cheaper than what the table holds. */
  ghost predicate Cheapest<T>(left: seq<T>, right: seq<T>, i: nat, j: nat)
    requires i <= |left| && j <= |right|
  {
    forall edits :: Script(edits, left, right, i, j) ==> Cost(left, right, i, j) <= ScriptCost(edits)
  }

  ghost predicate Near<T>(left: seq<T>, right: seq<T>, i: nat, j: nat)
    requires i <= |left| && j <= |right|
  {
    && (i > 0 ==> -1.0 <= Cost(left, right, i, j) - Cost(left, right, i - 1, j) <= 1.0)
    && (j > 0 ==> -1.0 <= Cost(left, right, i, j) - Cost(left, right, i, j - 1) <= 1.0)
    && (i > 0 && j > 0 ==> Cost(left, right, i, j) <= Cost(left, right, i - 1, j - 1) + REPLACE_COST)
  }

  lemma {:induction false} NeighbourOf<T>(left: seq<T>, right: seq<T>, i: nat, j: nat)
    requires 0 < i <= |left| && 0 < j <= |right| && !Overpriced(left, right, i, j)
    requires Near(left, right, i - 1, j) && Near(left, right, i, j - 1)
    ensures Near(left, right, i, j)
  {
    if left[i - 1] != right[j - 1] { MoveFits(left, right, i, j); }
  }

  /** Without overpriced entries, neighbouring entries differ by at most one edit. */
  lemma {:induction false} Neighbours<T>(left: seq<T>, right: seq<T>, i: nat, j: nat)
    requires i <= |left| && j <= |right| && NoneOverpriced(left, right, i, j)
    ensures Near(left, right, i, j)
    decreases i + j
  {
    if i > 0 && j > 0 {
      Neighbours(left, right, i - 1, j);
      Neighbours(left, right, i, j - 1);
      assert !Overpriced(left, right, i, j);
      NeighbourOf(left, right, i, j);
    }
  }

  lemma {:induction false} NoneOverpricedIsCheapest<T>(left: seq<T>, right: seq<T>, i: nat, j: nat,
                                                       edits: seq<EditType>)
    requires i <= |left| && j <= |right| && NoneOverpriced(left, right, i, j)
    requires Script(edits, left, right, i, j)
    ensures Cost(left, right, i, j) <= ScriptCost(edits)
    decreases |edits|
  {
    Neighbours(left, right, i, j);
    if edits != [] {
      var rest := edits[..|edits| - 1];
      match edits[|edits| - 1]
      case Match => NoneOverpricedIsCheapest(left, right, i - 1, j - 1, rest);
      case Replace => NoneOverpricedIsCheapest(left, right, i - 1, j - 1, rest);
      case Add => NoneOverpricedIsCheapest(left, right, i, j - 1, rest);
      case Remove => NoneOverpricedIsCheapest(left, right, i - 1, j, rest);
    }
  }

  /** An overpriced entry is beaten by the script that adds or removes instead. */
  lemma {:induction false} OverpricedIsBeaten<T>(left: seq<T>, right: seq<T>, i: nat, j: nat)
    requires i <= |left| && j <= |right| && Overpriced(left, right, i, j)
    ensures !Cheapest(left, right, i, j)
  {
    var e := if Cost(left, right, i, j - 1) + 1.0 < Cost(left, right, i - 1, j - 1) + REPLACE_COST then Add else Remove;
    var i', j' := if e == Add then i else i - 1, if e == Remove then j else j - 1;
    PathReplays(left, right, i', j');
    ScriptSnoc(Path(left, right, i', j'), e, left, right, i', j');
  }

  /** Exactly when the tables are optimal throughout: when no entry is overpriced. */
  lemma {:induction false} OptimalIffNoneOverpriced<T>(left: seq<T>, right: seq<T>)
    ensures (forall i: nat, j: nat :: i <= |left| && j <= |right| ==> Cheapest(left, right, i, j))
            <==> NoneOverpriced(left, right, |left|, |right|)
  {
    if NoneOverpriced(left, right, |left|, |right|) {
      forall i: nat, j: nat, edits | i <= |left| && j <= |right| && Script(edits, left, right, i, j)
        ensures Cost(left, right, i, j) <= ScriptCost(edits)
      {
        NoneOverpricedIsCheapest(left, right, i, j, edits);
      }
    } else {
      var i: nat, j: nat :| i <= |left| && j <= |right| && Overpriced(left, right, i, j);
      OverpricedIsBeaten(left, right, i, j);
    }
  }

  // ---------------------------------------------------------------- the least cost

  function MinReal(a: real, b: real): real { if a < b then a else b }

  /** The cost of the cheapest script, by the three-way minimum. */
  function Least<T(==)>(left: seq<T>, right: seq<T>, i: nat, j: nat): real
    requires i <= |left| && j <= |right|
    decreases i + j
  {
    if j == 0 then i as real
    else if i == 0 then j as real
    else
      var both := Least(left, right, i - 1, j - 1) + (if left[i - 1] == right[j - 1] then 0.0 else REPLACE_COST);
      MinReal(both, MinReal(Least(left, right, i, j - 1), Least(left, right, i - 1, j)) + 1.0)
  }

  lemma {:induction false} LeastIsBelow<T>(left: seq<T>, right: seq<T>, i: nat, j: nat, edits: seq<EditType>)
    requires i <= |left| && j <= |right| && Script(edits, left, right, i, j)
    ensures Least(left, right, i, j) <= ScriptCost(edits)
    decreases |edits|
  {
    if edits != [] {
      var rest := edits[..|edits| - 1];
      match edits[|edits| - 1]
      case Match => LeastIsBelow(left, right, i - 1, j - 1, rest);
      case Replace => LeastIsBelow(left, right, i - 1, j - 1, rest);
      case Add => LeastIsBelow(left, right, i, j - 1, rest);
      case Remove => LeastIsBelow(left, right, i - 1, j, rest);
    }
  }

  lemma {:induction false} LeastIsAttained<T>(left: seq<T>, right: seq<T>, i: nat, j: nat)
    returns (edits: seq<EditType>)
    requires i <= |left| && j <= |right|
    ensures Script(edits, left, right, i, j) && ScriptCost(edits) == Least(left, right, i, j)
    decreases i + j
  {
    if i == 0 && j == 0 { return []; }
    var e := LeastMove(left, right, i, j);
    var i', j' := if e == Add then i else i - 1, if e == Remove then j else j - 1;
    var before := LeastIsAttained(left, right, i', j');
    ScriptSnoc(before, e, left, right, i', j');
    edits := before + [e];
  }

  /** An edit that the three-way minimum can end with. */
  lemma {:induction false} LeastMove<T>(left: seq<T>, right: seq<T>, i: nat, j: nat) returns (e: EditType)
    requires i <= |left| && j <= |right| && i + j > 0
    ensures e == Match ==> i > 0 && j > 0 && left[i - 1] == right[j - 1]
    ensures e == Replace ==> i > 0 && j > 0 && left[i - 1] != right[j - 1]
    ensures (e == Add ==> j > 0) && (e == Remove ==> i > 0)
    ensures Least(left, right, i, j) ==
            Least(left, right, if e == Add then i else i - 1, if e == Remove then j else j - 1) + EditCost(e)
  {
    if j == 0 { return Remove; }
    if i == 0 { return Add; }
    if Least(left, right, i, j) == Least(left, right, i, j - 1) + 1.0 { return Add; }
    if Least(left, right, i, j) == Least(left, right, i - 1, j) + 1.0 { return Remove; }
    e := if left[i - 1] == right[j - 1] then Match else Replace;
  }

  /** The table's entry is optimal exactly when it is the three-way minimum. */
  lemma {:induction false} CheapestIffLeast<T>(left: seq<T>, right: seq<T>, i: nat, j: nat)
    requires i <= |left| && j <= |right|
    ensures Least(left, right, i, j) <= Cost(left, right, i, j)
    ensures Cheapest(left, right, i, j) <==> Cost(left, right, i, j) == Least(left, right, i, j)
  {
    PathReplays(left, right, i, j);
    LeastIsBelow(left, right, i, j, Path(left, right, i, j));
    var edits := LeastIsAttained(left, right, i, j);
    forall other | Script(other, left, right, i, j) ensures Least(left, right, i, j) <= ScriptCost(other) {
      LeastIsBelow(left, right, i, j, other);
    }
  }

  /** A common last line may always be kept. */
  lemma {:induction false} LeastSteps<T>(left: seq<T>, right: seq<T>, i: nat, j: nat)
    requires i <= |left| && j <= |right|
    ensures i > 0 ==> Least(left, right, i - 1, j) <= Least(left, right, i, j) + 1.0
    ensures j > 0 ==> Least(left, right, i, j - 1) <= Least(left, right, i, j) + 1.0
    decreases i + j
  {
    if i > 0 && j > 0 {
      LeastSteps(left, right, i - 1, j);
      LeastSteps(left, right, i, j - 1);
    }
  }

  lemma {:induction false} LeastMatch<T>(left: seq<T>, right: seq<T>, i: nat, j: nat)
    requires 0 < i <= |left| && 0 < j <= |right| && left[i - 1] == right[j - 1]
    ensures Least(left, right, i, j) == Least(left, right, i - 1, j - 1)
  {
    LeastSteps(left, right, i - 1, j);
    LeastSteps(left, right, i, j - 1);
  }

  /** The branch taken at this entry leads to a neighbour that the three-way minimum could
      come from. */
  ghost predicate Tight<T>(left: seq<T>, right: seq<T>, i: nat, j: nat)
    requires i <= |left| && j <= |right| && i + j > 0
  {
    match Move(left, right, i, j)
    case Match => true
    case Replace =>
      && Least(left, right, i - 1, j - 1) + REPLACE_COST <= Least(left, right, i, j - 1) + 1.0
      && Least(left, right, i - 1, j - 1) + REPLACE_COST <= Least(left, right, i - 1, j) + 1.0
    case Add =>
      i > 0 ==>
        && Least(left, right, i, j - 1) <= Least(left, right, i - 1, j)
        && Least(left, right, i, j - 1) + 1.0 <= Least(left, right, i - 1, j - 1) + REPLACE_COST
    case Remove =>
      j > 0 ==>
        && Least(left, right, i - 1, j) <= Least(left, right, i, j - 1)
        && Least(left, right, i - 1, j) + 1.0 <= Least(left, right, i - 1, j - 1) + REPLACE_COST
  }

  /** So do all branches on the walk back from this entry. */
  ghost predicate WalkTight<T>(left: seq<T>, right: seq<T>, i: nat, j: nat)
    requires i <= |left| && j <= |right|
    decreases i + j
  {
    i + j > 0 ==>
      var m := Move(left, right, i, j);
      && Tight(left, right, i, j)
      && WalkTight(left, right, if m == Add then i else i - 1, if m == Remove then j else j - 1)
  }

  lemma {:induction false} TightIff<T>(left: seq<T>, right: seq<T>, i: nat, j: nat)
    requires i <= |left| && j <= |right| && i + j > 0
    ensures
      var m := Move(left, right, i, j);
      var before := Least(left, right, if m == Add then i else i - 1, if m == Remove then j else j - 1);
      && Least(left, right, i, j) <= before + EditCost(m)
      && (Tight(left, right, i, j) <==> Least(left, right, i, j) == before + EditCost(m))
  {
    if Move(left, right, i, j) == Match { LeastMatch(left, right, i, j); }
  }

  /** The script that is returned for these prefixes is the cheapest exactly when the walk
      back never takes a branch that the three-way minimum could not take. */
  lemma {:induction false} CheapestIffWalkTight<T>(left: seq<T>, right: seq<T>, i: nat, j: nat)
    requires i <= |left| && j <= |right|
    ensures Cheapest(left, right, i, j) <==> WalkTight(left, right, i, j)
    decreases i + j
  {
    CheapestIffLeast(left, right, i, j);
    if i + j > 0 {
      var m := Move(left, right, i, j);
      var i', j' := if m == Add then i else i - 1, if m == Remove then j else j - 1;
      MoveFits(left, right, i, j);
      TightIff(left, right, i, j);
      CheapestIffLeast(left, right, i', j');
      CheapestIffWalkTight(left, right, i', j');
    }
  }

  /** No script for all of both inputs is cheaper than `path`. */
  ghost predicate Optimal<T>(path: seq<EditType>, left: seq<T>, right: seq<T>) {
    forall edits :: Script(edits, left, right, |left|, |right|) ==> ScriptCost(path) <= ScriptCost(edits)
  }

  /** The script CalculateOptimalEdits returns is optimal exactly when its own walk is tight;
      a table without overpriced entries is enough, but not needed. */
  lemma {:induction false} ReturnedScriptIsOptimalIff<T>(left: seq<T>, right: seq<T>)
    ensures Optimal(Path(left, right, |left|, |right|), left, right) <==> WalkTight(left, right, |left|, |right|)
    ensures NoneOverpriced(left, right, |left|, |right|) ==> WalkTight(left, right, |left|, |right|)
  {
    var m, n := |left|, |right|;
    PathReplays(left, right, m, n);
    CheapestIffWalkTight(left, right, m, n);
    if Cheapest(left, right, m, n) {
      assert Optimal(Path(left, right, m, n), left, right);
    } else {
      var edits :| Script(edits, left, right, m, n) && !(Cost(left, right, m, n) <= ScriptCost(edits));
      assert !Optimal(Path(left, right, m, n), left, right);
    }
    if NoneOverpriced(left, right, m, n) {
      OptimalIffNoneOverpriced(left, right);
      assert Cheapest(left, right, m, n);
    }
  }

  // ---------------------------------------------------------------- inputs that are safe

  /** `places` are where the first i lines of `left` stand, in order, among the first j of
      `right`. */
  ghost predicate Embeds<T>(places: seq<nat>, left: seq<T>, right: seq<T>, i: nat, j: nat)
    requires i <= |left| && j <= |right|
  {
    && |places| == i
    && (forall k :: 0 <= k < i ==> places[k] < j && right[places[k]] == left[k])
    && (forall k, l :: 0 <= k < l < i ==> places[k] < places[l])
  }

  ghost predicate Subsequence<T>(s: seq<T>, t: seq<T>) {
    exists places :: Embeds(places, s, t, |s|, |t|)
  }

  /** Lines that are only added cost one each. */
  lemma {:induction false} AddedCost<T>(left: seq<T>, right: seq<T>, i: nat, j: nat, places: seq<nat>)
    requires i <= |left| && j <= |right| && Embeds(places, left, right, i, j)
    ensures i <= j && Cost(left, right, i, j) == (j - i) as real
    decreases i + j
  {
    if i > 0 {
      assert places[i - 1] < j;
      var fewer := places[..i - 1];
      assert forall k :: 0 <= k < i - 1 ==> places[k] < places[i - 1];
      AddedCost(left, right, i - 1, j - 1, fewer);
      if left[i - 1] != right[j - 1] {
        assert forall k :: 0 <= k < i ==> places[k] <= places[i - 1] < j - 1;
        AddedCost(left, right, i, j - 1, places);
        AddedCost(left, right, i - 1, j, fewer);
      }
    }
  }

  lemma {:induction false} CostSymmetric<T>(left: seq<T>, right: seq<T>, i: nat, j: nat)
    requires i <= |left| && j <= |right|
    ensures Cost(left, right, i, j) == Cost(right, left, j, i)
    decreases i + j
  {
    if i > 0 && j > 0 {
      CostSymmetric(left, right, i - 1, j - 1);
      CostSymmetric(left, right, i, j - 1);
      CostSymmetric(left, right, i - 1, j);
    }
  }

  lemma {:induction false} LengthBound<T>(edits: seq<EditType>, left: seq<T>, right: seq<T>, i: nat, j: nat)
    requires i <= |left| && j <= |right| && Script(edits, left, right, i, j)
    ensures ScriptCost(edits) >= (j - i) as real && ScriptCost(edits) >= (i - j) as real
    decreases |edits|
  {
    if edits != [] {
      var rest := edits[..|edits| - 1];
      match edits[|edits| - 1]
      case Match => LengthBound(rest, left, right, i - 1, j - 1);
      case Replace => LengthBound(rest, left, right, i - 1, j - 1);
      case Add => LengthBound(rest, left, right, i, j - 1);
      case Remove => LengthBound(rest, left, right, i - 1, j);
    }
  }

  lemma {:induction false} SubsequenceCost<T>(left: seq<T>, right: seq<T>)
    requires Subsequence(left, right) || Subsequence(right, left)
    ensures Cost(left, right, |left|, |right|) ==
            (if |left| <= |right| then |right| - |left| else |left| - |right|) as real
  {
    if Subsequence(left, right) {
      var places :| Embeds(places, left, right, |left|, |right|);
      AddedCost(left, right, |left|, |right|, places);
    } else {
      var places :| Embeds(places, right, left, |right|, |left|);
      AddedCost(right, left, |right|, |left|, places);
      CostSymmetric(left, right, |left|, |right|);
    }
  }

  /** When lines are only added, or only removed, the returned script is the cheapest. */
  lemma {:induction false} SubsequenceIsCheapest<T>(left: seq<T>, right: seq<T>)
    requires Subsequence(left, right) || Subsequence(right, left)
    ensures Cheapest(left, right, |left|, |right|)
  {
    SubsequenceCost(left, right);
    forall edits | Script(edits, left, right, |left|, |right|)
      ensures Cost(left, right, |left|, |right|) <= ScriptCost(edits)
    {
      LengthBound(edits, left, right, |left|, |right|);
    }
  }

  /** An overpriced entry off the walk does no harm: the last entry can be optimal when
      another is not. */
  lemma {:induction false} OverpricedOffTheWalk<T>(a: T, b: T)
    requires a != b
    ensures Cheapest([a, b], [b, a, a, b], 2, 4) && Overpriced([a, b], [b, a, a, b], 2, 2)
  {
    var l, r := [a, b], [b, a, a, b];
    assert Cost(l, r, 1, 1) == REPLACE_COST;
    assert Cost(l, r, 2, 1) == 1.0 && Cost(l, r, 1, 2) == 1.0;
    assert Subsequence(l, r) by { assert Embeds([1, 3], l, r, 2, 4); }
    SubsequenceIsCheapest(l, r);
  }

  /** The returned path is not always the cheapest: swapping two lines is charged two
      replacements, although removing one and adding it again is cheaper. */
  lemma {:induction false} SwapIsOverpriced<T>(a: T, b: T)
    requires a != b
    ensures Cost([a, b], [b, a], 2, 2) == 2.00002
    ensures Script([Remove, Match, Add], [a, b], [b, a], 2, 2) && ScriptCost([Remove, Match, Add]) == 2.0
  {
    var l, r := [a, b], [b, a];
    assert Cost(l, r, 1, 1) == REPLACE_COST;
    assert Cost(l, r, 2, 1) == 1.0 && Cost(l, r, 1, 2) == 1.0;
    ScriptSnoc([], Remove, l, r, 0, 0);
    assert [] + [Remove] == [Remove];
    ScriptSnoc([Remove], Match, l, r, 1, 0);
    assert [Remove] + [Match] == [Remove, Match];
    ScriptSnoc([Remove, Match], Add, l, r, 2, 1);
    assert [Remove, Match] + [Add] == [Remove, Match, Add];
  }

  lemma {:induction false} AlternatingMoves<T>(a: T, b: T)
    requires a != b
    ensures var (l, r) := ([a, b, a], [b, a, b]);
      Move(l, r, 1, 1) == Move(l, r, 2, 2) == Move(l, r, 3, 3) == Replace
  {
    var l, r := [a, b, a], [b, a, b];
    assert Cost(l, r, 1, 1) == REPLACE_COST;
    assert Cost(l, r, 2, 1) == 1.0 && Cost(l, r, 1, 2) == 1.0;
    assert Cost(l, r, 2, 2) == 2.00002;
    assert Cost(l, r, 3, 2) == 1.0 && Cost(l, r, 2, 3) == 1.0;
  }

  /** Nor has the returned path the fewest edits: three replacements, where one removal and one
      addition do. */
  lemma {:induction false} FewerEditsDo<T>(a: T, b: T)
    requires a != b
    ensures var (l, r) := ([a, b, a], [b, a, b]);
      && Path(l, r, 3, 3) == [Replace, Replace, Replace]
      && Script([Remove, Match, Match, Add], l, r, 3, 3)
  {
    var l, r := [a, b, a], [b, a, b];
    AlternatingMoves(a, b);
    assert Path(l, r, 0, 0) == [];
    assert Path(l, r, 1, 1) == [] + [Replace] == [Replace];
    assert Path(l, r, 2, 2) == [Replace] + [Replace] == [Replace, Replace];
    assert Path(l, r, 3, 3) == [Replace, Replace] + [Replace];
    ScriptSnoc([], Remove, l, r, 0, 0);
    assert [] + [Remove] == [Remove];
    ScriptSnoc([Remove], Match, l, r, 1, 0);
    assert [Remove] + [Match] == [Remove, Match];
    ScriptSnoc([Remove, Match], Match, l, r, 2, 1);
    assert [Remove, Match] + [Match] == [Remove, Match, Match];
    ScriptSnoc([Remove, Match, Match], Add, l, r, 3, 2);
    assert [Remove, Match, Match] + [Add] == [Remove, Match, Match, Add];
  }

  // ---------------------------------------------------------------- the fewest edits

  /** How many lines a script changes: all edits count the same, matches not at all. */
  function EditNumber(edits: seq<EditType>): nat
    decreases |edits|
  {
    if edits == [] then 0
    else EditNumber(edits[..|edits| - 1]) + if edits[|edits| - 1] == Match then 0 else 1
  }

  lemma {:induction false} EditNumberSnoc(before: seq<EditType>, e: EditType, edits: seq<EditType>)
    requires edits == before + [e]
    ensures EditNumber(edits) == EditNumber(before) + if e == Match then 0 else 1
  {
    assert edits[..|edits| - 1] == before;
  }

  /** The script of FewerEditsDo has two edits, the returned one three. */
  lemma {:induction false} TwoOrThree()
    ensures EditNumber([Remove, Match, Match, Add]) == 2 && EditNumber([Replace, Replace, Replace]) == 3
  {
    EditNumberSnoc([], Remove, [Remove]);
    EditNumberSnoc([Remove], Match, [Remove, Match]);
    EditNumberSnoc([Remove, Match], Match, [Remove, Match, Match]);
    EditNumberSnoc([Remove, Match, Match], Add, [Remove, Match, Match, Add]);
    EditNumberSnoc([], Replace, [Replace]);
    EditNumberSnoc([Replace], Replace, [Replace, Replace]);
    EditNumberSnoc([Replace, Replace], Replace, [Replace, Replace, Replace]);
  }

  function MinNat(a: nat, b: nat): nat { if a < b then a else b }

  /** The number of edits of the shortest script, by the three-way minimum. */
  function Fewest<T(==)>(left: seq<T>, right: seq<T>, i: nat, j: nat): nat
    requires i <= |left| && j <= |right|
    decreases i + j
  {
    if j == 0 then i
    else if i == 0 then j
    else
      var both := Fewest(left, right, i - 1, j - 1) + if left[i - 1] == right[j - 1] then 0 else 1;
      MinNat(both, MinNat(Fewest(left, right, i, j - 1), Fewest(left, right, i - 1, j)) + 1)
  }

  lemma {:induction false} FewestIsBelow<T>(left: seq<T>, right: seq<T>, i: nat, j: nat, edits: seq<EditType>)
    requires i <= |left| && j <= |right| && Script(edits, left, right, i, j)
    ensures Fewest(left, right, i, j) <= EditNumber(edits)
    decreases |edits|
  {
    if edits != [] {
      var rest := edits[..|edits| - 1];
      match edits[|edits| - 1]
      case Match => FewestIsBelow(left, right, i - 1, j - 1, rest);
      case Replace => FewestIsBelow(left, right, i - 1, j - 1, rest);
      case Add => FewestIsBelow(left, right, i, j - 1, rest);
      case Remove => FewestIsBelow(left, right, i - 1, j, rest);
    }
  }

  lemma {:induction false} FewestIsAttained<T>(left: seq<T>, right: seq<T>, i: nat, j: nat)
    returns (edits: seq<EditType>)
    requires i <= |left| && j <= |right|
    ensures Script(edits, left, right, i, j) && EditNumber(edits) == Fewest(left, right, i, j)
    decreases i + j
  {
    if i == 0 && j == 0 { return []; }
    var e := FewestMove(left, right, i, j);
    var i', j' := if e == Add then i else i - 1, if e == Remove then j else j - 1;
    var before := FewestIsAttained(left, right, i', j');
    ScriptSnoc(before, e, left, right, i', j');
    edits := before + [e];
    assert edits[..|edits| - 1] == before;
  }

  /** An edit that the three-way minimum can end with. */
  lemma {:induction false} FewestMove<T>(left: seq<T>, right: seq<T>, i: nat, j: nat) returns (e: EditType)
    requires i <= |left| && j <= |right| && i + j > 0
    ensures e == Match ==> i > 0 && j > 0 && left[i - 1] == right[j - 1]
    ensures e == Replace ==> i > 0 && j > 0 && left[i - 1] != right[j - 1]
    ensures (e == Add ==> j > 0) && (e == Remove ==> i > 0)
    ensures Fewest(left, right, i, j) ==
            Fewest(left, right, if e == Add then i else i - 1, if e == Remove then j else j - 1)
            + if e == Match then 0 else 1
  {
    if j == 0 { return Remove; }
    if i == 0 { return Add; }
    if Fewest(left, right, i, j) == Fewest(left, right, i, j - 1) + 1 { return Add; }
    if Fewest(left, right, i, j) == Fewest(left, right, i - 1, j) + 1 { return Remove; }
    e := if left[i - 1] == right[j - 1] then Match else Replace;
  }

  /** A line less on one side saves at most one edit. */
  lemma {:induction false} FewestSteps<T>(left: seq<T>, right: seq<T>, i: nat, j: nat)
    requires i <= |left| && j <= |right|
    ensures i > 0 ==> Fewest(left, right, i - 1, j) <= Fewest(left, right, i, j) + 1
    ensures j > 0 ==> Fewest(left, right, i, j - 1) <= Fewest(left, right, i, j) + 1
    decreases i + j
  {
    if i > 0 && j > 0 {
      FewestSteps(left, right, i - 1, j);
      FewestSteps(left, right, i, j - 1);
    }
  }

  /** The branch taken at this entry is a match, or an edit that goes to a neighbour with no
      more edits before it than the other two. */
  ghost predicate Short<T>(left: seq<T>, right: seq<T>, i: nat, j: nat)
    requires i <= |left| && j <= |right| && i + j > 0
  {
    var m := Move(left, right, i, j);
    m != Match && i > 0 && j > 0 ==>
      var before := Fewest(left, right, if m == Add then i else i - 1, if m == Remove then j else j - 1);
      && before <= Fewest(left, right, i - 1, j - 1)
      && before <= Fewest(left, right, i, j - 1)
      && before <= Fewest(left, right, i - 1, j)
  }

  /** So are all branches on the walk back from this entry. */
  ghost predicate WalkShort<T>(left: seq<T>, right: seq<T>, i: nat, j: nat)
    requires i <= |left| && j <= |right|
    decreases i + j
  {
    i + j > 0 ==>
      var m := Move(left, right, i, j);
      && Short(left, right, i, j)
      && WalkShort(left, right, if m == Add then i else i - 1, if m == Remove then j else j - 1)
  }

  lemma {:induction false} ShortIff<T>(left: seq<T>, right: seq<T>, i: nat, j: nat)
    requires i <= |left| && j <= |right| && i + j > 0
    ensures
      var m := Move(left, right, i, j);
      var before := Fewest(left, right, if m == Add then i else i - 1, if m == Remove then j else j - 1);
      var after := before + if m == Match then 0 else 1;
      Fewest(left, right, i, j) <= after && (Short(left, right, i, j) <==> Fewest(left, right, i, j) == after)
  {
    if Move(left, right, i, j) == Match {
      FewestSteps(left, right, i - 1, j);
      FewestSteps(left, right, i, j - 1);
    }
  }

  lemma {:induction false} PathNumber<T>(left: seq<T>, right: seq<T>, i: nat, j: nat)
    requires i <= |left| && j <= |right| && i + j > 0
    ensures
      var m := Move(left, right, i, j);
      var before := Path(left, right, if m == Add then i else i - 1, if m == Remove then j else j - 1);
      EditNumber(Path(left, right, i, j)) == EditNumber(before) + if m == Match then 0 else 1
  {
    var m := Move(left, right, i, j);
    var before := Path(left, right, if m == Add then i else i - 1, if m == Remove then j else j - 1);
    assert Path(left, right, i, j) == before + [m];
    assert (before + [m])[..|before|] == before;
  }

  lemma {:induction false} ShortestIffWalkShort<T>(left: seq<T>, right: seq<T>, i: nat, j: nat)
    requires i <= |left| && j <= |right|
    ensures Fewest(left, right, i, j) <= EditNumber(Path(left, right, i, j))
    ensures EditNumber(Path(left, right, i, j)) == Fewest(left, right, i, j) <==> WalkShort(left, right, i, j)
    decreases i + j
  {
    if i + j > 0 {
      var m := Move(left, right, i, j);
      ShortIff(left, right, i, j);
      PathNumber(left, right, i, j);
      ShortestIffWalkShort(left, right, if m == Add then i else i - 1, if m == Remove then j else j - 1);
    }
  }

  /** No script for all of both inputs has fewer edits than `path`. */
  ghost predicate FewestEdits<T>(path: seq<EditType>, left: seq<T>, right: seq<T>) {
    forall edits :: Script(edits, left, right, |left|, |right|) ==> EditNumber(path) <= EditNumber(edits)
  }

  /** It has more edits than are needed for two lines that alternate. */
  lemma {:induction false} FewestEditsFails<T>(a: T, b: T)
    requires a != b
    ensures !FewestEdits(Path([a, b, a], [b, a, b], 3, 3), [a, b, a], [b, a, b])
  {
    FewerEditsDo(a, b);
    TwoOrThree();
  }

  /** The script CalculateOptimalEdits returns has the fewest edits exactly when no edit on its
      own walk goes to a neighbour with more edits before it than another. */
  lemma {:induction false} FewestEditsIff<T>(left: seq<T>, right: seq<T>)
    ensures FewestEdits(Path(left, right, |left|, |right|), left, right) <==> WalkShort(left, right, |left|, |right|)
  {
    var m, n := |left|, |right|;
    var path := Path(left, right, m, n);
    ShortestIffWalkShort(left, right, m, n);
    var shortest := FewestIsAttained(left, right, m, n);
    if WalkShort(left, right, m, n) {
      forall edits | Script(edits, left, right, m, n) ensures EditNumber(path) <= EditNumber(edits) {
        FewestIsBelow(left, right, m, n, edits);
      }
    } else {
      assert Script(shortest, left, right, m, n) && EditNumber(shortest) < EditNumber(path);
    }
  }

  lemma {:induction false} NumberAndCost(edits: seq<EditType>)
    ensures EditNumber(edits) as real <= ScriptCost(edits) <= EditNumber(edits) as real * REPLACE_COST
    decreases |edits|
  {
    if edits != [] { NumberAndCost(edits[..|edits| - 1]); }
  }

  /** When one input is a subsequence of the other, the returned script has the fewest edits. */
  lemma {:induction false} SubsequenceHasFewest<T>(left: seq<T>, right: seq<T>)
    requires Subsequence(left, right) || Subsequence(right, left)
    ensures FewestEdits(Path(left, right, |left|, |right|), left, right)
  {
    var m, n := |left|, |right|;
    var path := Path(left, right, m, n);
    SubsequenceCost(left, right);
    PathReplays(left, right, m, n);
    NumberAndCost(path);
    forall edits | Script(edits, left, right, m, n) ensures EditNumber(path) <= EditNumber(edits) {
      NumberBound(edits, left, right, m, n);
    }
  }

  lemma {:induction false} NumberBound<T>(edits: seq<EditType>, left: seq<T>, right: seq<T>, i: nat, j: nat)
    requires i <= |left| && j <= |right| && Script(edits, left, right, i, j)
    ensures EditNumber(edits) >= j - i && EditNumber(edits) >= i - j
    decreases |edits|
  {
    if edits != [] {
      var rest := edits[..|edits| - 1];
      match edits[|edits| - 1]
      case Match => NumberBound(rest, left, right, i - 1, j - 1);
      case Replace => NumberBound(rest, left, right, i - 1, j - 1);
      case Add => NumberBound(rest, left, right, i, j - 1);
      case Remove => NumberBound(rest, left, right, i - 1, j);
    }
  }

  /** Never more edits than the longer input has lines. */
  lemma {:induction false} FewestAtMost<T>(left: seq<T>, right: seq<T>, i: nat, j: nat)
    requires i <= |left| && j <= |right|
    ensures Fewest(left, right, i, j) <= (if i < j then j else i)
    decreases i + j
  {
    if i > 0 && j > 0 { FewestAtMost(left, right, i - 1, j - 1); }
  }

  /** Below 100000 lines the surcharges of all replacements stay under one edit: a cheapest
      script then has the fewest edits. */
  lemma {:induction false} OptimalHasFewest<T>(path: seq<EditType>, left: seq<T>, right: seq<T>)
    requires Optimal(path, left, right) && |left| < 100000 && |right| < 100000
    ensures FewestEdits(path, left, right)
  {
    var shortest := FewestIsAttained(left, right, |left|, |right|);
    FewestAtMost(left, right, |left|, |right|);
    NumberAndCost(path);
    NumberAndCost(shortest);
    forall edits | Script(edits, left, right, |left|, |right|) ensures EditNumber(path) <= EditNumber(edits) {
      FewestIsBelow(left, right, |left|, |right|, edits);
    }
  }

  lemma {:induction false} SwapNeedsTwo<T>(l: seq<T>, r: seq<T>, a: T, b: T)
    requires a != b && l == [a, b] && r == [b, a]
    ensures Fewest(l, r, 2, 2) == 2
  {
    assert Fewest(l, r, 1, 1) == 1;
    assert Fewest(l, r, 2, 1) == 1;
    assert Fewest(l, r, 1, 2) == 1;
  }

  /** A script that costs 2.00002 has at most two edits. */
  lemma {:induction false} SwapIsShortest<T>(l: seq<T>, r: seq<T>)
    requires |l| == 2 && |r| == 2 && Fewest(l, r, 2, 2) == 2 && Cost(l, r, 2, 2) == 2.00002
    ensures FewestEdits(Path(l, r, 2, 2), l, r)
  {
    PathReplays(l, r, 2, 2);
    NumberAndCost(Path(l, r, 2, 2));
    forall edits | Script(edits, l, r, 2, 2) ensures EditNumber(Path(l, r, 2, 2)) <= EditNumber(edits) {
      FewestIsBelow(l, r, 2, 2, edits);
    }
  }

  lemma {:induction false} DearerScript<T>(l: seq<T>, r: seq<T>, edits: seq<EditType>)
    requires Script(edits, l, r, |l|, |r|) && ScriptCost(edits) < Cost(l, r, |l|, |r|)
    ensures !Optimal(Path(l, r, |l|, |r|), l, r)
  {
    PathReplays(l, r, |l|, |r|);
  }

  /** Not the other way round: a swap of two lines has the fewest edits, but is not optimal. */
  lemma {:induction false} FewestNeedNotBeOptimal<T>(a: T, b: T)
    requires a != b
    ensures var (l, r) := ([a, b], [b, a]);
      FewestEdits(Path(l, r, 2, 2), l, r) && !Optimal(Path(l, r, 2, 2), l, r)
  {
    SwapIsOverpriced(a, b);
    SwapNeedsTwo([a, b], [b, a], a, b);
    SwapIsShortest([a, b], [b, a]);
    DearerScript([a, b], [b, a], [Remove, Match, Add]);
  }

  // ---------------------------------------------------------------- strings through ids

  class InternalStrings {
    var ids: map<string, nat>

    /** Different strings have different ids, all below the number of strings. */
    ghost predicate Valid()
      reads this
    {
      && (forall s :: s in ids ==> ids[s] < |ids|)
      && (forall s, t :: s in ids && t in ids && ids[s] == ids[t] ==> s == t)
    }

    constructor ()
      ensures Valid() && ids == map[]
    {
      ids := map[];
    }

    method GetId(str: string) returns (id: nat)
      requires Valid()
      modifies this
      ensures Valid() && str in ids && ids[str] == id
      ensures forall s :: s in old(ids) ==> s in ids && ids[s] == old(ids)[s]
    {
      if str in ids { return ids[str]; }
      id := |ids|;
      ids := ids[str := id];
    }
  }

  /** The same lines are equal on both sides. */
  ghost predicate SamePattern<S, T>(left: seq<S>, right: seq<S>, left': seq<T>, right': seq<T>) {
    && |left| == |left'| && |right| == |right'|
    && forall i, j :: 0 <= i < |left| && 0 <= j < |right| ==> (left[i] == right[j] <==> left'[i] == right'[j])
  }

  lemma {:induction false} SameCost<S, T>(left: seq<S>, right: seq<S>, left': seq<T>, right': seq<T>, i: nat, j: nat)
    requires SamePattern(left, right, left', right') && i <= |left| && j <= |right|
    ensures Cost(left, right, i, j) == Cost(left', right', i, j)
    decreases i + j
  {
    if i > 0 && j > 0 {
      SameCost(left, right, left', right', i - 1, j - 1);
      SameCost(left, right, left', right', i, j - 1);
      SameCost(left, right, left', right', i - 1, j);
    }
  }

  lemma {:induction false} SameMove<S, T>(left: seq<S>, right: seq<S>, left': seq<T>, right': seq<T>, i: nat, j: nat)
    requires SamePattern(left, right, left', right') && i <= |left| && j <= |right|
    ensures Move(left, right, i, j) == Move(left', right', i, j)
  {
    if i > 0 && j > 0 {
      SameCost(left, right, left', right', i - 1, j - 1);
      SameCost(left, right, left', right', i, j - 1);
      SameCost(left, right, left', right', i - 1, j);
    }
  }

  lemma {:induction false} SamePath<S, T>(left: seq<S>, right: seq<S>, left': seq<T>, right': seq<T>, i: nat, j: nat)
    requires SamePattern(left, right, left', right') && i <= |left| && j <= |right|
    ensures Path(left, right, i, j) == Path(left', right', i, j)
    decreases i + j
  {
    if i > 0 || j > 0 {
      SameMove(left, right, left', right', i, j);
      var m := Move(left, right, i, j);
      SamePath(left, right, left', right', if m == Add then i else i - 1, if m == Remove then j else j - 1);
    }
  }

  /** One of the two interning loops: the ids of the lines. */
  method Intern(table: InternalStrings, lines: seq<string>) returns (ids: seq<nat>)
    requires table.Valid()
    modifies table
    ensures table.Valid() && |ids| == |lines|
    ensures forall k :: 0 <= k < |lines| ==> lines[k] in table.ids && table.ids[lines[k]] == ids[k]
    ensures forall s :: s in old(table.ids) ==> s in table.ids && table.ids[s] == old(table.ids)[s]
  {
    ids := [];
    var i := 0;
    while i < |lines|
      invariant 0 <= i == |ids| <= |lines| && table.Valid()
      invariant forall k :: 0 <= k < i ==> lines[k] in table.ids && table.ids[lines[k]] == ids[k]
      invariant forall s :: s in old(table.ids) ==> s in table.ids && table.ids[s] == old(table.ids)[s]
    {
      var id := table.GetId(lines[i]);
      ids := ids + [id];
      i := i + 1;
    }
  }

  method CalculateStringEdits(left: seq<string>, right: seq<string>) returns (path: seq<EditType>)
    ensures path == Path(left, right, |left|, |right|)
  {
    var table := new InternalStrings();
    var leftIds := Intern(table, left);
    var rightIds := Intern(table, right);
    path := CalculateOptimalEdits(leftIds, rightIds);
    SamePath(left, right, leftIds, rightIds, |left|, |right|);
  }
}
