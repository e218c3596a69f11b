/** Overload resolution in the JavaScript `type` module
    (src/js/naclbind.js): `isViableForCall`, `getFunctionCallRank`,
    `compareFunctionCallRanks` and `getBestViableFunction`. */
module Overload {
  import opened Wrappers
  import opened CTypes
  import opened TypeCasts

  /** `isViableForCall`: a prototype takes exactly as many arguments, or
      fewer when variadic; a function without a prototype takes any. */
  predicate IsViableForCall(fn: Type, args: seq<Type>)
    requires fn.IsFunction()
  {
    fn.FunctionNoProto? || |fn.argTypes| == |args| || (|fn.argTypes| < |args| && fn.variadic)
  }

  /** Whether argument `i` falls to a `...` or to an unprototyped
      parameter list. */
  predicate IsDefaultPromoted(fn: Type, i: nat)
    requires fn.IsFunction()
  {
    fn.FunctionNoProto? || (fn.variadic && i >= |fn.argTypes|)
  }

  /** The rank of argument `i` in a call of `fn`. */
  function ArgRank(fn: Type, args: seq<Type>, i: nat): int
    requires fn.IsFunction() && IsViableForCall(fn, args) && i < |args|
  {
    if IsDefaultPromoted(fn, i) then CAST_OK_DEFAULT_PROMOTION
    else GetCastRank(args[i], fn.argTypes[i])
  }

  /** The rank list of a call: the rank of every argument, with extra
      variadic arguments ranked as default promotions, or nothing when
      some parameter cannot take its argument without a warning. */
  function CallRank(fn: Type, args: seq<Type>): (r: Option<seq<int>>)
    requires fn.IsFunction() && IsViableForCall(fn, args)
    ensures r.Some? ==> |r.value| == |args|
  {
    if forall i :: 0 <= i < |args| ==> ArgRank(fn, args, i) >= 0 then
      Some(seq(|args|, i requires 0 <= i < |args| => ArgRank(fn, args, i)))
    else
      None
  }

  /** The rank list holds, for each argument, the default-promotion rank
      or the rank of the cast to its parameter; there is none exactly when
      some parameter cannot take its argument without a warning. */
  lemma CallRankMeans(fn: Type, args: seq<Type>)
    requires fn.IsFunction() && IsViableForCall(fn, args)
    ensures var r := CallRank(fn, args);
      r.Some? ==> forall i :: 0 <= i < |args| ==>
        r.value[i] >= 0 &&
        (IsDefaultPromoted(fn, i) ==> r.value[i] == CAST_OK_DEFAULT_PROMOTION) &&
        (!IsDefaultPromoted(fn, i) ==> r.value[i] == GetCastRank(args[i], fn.argTypes[i]))
    ensures CallRank(fn, args).None? <==>
      exists i :: 0 <= i < |args| && !IsDefaultPromoted(fn, i) && !IsCastOK(CanCast(args[i], fn.argTypes[i]))
  {
  }

  /** `getFunctionCallRank`. */
  method GetFunctionCallRank(fn: Type, args: seq<Type>) returns (r: Option<seq<int>>)
    requires fn.IsFunction() && IsViableForCall(fn, args)
    ensures r == CallRank(fn, args)
  {
    var result: seq<int> := [];
    var i := 0;
    while i < |args|
      invariant 0 <= i <= |args| && |result| == i
      invariant forall k :: 0 <= k < i ==> result[k] == ArgRank(fn, args, k) && result[k] >= 0
    {
      var castRank;
      if IsDefaultPromoted(fn, i) {
        castRank := CAST_OK_DEFAULT_PROMOTION;
      } else {
        castRank := GetCastRank(args[i], fn.argTypes[i]);
        if castRank < 0 {
          assert ArgRank(fn, args, i) < 0;
          return None;
        }
      }
      result := result + [castRank];
      i := i + 1;
    }
    assert result == CallRank(fn, args).value;
    return Some(result);
  }

  /** `r1` is at least as good as `r2` for every argument and better for
      one. */
  predicate Better(r1: seq<int>, r2: seq<int>)
    requires |r1| == |r2|
  {
    (forall i :: 0 <= i < |r1| ==> r1[i] >= r2[i]) && exists i :: 0 <= i < |r1| && r1[i] > r2[i]
  }

  /** At most one of two rank lists is better than the other. */
  lemma BetterAsymmetric(r1: seq<int>, r2: seq<int>)
    requires |r1| == |r2| && Better(r1, r2)
    ensures !Better(r2, r1)
  {
  }

  /** The comparison `compareFunctionCallRanks` computes: 1 when the first
      list is better, -1 when the second is, 0 when they are equal or
      neither is better. */
  function Compare(r1: seq<int>, r2: seq<int>): int
    requires |r1| == |r2|
  {
    if Better(r1, r2) then 1 else if Better(r2, r1) then -1 else 0
  }

  /** `compareFunctionCallRanks`: one pass that gives up with 0 as soon
      as the lists disagree in both directions. */
  method CompareFunctionCallRanks(r1: seq<int>, r2: seq<int>) returns (result: int)
    requires |r1| == |r2|
    ensures result == Compare(r1, r2)
  {
    result := 0;
    var i := 0;
    while i < |r1|
      invariant 0 <= i <= |r1|
      invariant result == 0 ==> forall k :: 0 <= k < i ==> r1[k] == r2[k]
      invariant result == 1 ==>
        (forall k :: 0 <= k < i ==> r1[k] >= r2[k]) && (exists k :: 0 <= k < i && r1[k] > r2[k])
      invariant result == -1 ==>
        (forall k :: 0 <= k < i ==> r1[k] <= r2[k]) && (exists k :: 0 <= k < i && r1[k] < r2[k])
      invariant result == 0 || result == 1 || result == -1
    {
      if r1[i] < r2[i] {
        if result > 0 {
          assert !Better(r1, r2) && !Better(r2, r1);
          return 0;
        }
        result := -1;
      } else if r1[i] > r2[i] {
        if result < 0 {
          assert !Better(r1, r2) && !Better(r2, r1);
          return 0;
        }
        result := 1;
      }
      i := i + 1;
    }
    if result == 0 {
      assert !Better(r1, r2) && !Better(r2, r1);
    }
  }

  /** Every candidate is a function type. */
  predicate AllFunctions(fns: seq<Type>)
  {
    forall j :: 0 <= j < |fns| ==> fns[j].IsFunction()
  }

  /** Candidate `j` can be called with `args` without a warning. */
  predicate Viable(fns: seq<Type>, args: seq<Type>, j: int)
    requires AllFunctions(fns)
  {
    0 <= j < |fns| && IsViableForCall(fns[j], args) && CallRank(fns[j], args).Some?
  }

  function RankOf(fns: seq<Type>, args: seq<Type>, j: int): seq<int>
    requires AllFunctions(fns) && Viable(fns, args, j)
  {
    CallRank(fns[j], args).value
  }

  /** Candidate `j` is the best viable function: viable, and better than
      every other viable candidate. */
  predicate IsBest(fns: seq<Type>, args: seq<Type>, j: int)
    requires AllFunctions(fns)
  {
    Viable(fns, args, j) &&
    forall k :: 0 <= k < |fns| && k != j && Viable(fns, args, k) ==>
      Better(RankOf(fns, args, j), RankOf(fns, args, k))
  }

  /** There is at most one best viable function. */
  lemma BestUnique(fns: seq<Type>, args: seq<Type>, j: int, k: int)
    requires AllFunctions(fns) && IsBest(fns, args, j) && IsBest(fns, args, k)
    ensures j == k
  {
    if j != k {
      BetterAsymmetric(RankOf(fns, args, j), RankOf(fns, args, k));
    }
  }

  // ---------------------------------------------------------------------
  // `getBestViableFunction` as written

  /** The loop state of `getBestViableFunction`. */
  datatype Scan = Scan(bestFnIdx: int, bestRank: seq<int>, isValid: bool)

  /** One iteration of the loop, for candidate `i`. */
  function Step(fns: seq<Type>, args: seq<Type>, s: Scan, i: int): Scan
    requires AllFunctions(fns) && 0 <= i < |fns|
    requires s.bestFnIdx != -1 ==> |s.bestRank| == |args|
  {
    if !Viable(fns, args, i) then s
    else
      var rank := RankOf(fns, args, i);
      if s.bestFnIdx != -1 && Compare(rank, s.bestRank) == 0 then Scan(s.bestFnIdx, s.bestRank, false)
      else if s.bestFnIdx != -1 && Compare(rank, s.bestRank) < 0 then s
      else Scan(i, rank, true)
  }

  /** The loop state after the first `n` candidates. */
  function ScanUpTo(fns: seq<Type>, args: seq<Type>, n: nat): (s: Scan)
    requires AllFunctions(fns) && n <= |fns|
    ensures s.bestFnIdx == -1 || (0 <= s.bestFnIdx < n && Viable(fns, args, s.bestFnIdx)
      && s.bestRank == RankOf(fns, args, s.bestFnIdx))
  {
    if n == 0 then Scan(-1, [], false)
    else Step(fns, args, ScanUpTo(fns, args, n - 1), n - 1)
  }

  /** What `getBestViableFunction` returns. */
  function BestAsWritten(fns: seq<Type>, args: seq<Type>): int
    requires AllFunctions(fns)
  {
    var s := ScanUpTo(fns, args, |fns|);
    if s.isValid then s.bestFnIdx else -1
  }

  /** `getBestViableFunction` as written. */
  method GetBestViableFunctionAsWritten(fns: seq<Type>, args: seq<Type>) returns (r: int)
    requires AllFunctions(fns)
    ensures r == BestAsWritten(fns, args)
  {
    var bestFnIdx, bestRank, isValid := -1, [], false;
    var i := 0;
    while i < |fns|
      invariant 0 <= i <= |fns|
      invariant Scan(bestFnIdx, bestRank, isValid) == ScanUpTo(fns, args, i)
    {
      assert ScanUpTo(fns, args, i + 1) == Step(fns, args, Scan(bestFnIdx, bestRank, isValid), i);
      if !IsViableForCall(fns[i], args) {
        i := i + 1;
        continue;
      }
      var rank := GetFunctionCallRank(fns[i], args);
      if rank.None? {
        i := i + 1;
        continue;
      }
      if bestFnIdx != -1 {
        var cmpResult := CompareFunctionCallRanks(rank.value, bestRank);
        if cmpResult == 0 {
          isValid := false;
          i := i + 1;
          continue;
        } else if cmpResult < 0 {
          i := i + 1;
          continue;
        }
      }
      bestFnIdx, bestRank, isValid := i, rank.value, true;
      i := i + 1;
    }
    r := if isValid then bestFnIdx else -1;
  }

  /** Once the best viable function has been scanned, it stays the
      current best. */
  lemma {:induction false} ScanKeepsBest(fns: seq<Type>, args: seq<Type>, j: int, n: nat)
    requires AllFunctions(fns) && IsBest(fns, args, j) && j < n <= |fns|
    ensures ScanUpTo(fns, args, n) == Scan(j, RankOf(fns, args, j), true)
  {
    if n - 1 == j {
      ScanReachesBest(fns, args, j);
    } else {
      ScanKeepsBest(fns, args, j, n - 1);
      if Viable(fns, args, n - 1) {
        BestBeats(fns, args, j, n - 1);
      }
      ScanPastBest(fns, args, j, n - 1);
    }
  }

  /** Scanning a candidate the current best beats leaves the scan as it
      was. */
  lemma ScanPastBest(fns: seq<Type>, args: seq<Type>, j: int, k: int)
    requires AllFunctions(fns) && 0 <= j < k < |fns| && Viable(fns, args, j)
    requires ScanUpTo(fns, args, k) == Scan(j, RankOf(fns, args, j), true)
    requires Viable(fns, args, k) ==> Better(RankOf(fns, args, j), RankOf(fns, args, k))
    ensures ScanUpTo(fns, args, k + 1) == Scan(j, RankOf(fns, args, j), true)
  {
    StepPastBest(fns, args, ScanUpTo(fns, args, k), j, k);
  }

  /** Scanning up to and including the best viable function makes it the
      current best. */
  lemma ScanReachesBest(fns: seq<Type>, args: seq<Type>, j: int)
    requires AllFunctions(fns) && IsBest(fns, args, j) && j < |fns|
    ensures ScanUpTo(fns, args, j + 1) == Scan(j, RankOf(fns, args, j), true)
  {
    var s := ScanUpTo(fns, args, j);
    if s.bestFnIdx != -1 {
      BestBeats(fns, args, j, s.bestFnIdx);
    }
    StepAtBest(fns, args, s, j);
  }

  /** The best viable function beats each other viable candidate. */
  lemma BestBeats(fns: seq<Type>, args: seq<Type>, j: int, k: int)
    requires AllFunctions(fns) && IsBest(fns, args, j) && 0 <= k < |fns| && k != j && Viable(fns, args, k)
    ensures Better(RankOf(fns, args, j), RankOf(fns, args, k))
  {
  }

  /** Scanning the best viable function makes it the current best. */
  lemma StepAtBest(fns: seq<Type>, args: seq<Type>, s: Scan, j: int)
    requires AllFunctions(fns) && 0 <= j < |fns| && Viable(fns, args, j)
    requires s.bestFnIdx != -1 ==>
      (|s.bestRank| == |args| && |RankOf(fns, args, j)| == |args| && Better(RankOf(fns, args, j), s.bestRank))
    ensures Step(fns, args, s, j) == Scan(j, RankOf(fns, args, j), true)
  {
  }

  /** Scanning a candidate the current best beats leaves the scan as it
      was. */
  lemma StepPastBest(fns: seq<Type>, args: seq<Type>, s: Scan, j: int, k: int)
    requires AllFunctions(fns) && 0 <= j < |fns| && 0 <= k < |fns| && Viable(fns, args, j)
    requires s == Scan(j, RankOf(fns, args, j), true) && |s.bestRank| == |args|
    requires Viable(fns, args, k) ==> |RankOf(fns, args, k)| == |args| && Better(s.bestRank, RankOf(fns, args, k))
    ensures Step(fns, args, s, k) == s
  {
    if Viable(fns, args, k) {
      BetterAsymmetric(s.bestRank, RankOf(fns, args, k));
    }
  }

  /** As written, the best viable function is found whenever there is
      one, and a found candidate is at least viable. */
  lemma BestAsWrittenFindsBest(fns: seq<Type>, args: seq<Type>)
    requires AllFunctions(fns)
    ensures BestAsWritten(fns, args) == -1 || Viable(fns, args, BestAsWritten(fns, args))
    ensures forall j :: IsBest(fns, args, j) ==> BestAsWritten(fns, args) == j
  {
    forall j | IsBest(fns, args, j)
      ensures BestAsWritten(fns, args) == j
    {
      ScanKeepsBest(fns, args, j, |fns|);
    }
  }

  /** Three overloads called with `(int, int)`: `f(int, double)`,
      `f(double, int)` and `f(int, long)`. */
  function ExampleCandidates(): seq<Type>
  {
    [FunctionProto(Void(0), [Numeric(INT, 0), Numeric(DOUBLE, 0)], false),
     FunctionProto(Void(0), [Numeric(DOUBLE, 0), Numeric(INT, 0)], false),
     FunctionProto(Void(0), [Numeric(INT, 0), Numeric(LONG, 0)], false)]
  }

  function ExampleArgs(): seq<Type>
  {
    [Numeric(INT, 0), Numeric(INT, 0)]
  }

  /** The rank of one argument: exact for `int`, a promotion to `long`, a
      conversion to `double`. */
  lemma ExampleArgRanks()
    ensures GetCastRank(Numeric(INT, 0), Numeric(INT, 0)) == 3
    ensures GetCastRank(Numeric(INT, 0), Numeric(LONG, 0)) == 2
    ensures GetCastRank(Numeric(INT, 0), Numeric(DOUBLE, 0)) == 1
  {
    NumericCasts(INT, 0, INT, 0);
    NumericCasts(INT, 0, LONG, 0);
    NumericCasts(INT, 0, DOUBLE, 0);
  }

  /** The rank of a two-parameter prototype called with `(int, int)`. */
  lemma ExampleRank(fns: seq<Type>, j: nat, p0: Type, p1: Type)
    requires AllFunctions(fns) && j < |fns| && fns[j] == FunctionProto(Void(0), [p0, p1], false)
    requires GetCastRank(Numeric(INT, 0), p0) >= 0 && GetCastRank(Numeric(INT, 0), p1) >= 0
    ensures Viable(fns, ExampleArgs(), j)
    ensures RankOf(fns, ExampleArgs(), j) ==
      [GetCastRank(Numeric(INT, 0), p0), GetCastRank(Numeric(INT, 0), p1)]
  {
    assert ArgRank(fns[j], ExampleArgs(), 0) >= 0 && ArgRank(fns[j], ExampleArgs(), 1) >= 0;
  }

  /** The candidates rank [3, 1], [1, 3] and [3, 2]. */
  lemma ExampleRanks()
    ensures AllFunctions(ExampleCandidates())
    ensures Viable(ExampleCandidates(), ExampleArgs(), 0) && RankOf(ExampleCandidates(), ExampleArgs(), 0) == [3, 1]
    ensures Viable(ExampleCandidates(), ExampleArgs(), 1) && RankOf(ExampleCandidates(), ExampleArgs(), 1) == [1, 3]
    ensures Viable(ExampleCandidates(), ExampleArgs(), 2) && RankOf(ExampleCandidates(), ExampleArgs(), 2) == [3, 2]
  {
    var fns := ExampleCandidates();
    ExampleArgRanks();
    ExampleRank(fns, 0, Numeric(INT, 0), Numeric(DOUBLE, 0));
    ExampleRank(fns, 1, Numeric(DOUBLE, 0), Numeric(INT, 0));
    ExampleRank(fns, 2, Numeric(INT, 0), Numeric(LONG, 0));
  }

  /** The first two candidates tie, the third beats the first, and the
      second is as good as the third for its second argument. */
  lemma ExampleComparisons()
    ensures Compare([1, 3], [3, 1]) == 0 && Compare([3, 2], [3, 1]) == 1
    ensures !Better([3, 1], [1, 3]) && !Better([3, 2], [1, 3])
  {
    var a, b, c := [3, 1], [1, 3], [3, 2];
    assert b[0] < a[0] && a[1] < b[1] && c[1] < b[1];
    assert c[0] >= a[0] && c[1] > a[1];
  }

  /** The loop ends on the third candidate although no candidate is best:
      the tie between the first two is forgotten once the third beats the
      first. */
  lemma BestAsWrittenCounterexample()
    ensures AllFunctions(ExampleCandidates())
    ensures BestAsWritten(ExampleCandidates(), ExampleArgs()) == 2
    ensures forall j :: !IsBest(ExampleCandidates(), ExampleArgs(), j)
  {
    var fns, args := ExampleCandidates(), ExampleArgs();
    ExampleRanks();
    ExampleComparisons();
    assert ScanUpTo(fns, args, 1) == Scan(0, [3, 1], true);
    assert ScanUpTo(fns, args, 2) == Scan(0, [3, 1], false);
    assert ScanUpTo(fns, args, 3) == Scan(2, [3, 2], true);
  }

  // ---------------------------------------------------------------------
  // `getBestViableFunction` with the winner checked against every other
  // viable candidate

  /** `getBestViableFunction` followed by a second pass that keeps the
      candidate only if it beats every other viable candidate. */
  method GetBestViableFunction(fns: seq<Type>, args: seq<Type>) returns (r: int)
    requires AllFunctions(fns)
    ensures r >= 0 ==> IsBest(fns, args, r)
    ensures r == -1 <==> forall j :: !IsBest(fns, args, j)
  {
    var best := GetBestViableFunctionAsWritten(fns, args);
    BestAsWrittenFindsBest(fns, args);
    if best == -1 {
      return -1;
    }
    var bestRank := RankOf(fns, args, best);
    var k := 0;
    while k < |fns|
      invariant 0 <= k <= |fns|
      invariant forall m :: 0 <= m < k && m != best && Viable(fns, args, m) ==>
        Better(bestRank, RankOf(fns, args, m))
    {
      if k != best && IsViableForCall(fns[k], args) {
        var rank := GetFunctionCallRank(fns[k], args);
        if rank.Some? {
          var cmp := CompareFunctionCallRanks(bestRank, rank.value);
          if cmp != 1 {
            NoBest(fns, args, best, k);
            return -1;
          }
        }
      }
      k := k + 1;
    }
    return best;
  }

  /** A viable rival that the found candidate does not beat leaves no best
      viable function at all. */
  lemma NoBest(fns: seq<Type>, args: seq<Type>, best: int, k: int)
    requires AllFunctions(fns) && Viable(fns, args, best) && Viable(fns, args, k) && k != best
    requires BestAsWritten(fns, args) == best
    requires !Better(RankOf(fns, args, best), RankOf(fns, args, k))
    ensures forall j :: !IsBest(fns, args, j)
  {
    BestAsWrittenFindsBest(fns, args);
  }
}
