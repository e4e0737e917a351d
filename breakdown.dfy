/**
 * The note-breakdown solver: a depth-first backtracking search over the
 * denominations in descending order. At each level it tries note counts from
 * `min(stock, target // denomination)` down to 0 and keeps the first branch
 * that completes, so the plan it returns is the lexicographically greatest
 * bounded combination.
 *
 * `Solve(cash, ds, target)` is `solve(target, idx)` with `ds` the denominations
 * still to visit (`denominations[idx:]`); `SolveFrom` is the same search written
 * as the source writes it, a recursive procedure with a descending loop.
 */
module Breakdown {
  import opened Inventory

  /** Outcome of the search: a plan, no plan, or the ZeroDivisionError that
      `target // 0` raises when a stored denomination is 0. */
  datatype Search = Found(plan: Plan) | NoPlan | DivideByZero

  /** Python's floor division `a // b`: the greatest `q` with `q * b <= a` for a
      positive divisor, the greatest `q` with `q * b >= a` for a negative one. */
  function FloorDiv(a: int, b: int): (q: int)
    requires b != 0
    ensures b > 0 ==> q * b <= a < q * b + b
    ensures b < 0 ==> q * b + b < a <= q * b
  {
    if b > 0 then a / b else (-a) / (-b)
  }

  function Min(a: int, b: int): int
  {
    if a <= b then a else b
  }

  /** Number of notes of `ds[0]` the search tries first. */
  function MaxUse(cash: Cash, ds: seq<int>, target: int): int
    requires ds != [] && ds[0] != 0 && Stocked(cash, ds)
  {
    Min(cash[ds[0]], FloorDiv(target, ds[0]))
  }

  /** `solve(target, idx)`: a found plan lists only denominations still to visit,
      each with a positive count (zero counts are never recorded). */
  function Solve(cash: Cash, ds: seq<int>, target: int): (r: Search)
    requires Stocked(cash, ds)
    ensures r.Found? ==> forall d :: d in r.plan ==> d in ds && r.plan[d] > 0
    decreases |ds|, 1, 0
  {
    if target == 0 then Found(map[])
    else if ds == [] then NoPlan
    else if ds[0] == 0 then DivideByZero
    else if MaxUse(cash, ds, target) < 0 then NoPlan
    else TryCounts(cash, ds, target, MaxUse(cash, ds, target))
  }

  /** The search below level `ds[0]` after taking `count` notes of `ds[0]`. */
  function Branch(cash: Cash, ds: seq<int>, target: int, count: int): (r: Search)
    requires ds != [] && Stocked(cash, ds)
    ensures r.Found? ==> forall d :: d in r.plan ==> d in ds[1..] && r.plan[d] > 0
    decreases |ds|, 0, 0
  {
    Solve(cash, ds[1..], target - count * ds[0])
  }

  /** Adds `count` notes of `d` to a plan, leaving zero counts out. */
  function Attach(plan: Plan, d: int, count: int): Plan
  {
    if count > 0 then plan[d := count] else plan
  }

  /** Tries `count`, `count - 1`, ..., `0` notes of `ds[0]`; the first branch that completes wins. */
  function TryCounts(cash: Cash, ds: seq<int>, target: int, count: nat): (r: Search)
    requires ds != [] && ds[0] != 0 && Stocked(cash, ds)
    ensures r.Found? ==> forall d :: d in r.plan ==> d in ds && r.plan[d] > 0
    decreases |ds|, 0, count + 1
  {
    match Branch(cash, ds, target, count)
    case Found(p) => Found(Attach(p, ds[0], count))
    case DivideByZero => DivideByZero
    case NoPlan => if count == 0 then NoPlan else TryCounts(cash, ds, target, count - 1)
  }

  /** Dot product `sum(ds[i] * cs[i])`. */
  function Dot(ds: seq<int>, cs: seq<int>): int
    requires |ds| == |cs|
  {
    if ds == [] then 0 else ds[0] * cs[0] + Dot(ds[1..], cs[1..])
  }

  /** The note counts of `plan` listed in the order of `ds`. */
  function Counts(plan: Plan, ds: seq<int>): (cs: seq<int>)
    ensures |cs| == |ds|
    ensures forall i :: 0 <= i < |ds| ==> cs[i] == Get(plan, ds[i])
  {
    if ds == [] then [] else [Get(plan, ds[0])] + Counts(plan, ds[1..])
  }

  /** `cs` takes between 0 and the stock of each denomination and is worth exactly `target`. */
  predicate Feasible(cash: Cash, ds: seq<int>, target: int, cs: seq<int>)
  {
    |cs| == |ds| &&
    (forall i :: 0 <= i < |ds| ==> 0 <= cs[i] <= Get(cash, ds[i])) &&
    Dot(ds, cs) == target
  }

  /** `plan` is worth `target` over `ds`, only names denominations of `ds`, and takes
      a positive number of notes, at most the stock, of each denomination it names. */
  predicate Dispensable(cash: Cash, ds: seq<int>, target: int, plan: Plan)
  {
    SumValue(plan, ds) == target &&
    forall d :: d in plan ==> d in ds && d in cash && 0 < plan[d] <= cash[d]
  }

  /** Lexicographic order on equally long count vectors. */
  predicate LexGeq(a: seq<int>, b: seq<int>)
    requires |a| == |b|
  {
    a == [] || a[0] > b[0] || (a[0] == b[0] && LexGeq(a[1..], b[1..]))
  }

  lemma {:induction false} SumValueCounts(plan: Plan, ds: seq<int>)
    ensures SumValue(plan, ds) == Dot(ds, Counts(plan, ds))
  {
    if ds != [] {
      SumValueCounts(plan, ds[1..]);
      assert Counts(plan, ds)[1..] == Counts(plan, ds[1..]);
    }
  }

  /** Adding a denomination that lies outside `ds` does not change a plan's value over `ds`. */
  lemma {:induction false} SumValueAttach(plan: Plan, d: int, count: int, ds: seq<int>)
    requires d !in ds
    ensures SumValue(Attach(plan, d, count), ds) == SumValue(plan, ds)
  {
    if ds != [] {
      SumValueAttach(plan, d, count, ds[1..]);
    }
  }

  lemma HeadNotInTail(ds: seq<int>)
    requires StrictlyDescending(ds) && ds != []
    ensures ds[0] !in ds[1..]
  {
    forall j | 1 <= j < |ds| ensures ds[j] != ds[0] {
      assert ds[0] > ds[j];
    }
  }

  lemma {:induction false} DotNonNegative(ds: seq<int>, cs: seq<int>)
    requires |ds| == |cs| && AllPositive(ds)
    requires forall i :: 0 <= i < |cs| ==> cs[i] >= 0
    ensures Dot(ds, cs) >= 0
  {
    if ds != [] {
      DotNonNegative(ds[1..], cs[1..]);
      assert ds[0] * cs[0] >= 0;
    }
  }

  /** With positive denominations and non-negative counts, `Dot == 0` forces every count to 0. */
  lemma {:induction false} DotZero(ds: seq<int>, cs: seq<int>)
    requires |ds| == |cs| && AllPositive(ds)
    requires forall i :: 0 <= i < |cs| ==> cs[i] >= 0
    requires Dot(ds, cs) == 0
    ensures forall i :: 0 <= i < |cs| ==> cs[i] == 0
  {
    if ds != [] {
      DotNonNegative(ds[1..], cs[1..]);
      assert ds[0] * cs[0] >= 0;
      DotZero(ds[1..], cs[1..]);
      assert forall i :: 1 <= i < |cs| ==> cs[i] == cs[1..][i - 1];
    }
  }

  lemma DivBound(c: int, d: int, t: int)
    requires d > 0 && c * d <= t
    ensures c <= t / d
  {
    var q := t / d;
    assert t == q * d + t % d && t % d < d;
    assert (q + 1 - c) * d > 0;
    PositiveFactor(q + 1 - c, d);
  }

  lemma PositiveFactor(x: int, d: int)
    requires d > 0 && x * d > 0
    ensures x > 0
  {
  }

  /** A feasible first count lies inside the range the search tries, and the rest is
      feasible for the remainder. */
  lemma FeasibleHead(cash: Cash, ds: seq<int>, target: int, cs: seq<int>)
    requires Stocked(cash, ds) && AllPositive(ds) && ds != []
    requires Feasible(cash, ds, target, cs)
    ensures 0 <= cs[0] <= MaxUse(cash, ds, target)
    ensures Feasible(cash, ds[1..], target - cs[0] * ds[0], cs[1..])
  {
    assert forall i :: 1 <= i < |cs| ==> cs[i] == cs[1..][i - 1] && ds[i] == ds[1..][i - 1];
    assert forall i :: 0 <= i < |cs[1..]| ==> cs[1..][i] >= 0;
    DotNonNegative(ds[1..], cs[1..]);
    assert ds[0] * cs[0] <= target;
    DivBound(cs[0], ds[0], target);
    assert cs[0] <= cash[ds[0]];
  }

  /** With positive denominations the search never divides by zero. */
  lemma {:induction false} SolveNeverDividesByZero(cash: Cash, ds: seq<int>, target: int)
    requires Stocked(cash, ds) && AllPositive(ds)
    ensures !Solve(cash, ds, target).DivideByZero?
    decreases |ds|, 1, 0
  {
    if target != 0 && ds != [] && MaxUse(cash, ds, target) >= 0 {
      TryCountsNeverDividesByZero(cash, ds, target, MaxUse(cash, ds, target));
    }
  }

  lemma {:induction false} TryCountsNeverDividesByZero(cash: Cash, ds: seq<int>, target: int, count: nat)
    requires ds != [] && Stocked(cash, ds) && AllPositive(ds)
    ensures !TryCounts(cash, ds, target, count).DivideByZero?
    decreases |ds|, 0, count + 1
  {
    SolveNeverDividesByZero(cash, ds[1..], target - count * ds[0]);
    if count > 0 {
      TryCountsNeverDividesByZero(cash, ds, target, count - 1);
    }
  }

  /** Soundness: a returned plan is worth exactly the target and respects the stock. */
  lemma {:induction false} SolveSound(cash: Cash, ds: seq<int>, target: int)
    requires Stocked(cash, ds) && StrictlyDescending(ds)
    ensures Solve(cash, ds, target).Found? ==> Dispensable(cash, ds, target, Solve(cash, ds, target).plan)
    decreases |ds|, 1, 0
  {
    if target == 0 {
      SumValueEmpty(ds);
    } else if ds != [] && ds[0] != 0 && MaxUse(cash, ds, target) >= 0 {
      TryCountsSound(cash, ds, target, MaxUse(cash, ds, target));
    }
  }

  lemma {:induction false} SumValueEmpty(ds: seq<int>)
    ensures SumValue(map[], ds) == 0
  {
    if ds != [] {
      SumValueEmpty(ds[1..]);
    }
  }

  lemma {:induction false} TryCountsSound(cash: Cash, ds: seq<int>, target: int, count: nat)
    requires ds != [] && ds[0] != 0 && Stocked(cash, ds) && StrictlyDescending(ds)
    requires count <= MaxUse(cash, ds, target)
    ensures TryCounts(cash, ds, target, count).Found? ==>
              Dispensable(cash, ds, target, TryCounts(cash, ds, target, count).plan)
    decreases |ds|, 0, count + 1
  {
    var sub := Branch(cash, ds, target, count);
    SolveSound(cash, ds[1..], target - count * ds[0]);
    if sub.Found? {
      AttachDispensable(cash, ds, target, count, sub.plan);
    } else if sub.NoPlan? && count > 0 {
      TryCountsSound(cash, ds, target, count - 1);
    }
  }

  /** Adding `count` notes of the head denomination to a plan for the rest makes a
      plan for the whole target. */
  lemma AttachDispensable(cash: Cash, ds: seq<int>, target: int, count: nat, p: Plan)
    requires ds != [] && Stocked(cash, ds) && StrictlyDescending(ds)
    requires count <= cash[ds[0]]
    requires Dispensable(cash, ds[1..], target - count * ds[0], p)
    ensures Dispensable(cash, ds, target, Attach(p, ds[0], count))
  {
    var d := ds[0];
    HeadNotInTail(ds);
    assert d !in p;
    SumValueAttach(p, d, count, ds[1..]);
    var q := Attach(p, d, count);
    assert SumValue(q, ds) == d * Get(q, d) + SumValue(q, ds[1..]);
    assert Get(q, d) == count;
    forall x | x in q ensures x in ds && x in cash && 0 < q[x] <= cash[x] {
      if x != d {
        assert x in p;
        assert x in ds[1..];
      }
    }
  }


  /** If the branch that takes `c` notes completes, trying from any `count >= c` finds a plan. */
  lemma {:induction false} TryCountsReaches(cash: Cash, ds: seq<int>, target: int, count: nat, c: nat)
    requires ds != [] && Stocked(cash, ds) && AllPositive(ds)
    requires c <= count && Branch(cash, ds, target, c).Found?
    ensures TryCounts(cash, ds, target, count).Found?
    decreases count
  {
    SolveNeverDividesByZero(cash, ds[1..], target - count * ds[0]);
    if c < count {
      TryCountsReaches(cash, ds, target, count - 1, c);
    }
  }

  /** Completeness: whenever some bounded combination is worth the target, the search finds a plan. */
  lemma {:induction false} SolveComplete(cash: Cash, ds: seq<int>, target: int, cs: seq<int>)
    requires Stocked(cash, ds) && AllPositive(ds)
    requires Feasible(cash, ds, target, cs)
    ensures Solve(cash, ds, target).Found?
    decreases |ds|
  {
    if target != 0 {
      assert ds != [];
      FeasibleHead(cash, ds, target, cs);
      SolveComplete(cash, ds[1..], target - cs[0] * ds[0], cs[1..]);
      TryCountsReaches(cash, ds, target, MaxUse(cash, ds, target), cs[0]);
    }
  }

  /** The count `TryCounts` settles on: its branch completes and every larger count tried failed. */
  lemma {:induction false} TryCountsChoice(cash: Cash, ds: seq<int>, target: int, count: nat)
    returns (c: nat)
    requires ds != [] && ds[0] != 0 && Stocked(cash, ds)
    requires TryCounts(cash, ds, target, count).Found?
    ensures c <= count && Branch(cash, ds, target, c).Found?
    ensures TryCounts(cash, ds, target, count).plan == Attach(Branch(cash, ds, target, c).plan, ds[0], c)
    ensures forall k :: c < k <= count ==> Branch(cash, ds, target, k).NoPlan?
    decreases count
  {
    if Branch(cash, ds, target, count).Found? {
      c := count;
    } else {
      c := TryCountsChoice(cash, ds, target, count - 1);
    }
  }

  /** Tie-break: the plan found is lexicographically greatest among all feasible
      combinations, taken in descending order of denomination. */
  lemma {:induction false} SolveMaximal(cash: Cash, ds: seq<int>, target: int, cs: seq<int>)
    requires Stocked(cash, ds) && AllPositive(ds) && StrictlyDescending(ds)
    requires Feasible(cash, ds, target, cs)
    requires Solve(cash, ds, target).Found?
    ensures LexGeq(Counts(Solve(cash, ds, target).plan, ds), cs)
    decreases |ds|, 1
  {
    if target == 0 {
      assert forall i :: 0 <= i < |cs| ==> cs[i] >= 0;
      DotZero(ds, cs);
      CountsEmpty(ds, cs);
    } else {
      assert ds != [];
      FeasibleHead(cash, ds, target, cs);
      var m := MaxUse(cash, ds, target);
      assert Solve(cash, ds, target) == TryCounts(cash, ds, target, m);
      var c := TryCountsChoice(cash, ds, target, m);
      assert cs[0] <= c by {
        SolveComplete(cash, ds[1..], target - cs[0] * ds[0], cs[1..]);
        assert Branch(cash, ds, target, cs[0]).Found?;
      }
      MaximalStep(cash, ds, target, cs, c);
    }
  }

  /** One level of `SolveMaximal`: the search settled on `c` notes of `ds[0]`. */
  lemma {:induction false} MaximalStep(cash: Cash, ds: seq<int>, target: int, cs: seq<int>, c: int)
    requires Stocked(cash, ds) && AllPositive(ds) && StrictlyDescending(ds) && ds != []
    requires |cs| == |ds| && Feasible(cash, ds[1..], target - cs[0] * ds[0], cs[1..])
    requires 0 <= cs[0] <= c && Branch(cash, ds, target, c).Found?
    ensures LexGeq(Counts(Attach(Branch(cash, ds, target, c).plan, ds[0], c), ds), cs)
    decreases |ds|, 0
  {
    var d := ds[0];
    var sub := Branch(cash, ds, target, c).plan;
    var cp := Counts(Attach(sub, d, c), ds);
    assert d !in sub by {
      SolveSound(cash, ds[1..], target - c * d);
      HeadNotInTail(ds);
    }
    assert cp[0] == c;
    if cs[0] == c {
      assert cp[1..] == Counts(sub, ds[1..]) by {
        HeadNotInTail(ds);
        CountsAttach(sub, d, c, ds[1..]);
      }
      SolveMaximal(cash, ds[1..], target - c * d, cs[1..]);
    }
  }


  lemma CountsEmpty(ds: seq<int>, cs: seq<int>)
    requires |ds| == |cs| && forall i :: 0 <= i < |cs| ==> cs[i] == 0
    ensures LexGeq(Counts(map[], ds), cs)
  {
    assert Counts(map[], ds) == cs;
    LexGeqReflexive(cs);
  }

  lemma {:induction false} LexGeqReflexive(a: seq<int>)
    ensures LexGeq(a, a)
  {
    if a != [] {
      LexGeqReflexive(a[1..]);
    }
  }

  lemma CountsAttach(plan: Plan, d: int, c: int, ds: seq<int>)
    requires d !in ds
    ensures Counts(Attach(plan, d, c), ds) == Counts(plan, ds)
  {
  }

  /** A returned plan, read as a count vector, is itself feasible when the stock
      is not negative. */
  lemma SolveFeasible(cash: Cash, ds: seq<int>, target: int)
    requires Stocked(cash, ds) && StrictlyDescending(ds) && NonNegative(cash)
    requires Solve(cash, ds, target).Found?
    ensures Feasible(cash, ds, target, Counts(Solve(cash, ds, target).plan, ds))
  {
    var p := Solve(cash, ds, target).plan;
    SolveSound(cash, ds, target);
    SumValueCounts(p, ds);
  }

  /** With positive denominations and no negative stock, the search outcome is
      characterised without reference to the search: it finds a plan exactly when a
      feasible combination exists, and that plan is the lexicographically greatest one. */
  lemma SolveCharacterised(cash: Cash, ds: seq<int>, target: int)
    requires Stocked(cash, ds) && StrictlyDescending(ds) && AllPositive(ds) && NonNegative(cash)
    ensures !Solve(cash, ds, target).DivideByZero?
    ensures Solve(cash, ds, target).Found? ==> Feasible(cash, ds, target, Counts(Solve(cash, ds, target).plan, ds))
    ensures forall cs :: Feasible(cash, ds, target, cs) ==>
              Solve(cash, ds, target).Found? && LexGeq(Counts(Solve(cash, ds, target).plan, ds), cs)
  {
    SolveNeverDividesByZero(cash, ds, target);
    if Solve(cash, ds, target).Found? {
      SolveFeasible(cash, ds, target);
    }
    forall cs | Feasible(cash, ds, target, cs)
      ensures Solve(cash, ds, target).Found? && LexGeq(Counts(Solve(cash, ds, target).plan, ds), cs)
    {
      SolveComplete(cash, ds, target, cs);
      SolveMaximal(cash, ds, target, cs);
    }
  }

  /**
   * `solve(target, idx)` as the source writes it: recursion on the level, and a loop
   * trying counts from `maxUse` down to 0 that returns on the first branch that completes.
   */
  method SolveFrom(cash: Cash, ds: seq<int>, idx: nat, target: int) returns (r: Search)
    requires idx <= |ds| && Stocked(cash, ds)
    ensures r == Solve(cash, ds[idx..], target)
    decreases |ds| - idx
  {
    if target == 0 {
      return Found(map[]);
    }
    if idx >= |ds| {
      return NoPlan;
    }
    ghost var level := ds[idx..];
    assert level[1..] == ds[idx + 1..];
    var d := ds[idx];
    if d == 0 {
      return DivideByZero;
    }
    var maxUse := Min(cash[d], FloorDiv(target, d));
    var count := maxUse;
    while count >= 0
      invariant count <= maxUse
      invariant count >= 0 ==> Solve(cash, level, target) == TryCounts(cash, level, target, count)
      invariant count < 0 ==> Solve(cash, level, target) == NoPlan
      decreases count
    {
      var remainder := target - count * d;
      var result := SolveFrom(cash, ds, idx + 1, remainder);
      match result {
        case Found(p) =>
          return Found(Attach(p, d, count));
        case DivideByZero =>
          return DivideByZero;
        case NoPlan =>
      }
      count := count - 1;
    }
    return NoPlan;
  }
}
