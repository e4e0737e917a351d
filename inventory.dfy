/**
 * The note inventory of the ATM: a map from denomination (face value) to the
 * number of notes held, the descending order in which the machine visits its
 * denominations, and the value of an inventory or of a withdrawal plan.
 */
module Inventory {

  /** Denomination -> note count. The keys are whatever the machine was given. */
  type Cash = map<int, int>

  /** Denomination -> number of notes to dispense. */
  type Plan = map<int, int>

  /** The hard-coded starting inventory. */
  const Defaults: Cash := map[500 := 20, 200 := 20, 100 := 20]

  /** Count held for `d`, or 0 when `d` is not a key (a plan leaves unused notes out). */
  function Get(m: map<int, int>, d: int): int
  {
    if d in m then m[d] else 0
  }

  predicate StrictlyDescending(ds: seq<int>)
  {
    forall i, j :: 0 <= i < j < |ds| ==> ds[i] > ds[j]
  }

  /** Every denomination in `ds` is a key of `cash`. */
  predicate Stocked(cash: Cash, ds: seq<int>)
  {
    forall i :: 0 <= i < |ds| ==> ds[i] in cash
  }

  predicate AllPositive(ds: seq<int>)
  {
    forall i :: 0 <= i < |ds| ==> ds[i] > 0
  }

  /** No denomination holds a negative count. */
  predicate NonNegative(cash: Cash)
  {
    forall d :: d in cash ==> cash[d] >= 0
  }

  /** A non-empty set has a member (set extensionality, a witness the verifier does not find on its own). */
  lemma HasMember(s: set<int>)
    requires s != {}
    ensures exists y :: y in s
  {
    assert (forall y :: y !in s) ==> s == {};
  }

  lemma {:induction false} MaxExists(s: set<int>)
    requires s != {}
    ensures exists m :: m in s && forall x :: x in s ==> x <= m
    decreases s
  {
    HasMember(s);
    var y :| y in s;
    if s - {y} == {} {
      forall x | x in s ensures x <= y {
        assert x !in s - {y};
      }
    } else {
      MaxExists(s - {y});
      var m :| m in s - {y} && forall x :: x in s - {y} ==> x <= m;
      var top := if y > m then y else m;
      forall x | x in s ensures x <= top {
        if x != y { assert x in s - {y}; }
      }
      assert top in s;
    }
  }

  /** The largest element of a non-empty set. */
  function MaxOf(s: set<int>): (m: int)
    requires s != {}
    ensures m in s && forall x :: x in s ==> x <= m
  {
    MaxExists(s);
    var m :| m in s && forall x :: x in s ==> x <= m;
    m
  }

  /**
   * The keys of an inventory in descending order (`sorted(keys, reverse=True)`):
   * the largest key first, then the rest sorted likewise.
   */
  function SortDesc(s: set<int>): (r: seq<int>)
    ensures StrictlyDescending(r)
    ensures forall x :: x in r <==> x in s
    decreases s
  {
    if s == {} then []
    else
      var m := MaxOf(s);
      var rest := SortDesc(s - {m});
      assert forall j :: 0 <= j < |rest| ==> rest[j] in s - {m} && rest[j] < m;
      [m] + rest
  }

  /** The first element of a strictly descending sequence is its largest. */
  lemma HeadIsMax(ds: seq<int>, x: int)
    requires StrictlyDescending(ds) && x in ds
    ensures x <= ds[0]
  {
    var j :| 0 <= j < |ds| && ds[j] == x;
    if j > 0 { assert ds[0] > ds[j]; }
  }

  /** The tail of a strictly descending enumeration of `s` enumerates `s` without its head. */
  lemma TailEnumerates(s: set<int>, ds: seq<int>)
    requires StrictlyDescending(ds) && ds != []
    requires forall x :: x in ds <==> x in s
    ensures StrictlyDescending(ds[1..])
    ensures forall x :: x in ds[1..] <==> x in s - {ds[0]}
  {
    forall x ensures x in ds[1..] <==> x in s - {ds[0]} {
      if x in ds[1..] {
        var j :| 1 <= j < |ds| && ds[j] == x;
        assert ds[0] > ds[j];
      }
      if x in s - {ds[0]} {
        assert x in ds;
        var j :| 0 <= j < |ds| && ds[j] == x;
        assert j != 0;
        assert ds[1..][j - 1] == x;
      }
    }
  }

  /** The head of a strictly descending enumeration of `s` is the largest element of `s`. */
  lemma HeadIsMaxOf(s: set<int>, ds: seq<int>)
    requires StrictlyDescending(ds) && ds != []
    requires forall x :: x in ds <==> x in s
    ensures s != {} && MaxOf(s) == ds[0]
  {
    assert ds[0] in ds;
    forall x | x in s ensures x <= ds[0] {
      HeadIsMax(ds, x);
    }
  }

  /** One unfolding of `SortDesc`. */
  lemma SortDescStep(s: set<int>)
    requires s != {}
    ensures SortDesc(s) == [MaxOf(s)] + SortDesc(s - {MaxOf(s)})
  {
  }

  /** Only one strictly descending sequence enumerates a set: `SortDesc` is that sequence. */
  lemma {:induction false} SortDescOf(s: set<int>, ds: seq<int>)
    requires StrictlyDescending(ds)
    requires forall x :: x in ds <==> x in s
    ensures SortDesc(s) == ds
    decreases |ds|
  {
    if ds == [] {
      assert s == {} by {
        forall x ensures x !in s { assert x !in ds; }
      }
    } else {
      HeadIsMaxOf(s, ds);
      TailEnumerates(s, ds);
      SortDescOf(s - {ds[0]}, ds[1..]);
      SortDescStep(s);
      assert [ds[0]] + ds[1..] == ds;
    }
  }

  /** `sorted(cash.keys(), reverse=True)`: the order in which the machine visits its
      denominations. */
  function Denominations(cash: Cash): (ds: seq<int>)
    ensures StrictlyDescending(ds) && Stocked(cash, ds)
    ensures forall x :: x in ds <==> x in cash
  {
    var ds := SortDesc(cash.Keys);
    assert forall i :: 0 <= i < |ds| ==> ds[i] in ds;
    ds
  }

  /** Sum of `d * m[d]` over the denominations `ds`. */
  function SumValue(m: map<int, int>, ds: seq<int>): int
  {
    if ds == [] then 0 else ds[0] * Get(m, ds[0]) + SumValue(m, ds[1..])
  }

  /** Value of all cash held: `sum(k * v for k, v in cash.items())`. It is never
      negative while every denomination is positive and no count is negative. */
  function Total(cash: Cash): (t: int)
    ensures (forall d :: d in cash ==> d > 0 && cash[d] >= 0) ==> t >= 0
  {
    var ds := Denominations(cash);
    SumValueNonNegative(cash, ds);
    SumValue(cash, ds)
  }

  lemma {:induction false} SumValueNonNegative(m: map<int, int>, ds: seq<int>)
    ensures (forall i :: 0 <= i < |ds| ==> ds[i] > 0 && Get(m, ds[i]) >= 0) ==> SumValue(m, ds) >= 0
  {
    if ds != [] {
      SumValueNonNegative(m, ds[1..]);
      if forall i :: 0 <= i < |ds| ==> ds[i] > 0 && Get(m, ds[i]) >= 0 {
        assert forall i :: 0 <= i < |ds[1..]| ==> ds[1..][i] == ds[i + 1];
      }
    }
  }

  /** The inventory after every planned count has been taken out of its denomination. */
  function Debit(cash: Cash, plan: Plan): (after: Cash)
    ensures after.Keys == cash.Keys
    ensures forall d :: d in cash ==> after[d] == cash[d] - Get(plan, d)
  {
    map d | d in cash :: cash[d] - Get(plan, d)
  }

  lemma {:induction false} SumValueAppend(m: map<int, int>, ds: seq<int>, x: int)
    ensures SumValue(m, ds + [x]) == SumValue(m, ds) + x * Get(m, x)
  {
    if ds != [] {
      assert (ds + [x])[1..] == ds[1..] + [x];
      SumValueAppend(m, ds[1..], x);
    }
  }

  /** The value over a prefix grows by one denomination's worth per step. */
  lemma SumValuePrefix(m: map<int, int>, ds: seq<int>, i: nat)
    requires i < |ds|
    ensures SumValue(m, ds[..i + 1]) == SumValue(m, ds[..i]) + ds[i] * Get(m, ds[i])
  {
    SumValueAppend(m, ds[..i], ds[i]);
    assert ds[..i + 1] == ds[..i] + [ds[i]];
  }

  /** Taking `plan` out of `cash` lowers the value over `ds` by exactly the plan's value. */
  lemma {:induction false} SumValueDebit(cash: Cash, plan: Plan, ds: seq<int>)
    requires Stocked(cash, ds)
    ensures SumValue(Debit(cash, plan), ds) == SumValue(cash, ds) - SumValue(plan, ds)
  {
    if ds != [] {
      SumValueDebit(cash, plan, ds[1..]);
    }
  }

  /** Adding `count` notes of one held denomination raises the value over `ds` by `d * count`. */
  lemma {:induction false} SumValueCredit(cash: Cash, d: int, count: int, ds: seq<int>)
    requires d in cash && StrictlyDescending(ds)
    ensures SumValue(cash[d := cash[d] + count], ds)
         == SumValue(cash, ds) + (if d in ds then d * count else 0)
  {
    if ds != [] {
      SumValueCredit(cash, d, count, ds[1..]);
      if ds[0] == d {
        assert d !in ds[1..] by {
          forall j | 1 <= j < |ds| ensures ds[j] != d { assert ds[0] > ds[j]; }
        }
      }
    }
  }

  /** Total value drops by the plan's value when the plan is dispensed. */
  lemma TotalDebit(cash: Cash, plan: Plan)
    ensures Total(Debit(cash, plan)) == Total(cash) - SumValue(plan, Denominations(cash))
  {
    var ds := Denominations(cash);
    assert Debit(cash, plan).Keys == cash.Keys;
    SumValueDebit(cash, plan, ds);
  }

  /** Total value rises by `d * count` when `count` notes of a held denomination `d` are added. */
  lemma TotalCredit(cash: Cash, d: int, count: int)
    requires d in cash
    ensures Total(cash[d := cash[d] + count]) == Total(cash) + d * count
  {
    var ds := Denominations(cash);
    assert cash[d := cash[d] + count].Keys == cash.Keys;
    SumValueCredit(cash, d, count, ds);
  }
}
