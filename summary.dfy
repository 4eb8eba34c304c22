/** The summary calculator: balance, income, expense and interest derived
    from an account's movements (app/js/_index.js, calcCurrentBalance and
    calcSummary), plus the total held across a list of accounts. */
module Summary {
  import opened Wrappers

  /** The sum of a list of amounts (0 for the empty list). */
  function Sum(s: seq<real>): real
  {
    if s == [] then 0.0 else s[0] + Sum(s[1..])
  }

  lemma {:induction false} SumAppend(a: seq<real>, b: seq<real>)
    ensures Sum(a + b) == Sum(a) + Sum(b)
  {
    if a == [] {
      assert a + b == b;
    } else {
      assert (a + b)[1..] == a[1..] + b;
      SumAppend(a[1..], b);
    }
  }

  /** Appending one movement moves the sum by exactly that amount. */
  lemma SumPush(s: seq<real>, x: real)
    ensures Sum(s + [x]) == Sum(s) + x
  {
    SumAppend(s, [x]);
  }

  /** `reduce((acc, x) => acc + x)` continued from accumulator `acc`. */
  function FoldAdd(acc: real, s: seq<real>): real
    decreases s
  {
    if s == [] then acc else FoldAdd(acc + s[0], s[1..])
  }

  lemma {:induction false} FoldAddIsSum(acc: real, s: seq<real>)
    ensures FoldAdd(acc, s) == acc + Sum(s)
    decreases s
  {
    if s != [] {
      FoldAddIsSum(acc + s[0], s[1..]);
    }
  }

  /** `s.reduce((acc, x) => acc + x)` with no initial value: it starts from the
      first element and throws (None) on an empty list. */
  function Reduce(s: seq<real>): (r: Option<real>)
    ensures r.None? <==> s == []
    ensures r.Some? ==> r.value == Sum(s)
  {
    if s == [] then None
    else
      FoldAddIsSum(s[0], s[1..]);
      Some(FoldAdd(s[0], s[1..]))
  }

  /** The balance of calcCurrentBalance: the sum of the movements, undefined
      (the reduce throws) when there are none. */
  function Balance(movements: seq<real>): (r: Option<real>)
    ensures r.Some? <==> movements != []
    ensures r.Some? ==> r.value == Sum(movements)
  {
    Reduce(movements)
  }

  /** `s.filter(p)`. */
  function Filter(p: real -> bool, s: seq<real>): seq<real>
  {
    if s == [] then [] else (if p(s[0]) then [s[0]] else []) + Filter(p, s[1..])
  }

  /** Everything the filter keeps passes the test. */
  lemma {:induction false} FilterKeeps(p: real -> bool, s: seq<real>)
    ensures forall i :: 0 <= i < |Filter(p, s)| ==> p(Filter(p, s)[i])
  {
    if s != [] {
      FilterKeeps(p, s[1..]);
      var h := if p(s[0]) then [s[0]] else [];
      assert Filter(p, s) == h + Filter(p, s[1..]);
    }
  }

  /** The filter keeps elements of the list, no more often than they occur. */
  lemma {:induction false} FilterFrom(p: real -> bool, s: seq<real>)
    ensures multiset(Filter(p, s)) <= multiset(s)
  {
    if s != [] {
      FilterFrom(p, s[1..]);
      var h := if p(s[0]) then [s[0]] else [];
      assert Filter(p, s) == h + Filter(p, s[1..]);
      assert s == [s[0]] + s[1..];
      assert multiset(s) == multiset([s[0]]) + multiset(s[1..]);
    }
  }

  /** The filter misses no element that passes the test, and keeps every
      copy of it. */
  lemma {:induction false} FilterComplete(p: real -> bool, s: seq<real>)
    ensures forall i :: 0 <= i < |s| && p(s[i]) ==> s[i] in Filter(p, s)
    ensures forall x :: p(x) ==> multiset(Filter(p, s))[x] == multiset(s)[x]
  {
    if s != [] {
      FilterComplete(p, s[1..]);
      var h := if p(s[0]) then [s[0]] else [];
      assert Filter(p, s) == h + Filter(p, s[1..]);
      assert forall i :: 1 <= i < |s| ==> s[i] == s[1..][i - 1];
      assert s == [s[0]] + s[1..];
      assert multiset(s) == multiset([s[0]]) + multiset(s[1..]);
      assert multiset(Filter(p, s)) == multiset(h) + multiset(Filter(p, s[1..]));
    }
  }

  predicate IsDeposit(x: real)
  {
    x > 0.0
  }

  predicate IsWithdrawal(x: real)
  {
    x < 0.0
  }

  /** `movements.filter(mov => mov > 0)`. */
  function Deposits(m: seq<real>): seq<real>
  {
    Filter(IsDeposit, m)
  }

  /** The deposits are exactly the positive movements: each is positive,
      they are drawn from the movements, and none is missed. */
  lemma DepositsSpec(m: seq<real>)
    ensures forall i :: 0 <= i < |Deposits(m)| ==> Deposits(m)[i] > 0.0
    ensures multiset(Deposits(m)) <= multiset(m)
    ensures forall i :: 0 <= i < |m| && m[i] > 0.0 ==> m[i] in Deposits(m)
    ensures forall x :: x > 0.0 ==> multiset(Deposits(m))[x] == multiset(m)[x]
  {
    FilterKeeps(IsDeposit, m);
    FilterFrom(IsDeposit, m);
    FilterComplete(IsDeposit, m);
  }

  /** `movements.filter(mov => mov < 0)`. */
  function Withdrawals(m: seq<real>): seq<real>
  {
    Filter(IsWithdrawal, m)
  }

  /** The withdrawals are exactly the negative movements. */
  lemma WithdrawalsSpec(m: seq<real>)
    ensures forall i :: 0 <= i < |Withdrawals(m)| ==> Withdrawals(m)[i] < 0.0
    ensures multiset(Withdrawals(m)) <= multiset(m)
    ensures forall i :: 0 <= i < |m| && m[i] < 0.0 ==> m[i] in Withdrawals(m)
    ensures forall x :: x < 0.0 ==> multiset(Withdrawals(m))[x] == multiset(m)[x]
  {
    FilterKeeps(IsWithdrawal, m);
    FilterFrom(IsWithdrawal, m);
    FilterComplete(IsWithdrawal, m);
  }

  lemma {:induction false} SumOfPositives(s: seq<real>)
    requires forall i :: 0 <= i < |s| ==> s[i] > 0.0
    ensures s != [] ==> Sum(s) > 0.0
    ensures Sum(s) >= 0.0
  {
    if s != [] {
      SumOfPositives(s[1..]);
    }
  }

  lemma {:induction false} SumOfNegatives(s: seq<real>)
    requires forall i :: 0 <= i < |s| ==> s[i] < 0.0
    ensures s != [] ==> Sum(s) < 0.0
  {
    if s != [] {
      SumOfNegatives(s[1..]);
    }
  }

  lemma DepositsFacts(m: seq<real>)
    ensures Deposits(m) != [] <==> exists i :: 0 <= i < |m| && m[i] > 0.0
    ensures Deposits(m) != [] ==> Sum(Deposits(m)) > 0.0
  {
    var d := Deposits(m);
    DepositsSpec(m);
    if d != [] {
      assert d[0] in multiset(m);
      SumOfPositives(d);
    }
  }

  lemma WithdrawalsFacts(m: seq<real>)
    ensures Withdrawals(m) != [] <==> exists i :: 0 <= i < |m| && m[i] < 0.0
    ensures Withdrawals(m) != [] ==> Sum(Withdrawals(m)) < 0.0
  {
    var w := Withdrawals(m);
    WithdrawalsSpec(m);
    if w != [] {
      assert w[0] in multiset(m);
      SumOfNegatives(w);
    }
  }

  /** Income of calcSummary: the sum of the deposits, undefined when there
      are none (the reduce throws); it is strictly positive. */
  function Income(m: seq<real>): (r: Option<real>)
    ensures r.Some? <==> exists i :: 0 <= i < |m| && m[i] > 0.0
    ensures r.Some? ==> r.value == Sum(Deposits(m)) && r.value > 0.0
  {
    DepositsFacts(m);
    Reduce(Deposits(m))
  }

  /** Expense of calcSummary: the sum of the withdrawals, undefined when there
      are none; it is strictly negative. */
  function Expense(m: seq<real>): (r: Option<real>)
    ensures r.Some? <==> exists i :: 0 <= i < |m| && m[i] < 0.0
    ensures r.Some? ==> r.value == Sum(Withdrawals(m)) && r.value < 0.0
  {
    WithdrawalsFacts(m);
    Reduce(Withdrawals(m))
  }

  /** Every movement is a deposit, a withdrawal or zero, so deposits and
      withdrawals together add up to the balance. */
  lemma {:induction false} DepositsPlusWithdrawals(m: seq<real>)
    ensures Sum(Deposits(m)) + Sum(Withdrawals(m)) == Sum(m)
  {
    if m != [] {
      DepositsPlusWithdrawals(m[1..]);
      var p := if m[0] > 0.0 then [m[0]] else [];
      var n := if m[0] < 0.0 then [m[0]] else [];
      SumAppend(p, Deposits(m[1..]));
      SumAppend(n, Withdrawals(m[1..]));
    }
  }

  /** Income plus expense equals the balance, whenever both are defined. */
  lemma IncomePlusExpense(m: seq<real>)
    requires Income(m).Some? && Expense(m).Some?
    ensures Balance(m) == Some(Income(m).value + Expense(m).value)
  {
    DepositsPlusWithdrawals(m);
  }

  /** The interest one deposit earns at `rate` percent. */
  function Share(x: real, rate: real): real
  {
    x * rate / 100.0
  }

  /** `.map(mov => mov * rate / 100)`: the interest each deposit would earn. */
  function Shares(d: seq<real>, rate: real): (r: seq<real>)
    ensures |r| == |d|
    ensures forall i :: 0 <= i < |d| ==> r[i] == Share(d[i], rate)
  {
    if d == [] then [] else [Share(d[0], rate)] + Shares(d[1..], rate)
  }

  predicate AtLeastOneUnit(x: real)
  {
    x >= 1.0
  }

  /** `.filter(deposit => deposit >= 1)`: the minimum interest unit. */
  function AtLeastOne(t: seq<real>): seq<real>
  {
    Filter(AtLeastOneUnit, t)
  }

  /** The kept terms are exactly the terms of at least one. */
  lemma AtLeastOneSpec(t: seq<real>)
    ensures forall i :: 0 <= i < |AtLeastOne(t)| ==> AtLeastOne(t)[i] >= 1.0
    ensures multiset(AtLeastOne(t)) <= multiset(t)
    ensures forall i :: 0 <= i < |t| && t[i] >= 1.0 ==> t[i] in AtLeastOne(t)
    ensures forall x :: x >= 1.0 ==> multiset(AtLeastOne(t))[x] == multiset(t)[x]
  {
    FilterKeeps(AtLeastOneUnit, t);
    FilterFrom(AtLeastOneUnit, t);
    FilterComplete(AtLeastOneUnit, t);
  }

  /** The interest terms of calcSummary, in the order of the movements. */
  function InterestTerms(m: seq<real>, rate: real): seq<real>
  {
    AtLeastOne(Shares(Deposits(m), rate))
  }

  lemma {:induction false} SumAtLeastCount(s: seq<real>)
    requires forall i :: 0 <= i < |s| ==> s[i] >= 1.0
    ensures Sum(s) >= |s| as real
  {
    if s != [] {
      SumAtLeastCount(s[1..]);
    }
  }

  lemma AtLeastOneFacts(t: seq<real>)
    ensures AtLeastOne(t) != [] <==> exists j :: 0 <= j < |t| && t[j] >= 1.0
  {
    var q := AtLeastOne(t);
    AtLeastOneSpec(t);
    if q != [] {
      assert q[0] in multiset(t);
    }
  }

  lemma InterestTermsFacts(m: seq<real>, rate: real)
    ensures InterestTerms(m, rate) != [] <==>
      exists i :: 0 <= i < |m| && m[i] > 0.0 && Share(m[i], rate) >= 1.0
    ensures Sum(InterestTerms(m, rate)) >= |InterestTerms(m, rate)| as real
  {
    InterestTermsNonEmpty(m, rate);
    AtLeastOneSpec(Shares(Deposits(m), rate));
    SumAtLeastCount(InterestTerms(m, rate));
  }

  lemma InterestTermsNonEmpty(m: seq<real>, rate: real)
    ensures InterestTerms(m, rate) != [] <==>
      exists i :: 0 <= i < |m| && m[i] > 0.0 && Share(m[i], rate) >= 1.0
  {
    var d := Deposits(m);
    var t := Shares(d, rate);
    AtLeastOneFacts(t);
    if exists j :: 0 <= j < |t| && t[j] >= 1.0 {
      var j :| 0 <= j < |t| && t[j] >= 1.0;
      DepositInMovements(m, j);
    }
    if exists i :: 0 <= i < |m| && m[i] > 0.0 && Share(m[i], rate) >= 1.0 {
      var i :| 0 <= i < |m| && m[i] > 0.0 && Share(m[i], rate) >= 1.0;
      MovementInDeposits(m, i);
      var j :| 0 <= j < |d| && d[j] == m[i];
      assert t[j] >= 1.0;
    }
  }

  lemma DepositInMovements(m: seq<real>, j: int)
    requires 0 <= j < |Deposits(m)|
    ensures Deposits(m)[j] > 0.0
    ensures exists i :: 0 <= i < |m| && m[i] == Deposits(m)[j]
  {
    DepositsSpec(m);
    assert Deposits(m)[j] in multiset(m);
  }

  lemma MovementInDeposits(m: seq<real>, i: int)
    requires 0 <= i < |m| && m[i] > 0.0
    ensures exists j :: 0 <= j < |Deposits(m)| && Deposits(m)[j] == m[i]
  {
    DepositsSpec(m);
  }

  /** Interest of calcSummary: the sum of the qualifying terms, undefined when
      no deposit earns at least one unit; otherwise at least 1 per term. */
  function Interest(m: seq<real>, rate: real): (r: Option<real>)
    ensures r.Some? <==> exists i :: 0 <= i < |m| && m[i] > 0.0 && Share(m[i], rate) >= 1.0
    ensures r.Some? ==> r.value == Sum(InterestTerms(m, rate))
    ensures r.Some? ==> r.value >= |InterestTerms(m, rate)| as real >= 1.0
  {
    InterestTermsFacts(m, rate);
    Reduce(InterestTerms(m, rate))
  }

  /** The deposits that earn at least one unit of interest at `rate`. */
  function Eligible(d: seq<real>, rate: real): (r: seq<real>)
    ensures multiset(r) <= multiset(d)
  {
    if d == [] then []
    else
      assert d == [d[0]] + d[1..];
      (if Share(d[0], rate) >= 1.0 then [d[0]] else []) + Eligible(d[1..], rate)
  }

  lemma {:induction false} SharesOfEligible(d: seq<real>, rate: real)
    ensures AtLeastOne(Shares(d, rate)) == Shares(Eligible(d, rate), rate)
  {
    if d != [] {
      SharesOfEligible(d[1..], rate);
      assert Shares(d, rate)[1..] == Shares(d[1..], rate);
      if Share(d[0], rate) >= 1.0 {
        var e := Eligible(d[1..], rate);
        assert Eligible(d, rate) == [d[0]] + e;
        assert ([d[0]] + e)[1..] == e;
        assert Shares(d, rate)[0] == Share(d[0], rate);
      } else {
        assert Eligible(d, rate) == Eligible(d[1..], rate);
      }
    }
  }

  lemma {:induction false} SumOfShares(d: seq<real>, rate: real)
    ensures Sum(Shares(d, rate)) == Share(Sum(d), rate)
  {
    if d != [] {
      SumOfShares(d[1..], rate);
      calc {
        Sum(Shares(d, rate));
        Share(d[0], rate) + Sum(Shares(d[1..], rate));
        Share(d[0], rate) + Share(Sum(d[1..]), rate);
        Share(d[0] + Sum(d[1..]), rate);
      }
    }
  }

  /** Interest is the rate/100 share of a sub-multiset of the deposits: the
      deposits that each earn at least one unit. */
  lemma InterestIsShareOfSomeDeposits(m: seq<real>, rate: real)
    requires Interest(m, rate).Some?
    ensures Interest(m, rate).value == Share(Sum(Eligible(Deposits(m), rate)), rate)
    ensures multiset(Eligible(Deposits(m), rate)) <= multiset(Deposits(m))
  {
    SharesOfEligible(Deposits(m), rate);
    SumOfShares(Eligible(Deposits(m), rate), rate);
  }

  lemma {:induction false} EligibleSumAtMost(d: seq<real>, rate: real)
    requires forall i :: 0 <= i < |d| ==> d[i] > 0.0
    ensures Sum(Eligible(d, rate)) <= Sum(d)
  {
    if d != [] {
      EligibleSumAtMost(d[1..], rate);
      var h := if Share(d[0], rate) >= 1.0 then [d[0]] else [];
      SumAppend(h, Eligible(d[1..], rate));
    }
  }

  lemma ShareMonotone(a: real, b: real, rate: real)
    requires a <= b && rate >= 0.0
    ensures Share(a, rate) <= Share(b, rate)
  {
    assert (b - a) * rate >= 0.0;
  }

  /** At a non-negative rate the interest never exceeds the rate/100 share of
      the income; an interest that is defined implies an income that is. */
  lemma InterestAtMostIncomeShare(m: seq<real>, rate: real)
    requires rate >= 0.0
    requires Interest(m, rate).Some?
    ensures Income(m).Some?
    ensures Interest(m, rate).value <= Share(Income(m).value, rate)
  {
    var d := Deposits(m);
    DepositsSpec(m);
    InterestIsShareOfSomeDeposits(m, rate);
    EligibleSumAtMost(d, rate);
    ShareMonotone(Sum(Eligible(d, rate)), Sum(d), rate);
  }

  /** The money held across several accounts' movement lists. */
  function Total(hs: seq<seq<real>>): real
  {
    if hs == [] then 0.0 else Sum(hs[0]) + Total(hs[1..])
  }

  lemma {:induction false} TotalUpdate(hs: seq<seq<real>>, i: nat, v: seq<real>)
    requires i < |hs|
    ensures Total(hs[i := v]) == Total(hs) - Sum(hs[i]) + Sum(v)
  {
    if i > 0 {
      assert hs[i := v][1..] == hs[1..][i - 1 := v];
      TotalUpdate(hs[1..], i - 1, v);
    }
  }

  /** Moving `x` from one account to a different one keeps the total. */
  lemma TransferKeepsTotal(hs: seq<seq<real>>, i: nat, j: nat, x: real)
    requires i < |hs| && j < |hs| && i != j
    ensures Total(hs[i := hs[i] + [-x]][j := hs[j] + [x]]) == Total(hs)
  {
    var h1 := hs[i := hs[i] + [-x]];
    TotalUpdate(hs, i, hs[i] + [-x]);
    SumPush(hs[i], -x);
    TotalUpdate(h1, j, hs[j] + [x]);
    SumPush(hs[j], x);
  }

  /** Appending `x` to one account's movements raises the total by `x`. */
  lemma PushRaisesTotal(hs: seq<seq<real>>, i: nat, x: real)
    requires i < |hs|
    ensures Total(hs[i := hs[i] + [x]]) == Total(hs) + x
  {
    TotalUpdate(hs, i, hs[i] + [x]);
    SumPush(hs[i], x);
  }

  /** TransferKeepsTotal, for histories related element by element. */
  lemma TotalAfterTransfer(h: seq<seq<real>>, h2: seq<seq<real>>, i: nat, j: nat, x: real)
    requires |h2| == |h| && i < |h| && j < |h| && i != j
    requires h2[i] == h[i] + [-x] && h2[j] == h[j] + [x]
    requires forall k :: 0 <= k < |h| && k != i && k != j ==> h2[k] == h[k]
    ensures Total(h2) == Total(h)
  {
    assert h2 == h[i := h[i] + [-x]][j := h[j] + [x]];
    TransferKeepsTotal(h, i, j, x);
  }

  /** PushRaisesTotal, for histories related element by element. */
  lemma TotalAfterPush(h: seq<seq<real>>, h2: seq<seq<real>>, i: nat, x: real)
    requires |h2| == |h| && i < |h|
    requires h2[i] == h[i] + [x]
    requires forall k :: 0 <= k < |h| && k != i ==> h2[k] == h[k]
    ensures Total(h2) == Total(h) + x
  {
    assert h2 == h[i := h[i] + [x]];
    PushRaisesTotal(h, i, x);
  }

  lemma {:induction false} TotalAppend(a: seq<seq<real>>, b: seq<seq<real>>)
    ensures Total(a + b) == Total(a) + Total(b)
  {
    if a == [] {
      assert a + b == b;
    } else {
      assert (a + b)[1..] == a[1..] + b;
      TotalAppend(a[1..], b);
    }
  }

  /** Dropping account `i` from the list takes away exactly its balance. */
  lemma TotalRemove(hs: seq<seq<real>>, i: nat)
    requires i < |hs|
    ensures Total(hs[..i] + hs[i + 1..]) == Total(hs) - Sum(hs[i])
  {
    assert hs == hs[..i] + ([hs[i]] + hs[i + 1..]);
    TotalAppend(hs[..i], [hs[i]] + hs[i + 1..]);
    TotalAppend([hs[i]], hs[i + 1..]);
    TotalAppend(hs[..i], hs[i + 1..]);
    assert [hs[i]][1..] == [];
  }

  /** TotalRemove, for histories related element by element. */
  lemma TotalAfterRemove(h: seq<seq<real>>, h2: seq<seq<real>>, i: nat)
    requires i < |h| && |h2| == |h| - 1
    requires forall k :: 0 <= k < i ==> h2[k] == h[k]
    requires forall k :: i <= k < |h2| ==> h2[k] == h[k + 1]
    ensures Total(h2) == Total(h) - Sum(h[i])
  {
    assert h2 == h[..i] + h[i + 1..];
    TotalRemove(h, i);
  }
}
