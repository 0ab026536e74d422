/** The arithmetic of one account's movements: the balance (`calcDisplayBalance`)
    and the three summary figures (`calcDisplaySummary`), with amounts as exact reals. */
module Ledger {
  import opened Options

  /** Mathematical sum of a sequence, head first: the reference the array
      reductions below are proved against. */
  function Sum(s: seq<real>): real
  {
    if |s| == 0 then 0.0 else s[0] + Sum(s[1..])
  }

  /** `Array.prototype.reduce((acc, cur) => acc + cur, acc0)`: the accumulator is
      threaded left to right. */
  function Fold(acc: real, s: seq<real>): real
    decreases |s|
  {
    if |s| == 0 then acc else Fold(acc + s[0], s[1..])
  }

  lemma {:induction false} FoldIsSum(acc: real, s: seq<real>)
    ensures Fold(acc, s) == acc + Sum(s)
    decreases |s|
  {
    if |s| > 0 {
      FoldIsSum(acc + s[0], s[1..]);
    }
  }

  lemma {:induction false} SumAppend(s: seq<real>, x: real)
    ensures Sum(s + [x]) == Sum(s) + x
  {
    if |s| > 0 {
      assert (s + [x])[1..] == s[1..] + [x];
      SumAppend(s[1..], x);
    } else {
      assert s + [x] == [x];
    }
  }

  lemma {:induction false} SumConcat(a: seq<real>, b: seq<real>)
    ensures Sum(a + b) == Sum(a) + Sum(b)
  {
    if |a| > 0 {
      assert (a + b)[1..] == a[1..] + b;
      SumConcat(a[1..], b);
    } else {
      assert a + b == b;
    }
  }

  /** `reduce` WITHOUT an initial value: the first element seeds the accumulator,
      and an empty array throws a TypeError (None here). */
  function Reduce(s: seq<real>): (r: Option<real>)
    ensures r.None? <==> |s| == 0
    ensures r.Some? ==> r.value == Sum(s)
  {
    if |s| == 0 then None
    else
      FoldIsSum(s[0], s[1..]);
      Some(Fold(s[0], s[1..]))
  }

  /** The balance: `movements.reduce((acc, cur) => acc + cur, 0)`. */
  function Balance(movements: seq<real>): (r: real)
    ensures r == Sum(movements)
  {
    FoldIsSum(0.0, movements);
    Fold(0.0, movements)
  }

  /** Appending a movement moves the balance by exactly that amount. */
  lemma BalanceAppend(movements: seq<real>, x: real)
    ensures Balance(movements + [x]) == Balance(movements) + x
  {
    SumAppend(movements, x);
  }

  /** `Array.prototype.filter`: keeps, in order, the elements satisfying `keep`. */
  function Filter(s: seq<real>, keep: real -> bool): (r: seq<real>)
    ensures |r| <= |s|
  {
    if |s| == 0 then []
    else (if keep(s[0]) then [s[0]] else []) + Filter(s[1..], keep)
  }

  /** A filter keeps every passing occurrence and drops every other one. */
  lemma {:induction false} FilterCounts(s: seq<real>, keep: real -> bool)
    ensures forall x :: multiset(Filter(s, keep))[x] == if keep(x) then multiset(s)[x] else 0
  {
    if |s| > 0 {
      FilterCounts(s[1..], keep);
      assert s == [s[0]] + s[1..];
    }
  }

  /** Filtering distributes over concatenation, so the kept elements stay in
      their original order. */
  lemma {:induction false} FilterConcat(s: seq<real>, t: seq<real>, keep: real -> bool)
    ensures Filter(s + t, keep) == Filter(s, keep) + Filter(t, keep)
  {
    if |s| > 0 {
      FilterConcat(s[1..], t, keep);
      assert (s + t)[1..] == s[1..] + t;
    } else {
      assert s + t == t;
    }
  }

  /** A one-element filter keeps the element exactly when it passes. */
  lemma FilterSingleton(x: real, keep: real -> bool)
    ensures Filter([x], keep) == if keep(x) then [x] else []
  {
    assert [x][1..] == [];
  }

  /** What a filter keeps: exactly the elements that pass. */
  lemma {:induction false} FilterMembers(s: seq<real>, keep: real -> bool)
    ensures forall x :: x in Filter(s, keep) ==> x in s && keep(x)
    ensures forall i :: 0 <= i < |s| && keep(s[i]) ==> s[i] in Filter(s, keep)
  {
    if |s| > 0 {
      FilterMembers(s[1..], keep);
      assert s == [s[0]] + s[1..];
    }
  }

  predicate IsDeposit(m: real) { m > 0.0 }

  predicate IsWithdrawal(m: real) { m < 0.0 }

  /** The interest threshold: a per-deposit interest term is paid only when it is at least 1. */
  predicate Qualifies(term: real) { term >= 1.0 }

  function Deposits(movements: seq<real>): seq<real>
  {
    Filter(movements, IsDeposit)
  }

  function Withdrawals(movements: seq<real>): seq<real>
  {
    Filter(movements, IsWithdrawal)
  }

  /** The interest a single deposit `d` would earn at `rate` percent. */
  function Term(d: real, rate: real): real
  {
    d * rate / 100.0
  }

  /** `.map(mov => (mov * rate) / 100)`. */
  function InterestTerms(deposits: seq<real>, rate: real): (r: seq<real>)
    ensures |r| == |deposits|
    ensures forall i :: 0 <= i < |deposits| ==> r[i] == Term(deposits[i], rate)
  {
    if |deposits| == 0 then []
    else [Term(deposits[0], rate)] + InterestTerms(deposits[1..], rate)
  }

  /** The qualifying interest terms of the deposits of `movements`. */
  function PaidTerms(movements: seq<real>, rate: real): seq<real>
  {
    Filter(InterestTerms(Deposits(movements), rate), Qualifies)
  }

  /** The three figures `calcDisplaySummary` shows. */
  datatype Figures = Figures(incomes: real, out: real, interest: real)

  /** `calcDisplaySummary` without the rendering: each figure is a `reduce`
      without an initial value, so the whole computation throws (None) as soon as
      one filtered array is empty: no deposit, no withdrawal, or no deposit
      whose interest term reaches 1. */
  function Summary(movements: seq<real>, rate: real): (r: Option<Figures>)
    ensures r.Some? <==>
              (exists i :: 0 <= i < |movements| && movements[i] > 0.0)
              && (exists i :: 0 <= i < |movements| && movements[i] < 0.0)
              && (exists i :: 0 <= i < |movements| && movements[i] > 0.0 && Term(movements[i], rate) >= 1.0)
    ensures r.Some? ==> r.value.incomes > 0.0 && r.value.out < 0.0
    ensures r.Some? ==> r.value.incomes + r.value.out == Sum(movements)
    ensures r.Some? ==> 1.0 <= r.value.interest <= Term(r.value.incomes, rate)
    ensures r.Some? ==> r.value == Figures(Sum(Deposits(movements)), Sum(Withdrawals(movements)),
                                           Sum(PaidTerms(movements, rate)))
  {
    var incomes := Reduce(Deposits(movements));
    var out := Reduce(Withdrawals(movements));
    var interest := Reduce(PaidTerms(movements, rate));
    SummaryDefinedness(movements, rate);
    if incomes.None? || out.None? || interest.None? then None
    else
      SumsOfSigns(movements);
      InterestBounds(movements, rate);
      Some(Figures(incomes.value, out.value, interest.value))
  }

  /** A filter is non-empty exactly when some element passes it. */
  lemma FilterNonEmpty(s: seq<real>, keep: real -> bool)
    ensures |Filter(s, keep)| > 0 <==> exists i :: 0 <= i < |s| && keep(s[i])
  {
    FilterMembers(s, keep);
    if |Filter(s, keep)| > 0 {
      var x := Filter(s, keep)[0];
      assert x in Filter(s, keep);
      var i :| 0 <= i < |s| && s[i] == x;
      assert keep(s[i]);
    }
    if exists i :: 0 <= i < |s| && keep(s[i]) {
      var i :| 0 <= i < |s| && keep(s[i]);
      assert s[i] in Filter(s, keep);
    }
  }

  lemma PaidTermsNonEmpty(movements: seq<real>, rate: real)
    ensures |PaidTerms(movements, rate)| > 0 <==>
              exists i :: 0 <= i < |movements| && movements[i] > 0.0 && Term(movements[i], rate) >= 1.0
  {
    var ds := Deposits(movements);
    var ts := InterestTerms(ds, rate);
    FilterNonEmpty(ts, Qualifies);
    FilterMembers(movements, IsDeposit);
    if |PaidTerms(movements, rate)| > 0 {
      var j :| 0 <= j < |ts| && Qualifies(ts[j]);
      assert ds[j] in ds;
      var i :| 0 <= i < |movements| && movements[i] == ds[j];
      assert movements[i] > 0.0 && Term(movements[i], rate) >= 1.0;
    }
    if exists i :: 0 <= i < |movements| && movements[i] > 0.0 && Term(movements[i], rate) >= 1.0 {
      var i :| 0 <= i < |movements| && movements[i] > 0.0 && Term(movements[i], rate) >= 1.0;
      assert movements[i] in ds;
      var j :| 0 <= j < |ds| && ds[j] == movements[i];
      assert Qualifies(ts[j]);
    }
  }

  lemma SummaryDefinedness(movements: seq<real>, rate: real)
    ensures |Deposits(movements)| > 0 <==> exists i :: 0 <= i < |movements| && movements[i] > 0.0
    ensures |Withdrawals(movements)| > 0 <==> exists i :: 0 <= i < |movements| && movements[i] < 0.0
    ensures |PaidTerms(movements, rate)| > 0 <==>
              exists i :: 0 <= i < |movements| && movements[i] > 0.0 && Term(movements[i], rate) >= 1.0
  {
    FilterNonEmpty(movements, IsDeposit);
    FilterNonEmpty(movements, IsWithdrawal);
    PaidTermsNonEmpty(movements, rate);
  }

  /** Incomes plus (signed) outflow is the balance, incomes are positive and outflow negative. */
  lemma {:induction false} SumsOfSigns(movements: seq<real>)
    ensures Sum(Deposits(movements)) + Sum(Withdrawals(movements)) == Sum(movements)
    ensures |Deposits(movements)| > 0 ==> Sum(Deposits(movements)) > 0.0
    ensures |Withdrawals(movements)| > 0 ==> Sum(Withdrawals(movements)) < 0.0
  {
    if |movements| > 0 {
      var m := movements[0];
      SumsOfSigns(movements[1..]);
      SumConcat(if IsDeposit(m) then [m] else [], Deposits(movements[1..]));
      SumConcat(if IsWithdrawal(m) then [m] else [], Withdrawals(movements[1..]));
    }
  }

  /** Scaling every term scales the sum. */
  lemma {:induction false} InterestTermsSum(deposits: seq<real>, rate: real)
    ensures Sum(InterestTerms(deposits, rate)) == Term(Sum(deposits), rate)
  {
    if |deposits| > 0 {
      InterestTermsSum(deposits[1..], rate);
    }
  }

  /** Dropping non-negative terms can only lower a sum; keeping only terms of at
      least 1 keeps the sum at least 1 when anything is kept. */
  lemma {:induction false} QualifyingSumBounds(terms: seq<real>)
    requires forall i :: 0 <= i < |terms| ==> terms[i] >= 0.0
    ensures Sum(Filter(terms, Qualifies)) <= Sum(terms)
    ensures Sum(Filter(terms, Qualifies)) >= |Filter(terms, Qualifies)| as real
  {
    if |terms| > 0 {
      var t := terms[0];
      QualifyingSumBounds(terms[1..]);
      SumConcat(if Qualifies(t) then [t] else [], Filter(terms[1..], Qualifies));
    }
  }

  lemma PositiveRate(d: real, rate: real)
    requires d > 0.0 && Term(d, rate) >= 1.0
    ensures rate > 0.0
  {
  }

  lemma NonNegativeTerm(d: real, rate: real)
    requires d > 0.0 && rate > 0.0
    ensures Term(d, rate) >= 0.0
  {
  }

  /** A deposit whose term qualifies forces a positive rate, and then every term is non-negative. */
  lemma TermsNonNegative(movements: seq<real>, rate: real)
    requires |PaidTerms(movements, rate)| > 0
    ensures forall i :: 0 <= i < |InterestTerms(Deposits(movements), rate)| ==>
              InterestTerms(Deposits(movements), rate)[i] >= 0.0
  {
    var ds := Deposits(movements);
    var ts := InterestTerms(ds, rate);
    FilterNonEmpty(ts, Qualifies);
    var j :| 0 <= j < |ts| && Qualifies(ts[j]);
    DepositsPositive(movements);
    assert ds[j] > 0.0 && ts[j] == Term(ds[j], rate) && ts[j] >= 1.0;
    PositiveRate(ds[j], rate);
    forall i | 0 <= i < |ts|
      ensures ts[i] >= 0.0
    {
      assert ds[i] > 0.0 && ts[i] == Term(ds[i], rate);
      NonNegativeTerm(ds[i], rate);
    }
  }

  lemma DepositsPositive(movements: seq<real>)
    ensures forall i :: 0 <= i < |Deposits(movements)| ==> Deposits(movements)[i] > 0.0
  {
    var ds := Deposits(movements);
    FilterMembers(movements, IsDeposit);
    forall i | 0 <= i < |ds|
      ensures ds[i] > 0.0
    {
      assert ds[i] in ds;
    }
  }

  lemma InterestBounds(movements: seq<real>, rate: real)
    requires |PaidTerms(movements, rate)| > 0
    ensures 1.0 <= Sum(PaidTerms(movements, rate)) <= Term(Sum(Deposits(movements)), rate)
  {
    var ds := Deposits(movements);
    var ts := InterestTerms(ds, rate);
    var ps := PaidTerms(movements, rate);
    assert ps == Filter(ts, Qualifies);
    TermsNonNegative(movements, rate);
    QualifyingSumBounds(ts);
    assert 1.0 <= Sum(ps) <= Sum(ts);
    InterestTermsSum(ds, rate);
  }
}
