/** `getSummaryByCategory` and `getCropExpenses`: the amount spent per
    expense category over the fetched records. */
module CategorySummary {
  import opened Wrappers
  import opened MapSums
  import opened Expenses

  /** The `reduce` of `getSummaryByCategory`: each record adds its amount to
      the entry of its category. Exactly the categories that occur are keys
      (no zero-fill), and each maps to the sum of its records' amounts. */
  function SummaryByCategory(es: seq<Expense>): (r: map<string, int>)
    ensures forall c :: c in r ==> r[c] == Total(Members(es, CategoryOf, c))
    ensures r.Keys == KeySet(es, CategoryOf)
  {
    if |es| == 0 then map[]
    else
      var init := es[..|es| - 1];
      var e := es[|es| - 1];
      var s := SummaryByCategory(init);
      SummaryStep(es, s);
      AddTo(s, e.category, e.amount)
  }

  /** One step of the `reduce` keeps the summary's characterisation. */
  lemma SummaryStep(es: seq<Expense>, s: map<string, int>)
    requires |es| > 0
    requires s.Keys == KeySet(es[..|es| - 1], CategoryOf)
    requires forall c :: c in s ==> s[c] == Total(Members(es[..|es| - 1], CategoryOf, c))
    ensures AddTo(s, es[|es| - 1].category, es[|es| - 1].amount).Keys == KeySet(es, CategoryOf)
    ensures forall c :: c in AddTo(s, es[|es| - 1].category, es[|es| - 1].amount) ==>
              AddTo(s, es[|es| - 1].category, es[|es| - 1].amount)[c] == Total(Members(es, CategoryOf, c))
  {
    var e := es[|es| - 1];
    forall c | c in AddTo(s, e.category, e.amount)
      ensures AddTo(s, e.category, e.amount)[c] == Total(Members(es, CategoryOf, c))
    {
      SummaryStepAt(es, e, s, c);
    }
  }

  lemma SummaryStepAt(es: seq<Expense>, e: Expense, s: map<string, int>, c: string)
    requires |es| > 0 && e == es[|es| - 1]
    requires c in s ==> s[c] == Total(Members(es[..|es| - 1], CategoryOf, c))
    requires c !in s ==> c !in KeySet(es[..|es| - 1], CategoryOf)
    ensures c in AddTo(s, e.category, e.amount) ==>
              AddTo(s, e.category, e.amount)[c] == Total(Members(es, CategoryOf, c))
  {
    var m := Members(es[..|es| - 1], CategoryOf, c);
    assert Members(es, CategoryOf, c) == m + (if e.category == c then [e] else []);
    if c == e.category {
      MembersOfAbsentKey(es[..|es| - 1], CategoryOf, c);
      TotalSnoc(m, e);
    } else {
      assert m + [] == m;
    }
  }

  /** The last record is accumulated onto the summary of the others. */
  lemma SummaryLast(es: seq<Expense>)
    requires |es| > 0
    ensures SummaryByCategory(es)
         == AddTo(SummaryByCategory(es[..|es| - 1]), es[|es| - 1].category, es[|es| - 1].amount)
  {
  }

  /** Appending a record accumulates its amount into its category. */
  lemma SummarySnoc(es: seq<Expense>, e: Expense)
    ensures SummaryByCategory(es + [e]) == AddTo(SummaryByCategory(es), e.category, e.amount)
  {
    assert (es + [e])[..|es|] == es;
  }

  /** An empty input gives an empty summary. */
  lemma SummaryOfNothing()
    ensures SummaryByCategory([]) == map[]
  {
  }

  /** The summary does not depend on the order in which records arrive. */
  lemma SummaryOrderIndependent(a: seq<Expense>, b: seq<Expense>)
    requires multiset(a) == multiset(b)
    ensures SummaryByCategory(a) == SummaryByCategory(b)
  {
    var sa, sb := SummaryByCategory(a), SummaryByCategory(b);
    KeySetPermutation(a, b, CategoryOf);
    assert sa.Keys == sb.Keys;
    forall c | c in sa
      ensures sa[c] == sb[c]
    {
      MembersPermutation(a, b, CategoryOf, c);
      TotalPermutation(Members(a, CategoryOf, c), Members(b, CategoryOf, c));
    }
    assert sa == sb;
  }

  /** Summing the category totals gives back the sum of all amounts. */
  lemma {:induction false} SummaryConservesTotal(es: seq<Expense>)
    ensures SumValues(SummaryByCategory(es)) == Total(es)
    decreases |es|
  {
    if |es| > 0 {
      var init := es[..|es| - 1];
      var e := es[|es| - 1];
      SummaryConservesTotal(init);
      SumValuesAddTo(SummaryByCategory(init), e.category, e.amount);
    }
  }

  /** `getCropExpenses(cropId)`: the crop is never consulted; each record
      takes one `CropStep` on its category. */
  function CropExpenses(cropId: Option<int>, es: seq<Expense>): (r: map<string, int>)
    ensures r.Keys == KeySet(es, CategoryOf)
  {
    if |es| == 0 then map[]
    else
      var e := es[|es| - 1];
      CropStep(CropExpenses(cropId, es[..|es| - 1]), e.category, e.amount)
  }

  /** `if (!acc[c]) acc[c] = 0; acc[c] += a`: resetting a missing or zero
      entry to 0 and then adding is the same accumulation step as
      `(acc[c] || 0) + a`. */
  function CropStep(acc: map<string, int>, c: string, a: int): (r: map<string, int>)
    ensures r == AddTo(acc, c, a)
  {
    var acc' := if c !in acc || acc[c] == 0 then acc[c := 0] else acc;
    if c in acc && acc[c] == 0 then
      assert acc' == acc;
      acc'[c := acc'[c] + a]
    else
      acc'[c := acc'[c] + a]
  }

  /** Whatever crop is asked for, the answer is the category summary of all
      records. */
  lemma {:induction false} CropExpensesIsCategorySummary(cropId: Option<int>, es: seq<Expense>)
    ensures CropExpenses(cropId, es) == SummaryByCategory(es)
    decreases |es|
  {
    if |es| > 0 {
      CropExpensesIsCategorySummary(cropId, es[..|es| - 1]);
    }
  }
}
