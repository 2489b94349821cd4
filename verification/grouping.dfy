/** The bucket accumulation shared by `getTrendData` and `getFarmComparison`:
    each record adds its amount to its bucket's `total` and to that bucket's
    entry for its category, creating `{ total: 0, categories: {} }` first
    when the bucket is new. */
module Grouping {
  import opened MapSums
  import opened Expenses
  import opened CategorySummary

  /** `{ total, categories }` of one bucket. */
  datatype Bucket = Bucket(total: int, categories: map<string, int>)

  const EmptyBucket := Bucket(0, map[])

  /** One record's contribution to its bucket. */
  function Accrue(b: Bucket, e: Expense): Bucket
  {
    Bucket(b.total + e.amount, AddTo(b.categories, e.category, e.amount))
  }

  /** What a bucket must hold after all of `es` is accumulated: the sum of
      the amounts of the records with key `k`, and their category summary. */
  ghost predicate DescribesGroup<K>(b: Bucket, es: seq<Expense>, key: Expense -> K, k: K)
  {
    && b.total == Total(Members(es, key, k))
    && b.categories == SummaryByCategory(Members(es, key, k))
  }

  /** The bucket of key `k`, or a fresh empty one when `k` has none yet. */
  function BucketOf<K>(g: map<K, Bucket>, k: K): Bucket
  {
    if k in g then g[k] else EmptyBucket
  }

  /** The body of the `forEach`: accrue `e` into the bucket of its key. */
  function Step<K>(g: map<K, Bucket>, e: Expense, key: Expense -> K): (g': map<K, Bucket>)
    ensures g'.Keys == g.Keys + {key(e)}
  {
    g[key(e) := Accrue(BucketOf(g, key(e)), e)]
  }

  /** The `forEach` over the records that fills the bucket table: a key is
      present exactly when some record has it, and its bucket sums exactly
      the records that have it. */
  function GroupBy<K>(es: seq<Expense>, key: Expense -> K): (g: map<K, Bucket>)
    ensures forall k :: k in g ==> DescribesGroup(g[k], es, key, k)
    ensures g.Keys == KeySet(es, key)
  {
    if |es| == 0 then map[]
    else
      var g := GroupBy(es[..|es| - 1], key);
      GroupStep(es, es[|es| - 1], key, g);
      Step(g, es[|es| - 1], key)
  }

  /** One step of the accumulation keeps the bucket table's characterisation. */
  lemma GroupStep<K>(es: seq<Expense>, e: Expense, key: Expense -> K, g: map<K, Bucket>)
    requires |es| > 0 && e == es[|es| - 1]
    requires g.Keys == KeySet(es[..|es| - 1], key)
    requires forall k :: k in g ==> DescribesGroup(g[k], es[..|es| - 1], key, k)
    ensures forall k :: k in Step(g, e, key) ==> DescribesGroup(Step(g, e, key)[k], es, key, k)
  {
    forall k | k in Step(g, e, key)
      ensures DescribesGroup(Step(g, e, key)[k], es, key, k)
    {
      GroupStepAt(es, e, key, g, k);
    }
  }

  lemma GroupStepAt<K>(es: seq<Expense>, e: Expense, key: Expense -> K, g: map<K, Bucket>, k: K)
    requires |es| > 0 && e == es[|es| - 1]
    requires g.Keys == KeySet(es[..|es| - 1], key)
    requires forall k :: k in g ==> DescribesGroup(g[k], es[..|es| - 1], key, k)
    requires k in g || k == key(e)
    ensures DescribesGroup(Step(g, e, key)[k], es, key, k)
  {
    var m := Members(es[..|es| - 1], key, k);
    assert Members(es, key, k) == m + (if key(e) == k then [e] else []);
    if k == key(e) {
      MembersOfAbsentKey(es[..|es| - 1], key, k);
      var b := BucketOf(g, k);
      assert b.total == Total(m) && b.categories == SummaryByCategory(m);
      AccrueDescribes(b, m, e);
    } else {
      assert m + [] == m;
    }
  }

  /** Accruing a record into the bucket of a group gives the bucket of the
      group with that record appended. */
  lemma AccrueDescribes(b: Bucket, m: seq<Expense>, e: Expense)
    requires b.total == Total(m) && b.categories == SummaryByCategory(m)
    ensures Accrue(b, e).total == Total(m + [e])
    ensures Accrue(b, e).categories == SummaryByCategory(m + [e])
  {
    TotalSnoc(m, e);
    SummarySnoc(m, e);
  }

  /** In every bucket, `total` is the sum of the `categories` values. */
  lemma BucketTotalIsCategorySum<K>(es: seq<Expense>, key: Expense -> K, k: K)
    requires k in GroupBy(es, key)
    ensures GroupBy(es, key)[k].total == SumValues(GroupBy(es, key)[k].categories)
  {
    SummaryConservesTotal(Members(es, key, k));
  }

  /** The bucket table does not depend on the order of the records. */
  lemma GroupByOrderIndependent<K>(a: seq<Expense>, b: seq<Expense>, key: Expense -> K)
    requires multiset(a) == multiset(b)
    ensures GroupBy(a, key) == GroupBy(b, key)
  {
    var ga, gb := GroupBy(a, key), GroupBy(b, key);
    KeySetPermutation(a, b, key);
    forall k | k in ga
      ensures ga[k] == gb[k]
    {
      var ma, mb := Members(a, key, k), Members(b, key, k);
      MembersPermutation(a, b, key, k);
      TotalPermutation(ma, mb);
      SummaryOrderIndependent(ma, mb);
    }
    assert ga == gb;
  }

  /** The bucket totals alone. */
  function TotalsOf<K>(g: map<K, Bucket>): (t: map<K, int>)
    ensures t.Keys == g.Keys
  {
    map k | k in g :: g[k].total
  }

  /** The bucket totals together account for every amount exactly once. */
  lemma {:induction false} GroupTotalsConserve<K>(es: seq<Expense>, key: Expense -> K)
    ensures SumValues(TotalsOf(GroupBy(es, key))) == Total(es)
    decreases |es|
  {
    if |es| > 0 {
      var init, e := es[..|es| - 1], es[|es| - 1];
      var g := GroupBy(init, key);
      GroupTotalsConserve(init, key);
      TotalsOfStep(g, e, key);
      SumValuesAddTo(TotalsOf(g), key(e), e.amount);
    }
  }

  lemma TotalsOfStep<K>(g: map<K, Bucket>, e: Expense, key: Expense -> K)
    ensures TotalsOf(Step(g, e, key)) == AddTo(TotalsOf(g), key(e), e.amount)
  {
  }

  /** `getFarmComparison`: the bucket table keyed by `farm_id`. */
  function FarmComparison(es: seq<Expense>): (r: map<int, Bucket>)
    ensures forall f :: f in r <==> exists e :: e in es && e.farmId == f
    ensures forall f :: f in r ==> r[f].total == Total(Members(es, FarmOf, f))
    ensures forall f :: f in r ==> r[f].categories == SummaryByCategory(Members(es, FarmOf, f))
  {
    var r := GroupBy(es, FarmOf);
    FarmKeys(es, r);
    r
  }

  lemma FarmKeys(es: seq<Expense>, r: map<int, Bucket>)
    requires r.Keys == KeySet(es, FarmOf)
    ensures forall f :: f in r <==> exists e :: e in es && e.farmId == f
  {
    forall f | f in r ensures exists e :: e in es && e.farmId == f {
      KeySetWitness(es, FarmOf, f);
    }
  }

  /** A record only ever counts towards its own farm: adding a record of one
      farm leaves every other farm's entry unchanged. */
  lemma FarmIsolation(es: seq<Expense>, e: Expense, f: int)
    requires f != e.farmId
    ensures f in FarmComparison(es + [e]) <==> f in FarmComparison(es)
    ensures f in FarmComparison(es) ==> FarmComparison(es + [e])[f] == FarmComparison(es)[f]
  {
    assert (es + [e])[..|es|] == es;
  }
}
