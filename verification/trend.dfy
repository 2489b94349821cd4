/** `getTrendData`: bucket the records by period key, then list the
    buckets as `{ period, total, categories }` sorted ascending by key. */
module Trend {
  import opened Wrappers
  import opened Text
  import opened MapSums
  import opened Expenses
  import opened CategorySummary
  import opened Grouping
  import opened PeriodKeys

  datatype TrendPoint = TrendPoint(period: string, total: int, categories: map<string, int>)

  /** The sum of the `total` of every point. */
  function SumTotals(ps: seq<TrendPoint>): int
  {
    if |ps| == 0 then 0 else SumTotals(ps[..|ps| - 1]) + ps[|ps| - 1].total
  }

  /** Keys strictly increase along the list, so none repeats. */
  predicate StrictlyAscending(ps: seq<TrendPoint>)
  {
    forall i, j :: 0 <= i < j < |ps| ==> LexLess(ps[i].period, ps[j].period)
  }

  /** `ps` lists the buckets of `g` in ascending key order, each exactly once. */
  predicate ListsBuckets(ps: seq<TrendPoint>, g: map<string, Bucket>)
  {
    && StrictlyAscending(ps)
    && (forall i :: 0 <= i < |ps| ==>
          ps[i].period in g && g[ps[i].period] == Bucket(ps[i].total, ps[i].categories))
    && (forall k :: k in g ==> exists i :: 0 <= i < |ps| && ps[i].period == k)
  }

  /** Some key of `s` that no other key of `s` sorts before. */
  lemma MinimumExists(s: set<string>)
    requires s != {}
    ensures exists m :: m in s && forall k :: k in s ==> !LexLess(k, m)
  {
    var m := Minimum(s);
  }

  /** A key of `s` that no key of `s` sorts before, found by removing one
      key at a time. */
  lemma {:induction false} Minimum(s: set<string>) returns (m: string)
    requires s != {}
    ensures m in s && forall k :: k in s ==> !LexLess(k, m)
    decreases |s|
  {
    var x :| x in s;
    if s == {x} {
      LexLessIrreflexive(x);
      m := x;
    } else {
      var m' := Minimum(s - {x});
      if LexLess(x, m') {
        NewMinimum(s, x, m');
        m := x;
      } else {
        m := m';
      }
    }
  }

  /** A key below the minimum of the other keys is the minimum of all. */
  lemma NewMinimum(s: set<string>, x: string, m: string)
    requires x in s && LexLess(x, m)
    requires forall k :: k in s - {x} ==> !LexLess(k, m)
    ensures forall k :: k in s ==> !LexLess(k, x)
  {
    LexLessIrreflexive(x);
    forall k | k in s - {x} ensures !LexLess(k, x) {
      if LexLess(k, x) {
        LexLessTransitive(k, x, m);
      }
    }
  }

  /** Midway through the sort: `ps` lists in ascending order exactly the
      buckets of `g` that are no longer in `rest`, all before every key still
      in `rest`. */
  ghost predicate Sorting(g: map<string, Bucket>, ps: seq<TrendPoint>, rest: map<string, Bucket>)
  {
    && (forall k :: k in rest ==> k in g && rest[k] == g[k])
    && StrictlyAscending(ps)
    && (forall i :: 0 <= i < |ps| ==>
          ps[i].period in g && ps[i].period !in rest && g[ps[i].period] == Bucket(ps[i].total, ps[i].categories))
    && (forall i, k :: 0 <= i < |ps| && k in rest ==> LexLess(ps[i].period, k))
    && (forall k :: k in g && k !in rest ==> exists i :: 0 <= i < |ps| && ps[i].period == k)
  }

  /** Moving the smallest remaining key to the end of the list keeps the
      sort's invariant. */
  lemma SortingStep(g: map<string, Bucket>, ps: seq<TrendPoint>, rest: map<string, Bucket>, m: string)
    requires Sorting(g, ps, rest)
    requires m in rest && forall k :: k in rest ==> !LexLess(k, m)
    ensures Sorting(g, ps + [TrendPoint(m, rest[m].total, rest[m].categories)], rest - {m})
  {
    var p := TrendPoint(m, rest[m].total, rest[m].categories);
    SortingStepOrder(g, ps, rest, m);
    SortingStepCover(g, ps, rest, m);
  }

  lemma SortingStepOrder(g: map<string, Bucket>, ps: seq<TrendPoint>, rest: map<string, Bucket>, m: string)
    requires Sorting(g, ps, rest)
    requires m in rest && forall k :: k in rest ==> !LexLess(k, m)
    ensures StrictlyAscending(ps + [TrendPoint(m, rest[m].total, rest[m].categories)])
    ensures forall i, k :: 0 <= i < |ps| + 1 && k in rest - {m} ==>
              LexLess((ps + [TrendPoint(m, rest[m].total, rest[m].categories)])[i].period, k)
  {
    var ps' := ps + [TrendPoint(m, rest[m].total, rest[m].categories)];
    assert forall i :: 0 <= i < |ps| ==> ps'[i] == ps[i];
    forall i, k | 0 <= i < |ps'| && k in rest - {m} ensures LexLess(ps'[i].period, k) {
      if i == |ps| {
        LexLessTotal(k, m);
      }
    }
  }

  lemma SortingStepCover(g: map<string, Bucket>, ps: seq<TrendPoint>, rest: map<string, Bucket>, m: string)
    requires Sorting(g, ps, rest)
    requires m in rest
    ensures forall i :: 0 <= i < |ps| + 1 ==>
              var q := (ps + [TrendPoint(m, rest[m].total, rest[m].categories)])[i];
              q.period in g && q.period !in rest - {m} && g[q.period] == Bucket(q.total, q.categories)
    ensures forall k :: k in g && k !in rest - {m} ==>
              exists i :: 0 <= i < |ps| + 1 && (ps + [TrendPoint(m, rest[m].total, rest[m].categories)])[i].period == k
  {
    var ps' := ps + [TrendPoint(m, rest[m].total, rest[m].categories)];
    assert forall i :: 0 <= i < |ps| ==> ps'[i] == ps[i];
    forall k | k in g && k !in rest - {m}
      ensures exists i :: 0 <= i < |ps'| && ps'[i].period == k
    {
      if k == m {
        assert ps'[|ps|].period == k;
      } else {
        var i :| 0 <= i < |ps| && ps[i].period == k;
        assert ps'[i].period == k;
      }
    }
  }

  lemma SumTotalsSnoc(ps: seq<TrendPoint>, p: TrendPoint)
    ensures SumTotals(ps + [p]) == SumTotals(ps) + p.total
  {
    assert (ps + [p])[..|ps|] == ps;
  }

  /** `Object.entries(groupedData).sort(...).map(...)`: repeatedly take the
      smallest remaining key. */
  method SortBuckets(g: map<string, Bucket>) returns (ps: seq<TrendPoint>)
    ensures ListsBuckets(ps, g)
    ensures SumTotals(ps) == SumValues(TotalsOf(g))
  {
    ps := [];
    var rest := g;
    while rest != map[]
      invariant Sorting(g, ps, rest)
      invariant SumTotals(ps) + SumValues(TotalsOf(rest)) == SumValues(TotalsOf(g))
      decreases |rest|
    {
      MinimumExists(rest.Keys);
      var m :| m in rest && forall k :: k in rest ==> !LexLess(k, m);
      var p := TrendPoint(m, rest[m].total, rest[m].categories);
      SortingStep(g, ps, rest, m);
      SortSumStep(ps, rest, m);
      ps := ps + [p];
      rest := rest - {m};
    }
    SortingDone(g, ps);
  }

  /** Moving a bucket from the table to the list moves its total with it. */
  lemma SortSumStep(ps: seq<TrendPoint>, rest: map<string, Bucket>, m: string)
    requires m in rest
    ensures SumTotals(ps + [TrendPoint(m, rest[m].total, rest[m].categories)]) + SumValues(TotalsOf(rest - {m}))
         == SumTotals(ps) + SumValues(TotalsOf(rest))
  {
    SumValuesRemove(TotalsOf(rest), m);
    assert TotalsOf(rest) - {m} == TotalsOf(rest - {m});
    SumTotalsSnoc(ps, TrendPoint(m, rest[m].total, rest[m].categories));
  }

  /** Once nothing is left to take, the list lists the whole table. */
  lemma SortingDone(g: map<string, Bucket>, ps: seq<TrendPoint>)
    requires Sorting(g, ps, map[])
    ensures ListsBuckets(ps, g)
  {
  }

  /** The last point of a listing carries the largest key of the table. */
  lemma LastIsLargest(p: seq<TrendPoint>, g: map<string, Bucket>)
    requires ListsBuckets(p, g) && |p| > 0
    ensures forall k :: k in g && k != p[|p| - 1].period ==> LexLess(k, p[|p| - 1].period)
  {
    forall k | k in g && k != p[|p| - 1].period ensures LexLess(k, p[|p| - 1].period) {
      var i :| 0 <= i < |p| && p[i].period == k;
    }
  }

  /** Two lists of the same table end in the same point. */
  lemma LastPointsAgree(p1: seq<TrendPoint>, p2: seq<TrendPoint>, g: map<string, Bucket>)
    requires ListsBuckets(p1, g) && ListsBuckets(p2, g)
    requires |p1| > 0 && |p2| > 0
    ensures p1[|p1| - 1] == p2[|p2| - 1]
  {
    var x, y := p1[|p1| - 1], p2[|p2| - 1];
    LastIsLargest(p1, g);
    LastIsLargest(p2, g);
    if x.period != y.period {
      LexLessAsymmetric(x.period, y.period);
    }
  }

  /** Dropping the last point lists the table without its largest key. */
  lemma DropLastPoint(p: seq<TrendPoint>, g: map<string, Bucket>)
    requires ListsBuckets(p, g) && |p| > 0
    ensures ListsBuckets(p[..|p| - 1], g - {p[|p| - 1].period})
  {
    var n := |p| - 1;
    var k := p[n].period;
    var q, g' := p[..n], g - {k};
    forall i | 0 <= i < |q| ensures q[i].period != k {
      LexLessIrreflexive(k);
    }
    forall k' | k' in g' ensures exists i :: 0 <= i < |q| && q[i].period == k' {
      var i :| 0 <= i < |p| && p[i].period == k';
      assert q[i] == p[i];
    }
  }

  /** Only the empty list lists the empty table, and only the empty table
      has an empty listing. */
  lemma NothingListed(p: seq<TrendPoint>, g: map<string, Bucket>)
    requires ListsBuckets(p, g)
    ensures |p| == 0 <==> g == map[]
  {
    if |p| > 0 {
      assert p[0].period in g;
    }
  }

  lemma SameFrontSameLast<T>(a: seq<T>, b: seq<T>)
    requires |a| > 0 && |b| > 0
    requires a[..|a| - 1] == b[..|b| - 1] && a[|a| - 1] == b[|b| - 1]
    ensures a == b
  {
    assert a == a[..|a| - 1] + [a[|a| - 1]];
    assert b == b[..|b| - 1] + [b[|b| - 1]];
  }

  /** Both lists of the same bucket table are the same list. */
  lemma {:induction false} ListsBucketsUnique(p1: seq<TrendPoint>, p2: seq<TrendPoint>, g: map<string, Bucket>)
    requires ListsBuckets(p1, g) && ListsBuckets(p2, g)
    ensures p1 == p2
    decreases |p1|
  {
    NothingListed(p1, g);
    NothingListed(p2, g);
    if |p1| > 0 && |p2| > 0 {
      var q1, q2, g' := DropLastPoints(p1, p2, g);
      ListsBucketsUnique(q1, q2, g');
      SameFrontSameLast(p1, p2);
    }
  }

  /** The two lists agree on their last point, and without it both list
      the table without that point's key. */
  lemma DropLastPoints(p1: seq<TrendPoint>, p2: seq<TrendPoint>, g: map<string, Bucket>)
    returns (q1: seq<TrendPoint>, q2: seq<TrendPoint>, g': map<string, Bucket>)
    requires ListsBuckets(p1, g) && ListsBuckets(p2, g)
    requires |p1| > 0 && |p2| > 0
    ensures q1 == p1[..|p1| - 1] && q2 == p2[..|p2| - 1]
    ensures p1[|p1| - 1] == p2[|p2| - 1]
    ensures ListsBuckets(q1, g') && ListsBuckets(q2, g')
  {
    LastPointsAgree(p1, p2, g);
    g' := g - {p1[|p1| - 1].period};
    DropLastPoint(p1, g);
    DropLastPoint(p2, g);
    q1, q2 := p1[..|p1| - 1], p2[..|p2| - 1];
  }
  /** `ps` is the trend of `es` by `period`, stated directly in terms of the
      records: strictly ascending keys, each one the period key of some
      record, each point carrying the total and category summary of its
      period's records, and every record's period listed. */
  ghost predicate TrendOf(ps: seq<TrendPoint>, es: seq<Expense>, period: string)
  {
    && StrictlyAscending(ps)
    && (forall i :: 0 <= i < |ps| ==> ps[i].period in KeySet(es, KeyFor(period)))
    && (forall i :: 0 <= i < |ps| ==>
          ps[i].total == Total(Members(es, KeyFor(period), ps[i].period))
          && ps[i].categories == SummaryByCategory(Members(es, KeyFor(period), ps[i].period)))
    && (forall e :: e in es ==> exists i :: 0 <= i < |ps| && ps[i].period == PeriodKey(period, e.date))
  }

  /** `getTrendData(period = 'monthly')` over the fetched records: an absent
      `period` means monthly keys. There is one point per period key that
      occurs, ascending by key; each point's `total` is the sum of the
      amounts of the records of that period and its `categories` their
      category summary; the totals together account for every amount. */
  method TrendData(es: seq<Expense>, period: Option<string>) returns (ps: seq<TrendPoint>)
    ensures SumTotals(ps) == Total(es)
    ensures StrictlyAscending(ps)
    ensures forall i :: 0 <= i < |ps| ==> ps[i].period in KeySet(es, KeyFor(period.GetOr(Monthly)))
    ensures forall i :: 0 <= i < |ps| ==>
      ps[i].total == Total(Members(es, KeyFor(period.GetOr(Monthly)), ps[i].period))
      && ps[i].categories == SummaryByCategory(Members(es, KeyFor(period.GetOr(Monthly)), ps[i].period))
    ensures forall e :: e in es ==>
      exists i :: 0 <= i < |ps| && ps[i].period == PeriodKey(period.GetOr(Monthly), e.date)
  {
    var p := period.GetOr(Monthly);
    var g := GroupBy(es, KeyFor(p));
    ps := SortBuckets(g);
    GroupTotalsConserve(es, KeyFor(p));
    forall e | e in es
      ensures exists i :: 0 <= i < |ps| && ps[i].period == PeriodKey(p, e.date)
    {
      assert KeyFor(p)(e) in g;
    }
  }

  /** The direct description of a trend is exactly a listing of the bucket
      table the source builds. */
  lemma TrendListsBuckets(ps: seq<TrendPoint>, es: seq<Expense>, period: string)
    requires TrendOf(ps, es, period)
    ensures ListsBuckets(ps, GroupBy(es, KeyFor(period)))
  {
    var g := GroupBy(es, KeyFor(period));
    forall k | k in g ensures exists i :: 0 <= i < |ps| && ps[i].period == k {
      KeySetWitness(es, KeyFor(period), k);
      var e :| e in es && KeyFor(period)(e) == k;
    }
  }

  /** Reordering the fetched records cannot change the trend output. */
  lemma TrendOrderIndependent(a: seq<Expense>, b: seq<Expense>, period: string,
                              pa: seq<TrendPoint>, pb: seq<TrendPoint>)
    requires multiset(a) == multiset(b)
    requires TrendOf(pa, a, period) && TrendOf(pb, b, period)
    ensures pa == pb
  {
    TrendListsBuckets(pa, a, period);
    TrendListsBuckets(pb, b, period);
    GroupByOrderIndependent(a, b, KeyFor(period));
    ListsBucketsUnique(pa, pb, GroupBy(a, KeyFor(period)));
  }
}
