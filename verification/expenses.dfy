/** The expense record as the aggregation helpers read it, and the basic
    reductions over a fetched list of records: the sum of amounts, the
    records that share a grouping key, and the set of keys that occur. */
module Expenses {

  /** A month index as `Date.prototype.getMonth` returns it (January is 0). */
  type MonthIndex = m: int | 0 <= m < 12

  /** The `date` field after `new Date(...)`: either the "Invalid Date"
      value, or a calendar year (as `getFullYear`) and month index. */
  datatype Date = InvalidDate | CalendarDate(year: int, monthIndex: MonthIndex)

  /** One fetched `expense` row: `Id`, `Name`, `farm_id`, `amount`,
      `category`, `description`, `date`. */
  datatype Expense = Expense(
    id: int,
    name: string,
    farmId: int,
    amount: int,
    category: string,
    description: string,
    date: Date)

  function CategoryOf(e: Expense): string { e.category }

  function FarmOf(e: Expense): int { e.farmId }

  /** The sum of the amounts of `es`, accumulated front to back. */
  function Total(es: seq<Expense>): int
  {
    if |es| == 0 then 0 else Total(es[..|es| - 1]) + es[|es| - 1].amount
  }

  /** The records of `es` whose key is `k`, in input order. */
  function Members<K(==)>(es: seq<Expense>, key: Expense -> K, k: K): (r: seq<Expense>)
    ensures forall e :: e in r ==> e in es && key(e) == k
    ensures |r| <= |es|
  {
    if |es| == 0 then []
    else
      var init := es[..|es| - 1];
      var e := es[|es| - 1];
      Members(init, key, k) + (if key(e) == k then [e] else [])
  }

  /** The keys that occur among the records of `es`. */
  function KeySet<K>(es: seq<Expense>, key: Expense -> K): (ks: set<K>)
    ensures forall e :: e in es ==> key(e) in ks
  {
    if |es| == 0 then {}
    else KeySet(es[..|es| - 1], key) + {key(es[|es| - 1])}
  }

  /** Every key in the set comes from some record. */
  lemma {:induction false} KeySetWitness<K>(es: seq<Expense>, key: Expense -> K, k: K)
    requires k in KeySet(es, key)
    ensures exists e :: e in es && key(e) == k
    decreases |es|
  {
    var init := es[..|es| - 1];
    if k in KeySet(init, key) {
      KeySetWitness(init, key, k);
      var e :| e in init && key(e) == k;
      assert e in es;
    } else {
      assert es[|es| - 1] in es;
    }
  }

  /** Appending one record adds it to its own group and to no other. */
  lemma MembersSnoc<K>(es: seq<Expense>, e: Expense, key: Expense -> K, k: K)
    ensures Members(es + [e], key, k) == Members(es, key, k) + (if key(e) == k then [e] else [])
  {
    assert (es + [e])[..|es|] == es;
  }

  lemma TotalSnoc(es: seq<Expense>, e: Expense)
    ensures Total(es + [e]) == Total(es) + e.amount
  {
    assert (es + [e])[..|es|] == es;
  }

  /** A key that occurs nowhere in `es` has no members. */
  lemma MembersOfAbsentKey<K>(es: seq<Expense>, key: Expense -> K, k: K)
    ensures k !in KeySet(es, key) ==> Members(es, key, k) == []
  {
  }

  /** A record belongs to the group of `k` exactly when it is in `es` and its
      key is `k`, and it occurs there as many times as in `es`. */
  lemma {:induction false} MembersCount<K>(es: seq<Expense>, key: Expense -> K, k: K, x: Expense)
    ensures multiset(Members(es, key, k))[x] == if key(x) == k then multiset(es)[x] else 0
    decreases |es|
  {
    if |es| > 0 {
      var init := es[..|es| - 1];
      assert es == init + [es[|es| - 1]];
      MembersCount(init, key, k, x);
    }
  }

  lemma TotalConcat(s: seq<Expense>, t: seq<Expense>)
    ensures Total(s + t) == Total(s) + Total(t)
    decreases |t|
  {
    if |t| == 0 {
      assert s + t == s;
    } else {
      assert (s + t)[..|s + t| - 1] == s + t[..|t| - 1];
      TotalConcat(s, t[..|t| - 1]);
    }
  }

  /** The sum of amounts does not depend on the order of the records. */
  lemma {:induction false} TotalPermutation(a: seq<Expense>, b: seq<Expense>)
    requires multiset(a) == multiset(b)
    ensures Total(a) == Total(b)
    decreases |a|
  {
    if |a| > 0 {
      var x := a[|a| - 1];
      var a' := a[..|a| - 1];
      assert a == a' + [x];
      assert x in multiset(b);
      var i :| 0 <= i < |b| && b[i] == x;
      var b' := b[..i] + b[i + 1..];
      assert b == b[..i] + [x] + b[i + 1..];
      assert multiset(b') == multiset(b) - multiset{x};
      TotalPermutation(a', b');
      TotalConcat(b[..i] + [x], b[i + 1..]);
      TotalConcat(b[..i], [x]);
      TotalConcat(b[..i], b[i + 1..]);
      assert Total([x]) == x.amount by {
        assert [x][..0] == [];
      }
    }
  }

  /** Reordering the input reorders every group the same way. */
  lemma MembersPermutation<K>(a: seq<Expense>, b: seq<Expense>, key: Expense -> K, k: K)
    requires multiset(a) == multiset(b)
    ensures multiset(Members(a, key, k)) == multiset(Members(b, key, k))
  {
    forall x
      ensures multiset(Members(a, key, k))[x] == multiset(Members(b, key, k))[x]
    {
      MembersCount(a, key, k, x);
      MembersCount(b, key, k, x);
    }
  }

  lemma KeySetPermutation<K>(a: seq<Expense>, b: seq<Expense>, key: Expense -> K)
    requires multiset(a) == multiset(b)
    ensures KeySet(a, key) == KeySet(b, key)
  {
    forall k | k in KeySet(a, key) ensures k in KeySet(b, key) {
      KeySetWitness(a, key, k);
      var e :| e in a && key(e) == k;
      assert e in multiset(b);
    }
    forall k | k in KeySet(b, key) ensures k in KeySet(a, key) {
      KeySetWitness(b, key, k);
      var e :| e in b && key(e) == k;
      assert e in multiset(a);
    }
  }
}
