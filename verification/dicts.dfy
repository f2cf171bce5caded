/** Python dictionaries keyed by strings. A `dict` iterates in insertion order and
    that order is observable in the core (rollover entries follow budget order), so a
    dictionary is modelled as its sequence of items; a real `dict` never repeats a key,
    which `DistinctKeys` states where a property depends on it. */
module Dicts {
  import opened Wrappers

  type Dict<V> = seq<(string, V)>

  predicate DistinctKeys<V>(d: Dict<V>) {
    forall i, j :: 0 <= i < j < |d| ==> d[i].0 != d[j].0
  }

  predicate HasKey<V>(d: Dict<V>, k: string) {
    exists i :: 0 <= i < |d| && d[i].0 == k
  }

  /** `d.get(k)`: the value stored under the first item whose key is `k`. */
  function Get<V>(d: Dict<V>, k: string): (r: Option<V>)
    ensures r.None? <==> !HasKey(d, k)
  {
    if |d| == 0 then None
    else if d[0].0 == k then Some(d[0].1)
    else
      assert HasKey(d, k) <==> HasKey(d[1..], k) by {
        if HasKey(d, k) {
          var i :| 0 <= i < |d| && d[i].0 == k;
          assert d[1..][i - 1] == d[i];
        }
        if HasKey(d[1..], k) {
          var i :| 0 <= i < |d[1..]| && d[1..][i].0 == k;
          assert d[i + 1] == d[1..][i];
        }
      }
      Get(d[1..], k)
  }

  /** What `Get` finds is the value of the first item with that key. */
  lemma {:induction false} GetFindsFirst<V>(d: Dict<V>, k: string)
    ensures Get(d, k).Some? ==> exists i :: 0 <= i < |d| && d[i] == (k, Get(d, k).value) &&
                                            forall j :: 0 <= j < i ==> d[j].0 != k
    decreases |d|
  {
    if |d| > 0 && d[0].0 == k {
      assert d[0] == (k, Get(d, k).value);
    } else if |d| > 0 && Get(d, k).Some? {
      GetFindsFirst(d[1..], k);
      var i :| 0 <= i < |d[1..]| && d[1..][i] == (k, Get(d, k).value) &&
               forall j :: 0 <= j < i ==> d[1..][j].0 != k;
      assert d[i + 1] == d[1..][i];
      assert forall j :: 1 <= j < i + 1 ==> d[j] == d[1..][j - 1];
    }
  }

  /** `d.get(k, default)`. */
  function GetOr<V>(d: Dict<V>, k: string, default: V): V {
    Get(d, k).GetOr(default)
  }

  /** With distinct keys, looking up the key of any item finds that item's value. */
  lemma {:induction false} GetOfItem<V>(d: Dict<V>, i: int)
    requires DistinctKeys(d) && 0 <= i < |d|
    ensures Get(d, d[i].0) == Some(d[i].1)
    decreases i
  {
    if i > 0 {
      assert d[0].0 != d[i].0;
      assert DistinctKeys(d[1..]) by {
        forall p, q | 0 <= p < q < |d[1..]| ensures d[1..][p].0 != d[1..][q].0 {
          assert d[1..][p] == d[p + 1] && d[1..][q] == d[q + 1];
        }
      }
      GetOfItem(d[1..], i - 1);
      assert d[1..][i - 1] == d[i];
    }
  }

  /** `sum(d.values())`. */
  function Sum(d: Dict<int>): int {
    if |d| == 0 then 0 else d[0].1 + Sum(d[1..])
  }

  lemma {:induction false} SumAppend(a: Dict<int>, b: Dict<int>)
    ensures Sum(a + b) == Sum(a) + Sum(b)
    decreases |a|
  {
    if |a| > 0 {
      assert (a + b)[1..] == a[1..] + b;
      SumAppend(a[1..], b);
    } else {
      assert a + b == b;
    }
  }

  /** The sum does not depend on the order of the items. */
  lemma {:induction false} SumPermutation(a: Dict<int>, b: Dict<int>)
    requires multiset(a) == multiset(b)
    ensures Sum(a) == Sum(b)
    decreases |a|
  {
    if |a| > 0 {
      var x := a[0];
      assert x in multiset(b);
      var j :| 0 <= j < |b| && b[j] == x;
      var rest := b[..j] + b[j + 1..];
      RemoveAt(b, j);
      assert a == [x] + a[1..];
      assert multiset(a[1..]) == multiset(a) - multiset{x};
      SumPermutation(a[1..], rest);
    } else {
      assert |multiset(b)| == 0;
    }
  }

  /** Taking out the item at `j` takes its amount out of the sum and the item out of
      the multiset. */
  lemma RemoveAt(b: Dict<int>, j: int)
    requires 0 <= j < |b|
    ensures Sum(b) == b[j].1 + Sum(b[..j] + b[j + 1..])
    ensures multiset(b[..j] + b[j + 1..]) == multiset(b) - multiset{b[j]}
  {
    var left, right := b[..j], b[j + 1..];
    var mid := [b[j]] + right;
    assert b == left + mid;
    SumAppend(left, mid);
    assert Sum(b) == Sum(left) + Sum(mid);
    SumAppend(left, right);
    SumCons(b[j], right);
    RemoveAtMultiset(b, j);
  }

  lemma SumCons(x: (string, int), d: Dict<int>)
    ensures Sum([x] + d) == x.1 + Sum(d)
  {
    assert ([x] + d)[1..] == d;
  }

  lemma RemoveAtMultiset<V>(b: Dict<V>, j: int)
    requires 0 <= j < |b|
    ensures multiset(b[..j] + b[j + 1..]) == multiset(b) - multiset{b[j]}
  {
    assert b == b[..j] + [b[j]] + b[j + 1..];
  }

  /** A sum of amounts none of which is positive is not positive, and a sum of amounts
      none of which is negative is not negative. */
  lemma {:induction false} SumSign(d: Dict<int>)
    ensures (forall i :: 0 <= i < |d| ==> d[i].1 <= 0) ==> Sum(d) <= 0
    ensures (forall i :: 0 <= i < |d| ==> d[i].1 >= 0) ==> Sum(d) >= 0
    decreases |d|
  {
    if |d| > 0 {
      SumSign(d[1..]);
      assert forall i :: 0 <= i < |d[1..]| ==> d[1..][i] == d[i + 1];
    }
  }

  /** An item found at two places is counted at least twice. */
  lemma CountOfRepeat<V>(items: Dict<V>, i: int, j: int)
    requires 0 <= i < j < |items|
    ensures items[i] == items[j] ==> multiset(items)[items[i]] >= 2
  {
    var x := items[i];
    assert items == items[..i] + [x] + items[i + 1..j] + [items[j]] + items[j + 1..];
  }

  /** A dictionary with distinct keys holds each item at most once. */
  lemma {:induction false} CountAtMostOne<V>(d: Dict<V>, x: (string, V))
    requires DistinctKeys(d)
    ensures multiset(d)[x] <= 1
    decreases |d|
  {
    if |d| > 0 {
      assert d == [d[0]] + d[1..];
      assert DistinctKeys(d[1..]) by {
        forall p, q | 0 <= p < q < |d[1..]| ensures d[1..][p].0 != d[1..][q].0 {
          assert d[1..][p] == d[p + 1] && d[1..][q] == d[q + 1];
        }
      }
      CountAtMostOne(d[1..], x);
      if d[0] == x {
        forall m | 0 <= m < |d[1..]| ensures d[1..][m].0 != x.0 {
          assert d[1..][m] == d[m + 1];
        }
        assert x !in d[1..];
      }
    }
  }

  /** Reordering the items of a dictionary keeps its keys distinct. */
  lemma PermutationDistinct<V>(d: Dict<V>, s: Dict<V>)
    requires DistinctKeys(d) && multiset(s) == multiset(d)
    ensures DistinctKeys(s)
  {
    forall p, q | 0 <= p < q < |s| ensures s[p].0 != s[q].0 {
      assert s[p] in multiset(d) && s[q] in multiset(d);
      var i :| 0 <= i < |d| && d[i] == s[p];
      var j :| 0 <= j < |d| && d[j] == s[q];
      CountOfRepeat(s, p, q);
      CountAtMostOne(d, s[p]);
    }
  }
}
