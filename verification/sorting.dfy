/** Python's `sorted(items, key=...)` on dictionary items, for the three keys the core
    uses: the category name, the signed amount, and the signed amount reversed. The
    model is a stable insertion sort; what the core relies on is that the result is
    ordered by the key and holds exactly the input items. */
module Sorting {
  import Strings
  import opened Dicts

  type Item = (string, int)

  datatype Order =
    | ByName             // key=lambda x: x[0]
    | ByAmount           // key=lambda x: x[1]
    | ByAmountReversed   // key=lambda x: x[1], reverse=True

  /** `a` may precede `b` in a list sorted by `o`. */
  predicate Before(o: Order, a: Item, b: Item) {
    match o
    case ByName => Strings.LessEq(a.0, b.0)
    case ByAmount => a.1 <= b.1
    case ByAmountReversed => a.1 >= b.1
  }

  lemma BeforeTotal(o: Order, a: Item, b: Item)
    ensures Before(o, a, b) || Before(o, b, a)
  {
    if o == ByName {
      Strings.LessTotal(a.0, b.0);
    }
  }

  lemma BeforeTransitive(o: Order, a: Item, b: Item, c: Item)
    requires Before(o, a, b) && Before(o, b, c)
    ensures Before(o, a, c)
  {
    if o == ByName {
      Strings.LessEqTransitive(a.0, b.0, c.0);
    }
  }

  predicate Sorted(o: Order, s: seq<Item>) {
    forall i, j :: 0 <= i < j < |s| ==> Before(o, s[i], s[j])
  }

  /** Putting in front an item that may precede every item keeps a sorted list sorted. */
  lemma SortedCons(o: Order, x: Item, s: seq<Item>)
    requires Sorted(o, s)
    requires forall k :: 0 <= k < |s| ==> Before(o, x, s[k])
    ensures Sorted(o, [x] + s)
  {
    var r := [x] + s;
    forall i, j | 0 <= i < j < |r| ensures Before(o, r[i], r[j]) {
      if i == 0 {
        assert r[j] == s[j - 1];
      } else {
        assert r[i] == s[i - 1] && r[j] == s[j - 1];
      }
    }
  }

  /** Inserts `x` before the first item it may precede. */
  function Insert(o: Order, x: Item, s: seq<Item>): (r: seq<Item>)
    requires Sorted(o, s)
    ensures Sorted(o, r)
    ensures multiset(r) == multiset(s) + multiset{x}
  {
    if |s| == 0 then [x]
    else if Before(o, x, s[0]) then
      assert forall k :: 0 <= k < |s| ==> Before(o, x, s[k]) by {
        forall k | 0 <= k < |s| ensures Before(o, x, s[k]) {
          if k > 0 {
            BeforeTransitive(o, x, s[0], s[k]);
          }
        }
      }
      SortedCons(o, x, s);
      [x] + s
    else
      var tail := s[1..];
      assert Sorted(o, tail);
      var rest := Insert(o, x, tail);
      assert forall k :: 0 <= k < |rest| ==> Before(o, s[0], rest[k]) by {
        forall k | 0 <= k < |rest| ensures Before(o, s[0], rest[k]) {
          assert rest[k] in multiset(rest);
          if rest[k] == x {
            BeforeTotal(o, x, s[0]);
          } else {
            assert rest[k] in multiset(tail);
            var m :| 0 <= m < |tail| && tail[m] == rest[k];
            assert s[m + 1] == tail[m];
          }
        }
      }
      SortedCons(o, s[0], rest);
      assert s == [s[0]] + tail;
      [s[0]] + rest
  }

  /** `sorted(s, key=...)`: the items of `s`, ordered by `o`. */
  function Sort(o: Order, s: seq<Item>): (r: seq<Item>)
    ensures Sorted(o, r)
    ensures multiset(r) == multiset(s)
  {
    if |s| == 0 then []
    else
      assert s == [s[0]] + s[1..];
      Insert(o, s[0], Sort(o, s[1..]))
  }

  /** Items with distinct names have exactly one order by name: any two lists sorted
      by name that hold the same items are equal, so the model agrees with Python's
      `sorted` whatever algorithm either uses. */
  lemma {:induction false} SortedByNameUnique(a: seq<Item>, b: seq<Item>)
    requires Sorted(ByName, a) && Sorted(ByName, b)
    requires multiset(a) == multiset(b)
    requires DistinctKeys(a)
    ensures a == b
    decreases |a|
  {
    if |a| == 0 {
      assert |multiset(b)| == 0;
    } else {
      SameFirst(a, b);
      Tail(a);
      Tail(b);
      SortedByNameUnique(a[1..], b[1..]);
      assert a == [a[0]] + a[1..] && b == [b[0]] + b[1..];
    }
  }

  /** Dropping the first item keeps a list sorted and its names distinct. */
  lemma Tail(s: seq<Item>)
    requires |s| > 0
    ensures Sorted(ByName, s) ==> Sorted(ByName, s[1..])
    ensures DistinctKeys(s) ==> DistinctKeys(s[1..])
    ensures multiset(s[1..]) == multiset(s) - multiset{s[0]}
  {
    assert s == [s[0]] + s[1..];
  }

  /** Two such lists start with the same item: each first item is the least name. */
  lemma SameFirst(a: seq<Item>, b: seq<Item>)
    requires Sorted(ByName, a) && Sorted(ByName, b)
    requires multiset(a) == multiset(b)
    requires DistinctKeys(a)
    requires |a| > 0
    ensures |b| > 0 && a[0] == b[0]
  {
    assert a[0] in multiset(b);
    var i :| 0 <= i < |b| && b[i] == a[0];
    assert b[0] in multiset(a);
    var j :| 0 <= j < |a| && a[j] == b[0];
    assert Strings.LessEq(b[0].0, a[0].0) by {
      if i > 0 {
        assert Before(ByName, b[0], b[i]);
      }
    }
    assert Strings.LessEq(a[0].0, b[0].0) by {
      if j > 0 {
        assert Before(ByName, a[0], a[j]);
      }
    }
    Strings.LessAsymmetric(a[0].0, b[0].0);
    assert a[j].0 == a[0].0;
  }
}
