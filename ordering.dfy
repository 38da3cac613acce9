// Python's ordering of strings (code point by code point, a proper prefix
// first) and the two sorts the metrics collector relies on: sorting a
// dictionary's items by key, and sorting numbers.

module Ordering {

  /** `a < b` on Python strings. */
  predicate Less(a: string, b: string)
  {
    if a == [] then b != []
    else if b == [] then false
    else if a[0] != b[0] then a[0] < b[0]
    else Less(a[1..], b[1..])
  }

  lemma {:induction false} LessIrreflexive(a: string)
    ensures !Less(a, a)
  {
    if a != [] {
      LessIrreflexive(a[1..]);
    }
  }

  lemma {:induction false} LessAsymmetric(a: string, b: string)
    requires Less(a, b)
    ensures !Less(b, a)
  {
    if a != [] && b != [] && a[0] == b[0] {
      LessAsymmetric(a[1..], b[1..]);
    }
  }

  lemma {:induction false} LessTransitive(a: string, b: string, c: string)
    requires Less(a, b) && Less(b, c)
    ensures Less(a, c)
  {
    if a != [] && a[0] == b[0] && b[0] == c[0] {
      LessTransitive(a[1..], b[1..], c[1..]);
    }
  }

  /** Two different strings are ordered one way or the other. */
  lemma {:induction false} LessTotal(a: string, b: string)
    requires a != b
    ensures Less(a, b) || Less(b, a)
  {
    if a != [] && b != [] && a[0] == b[0] {
      assert a == [a[0]] + a[1..] && b == [b[0]] + b[1..];
      LessTotal(a[1..], b[1..]);
    }
  }

  /** A dictionary item. */
  type Item = (string, string)

  /** No key occurs twice, as in a dictionary's items. */
  predicate UniqueKeys(s: seq<Item>)
  {
    forall i, j :: 0 <= i < j < |s| ==> s[i].0 != s[j].0
  }

  /** Keys strictly increasing. */
  predicate SortedByKey(s: seq<Item>)
  {
    forall i, j :: 0 <= i < j < |s| ==> Less(s[i].0, s[j].0)
  }

  function InsertByKey(t: Item, s: seq<Item>): seq<Item>
  {
    if s == [] then [t]
    else if Less(s[0].0, t.0) then [s[0]] + InsertByKey(t, s[1..])
    else [t] + s
  }

  /** `sorted(d.items())` for a dictionary, whose keys are distinct. */
  function SortByKey(s: seq<Item>): seq<Item>
  {
    if s == [] then [] else InsertByKey(s[0], SortByKey(s[1..]))
  }

  lemma {:induction false} InsertByKeyMultiset(t: Item, s: seq<Item>)
    ensures multiset(InsertByKey(t, s)) == multiset(s) + multiset{t}
  {
    if s != [] && Less(s[0].0, t.0) {
      InsertByKeyMultiset(t, s[1..]);
      assert s == [s[0]] + s[1..];
    }
  }

  lemma {:induction false} InsertByKeySorted(t: Item, s: seq<Item>)
    requires SortedByKey(s) && forall u :: u in s ==> u.0 != t.0
    ensures SortedByKey(InsertByKey(t, s))
  {
    if s != [] {
      if Less(s[0].0, t.0) {
        InsertByKeySorted(t, s[1..]);
        InsertByKeyMultiset(t, s[1..]);
        ConsSortedByKey(s[0], InsertByKey(t, s[1..]), t, s[1..]);
      } else {
        LessTotal(t.0, s[0].0);
        FrontSortedByKey(t, s);
      }
    }
  }

  /** Putting an item before a sorted list of larger keys keeps it sorted. */
  lemma ConsSortedByKey(h: Item, rest: seq<Item>, t: Item, tail: seq<Item>)
    requires SortedByKey(rest) && multiset(rest) == multiset(tail) + multiset{t}
    requires Less(h.0, t.0) && forall k :: 0 <= k < |tail| ==> Less(h.0, tail[k].0)
    ensures SortedByKey([h] + rest)
  {
    forall u | u in rest ensures Less(h.0, u.0) {
      assert u in multiset(rest);
      if u != t {
        assert u in multiset(tail);
        var k :| 0 <= k < |tail| && tail[k] == u;
      }
    }
    var r := [h] + rest;
    forall i, j | 0 <= i < j < |r| ensures Less(r[i].0, r[j].0) {
      if i == 0 {
        assert r[j] == rest[j - 1];
        assert r[j] in rest;
      } else {
        assert r[i] == rest[i - 1] && r[j] == rest[j - 1];
      }
    }
  }

  /** Putting an item before a sorted list whose first key is larger keeps it sorted. */
  lemma FrontSortedByKey(t: Item, s: seq<Item>)
    requires SortedByKey(s) && s != [] && Less(t.0, s[0].0)
    ensures SortedByKey([t] + s)
  {
    var r := [t] + s;
    forall i, j | 0 <= i < j < |r| ensures Less(r[i].0, r[j].0) {
      if i == 0 && j > 1 {
        assert r[j] == s[j - 1];
        LessTransitive(t.0, s[0].0, s[j - 1].0);
      } else if i > 0 {
        assert r[i] == s[i - 1] && r[j] == s[j - 1];
      }
    }
  }

  /** Sorting distinct keys gives them strictly increasing, and the same items. */
  lemma {:induction false} SortByKeySorted(s: seq<Item>)
    requires UniqueKeys(s)
    ensures SortedByKey(SortByKey(s))
    ensures multiset(SortByKey(s)) == multiset(s)
  {
    if s != [] {
      assert UniqueKeys(s[1..]) by {
        forall i, j | 0 <= i < j < |s[1..]| ensures s[1..][i].0 != s[1..][j].0 {
          assert s[1..][i] == s[i + 1] && s[1..][j] == s[j + 1];
        }
      }
      SortByKeySorted(s[1..]);
      forall u | u in SortByKey(s[1..]) ensures u.0 != s[0].0 {
        assert u in multiset(s[1..]);
        var k :| 0 <= k < |s[1..]| && s[1..][k] == u;
        assert s[k + 1] == u;
      }
      InsertByKeySorted(s[0], SortByKey(s[1..]));
      InsertByKeyMultiset(s[0], SortByKey(s[1..]));
      assert s == [s[0]] + s[1..];
    }
  }

  /** Two key-sorted lists holding the same items are the same list. */
  lemma {:induction false} SortedByKeyUnique(a: seq<Item>, b: seq<Item>)
    requires SortedByKey(a) && SortedByKey(b)
    requires multiset(a) == multiset(b)
    ensures a == b
  {
    if a != [] {
      SameFirst(a, b);
      SortedByKeyTail(a);
      SortedByKeyTail(b);
      SameTail(a, b);
      SortedByKeyUnique(a[1..], b[1..]);
      assert a == [a[0]] + a[1..] && b == [b[0]] + b[1..];
    }
  }

  /** Both lists start with the item of least key. */
  lemma SameFirst(a: seq<Item>, b: seq<Item>)
    requires SortedByKey(a) && SortedByKey(b) && multiset(a) == multiset(b) && a != []
    ensures b != [] && a[0] == b[0]
  {
    assert |b| == |a|;
    assert a[0] in multiset(b) && b[0] in multiset(a);
    if a[0] != b[0] {
      var i :| 0 <= i < |a| && a[i] == b[0];
      var j :| 0 <= j < |b| && b[j] == a[0];
      assert Less(a[0].0, b[0].0);
      assert Less(b[0].0, a[0].0);
      LessAsymmetric(a[0].0, b[0].0);
    }
  }

  lemma SameTail(a: seq<Item>, b: seq<Item>)
    requires multiset(a) == multiset(b) && a != [] && b != [] && a[0] == b[0]
    ensures multiset(a[1..]) == multiset(b[1..])
  {
    assert a == [a[0]] + a[1..] && b == [b[0]] + b[1..];
    assert multiset(a[1..]) == multiset(a) - multiset{a[0]};
    assert multiset(b[1..]) == multiset(b) - multiset{b[0]};
  }

  lemma SortedByKeyTail(a: seq<Item>)
    requires SortedByKey(a) && a != []
    ensures SortedByKey(a[1..])
  {
    forall i, j | 0 <= i < j < |a[1..]| ensures Less(a[1..][i].0, a[1..][j].0) {
      assert a[1..][i] == a[i + 1] && a[1..][j] == a[j + 1];
    }
  }

  /** Non-decreasing numbers. */
  predicate Sorted(s: seq<int>)
  {
    forall i, j :: 0 <= i < j < |s| ==> s[i] <= s[j]
  }

  function Insert(x: int, s: seq<int>): seq<int>
  {
    if s == [] then [x] else if s[0] < x then [s[0]] + Insert(x, s[1..]) else [x] + s
  }

  /** Python's `sorted` on a list of numbers. */
  function Sort(s: seq<int>): seq<int>
  {
    if s == [] then [] else Insert(s[0], Sort(s[1..]))
  }

  lemma {:induction false} InsertMultiset(x: int, s: seq<int>)
    ensures multiset(Insert(x, s)) == multiset(s) + multiset{x}
  {
    if s != [] && s[0] < x {
      InsertMultiset(x, s[1..]);
      assert s == [s[0]] + s[1..];
    }
  }

  lemma {:induction false} InsertSorted(x: int, s: seq<int>)
    requires Sorted(s)
    ensures Sorted(Insert(x, s))
  {
    if s != [] && s[0] < x {
      InsertSorted(x, s[1..]);
      InsertMultiset(x, s[1..]);
      ConsSorted(s[0], Insert(x, s[1..]), x, s[1..]);
    }
  }

  /** A number no greater than every number of a sorted list can go before it. */
  lemma ConsSorted(h: int, rest: seq<int>, x: int, tail: seq<int>)
    requires Sorted(rest) && multiset(rest) == multiset(tail) + multiset{x}
    requires h < x && forall k :: 0 <= k < |tail| ==> h <= tail[k]
    ensures Sorted([h] + rest)
  {
    forall u | u in rest ensures h <= u {
      assert u in multiset(rest);
      if u != x {
        assert u in multiset(tail);
        var k :| 0 <= k < |tail| && tail[k] == u;
      }
    }
    var r := [h] + rest;
    forall i, j | 0 <= i < j < |r| ensures r[i] <= r[j] {
      if i == 0 {
        assert r[j] == rest[j - 1] && r[j] in rest;
      } else {
        assert r[i] == rest[i - 1] && r[j] == rest[j - 1];
      }
    }
  }

  /** Sorting gives a non-decreasing rearrangement of the same numbers. */
  lemma {:induction false} SortSorted(s: seq<int>)
    ensures Sorted(Sort(s)) && multiset(Sort(s)) == multiset(s)
  {
    if s != [] {
      SortSorted(s[1..]);
      InsertSorted(s[0], Sort(s[1..]));
      InsertMultiset(s[0], Sort(s[1..]));
      assert s == [s[0]] + s[1..];
    }
  }

  /** The sorted list has the same elements, the least first and the greatest last. */
  lemma SortSameElements(s: seq<int>)
    ensures |Sort(s)| == |s|
    ensures forall v :: v in s <==> v in Sort(s)
    ensures s != [] ==> forall v :: v in s ==> Sort(s)[0] <= v <= Sort(s)[|s| - 1]
  {
    SortSorted(s);
    var t := Sort(s);
    assert |t| == |multiset(t)| == |multiset(s)| == |s|;
    forall v ensures v in s <==> v in t {
      assert v in s <==> v in multiset(s);
      assert v in t <==> v in multiset(t);
    }
    forall v | v in s ensures t[0] <= v <= t[|s| - 1] {
      var k :| 0 <= k < |t| && t[k] == v;
    }
  }
}
