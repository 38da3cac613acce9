// The list manipulations the two desktop organizers perform on their file
// lists: appending unseen paths, swapping neighbours, deleting one entry and
// the pop-then-insert reorder of a drag and drop.

module Lists {

  predicate NoDup<T(==)>(s: seq<T>)
  {
    forall i, j :: 0 <= i < j < |s| ==> s[i] != s[j]
  }

  lemma NoDupSnoc<T>(s: seq<T>, x: T)
    requires NoDup(s) && x !in s
    ensures NoDup(s + [x])
  {
  }

  /** Appending each path of `batch`, in order, unless the list already holds it. */
  function DedupAppend<T(==)>(existing: seq<T>, batch: seq<T>): seq<T>
  {
    if batch == [] then existing
    else
      var acc := DedupAppend(existing, batch[..|batch| - 1]);
      var x := batch[|batch| - 1];
      if x in acc then acc else acc + [x]
  }

  /** The list only grows at its end: the old entries keep their places. */
  lemma {:induction false} DedupAppendPrefix<T>(existing: seq<T>, batch: seq<T>)
    ensures |DedupAppend(existing, batch)| >= |existing|
    ensures DedupAppend(existing, batch)[..|existing|] == existing
  {
    if batch != [] {
      DedupAppendPrefix(existing, batch[..|batch| - 1]);
      var acc := DedupAppend(existing, batch[..|batch| - 1]);
      assert (acc + [batch[|batch| - 1]])[..|existing|] == acc[..|existing|];
    }
  }

  /** After the append the list holds exactly the old entries and the batch's. */
  lemma {:induction false} DedupAppendMembers<T>(existing: seq<T>, batch: seq<T>, x: T)
    ensures x in DedupAppend(existing, batch) <==> x in existing || x in batch
  {
    if batch != [] {
      var init := batch[..|batch| - 1];
      DedupAppendMembers(existing, init, x);
      assert batch == init + [batch[|batch| - 1]];
    }
  }

  /** A duplicate-free list stays duplicate-free, even when the batch repeats a path. */
  lemma {:induction false} DedupAppendNoDup<T>(existing: seq<T>, batch: seq<T>)
    requires NoDup(existing)
    ensures NoDup(DedupAppend(existing, batch))
  {
    if batch != [] {
      DedupAppendNoDup(existing, batch[..|batch| - 1]);
    }
  }

  /** Adding two batches one after the other is adding their concatenation. */
  lemma {:induction false} DedupAppendConcat<T>(existing: seq<T>, b1: seq<T>, b2: seq<T>)
    ensures DedupAppend(existing, b1 + b2) == DedupAppend(DedupAppend(existing, b1), b2)
    decreases |b2|
  {
    if b2 == [] {
      assert b1 + b2 == b1;
    } else {
      assert (b1 + b2)[..|b1 + b2| - 1] == b1 + b2[..|b2| - 1];
      assert (b1 + b2)[|b1 + b2| - 1] == b2[|b2| - 1];
      DedupAppendConcat(existing, b1, b2[..|b2| - 1]);
    }
  }

  /** One step of the append loop. */
  lemma DedupAppendSnoc<T>(existing: seq<T>, batch: seq<T>, x: T)
    ensures DedupAppend(existing, batch + [x])
         == var acc := DedupAppend(existing, batch); if x in acc then acc else acc + [x]
  {
    assert (batch + [x])[..|batch|] == batch;
  }

  /** The first index holding x (`list.index(x)`). */
  function IndexOf<T(==)>(s: seq<T>, x: T): (i: nat)
    requires x in s
    ensures i < |s| && s[i] == x
    ensures forall k :: 0 <= k < i ==> s[k] != x
  {
    if s[0] == x then 0
    else
      assert x in s[1..] by {
        var k :| 0 <= k < |s| && s[k] == x;
        assert s[1..][k - 1] == x;
      }
      1 + IndexOf(s[1..], x)
  }

  /** Exchanging two entries. */
  function Swap<T>(s: seq<T>, i: nat, j: nat): (r: seq<T>)
    requires i < |s| && j < |s|
    ensures |r| == |s| && r[i] == s[j] && r[j] == s[i]
    ensures forall k :: 0 <= k < |s| && k != i && k != j ==> r[k] == s[k]
  {
    s[i := s[j]][j := s[i]]
  }

  /** Swapping keeps the entries, only their order changes, and swapping back restores it. */
  lemma SwapPermutes<T>(s: seq<T>, i: nat, j: nat)
    requires i < |s| && j < |s|
    ensures multiset(Swap(s, i, j)) == multiset(s)
    ensures Swap(Swap(s, i, j), i, j) == s
  {
    var r := Swap(s, i, j);
    assert r == s[i := s[j]][j := s[i]];
    var t := s[i := s[j]];
    assert multiset(t) == multiset(s) - multiset{s[i]} + multiset{s[j]};
    assert multiset(r) == multiset(t) - multiset{t[j]} + multiset{s[i]};
  }

  lemma SwapNoDup<T>(s: seq<T>, i: nat, j: nat)
    requires i < |s| && j < |s| && NoDup(s)
    ensures NoDup(Swap(s, i, j))
  {
    var r := Swap(s, i, j);
    forall a, b | 0 <= a < b < |r| ensures r[a] != r[b] {
      var a' := if a == i then j else if a == j then i else a;
      var b' := if b == i then j else if b == j then i else b;
      assert r[a] == s[a'] && r[b] == s[b'] && a' != b';
    }
  }

  /** Deleting the entry at index i (`list.pop(i)`, `del list[i]`). */
  function RemoveAt<T>(s: seq<T>, i: nat): (r: seq<T>)
    requires i < |s|
    ensures |r| == |s| - 1
    ensures forall k :: 0 <= k < |r| ==> r[k] == if k < i then s[k] else s[k + 1]
  {
    s[..i] + s[i + 1..]
  }

  /** Deleting removes exactly one occurrence of the deleted entry. */
  lemma RemoveAtMultiset<T>(s: seq<T>, i: nat)
    requires i < |s|
    ensures multiset(RemoveAt(s, i)) + multiset{s[i]} == multiset(s)
  {
    assert s == s[..i] + [s[i]] + s[i + 1..];
  }

  /**
   * The last entry of a occurs somewhere in any rearrangement b of it, and
   * what is left of both is again a rearrangement.
   */
  lemma MatchLast<T>(a: seq<T>, b: seq<T>) returns (i: nat)
    requires a != [] && multiset(a) == multiset(b)
    ensures i < |b| && b[i] == a[|a| - 1]
    ensures multiset(a[..|a| - 1]) == multiset(RemoveAt(b, i))
  {
    var x := a[|a| - 1];
    assert a == a[..|a| - 1] + [x];
    assert x in multiset(b);
    i :| 0 <= i < |b| && b[i] == x;
    RemoveAtMultiset(b, i);
    assert multiset(a[..|a| - 1]) == multiset(a) - multiset{x};
    assert multiset(RemoveAt(b, i)) == multiset(b) - multiset{x};
  }

  lemma RemoveAtNoDup<T>(s: seq<T>, i: nat)
    requires i < |s| && NoDup(s)
    ensures NoDup(RemoveAt(s, i))
    ensures s[i] !in RemoveAt(s, i)
  {
    var r := RemoveAt(s, i);
    forall a, b | 0 <= a < b < |r| ensures r[a] != r[b] {
      var a' := if a < i then a else a + 1;
      var b' := if b < i then b else b + 1;
      assert r[a] == s[a'] && r[b] == s[b'] && a' < b';
    }
    forall k | 0 <= k < |r| ensures r[k] != s[i] {
      assert r[k] == s[if k < i then k else k + 1];
    }
  }

  /** Where a drop lands once the dragged entry has been popped. */
  function InsertIndex(from: nat, to: nat): nat
  {
    if from < to then to - 1 else to
  }

  /**
   * The drag-and-drop reorder: pop the entry at `from`, lower the target by
   * one when it lay after the popped entry, and insert there.
   */
  function Move<T>(s: seq<T>, from: nat, to: nat): (r: seq<T>)
    requires from < |s| && to < |s|
    ensures |r| == |s|
  {
    var rest := RemoveAt(s, from);
    var at := InsertIndex(from, to);
    rest[..at] + [s[from]] + rest[at..]
  }

  /** The index of the old list that ends up at index i of the moved one. */
  function MoveSource(from: nat, to: nat, i: nat): nat
  {
    var at := InsertIndex(from, to);
    if i == at then from
    else
      var j := if i < at then i else i - 1;
      if j < from then j else j + 1
  }

  lemma MoveAt<T>(s: seq<T>, from: nat, to: nat, i: nat)
    requires from < |s| && to < |s| && i < |s|
    ensures MoveSource(from, to, i) < |s|
    ensures Move(s, from, to)[i] == s[MoveSource(from, to, i)]
  {
    var rest := RemoveAt(s, from);
    var at := InsertIndex(from, to);
    assert Move(s, from, to) == rest[..at] + [s[from]] + rest[at..];
    if i < at {
      assert Move(s, from, to)[i] == rest[i];
    } else if i > at {
      assert Move(s, from, to)[i] == rest[i - 1];
    }
  }

  /** Distinct positions of the moved list come from distinct positions of the old one. */
  lemma MoveSourceInjective(from: nat, to: nat, n: nat, i: nat, j: nat)
    requires from < n && to < n && i < n && j < n && i != j
    ensures MoveSource(from, to, i) != MoveSource(from, to, j)
  {
  }

  /** The reorder is a permutation. */
  lemma MovePermutes<T>(s: seq<T>, from: nat, to: nat)
    requires from < |s| && to < |s|
    ensures multiset(Move(s, from, to)) == multiset(s)
  {
    var rest := RemoveAt(s, from);
    var at := InsertIndex(from, to);
    RemoveAtMultiset(s, from);
    assert rest == rest[..at] + rest[at..];
    assert multiset(Move(s, from, to)) == multiset(rest[..at]) + multiset{s[from]} + multiset(rest[at..]);
  }

  /**
   * The dragged entry lands at the adjusted index, and without it the list
   * reads as before: every other entry keeps its relative order.
   */
  lemma MoveKeepsOthers<T>(s: seq<T>, from: nat, to: nat)
    requires from < |s| && to < |s|
    ensures Move(s, from, to)[InsertIndex(from, to)] == s[from]
    ensures RemoveAt(Move(s, from, to), InsertIndex(from, to)) == RemoveAt(s, from)
  {
    var rest := RemoveAt(s, from);
    var at := InsertIndex(from, to);
    var m := Move(s, from, to);
    assert m == rest[..at] + [s[from]] + rest[at..];
    assert m[..at] == rest[..at];
    assert m[at + 1..] == rest[at..];
    assert rest == rest[..at] + rest[at..];
  }

  /** Dropping one entry onto another puts it immediately before the entry it was dropped on. */
  lemma MoveLandsBeforeTarget<T>(s: seq<T>, from: nat, to: nat)
    requires from < |s| && to < |s| && from != to
    ensures InsertIndex(from, to) + 1 < |s|
    ensures Move(s, from, to)[InsertIndex(from, to)] == s[from]
    ensures Move(s, from, to)[InsertIndex(from, to) + 1] == s[to]
  {
    MoveAt(s, from, to, InsertIndex(from, to));
    MoveAt(s, from, to, InsertIndex(from, to) + 1);
  }

  lemma MoveNoDup<T>(s: seq<T>, from: nat, to: nat)
    requires from < |s| && to < |s| && NoDup(s)
    ensures NoDup(Move(s, from, to))
  {
    var m := Move(s, from, to);
    forall a, b | 0 <= a < b < |m| ensures m[a] != m[b] {
      MoveAt(s, from, to, a);
      MoveAt(s, from, to, b);
      MoveSourceInjective(from, to, |s|, a, b);
    }
  }
}
