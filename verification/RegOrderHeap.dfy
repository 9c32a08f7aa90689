/**
 The registration-order min-heap of internal/probe/registry.go, with the sift loops that the heap
 operations run over it.
 */
module RegOrderHeaps {

  /** A probe and its registration index. */
  datatype HeapEntry<T> = HeapEntry(id: T, order: int)

  function Parent(k: nat): nat
    requires k > 0
  {
    (k - 1) / 2
  }

  /** Every entry's parent is at most as late. */
  predicate Ordered<T>(s: seq<HeapEntry<T>>) {
    forall k :: 0 < k < |s| ==> s[Parent(k)].order <= s[k].order
  }

  function Swapped<T>(s: seq<HeapEntry<T>>, i: nat, j: nat): (r: seq<HeapEntry<T>>)
    requires i < |s| && j < |s|
    ensures |r| == |s| && multiset(r) == multiset(s)
  {
    assert s[i := s[j]][j := s[i]][i] == s[j];
    s[i := s[j]][j := s[i]]
  }

  /** The root of a heap is no later than any of its entries. */
  lemma {:induction false} RootIsFirst<T>(s: seq<HeapEntry<T>>, k: nat)
    requires Ordered(s) && k < |s|
    ensures s[0].order <= s[k].order
  {
    if k > 0 {
      RootIsFirst(s, Parent(k));
    }
  }

  /** `Ordered` except that entry `j` may be earlier than its parent. */
  predicate OrderedButUp<T>(s: seq<HeapEntry<T>>, j: nat) {
    && (forall k :: 0 < k < |s| && k != j ==> s[Parent(k)].order <= s[k].order)
    && (forall k :: 0 < k < |s| && 0 < j < |s| && Parent(k) == j ==> s[Parent(j)].order <= s[k].order)
  }

  /** The first `n` entries are ordered except that entry `i` may be later than its children. */
  predicate OrderedButDown<T>(s: seq<HeapEntry<T>>, i: nat, n: nat) {
    && n <= |s|
    && (forall k :: 0 < k < n && Parent(k) != i ==> s[Parent(k)].order <= s[k].order)
    && (forall k :: 0 < k < n && 0 < i < n && Parent(k) == i ==> s[Parent(i)].order <= s[k].order)
  }

  lemma UpStep<T>(s: seq<HeapEntry<T>>, j: nat)
    requires 0 < j < |s| && OrderedButUp(s, j) && s[j].order < s[Parent(j)].order
    ensures OrderedButUp(Swapped(s, Parent(j), j), Parent(j))
  {
    var i := Parent(j);
    var t := Swapped(s, i, j);
    forall k | 0 < k < |s| && k != i
      ensures t[Parent(k)].order <= t[k].order
    {
      if k != j && Parent(k) != j {
        assert s[Parent(k)].order <= s[k].order;
      }
    }
    if i > 0 {
      forall k | 0 < k < |s| && Parent(k) == i
        ensures t[Parent(i)].order <= t[k].order
      {
        assert s[Parent(i)].order <= s[i].order;
        if k != j {
          assert s[Parent(k)].order <= s[k].order;
        }
      }
    }
  }

  /** The earlier of the children of `i` among the first `n` entries. */
  predicate FirstChild<T>(s: seq<HeapEntry<T>>, i: nat, j: nat, n: nat) {
    && 0 < j < n <= |s| && Parent(j) == i
    && (forall k :: 0 < k < n && Parent(k) == i ==> s[j].order <= s[k].order)
  }

  lemma SmallerChildIsFirst<T>(s: seq<HeapEntry<T>>, i: nat, j: nat, n: nat)
    requires n <= |s| && 2 * i + 1 < n
    requires j == if 2 * i + 2 < n && s[2 * i + 2].order < s[2 * i + 1].order then 2 * i + 2 else 2 * i + 1
    ensures FirstChild(s, i, j, n)
  {
    forall k | 0 < k < n && Parent(k) == i ensures s[j].order <= s[k].order {
      assert k == 2 * i + 1 || k == 2 * i + 2;
    }
  }

  lemma DownStep<T>(s: seq<HeapEntry<T>>, i: nat, j: nat, n: nat)
    requires OrderedButDown(s, i, n) && FirstChild(s, i, j, n) && s[j].order < s[i].order
    ensures OrderedButDown(Swapped(s, i, j), j, n)
    ensures Swapped(s, i, j)[n..] == s[n..]
  {
    var t := Swapped(s, i, j);
    forall k | 0 < k < n && Parent(k) != j
      ensures t[Parent(k)].order <= t[k].order
    {
      if Parent(k) == i {
        assert s[j].order <= s[k].order;
      } else {
        assert s[Parent(k)].order <= s[k].order;
      }
    }
    forall k | 0 < k < n && Parent(k) == j
      ensures t[Parent(j)].order <= t[k].order
    {
      assert s[Parent(k)].order <= s[k].order;
    }
  }

  /** An entry no later than its first child leaves nothing out of order. */
  lemma DownDone<T>(s: seq<HeapEntry<T>>, i: nat, n: nat)
    requires OrderedButDown(s, i, n)
    requires forall k :: 0 < k < n && Parent(k) == i ==> s[i].order <= s[k].order
    ensures Ordered(s[..n])
  {
    forall k | 0 < k < n
      ensures s[..n][Parent(k)].order <= s[..n][k].order
    {
      assert s[..n][Parent(k)] == s[Parent(k)];
    }
  }

  class RegOrderHeap<T(==)> {
    var entries: seq<HeapEntry<T>>

    constructor ()
      ensures entries == []
    {
      entries := [];
    }

    /** Adds one entry and keeps the heap ordered. */
    method Push(x: HeapEntry<T>)
      requires Ordered(entries)
      modifies this
      ensures Ordered(entries) && multiset(entries) == old(multiset(entries)) + multiset{x}
    {
      entries := entries + [x];
      Up(|entries| - 1);
    }

    /** Removes an entry with the smallest order. */
    method Pop() returns (x: HeapEntry<T>)
      requires Ordered(entries) && entries != []
      modifies this
      ensures Ordered(entries) && old(multiset(entries)) == multiset(entries) + multiset{x}
      ensures forall e :: e in old(entries) ==> x.order <= e.order
    {
      var n := |entries| - 1;
      forall e | e in entries ensures entries[0].order <= e.order {
        var k :| 0 <= k < |entries| && entries[k] == e;
        RootIsFirst(entries, k);
      }
      ghost var before := entries;
      entries := Swapped(entries, 0, n);
      Down(0, n);
      x := entries[n];
      assert entries == entries[..n] + [x];
      entries := entries[..n];
    }

    method Up(start: nat)
      requires start < |entries| && OrderedButUp(entries, start)
      modifies this
      ensures Ordered(entries) && multiset(entries) == old(multiset(entries))
    {
      var j := start;
      while j > 0 && entries[j].order < entries[Parent(j)].order
        invariant 0 <= j < |entries| && OrderedButUp(entries, j)
        invariant multiset(entries) == old(multiset(entries))
      {
        UpStep(entries, j);
        entries := Swapped(entries, Parent(j), j);
        j := Parent(j);
      }
    }

    /** Sifts the entry at `start` down within the first `n` entries; later entries stay. */
    method Down(start: nat, n: nat)
      requires n <= |entries| && OrderedButDown(entries, start, n)
      modifies this
      ensures |entries| == old(|entries|) && Ordered(entries[..n])
      ensures entries[n..] == old(entries[n..]) && multiset(entries) == old(multiset(entries))
    {
      var i := start;
      while 2 * i + 1 < n
        invariant |entries| == old(|entries|) && OrderedButDown(entries, i, n)
        invariant entries[n..] == old(entries[n..]) && multiset(entries) == old(multiset(entries))
        decreases n - i
      {
        var j := 2 * i + 1;
        if j + 1 < n && entries[j + 1].order < entries[j].order {
          j := j + 1;
        }
        SmallerChildIsFirst(entries, i, j, n);
        if entries[i].order <= entries[j].order {
          break;
        }
        DownStep(entries, i, j, n);
        entries := Swapped(entries, i, j);
        i := j;
      }
      DownDone(entries, i, n);
    }
  }
}
