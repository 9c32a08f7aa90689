/** Sums over sequences, and the few facts about distinct sequences that the other modules share. */
module Seqs {

  /** The sum of `f` over the elements of `s`. */
  function SumBy<T>(s: seq<T>, f: T -> int): int {
    if s == [] then 0 else f(s[0]) + SumBy(s[1..], f)
  }

  lemma {:induction false} SumByConcat<T>(a: seq<T>, b: seq<T>, f: T -> int)
    ensures SumBy(a + b, f) == SumBy(a, f) + SumBy(b, f)
  {
    if a == [] {
      assert a + b == b;
    } else {
      assert (a + b)[1..] == a[1..] + b;
      SumByConcat(a[1..], b, f);
    }
  }

  /** Replacing one element changes the sum by the difference of the two elements. */
  lemma {:induction false} SumByUpdate<T>(s: seq<T>, k: nat, x: T, f: T -> int)
    requires k < |s|
    ensures SumBy(s[k := x], f) == SumBy(s, f) - f(s[k]) + f(x)
  {
    if k == 0 {
      assert s[k := x][1..] == s[1..];
    } else {
      assert s[k := x][1..] == s[1..][k - 1 := x];
      SumByUpdate(s[1..], k - 1, x, f);
    }
  }

  /** A sum of non-negative terms is at least each of its terms. */
  lemma {:induction false} SumByAtLeast<T>(s: seq<T>, k: nat, f: T -> int)
    requires k < |s|
    requires forall i :: 0 <= i < |s| ==> f(s[i]) >= 0
    ensures SumBy(s, f) >= f(s[k])
  {
    SumByNonNegative(s[1..], f);
    if k > 0 {
      SumByAtLeast(s[1..], k - 1, f);
    }
  }

  lemma {:induction false} SumByTwo<T>(s: seq<T>, j: nat, k: nat, f: T -> int)
    requires j < k < |s|
    requires forall i :: 0 <= i < |s| ==> f(s[i]) >= 0
    ensures SumBy(s, f) >= f(s[j]) + f(s[k])
  {
    if j == 0 {
      SumByAtLeast(s[1..], k - 1, f);
    } else {
      SumByTwo(s[1..], j - 1, k - 1, f);
    }
  }

  lemma {:induction false} SumByNonNegative<T>(s: seq<T>, f: T -> int)
    requires forall i :: 0 <= i < |s| ==> f(s[i]) >= 0
    ensures SumBy(s, f) >= 0
  {
    if s != [] {
      SumByNonNegative(s[1..], f);
    }
  }

  /** Terms bounded by `c` give a sum bounded by `c` times the length. */
  lemma {:induction false} SumByAtMost<T>(s: seq<T>, c: int, f: T -> int)
    requires forall i :: 0 <= i < |s| ==> f(s[i]) <= c
    ensures SumBy(s, f) <= c * |s|
  {
    if s != [] {
      SumByAtMost(s[1..], c, f);
      assert c * |s| == c + c * |s[1..]|;
    }
  }

  lemma {:induction false} SumByZero<T>(s: seq<T>, f: T -> int)
    requires forall i :: 0 <= i < |s| ==> f(s[i]) == 0
    ensures SumBy(s, f) == 0
  {
    if s != [] {
      SumByZero(s[1..], f);
    }
  }

  /** Terms that are pairwise within `c` of each other give sums within `c` times the length. */
  lemma {:induction false} SumByShift<T>(s: seq<T>, t: seq<T>, c: int, f: T -> int)
    requires |s| == |t|
    requires forall i :: 0 <= i < |s| ==> f(t[i]) <= f(s[i]) + c
    ensures SumBy(t, f) <= SumBy(s, f) + c * |s|
  {
    if s != [] {
      SumByShift(s[1..], t[1..], c, f);
      assert c * |s| == c + c * |s[1..]|;
    }
  }

  lemma {:induction false} SumByEqual<T>(s: seq<T>, t: seq<T>, f: T -> int)
    requires |s| == |t|
    requires forall i :: 0 <= i < |s| ==> f(t[i]) == f(s[i])
    ensures SumBy(t, f) == SumBy(s, f)
  {
    if s != [] {
      SumByEqual(s[1..], t[1..], f);
    }
  }

  lemma Associative<T>(a: seq<T>, b: seq<T>, c: seq<T>)
    ensures (a + b) + c == a + (b + c)
  {
  }

  lemma OneMoreInMultiset<T>(s: seq<T>, x: T)
    ensures multiset(s + [x]) == multiset(s) + multiset{x}
  {
  }

  /** How often each element occurs in a longer prefix, and that the whole has at least as many. */
  lemma CountPrefix<T>(s: seq<T>, k: nat)
    requires k < |s|
    ensures multiset(s[..k + 1]) == multiset(s[..k]) + multiset{s[k]}
    ensures multiset(s)[s[k]] >= multiset(s[..k])[s[k]] + 1
  {
    assert s[..k + 1] == s[..k] + [s[k]];
    assert s == s[..k + 1] + s[k + 1..];
  }

  /** No element occurs twice. */
  predicate Distinct<T(==)>(s: seq<T>) {
    forall i, j :: 0 <= i < j < |s| ==> s[i] != s[j]
  }

  /** A distinct prefix stays distinct when the next element is new. */
  lemma DistinctPrefix<T>(s: seq<T>, k: nat)
    requires k < |s| && Distinct(s[..k]) && s[k] !in s[..k]
    ensures Distinct(s[..k + 1])
    ensures forall x :: x in s[..k + 1] <==> x in s[..k] || x == s[k]
  {
    assert s[..k + 1] == s[..k] + [s[k]];
  }

  lemma DistinctStep<T>(s: seq<T>, x: T)
    ensures Distinct(s + [x]) <==> Distinct(s) && x !in s
  {
    var t := s + [x];
    if Distinct(t) {
      forall i, j | 0 <= i < j < |s| ensures s[i] != s[j] {
        assert t[i] != t[j];
      }
      forall i | 0 <= i < |s| ensures s[i] != x {
        assert t[i] != t[|s|];
      }
    }
  }

  /** The elements of a sequence, as a set. */
  function Elements<T>(s: seq<T>): set<T> {
    set x | x in s
  }

  lemma ElementsPrefix<T>(s: seq<T>, k: nat)
    requires Distinct(s) && k < |s|
    ensures s[k] in Elements(s) && s[k] !in Elements(s[..k])
    ensures Elements(s[..k + 1]) == Elements(s[..k]) + {s[k]}
  {
    assert s[..k + 1] == s[..k] + [s[k]];
  }

  /** A distinct sequence has as many elements as positions. */
  lemma {:induction false} DistinctSize<T>(s: seq<T>)
    requires Distinct(s)
    ensures |Elements(s)| == |s|
  {
    if s == [] {
      assert Elements(s) == {};
    } else {
      var front, last := s[..|s| - 1], s[|s| - 1];
      DistinctSize(front);
      assert s == front + [last];
      assert Elements(s) == Elements(front) + {last};
      assert last !in front;
    }
  }

  // --- Sorting ---

  predicate SortedBy<T>(s: seq<T>, key: T -> int) {
    forall i, j :: 0 <= i < j < |s| ==> key(s[i]) <= key(s[j])
  }

  /** The library's sort by an integer key: some sorted permutation, with ties in any order. */
  method SortByKey<T(==)>(s: seq<T>, key: T -> int) returns (r: seq<T>)
    ensures SortedBy(r, key) && multiset(r) == multiset(s) && |r| == |s|
  {
    r := [];
    for k := 0 to |s|
      invariant SortedBy(r, key) && multiset(r) == multiset(s[..k]) && |r| == k
    {
      assert s[..k + 1] == s[..k] + [s[k]];
      r := InsertByKey(r, s[k], key);
    }
    assert s[..|s|] == s;
  }

  method InsertByKey<T(==)>(s: seq<T>, x: T, key: T -> int) returns (r: seq<T>)
    requires SortedBy(s, key)
    ensures SortedBy(r, key) && multiset(r) == multiset(s) + multiset{x} && |r| == |s| + 1
  {
    var i := 0;
    while i < |s| && key(s[i]) <= key(x)
      invariant 0 <= i <= |s| && forall k :: 0 <= k < i ==> key(s[k]) <= key(x)
    {
      i := i + 1;
    }
    r := s[..i] + [x] + s[i..];
    InsertAddsOne(s, i, x);
    InsertKeepsSorted(s, i, x, key);
  }

  lemma InsertAddsOne<T>(s: seq<T>, i: nat, x: T)
    requires i <= |s|
    ensures multiset(s[..i] + [x] + s[i..]) == multiset(s) + multiset{x}
  {
    assert s == s[..i] + s[i..];
  }

  lemma InsertKeepsSorted<T>(s: seq<T>, i: nat, x: T, key: T -> int)
    requires i <= |s| && SortedBy(s, key)
    requires forall k :: 0 <= k < i ==> key(s[k]) <= key(x)
    requires i < |s| ==> key(x) <= key(s[i])
    ensures SortedBy(s[..i] + [x] + s[i..], key)
  {
    var a, b := s[..i] + [x], s[i..];
    forall k | 0 <= k < |b| ensures key(x) <= key(b[k]) {
      assert b[k] == s[i + k] && (k > 0 ==> key(s[i]) <= key(s[i + k]));
    }
    ConcatSorted(a, b, key, key(x));
  }

  lemma ConcatSorted<T>(a: seq<T>, b: seq<T>, key: T -> int, middle: int)
    requires SortedBy(a, key) && SortedBy(b, key)
    requires forall k :: 0 <= k < |a| ==> key(a[k]) <= middle
    requires forall k :: 0 <= k < |b| ==> middle <= key(b[k])
    ensures SortedBy(a + b, key)
  {
  }

  lemma WithoutOne<T>(s: seq<T>, i: nat)
    requires i < |s|
    ensures multiset(s) - multiset{s[i]} == multiset(s[..i] + s[i + 1..])
  {
    assert s == s[..i] + [s[i]] + s[i + 1..];
  }

  /** Meeting another element is a matter of the elements, not of their order. */
  lemma MeetingIgnoresOrder<T(!new)>(s: seq<T>, i: nat, meet: (T, T) -> bool)
    requires i < |s|
    ensures (exists j :: 0 <= j < |s| && j != i && meet(s[i], s[j])) <==>
            (exists y :: y in multiset(s) - multiset{s[i]} && meet(s[i], y))
  {
    var rest := s[..i] + s[i + 1..];
    WithoutOne(s, i);
    if j :| 0 <= j < |s| && j != i && meet(s[i], s[j]) {
      assert s[j] == rest[if j < i then j else j - 1];
      assert s[j] in multiset(rest);
    }
    if y :| y in multiset(rest) && meet(s[i], y) {
      var k :| 0 <= k < |rest| && rest[k] == y;
      assert rest[k] == s[if k < i then k else k + 1];
    }
  }
}
