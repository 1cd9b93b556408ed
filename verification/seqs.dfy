/** Generic sequence operations shared by the list views: an order-preserving
    filter (`Array.prototype.filter`), first-index lookup (`Array.prototype.find`)
    and a stable sort by a total preorder (`Array.prototype.sort`). */
module Seqs {
  import opened Wrappers

  /** The elements of `s` satisfying `p`, in their original order. */
  function Filter<T>(s: seq<T>, p: T -> bool): (r: seq<T>)
    ensures |r| <= |s|
    ensures forall k :: 0 <= k < |r| ==> p(r[k])
  {
    if |s| == 0 then []
    else (if p(s[0]) then [s[0]] else []) + Filter(s[1..], p)
  }

  /** Membership in a filtered sequence, both directions. */
  lemma {:induction false} FilterMembership<T>(s: seq<T>, p: T -> bool, x: T)
    ensures x in Filter(s, p) <==> x in s && p(x)
  {
    if |s| > 0 {
      FilterMembership(s[1..], p, x);
      assert s == [s[0]] + s[1..];
    }
  }

  /** Filtering distributes over concatenation: this is what "keeps the
      remaining elements in their original order" means. */
  lemma {:induction false} FilterConcat<T>(a: seq<T>, b: seq<T>, p: T -> bool)
    ensures Filter(a + b, p) == Filter(a, p) + Filter(b, p)
  {
    if |a| == 0 {
      assert a + b == b;
    } else {
      assert (a + b)[1..] == a[1..] + b;
      FilterConcat(a[1..], b, p);
    }
  }

  /** Filtering keeps every occurrence of an accepted element and drops
      every occurrence of a rejected one. */
  lemma {:induction false} FilterMultiset<T>(s: seq<T>, p: T -> bool, x: T)
    ensures multiset(Filter(s, p))[x] == if p(x) then multiset(s)[x] else 0
  {
    if |s| > 0 {
      FilterMultiset(s[1..], p, x);
      assert s == [s[0]] + s[1..];
    }
  }

  /** A filter that accepts everything in `s` returns `s` unchanged. */
  lemma {:induction false} FilterKeepsAll<T>(s: seq<T>, p: T -> bool)
    requires forall k :: 0 <= k < |s| ==> p(s[k])
    ensures Filter(s, p) == s
  {
    if |s| > 0 {
      FilterKeepsAll(s[1..], p);
      assert s == [s[0]] + s[1..];
    }
  }

  /** A stronger predicate keeps a sub-multiset of what a weaker one keeps. */
  lemma FilterMonotone<T>(s: seq<T>, p: T -> bool, q: T -> bool)
    requires forall x :: q(x) ==> p(x)
    ensures multiset(Filter(s, q)) <= multiset(Filter(s, p))
  {
    forall x
      ensures multiset(Filter(s, q))[x] <= multiset(Filter(s, p))[x]
    {
      FilterMultiset(s, q, x);
      FilterMultiset(s, p, x);
    }
  }

  /** Index of the first element satisfying `p`, if any. */
  function FindIndex<T>(s: seq<T>, p: T -> bool): (r: Option<nat>)
    ensures r.Some? ==> r.value < |s| && p(s[r.value])
    ensures r.Some? ==> forall k :: 0 <= k < r.value ==> !p(s[k])
    ensures r.None? ==> forall k :: 0 <= k < |s| ==> !p(s[k])
  {
    if |s| == 0 then None
    else if p(s[0]) then Some(0)
    else match FindIndex(s[1..], p)
      case None => None
      case Some(i) => Some(i + 1)
  }

  /** Index of the first occurrence of `x` in `s`. */
  function IndexOf<T(==)>(s: seq<T>, x: T): (i: nat)
    requires x in s
    ensures i < |s| && s[i] == x
    ensures x !in s[..i]
  {
    if s[0] == x then 0
    else
      var i := IndexOf(s[1..], x);
      assert s[..i + 1] == [s[0]] + s[1..][..i];
      1 + i
  }

  /** An element absent from the prefix before `k` first occurs at `k`. */
  lemma IndexOfFresh<T>(s: seq<T>, k: nat)
    requires k < |s| && s[k] !in s[..k]
    ensures IndexOf(s, s[k]) == k
  {
  }

  ghost predicate NoDuplicates<T>(s: seq<T>) {
    forall i, j :: 0 <= i < j < |s| ==> s[i] != s[j]
  }

  /** `le` is a total preorder: what `Array.prototype.sort` needs of a
      comparator for its result to be defined. */
  ghost predicate TotalPreorder<T(!new)>(le: (T, T) -> bool) {
    && (forall a, b :: le(a, b) || le(b, a))
    && (forall a, b, c :: le(a, b) && le(b, c) ==> le(a, c))
  }

  ghost predicate Sorted<T>(s: seq<T>, le: (T, T) -> bool) {
    forall i, j :: 0 <= i < j < |s| ==> le(s[i], s[j])
  }

  /** Places `x` before the first element it is `le` to. */
  function Insert<T>(x: T, s: seq<T>, le: (T, T) -> bool): (r: seq<T>)
    ensures multiset(r) == multiset(s) + multiset{x}
    ensures |r| == |s| + 1
  {
    if |s| == 0 then [x]
    else if le(x, s[0]) then [x] + s
    else
      assert s == [s[0]] + s[1..];
      [s[0]] + Insert(x, s[1..], le)
  }

  lemma {:induction false} InsertSorted<T(!new)>(x: T, s: seq<T>, le: (T, T) -> bool)
    requires TotalPreorder(le) && Sorted(s, le)
    ensures Sorted(Insert(x, s, le), le)
  {
    if |s| > 0 && !le(x, s[0]) {
      var t := Insert(x, s[1..], le);
      InsertSorted(x, s[1..], le);
      assert le(s[0], x);
      forall y | y in t
        ensures le(s[0], y)
      {
        assert y in multiset(t);
        assert y == x || y in multiset(s[1..]);
        if y != x {
          var j :| 0 <= j < |s[1..]| && s[1..][j] == y;
          assert s[1 + j] == y;
        }
      }
      forall i, j | 0 <= i < j < |[s[0]] + t|
        ensures le(([s[0]] + t)[i], ([s[0]] + t)[j])
      {
        if i == 0 {
          assert ([s[0]] + t)[j] == t[j - 1];
          assert t[j - 1] in t;
        }
      }
    }
  }

  /** Stable insertion sort: the first element is placed ahead of every later
      element it is `le` to. */
  function Sort<T>(s: seq<T>, le: (T, T) -> bool): (r: seq<T>)
    ensures multiset(r) == multiset(s)
  {
    if |s| == 0 then []
    else
      assert s == [s[0]] + s[1..];
      Insert(s[0], Sort(s[1..], le), le)
  }

  /** The sort returns an ordered permutation of its input. */
  lemma {:induction false} SortSorted<T(!new)>(s: seq<T>, le: (T, T) -> bool)
    requires TotalPreorder(le)
    ensures Sorted(Sort(s, le), le)
    ensures multiset(Sort(s, le)) == multiset(s)
  {
    if |s| > 0 {
      SortSorted(s[1..], le);
      InsertSorted(s[0], Sort(s[1..], le), le);
    }
  }
}
