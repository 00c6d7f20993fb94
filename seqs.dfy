/** Order-preserving list operations: JavaScript's `Array.prototype.filter`
    and the "unique elements, first occurrence first" list that
    `[...new Set(xs)]` builds. */
module Seqs {

  /** The elements of `s` that satisfy `p`, in their order in `s`. */
  function Filter<T(==,!new)>(s: seq<T>, p: T -> bool): (r: seq<T>)
    ensures |r| <= |s|
    ensures forall x :: x in r <==> x in s && p(x)
  {
    if s == [] then [] else (if p(s[0]) then [s[0]] else []) + Filter(s[1..], p)
  }

  /** Filtering distributes over concatenation, so it keeps relative order. */
  lemma {:induction false} FilterConcat<T(!new)>(a: seq<T>, b: seq<T>, p: T -> bool)
    ensures Filter(a + b, p) == Filter(a, p) + Filter(b, p)
  {
    if a == [] {
      assert a + b == b;
    } else {
      assert (a + b)[1..] == a[1..] + b;
      FilterConcat(a[1..], b, p);
    }
  }

  /** A filter that every element passes changes nothing. */
  lemma {:induction false} FilterKeepsAll<T(!new)>(s: seq<T>, p: T -> bool)
    requires forall x :: x in s ==> p(x)
    ensures Filter(s, p) == s
  {
    if s != [] {
      FilterKeepsAll(s[1..], p);
    }
  }

  /** A filter that no element passes leaves nothing. */
  lemma FilterDropsAll<T(!new)>(s: seq<T>, p: T -> bool)
    requires forall x :: x in s ==> !p(x)
    ensures Filter(s, p) == []
  {
  }

  /** Two predicates that agree on every element filter alike. */
  lemma {:induction false} FilterPointwise<T(!new)>(s: seq<T>, p: T -> bool, q: T -> bool)
    requires forall x :: x in s ==> p(x) == q(x)
    ensures Filter(s, p) == Filter(s, q)
  {
    if s != [] {
      FilterPointwise(s[1..], p, q);
    }
  }

  predicate NoDuplicates<T(==,!new)>(s: seq<T>) {
    forall i, j :: 0 <= i < j < |s| ==> s[i] != s[j]
  }

  /** A filtered duplicate-free list is duplicate-free. */
  lemma {:induction false} FilterNoDuplicates<T(!new)>(s: seq<T>, p: T -> bool)
    requires NoDuplicates(s)
    ensures NoDuplicates(Filter(s, p))
  {
    if s != [] {
      FilterNoDuplicates(s[1..], p);
      var rest := Filter(s[1..], p);
      assert s[0] !in s[1..] by {
        forall j | 0 <= j < |s[1..]| ensures s[1..][j] != s[0] {
          assert s[1..][j] == s[j + 1];
        }
      }
      assert s[0] !in rest;
    }
  }

  /** `acc` followed by the elements of `s` not seen before, each once. */
  function AppendNew<T(==,!new)>(acc: seq<T>, s: seq<T>): (r: seq<T>)
    ensures |acc| <= |r| && r[..|acc|] == acc
    ensures forall x :: x in r <==> x in acc || x in s
    ensures NoDuplicates(acc) ==> NoDuplicates(r)
    decreases |s|
  {
    if s == [] then acc
    else if s[0] in acc then AppendNew(acc, s[1..])
    else AppendNew(acc + [s[0]], s[1..])
  }

  /** `[...new Set(s)]`: the distinct elements of `s` in first-occurrence order. */
  function Dedup<T(==,!new)>(s: seq<T>): seq<T> {
    AppendNew([], s)
  }

  /** Scanning `a + b` is scanning `a` and then `b`. */
  lemma {:induction false} AppendNewConcat<T(!new)>(acc: seq<T>, a: seq<T>, b: seq<T>)
    ensures AppendNew(acc, a + b) == AppendNew(AppendNew(acc, a), b)
    decreases |a|
  {
    if a == [] {
      assert a + b == b;
    } else {
      assert (a + b)[0] == a[0];
      assert (a + b)[1..] == a[1..] + b;
      AppendNewConcat(if a[0] in acc then acc else acc + [a[0]], a[1..], b);
    }
  }

  /** New, distinct elements are all appended. */
  lemma {:induction false} AppendNewFresh<T(!new)>(acc: seq<T>, s: seq<T>)
    requires NoDuplicates(s)
    requires forall i :: 0 <= i < |s| ==> s[i] !in acc
    ensures AppendNew(acc, s) == acc + s
    decreases |s|
  {
    if s != [] {
      var x, rest := s[0], s[1..];
      var acc' := acc + [x];
      NoDuplicatesTail(s);
      forall i | 0 <= i < |rest| ensures rest[i] !in acc' {
        assert rest[i] == s[i + 1];
      }
      assert AppendNew(acc, s) == AppendNew(acc', rest);
      AppendNewFresh(acc', rest);
      assert acc' + rest == acc + s;
    }
  }

  /** The tail of a duplicate-free list is duplicate-free and lacks the head. */
  lemma NoDuplicatesTail<T(!new)>(s: seq<T>)
    requires NoDuplicates(s) && s != []
    ensures NoDuplicates(s[1..]) && s[0] !in s[1..]
  {
    var rest := s[1..];
    forall j | 0 <= j < |rest| ensures rest[j] != s[0] {
      assert rest[j] == s[j + 1];
    }
    forall i, j | 0 <= i < j < |rest| ensures rest[i] != rest[j] {
      assert rest[i] == s[i + 1] && rest[j] == s[j + 1];
    }
  }

  /** The elements that `AppendNew` adds all come from `s`. */
  lemma {:induction false} AppendNewAddsFrom<T(!new)>(acc: seq<T>, s: seq<T>)
    ensures forall x :: x in AppendNew(acc, s)[|acc|..] ==> x in s
    decreases |s|
  {
    if s != [] {
      var acc' := if s[0] in acc then acc else acc + [s[0]];
      var r := AppendNew(acc', s[1..]);
      AppendNewAddsFrom(acc', s[1..]);
      assert r[|acc|..] == acc'[|acc|..] + r[|acc'|..];
    }
  }

  /** A duplicate-free prefix survives deduplication unchanged:
      the set union of `a` and `b` is `a` followed by the new part of `b`. */
  lemma DedupAfterDistinct<T(!new)>(a: seq<T>, b: seq<T>)
    requires NoDuplicates(a)
    ensures Dedup(a + b) == AppendNew(a, b)
  {
    AppendNewConcat([], a, b);
    AppendNewFresh([], a);
    assert [] + a == a;
  }
}
