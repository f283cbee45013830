/**
 The array operations the group normaliser chains together, written as
 functions over sequences: `Array.prototype.filter`, `Array.prototype.map`
 and the `[...new Set(xs)]` idiom for de-duplication.
 */
module Seqs {

  /** `a` can be obtained from `b` by deleting elements, keeping the order. */
  predicate IsSubsequence<T(==)>(a: seq<T>, b: seq<T>)
    decreases |b|
  {
    a == [] || (b != [] && ((a[0] == b[0] && IsSubsequence(a[1..], b[1..])) || IsSubsequence(a, b[1..])))
  }

  /** Dropping a prefix of `b` keeps every subsequence of what is left a subsequence of `b`. */
  lemma {:induction false} SubsequenceOfSuffix<T>(a: seq<T>, b: seq<T>, n: nat)
    requires n <= |b| && IsSubsequence(a, b[n..])
    ensures IsSubsequence(a, b)
    decreases n
  {
    if n > 0 {
      assert b[1..][n - 1..] == b[n..];
      SubsequenceOfSuffix(a, b[1..], n - 1);
    }
  }


  /**
   `s.filter(keep)`: the elements of `s` for which `keep` holds, in order
   (`FilterCounts` and `FilterIsSubsequence` state how often and in what order).
   */
  function Filter<T>(s: seq<T>, keep: T -> bool): (r: seq<T>)
    ensures |r| <= |s|
    ensures forall i :: 0 <= i < |r| ==> keep(r[i])
    ensures forall i :: 0 <= i < |r| ==> r[i] in s
    ensures forall i :: 0 <= i < |s| && keep(s[i]) ==> s[i] in r
    decreases |s|
  {
    if s == [] then []
    else if keep(s[0]) then [s[0]] + Filter(s[1..], keep)
    else Filter(s[1..], keep)
  }

  /**
   Counted over every value: a kept value occurs in the filtered list as often
   as in `s`, any other value not at all.
   */
  lemma {:induction false} FilterCounts<T(!new)>(s: seq<T>, keep: T -> bool)
    ensures forall x :: multiset(Filter(s, keep))[x] == if keep(x) then multiset(s)[x] else 0
    decreases |s|
  {
    if s != [] {
      FilterCounts(s[1..], keep);
      assert s == [s[0]] + s[1..];
      assert multiset(s) == multiset([s[0]]) + multiset(s[1..]);
    }
  }

  /** Filtering only deletes elements: the survivors keep their relative order. */
  lemma {:induction false} FilterIsSubsequence<T>(s: seq<T>, keep: T -> bool)
    ensures IsSubsequence(Filter(s, keep), s)
    decreases |s|
  {
    if s != [] {
      FilterIsSubsequence(s[1..], keep);
      if !keep(s[0]) {
        SubsequenceOfSuffix(Filter(s, keep), s, 1);
      }
    }
  }

  /** A filter whose predicate holds of every element changes nothing. */
  lemma {:induction false} FilterKeepsAll<T>(s: seq<T>, keep: T -> bool)
    requires forall i :: 0 <= i < |s| ==> keep(s[i])
    ensures Filter(s, keep) == s
    decreases |s|
  {
    if s != [] {
      FilterKeepsAll(s[1..], keep);
    }
  }

  /** `s.map(f)`: `f` applied to each element, in order. */
  function Map<T, U>(s: seq<T>, f: T -> U): (r: seq<U>)
    ensures |r| == |s|
    ensures forall i :: 0 <= i < |s| ==> r[i] == f(s[i])
    decreases |s|
  {
    if s == [] then [] else [f(s[0])] + Map(s[1..], f)
  }

  /** No value occurs twice in `s`. */
  predicate Distinct<T(==)>(s: seq<T>)
  {
    forall i, j :: 0 <= i < j < |s| ==> s[i] != s[j]
  }

  /** Position of the first occurrence of `x` in `s`. */
  function FirstIndex<T(==)>(s: seq<T>, x: T): (i: nat)
    requires x in s
    ensures i < |s| && s[i] == x
    ensures forall j :: 0 <= j < i ==> s[j] != x
    decreases |s|
  {
    if s[0] == x then 0 else 1 + FirstIndex(s[1..], x)
  }

  /**
   Insertion of the elements of `s`, in order, into a JavaScript `Set` that
   already holds `seen`, listing the values that were new: a `Set` remembers
   the order of first insertion and ignores a value it already holds.
   */
  function DedupFrom<T(==)>(s: seq<T>, seen: set<T>): (r: seq<T>)
    ensures |r| <= |s|
    decreases |s|
  {
    if s == [] then []
    else if s[0] in seen then DedupFrom(s[1..], seen)
    else [s[0]] + DedupFrom(s[1..], seen + {s[0]})
  }

  /** `[...new Set(s)]`. */
  function Dedup<T(==)>(s: seq<T>): (r: seq<T>)
    ensures |r| <= |s|
  {
    DedupFrom(s, {})
  }

  /** `DedupFrom` lists exactly the values of `s` that are not in `seen`. */
  lemma {:induction false} DedupFromMembers<T>(s: seq<T>, seen: set<T>)
    ensures forall x :: x in DedupFrom(s, seen) ==> x in s && x !in seen
    ensures forall x :: x in s && x !in seen ==> x in DedupFrom(s, seen)
    decreases |s|
  {
    if s != [] {
      assert s == [s[0]] + s[1..];
      if s[0] in seen {
        DedupFromMembers(s[1..], seen);
      } else {
        DedupFromMembers(s[1..], seen + {s[0]});
      }
    }
  }

  /** `DedupFrom` lists no value twice. */
  lemma {:induction false} DedupFromDistinct<T>(s: seq<T>, seen: set<T>)
    ensures Distinct(DedupFrom(s, seen))
    decreases |s|
  {
    if s != [] {
      if s[0] in seen {
        DedupFromDistinct(s[1..], seen);
      } else {
        var rest := DedupFrom(s[1..], seen + {s[0]});
        DedupFromDistinct(s[1..], seen + {s[0]});
        DedupFromMembers(s[1..], seen + {s[0]});
        assert s[0] !in rest;
      }
    }
  }

  /** Past the head, first occurrences in `s` sit one place after those in its tail. */
  lemma FirstIndexInTail<T>(s: seq<T>, x: T)
    requires s != [] && x in s[1..] && x != s[0]
    ensures FirstIndex(s, x) == 1 + FirstIndex(s[1..], x)
  {
  }

  /** `DedupFrom` lists the values in the order of their first occurrence in `s`. */
  lemma {:induction false} DedupFromOrder<T>(s: seq<T>, seen: set<T>)
    ensures forall x :: x in DedupFrom(s, seen) ==> x in s
    ensures forall i, j :: 0 <= i < j < |DedupFrom(s, seen)| ==>
              FirstIndex(s, DedupFrom(s, seen)[i]) < FirstIndex(s, DedupFrom(s, seen)[j])
    decreases |s|
  {
    DedupFromMembers(s, seen);
    if s != [] {
      var r := DedupFrom(s, seen);
      var seen' := if s[0] in seen then seen else seen + {s[0]};
      var rest := DedupFrom(s[1..], seen');
      DedupFromOrder(s[1..], seen');
      DedupFromMembers(s[1..], seen');
      var offset := if s[0] in seen then 0 else 1;
      assert r == if s[0] in seen then rest else [s[0]] + rest;
      forall i, j | 0 <= i < j < |r|
        ensures FirstIndex(s, r[i]) < FirstIndex(s, r[j])
      {
        var y := r[j];
        assert y == rest[j - offset] && y in rest;
        FirstIndexInTail(s, y);
        if i >= offset {
          var x := r[i];
          assert x == rest[i - offset] && x in rest;
          FirstIndexInTail(s, x);
        }
      }
    }
  }

  /**
   `[...new Set(s)]` holds every value of `s` exactly once, each in the order
   of its first occurrence in `s`.
   */
  lemma DedupSpec<T>(s: seq<T>)
    ensures forall x :: x in Dedup(s) ==> x in s
    ensures forall x :: x in s ==> x in Dedup(s)
    ensures Distinct(Dedup(s))
    ensures forall i, j :: 0 <= i < j < |Dedup(s)| ==>
              FirstIndex(s, Dedup(s)[i]) < FirstIndex(s, Dedup(s)[j])
  {
    DedupFromMembers(s, {});
    DedupFromDistinct(s, {});
    DedupFromOrder(s, {});
  }
}
