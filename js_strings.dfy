/**
 The JavaScript string operations the group normaliser uses, written out over
 `string`: `includes`, `replace` with a one-character string pattern (first
 occurrence only), and `replace` with a global regular expression made of
 literal alternatives (`/w1|w2/g`) and an empty replacement.
 */
module JsStrings {
  import opened Seqs

  /** `sub` occurs in `s` starting at index `i`. */
  predicate OccursAt(s: string, sub: string, i: int)
  {
    0 <= i && i + |sub| <= |s| && s[i..i + |sub|] == sub
  }

  /** `s.includes(sub)`: `sub` occurs at some index of `s`. */
  predicate Includes(s: string, sub: string)
  {
    exists i :: 0 <= i <= |s| && OccursAt(s, sub, i)
  }

  /** A word containing a character that `s` lacks is not included in `s`. */
  lemma MissingCharExcludes(s: string, sub: string, c: char)
    requires c in sub && c !in s
    ensures !Includes(s, sub)
  {
    var j :| 0 <= j < |sub| && sub[j] == c;
    forall i
      ensures !OccursAt(s, sub, i)
    {
      if 0 <= i && i + |sub| <= |s| {
        assert s[i..i + |sub|][j] == s[i + j];
      }
    }
  }

  /** What `s` does not include, its tail does not include either, nor does `s` start with it. */
  lemma ExcludesTail(s: string, sub: string)
    requires s != [] && !Includes(s, sub)
    ensures !(sub <= s) && !Includes(s[1..], sub)
  {
    assert !OccursAt(s, sub, 0);
    forall i | OccursAt(s[1..], sub, i)
      ensures false
    {
      assert s[1..][i..i + |sub|] == s[i + 1..i + 1 + |sub|];
      assert OccursAt(s, sub, i + 1);
    }
  }

  /** Index of the first `c` in `s`, or -1 (`s.indexOf(c)`). */
  function IndexOf(s: string, c: char): (i: int)
    ensures -1 <= i < |s|
    ensures i == -1 <==> c !in s
    ensures 0 <= i ==> s[i] == c && c !in s[..i]
    decreases |s|
  {
    if s == [] then -1
    else if s[0] == c then 0
    else
      var k := IndexOf(s[1..], c);
      if k < 0 then -1
      else
        assert s[..k + 1] == [s[0]] + s[1..][..k];
        k + 1
  }

  /** `s.replace(from, to)` for one-character strings: only the first `from` is replaced. */
  function ReplaceFirst(s: string, from: char, to: char): (r: string)
    ensures |r| == |s|
    decreases |s|
  {
    if s == [] then []
    else if s[0] == from then [to] + s[1..]
    else [s[0]] + ReplaceFirst(s[1..], from, to)
  }

  /**
   `replace` with a string pattern is the splice at `indexOf`: nothing changes
   when `from` is absent, otherwise exactly the first `from` becomes `to`.
   */
  lemma {:induction false} ReplaceFirstIsSplice(s: string, from: char, to: char)
    ensures IndexOf(s, from) < 0 ==> ReplaceFirst(s, from, to) == s
    ensures 0 <= IndexOf(s, from) ==>
              ReplaceFirst(s, from, to) == s[..IndexOf(s, from)] + [to] + s[IndexOf(s, from) + 1..]
    decreases |s|
  {
    if s != [] && s[0] != from {
      var t := s[1..];
      ReplaceFirstIsSplice(t, from, to);
      var k := IndexOf(t, from);
      if 0 <= k {
        assert IndexOf(s, from) == k + 1;
        assert s[..k + 1] == [s[0]] + t[..k];
        assert s[k + 2..] == t[k + 1..];
      }
    }
  }

  /** Replacing in `a + [from] + b`, where `a` holds no `from`, touches only that one character. */
  lemma {:induction false} ReplaceFirstAfter(a: string, b: string, from: char, to: char)
    requires from !in a
    ensures ReplaceFirst(a + [from] + b, from, to) == a + [to] + b
    decreases |a|
  {
    if a == [] {
      assert a + [from] + b == [from] + b;
    } else {
      assert a + [from] + b == [a[0]] + (a[1..] + [from] + b);
      ReplaceFirstAfter(a[1..], b, from, to);
      assert a + [to] + b == [a[0]] + (a[1..] + [to] + b);
    }
  }

  /** Each alternative of a regular expression `/w1|w2|.../` is a non-empty literal word. */
  predicate Literals(alts: seq<string>)
  {
    forall k :: 0 <= k < |alts| ==> alts[k] != []
  }

  /**
   Length of the text a regular expression `/w1|w2|.../` matches at the start
   of `s`, or 0 when it matches nothing there: alternation tries the words
   left to right and takes the first that fits.
   */
  function MatchLength(s: string, alts: seq<string>): (n: nat)
    requires Literals(alts)
    ensures n <= |s|
    ensures n == 0 <==> forall k :: 0 <= k < |alts| ==> !(alts[k] <= s)
    ensures n > 0 ==> exists k :: 0 <= k < |alts| && alts[k] <= s && n == |alts[k]| &&
                        forall j :: 0 <= j < k ==> !(alts[j] <= s)
    decreases |alts|
  {
    if alts == [] then 0
    else if alts[0] <= s then |alts[0]|
    else
      var n := MatchLength(s, alts[1..]);
      assert forall k :: 1 <= k < |alts| ==> alts[k] == alts[1..][k - 1];
      n
  }

  /**
   `s.replace(/w1|w2|.../g, "")`: one left-to-right scan that deletes every
   match; after a deletion the scan resumes right after the deleted text, so
   text that the deletion brings together is not looked at again.
   */
  function RemoveAll(s: string, alts: seq<string>): (r: string)
    requires Literals(alts)
    ensures |r| <= |s|
    decreases |s|
  {
    if s == [] then []
    else
      var n := MatchLength(s, alts);
      if n == 0 then [s[0]] + RemoveAll(s[1..], alts)
      else RemoveAll(s[n..], alts)
  }

  /** The global removal only deletes characters: what is left keeps its order. */
  lemma {:induction false} RemoveAllIsSubsequence(s: string, alts: seq<string>)
    requires Literals(alts)
    ensures IsSubsequence(RemoveAll(s, alts), s)
    decreases |s|
  {
    if s != [] {
      var n := MatchLength(s, alts);
      if n == 0 {
        RemoveAllIsSubsequence(s[1..], alts);
      } else {
        RemoveAllIsSubsequence(s[n..], alts);
        SubsequenceOfSuffix(RemoveAll(s, alts), s, n);
      }
    }
  }

  /** A string in which no word of the pattern occurs comes back unchanged. */
  lemma {:induction false} RemoveAllWithoutMatch(s: string, alts: seq<string>)
    requires Literals(alts)
    requires forall k :: 0 <= k < |alts| ==> !Includes(s, alts[k])
    ensures RemoveAll(s, alts) == s
    decreases |s|
  {
    if s != [] {
      forall k | 0 <= k < |alts|
        ensures !(alts[k] <= s) && !Includes(s[1..], alts[k])
      {
        ExcludesTail(s, alts[k]);
      }
      RemoveAllWithoutMatch(s[1..], alts);
    }
  }

  /** Nothing matches where the first character starts none of the words. */
  lemma NoMatchAt(s: string, alts: seq<string>)
    requires Literals(alts) && s != []
    requires forall k :: 0 <= k < |alts| ==> alts[k][0] != s[0]
    ensures MatchLength(s, alts) == 0
  {
    forall k | 0 <= k < |alts|
      ensures !(alts[k] <= s)
    {
      assert alts[k][0] != s[0];
    }
  }

  /** Where nothing matches, the scan keeps the first character and goes on. */
  lemma RemoveAllKeepsHead(s: string, alts: seq<string>)
    requires Literals(alts) && s != []
    requires forall k :: 0 <= k < |alts| ==> alts[k][0] != s[0]
    ensures RemoveAll(s, alts) == [s[0]] + RemoveAll(s[1..], alts)
  {
    NoMatchAt(s, alts);
  }

  /** Characters that cannot start a match are copied through unchanged. */
  lemma {:induction false} RemoveAllSkipsPrefix(a: string, b: string, alts: seq<string>)
    requires Literals(alts)
    requires forall k :: 0 <= k < |alts| ==> alts[k][0] !in a
    ensures RemoveAll(a + b, alts) == a + RemoveAll(b, alts)
    decreases |a|
  {
    if a == [] {
      assert a + b == b;
    } else {
      var tail := a[1..];
      assert a == [a[0]] + tail;
      assert a + b == [a[0]] + (tail + b);
      RemoveAllKeepsHead(a + b, alts);
      RemoveAllSkipsPrefix(tail, b, alts);
    }
  }

  /**
   Where the first word that fits starts the text, the scan deletes that word
   and carries on after it.
   */
  lemma RemoveAllDeletesMatch(s: string, alts: seq<string>, k: nat)
    requires Literals(alts)
    requires k < |alts| && alts[k] <= s
    requires forall j :: 0 <= j < k ==> !(alts[j] <= s)
    ensures RemoveAll(s, alts) == RemoveAll(s[|alts[k]|..], alts)
  {
    var n := MatchLength(s, alts);
    var m :| 0 <= m < |alts| && alts[m] <= s && n == |alts[m]| &&
             forall j :: 0 <= j < m ==> !(alts[j] <= s);
    assert m == k;
  }

  /**
   No word occurrence in `a + b` starts inside `a` and runs past its end:
   the scan over `a + b` can only cross the join at a word boundary.
   */
  predicate NoMatchAcross(a: string, b: string, alts: seq<string>)
  {
    forall i, k :: 0 <= i < |a| && 0 <= k < |alts| && OccursAt(a + b, alts[k], i) ==>
      i + |alts[k]| <= |a|
  }

  /** When the text before the join decides every match, the alternation matches the same there. */
  lemma MatchLengthBeforeJoin(a: string, b: string, alts: seq<string>)
    requires Literals(alts) && a != []
    requires forall k :: 0 <= k < |alts| && alts[k] <= a + b ==> |alts[k]| <= |a|
    ensures MatchLength(a + b, alts) == MatchLength(a, alts)
  {
    forall k | 0 <= k < |alts|
      ensures alts[k] <= a + b <==> alts[k] <= a
    {
      if |alts[k]| <= |a| {
        assert (a + b)[..|alts[k]|] == a[..|alts[k]|];
      }
    }
    var n1 := MatchLength(a + b, alts);
    var n2 := MatchLength(a, alts);
    if n1 > 0 && n2 > 0 {
      var k1 :| 0 <= k1 < |alts| && alts[k1] <= a + b && n1 == |alts[k1]| &&
                forall j :: 0 <= j < k1 ==> !(alts[j] <= a + b);
      var k2 :| 0 <= k2 < |alts| && alts[k2] <= a && n2 == |alts[k2]| &&
                forall j :: 0 <= j < k2 ==> !(alts[j] <= a);
      assert k1 == k2;
    }
  }

  /** Cutting a prefix of `a` keeps the join free of crossing matches. */
  lemma NoMatchAcrossSuffix(a: string, b: string, alts: seq<string>, m: nat)
    requires m <= |a| && NoMatchAcross(a, b, alts)
    ensures (a + b)[m..] == a[m..] + b
    ensures NoMatchAcross(a[m..], b, alts)
  {
    var rest := a[m..];
    assert (a + b)[m..] == rest + b;
    forall i, k | 0 <= i < |rest| && 0 <= k < |alts| && OccursAt(rest + b, alts[k], i)
      ensures i + |alts[k]| <= |rest|
    {
      assert (rest + b)[i..i + |alts[k]|] == (a + b)[m + i..m + i + |alts[k]|];
      assert OccursAt(a + b, alts[k], m + i);
    }
  }

  /** A word that fits at the start of `a + b` ends inside `a`. */
  lemma NoMatchAcrossStart(a: string, b: string, alts: seq<string>)
    requires a != [] && NoMatchAcross(a, b, alts)
    ensures forall k :: 0 <= k < |alts| && alts[k] <= a + b ==> |alts[k]| <= |a|
  {
    forall k | 0 <= k < |alts| && alts[k] <= a + b
      ensures |alts[k]| <= |a|
    {
      assert OccursAt(a + b, alts[k], 0);
    }
  }

  /**
   The global removal works piecewise: when no match runs across the join,
   removing from `a + b` is removing from `a` and from `b` separately.
   */
  lemma {:induction false} RemoveAllSplit(a: string, b: string, alts: seq<string>)
    requires Literals(alts)
    requires NoMatchAcross(a, b, alts)
    ensures RemoveAll(a + b, alts) == RemoveAll(a, alts) + RemoveAll(b, alts)
    decreases |a|
  {
    if a == [] {
      assert a + b == b;
    } else {
      var n := MatchLength(a, alts);
      assert MatchLength(a + b, alts) == n by {
        NoMatchAcrossStart(a, b, alts);
        MatchLengthBeforeJoin(a, b, alts);
      }
      var m := if n == 0 then 1 else n;
      var rest := a[m..];
      assert (a + b)[m..] == rest + b && NoMatchAcross(rest, b, alts) by {
        NoMatchAcrossSuffix(a, b, alts, m);
      }
      RemoveAllSplit(rest, b, alts);
      if n == 0 {
        assert RemoveAll(a + b, alts) == [a[0]] + RemoveAll(rest + b, alts);
      } else {
        assert RemoveAll(a + b, alts) == RemoveAll(rest + b, alts);
      }
    }
  }

  /** A word on its own is deleted entirely when no earlier alternative fits at its start. */
  lemma RemoveAllWord(alts: seq<string>, k: nat)
    requires Literals(alts) && k < |alts|
    requires forall j :: 0 <= j < k ==> !(alts[j] <= alts[k])
    ensures RemoveAll(alts[k], alts) == []
  {
    RemoveAllDeletesMatch(alts[k], alts, k);
    assert alts[k][|alts[k]|..] == [];
  }

  /**
   A match is deleted wherever it sits: a word between `a` and `b` vanishes
   when no match runs across its start and no earlier alternative fits there,
   and the text around it is scanned as on its own.
   */
  lemma RemoveAllDeletesWord(a: string, alts: seq<string>, k: nat, b: string)
    requires Literals(alts) && k < |alts|
    requires NoMatchAcross(a, alts[k] + b, alts)
    requires forall j :: 0 <= j < k ==> !(alts[j] <= alts[k] + b)
    ensures RemoveAll(a + alts[k] + b, alts) == RemoveAll(a, alts) + RemoveAll(b, alts)
  {
    assert a + alts[k] + b == a + (alts[k] + b);
    RemoveAllSplit(a, alts[k] + b, alts);
    RemoveAllDeletesMatch(alts[k] + b, alts, k);
    assert (alts[k] + b)[|alts[k]|..] == b;
  }
}
