// Small facts about sequences used by several modules: duplicates, Python's
// `list.remove` (first occurrence only) and deduplication.
module SeqUtil {
  import opened Wrappers

  predicate NoDup<T(==)>(s: seq<T>)
  {
    forall i, j :: 0 <= i < j < |s| ==> s[i] != s[j]
  }

  lemma NoDupSnoc<T>(s: seq<T>, x: T)
    requires NoDup(s) && x !in s
    ensures NoDup(s + [x])
  {
  }

  /** A filter of `xs` built up to its last element keeps `NoDup`, whether that element is kept or not. */
  lemma NoDupFilterSnoc<T>(xs: seq<T>, init: seq<T>, keep: bool)
    requires |xs| > 0 && forall y :: y in init ==> y in xs[..|xs| - 1]
    requires NoDup(xs[..|xs| - 1]) ==> NoDup(init)
    ensures NoDup(xs) ==> NoDup(init + (if keep then [xs[|xs| - 1]] else []))
  {
    if NoDup(xs) {
      var x, p := xs[|xs| - 1], xs[..|xs| - 1];
      assert NoDup(p) by {
        forall i, j | 0 <= i < j < |p| ensures p[i] != p[j] { assert p[i] == xs[i] && p[j] == xs[j]; }
      }
      if keep {
        assert x !in p by {
          forall i | 0 <= i < |p| ensures p[i] != x { assert p[i] == xs[i]; }
        }
        NoDupSnoc(init, x);
      } else {
        assert init + [] == init;
      }
    }
  }

  lemma NoDupConcat<T>(a: seq<T>, b: seq<T>)
    requires NoDup(a) && NoDup(b) && forall k :: 0 <= k < |b| ==> b[k] !in a
    ensures NoDup(a + b)
  {
    forall i, j | 0 <= i < j < |a + b| ensures (a + b)[i] != (a + b)[j] {
      if i < |a| && j >= |a| {
        assert (a + b)[j] == b[j - |a|];
      }
    }
  }

  /** Python `lst.remove(x)` when `x in lst`; the list unchanged otherwise. */
  function RemoveFirst<T(==)>(s: seq<T>, x: T): (r: seq<T>)
    ensures x in s ==> |r| == |s| - 1
    ensures x !in s ==> r == s
    ensures forall k :: 0 <= k < |r| ==> r[k] in s
    ensures forall k :: 0 <= k < |s| && s[k] != x ==> s[k] in r
  {
    if |s| == 0 then []
    else if s[0] == x then s[1..]
    else [s[0]] + RemoveFirst(s[1..], x)
  }

  /** Without duplicates, removing the first occurrence removes the element altogether. */
  lemma {:induction false} RemoveFirstNoDup<T>(s: seq<T>, x: T)
    requires NoDup(s)
    ensures x !in RemoveFirst(s, x) && NoDup(RemoveFirst(s, x))
  {
    if |s| > 0 {
      assert NoDup(s[1..]);
      if s[0] != x {
        RemoveFirstNoDup(s[1..], x);
        var r := RemoveFirst(s, x);
        forall i, j | 0 <= i < j < |r| ensures r[i] != r[j] {
          if i == 0 { assert r[j] in s[1..]; assert r[0] == s[0]; }
        }
      } else {
        assert forall j :: 0 < j < |s| ==> s[j] != s[0];
      }
    }
  }

  /** `a` is `b` with some elements left out, in the same order. */
  predicate IsSubsequence<T(==)>(a: seq<T>, b: seq<T>)
    decreases |b|
  {
    if |a| == 0 then true
    else if |b| == 0 then false
    else if a[|a| - 1] == b[|b| - 1] then IsSubsequence(a[..|a| - 1], b[..|b| - 1])
    else IsSubsequence(a, b[..|b| - 1])
  }

  /** Keeping or dropping the last element of `b` preserves the subsequence relation. */
  lemma SubsequenceExtend<T>(a: seq<T>, b: seq<T>, x: T)
    requires IsSubsequence(a, b)
    ensures IsSubsequence(a, b + [x]) && IsSubsequence(a + [x], b + [x])
  {
    assert (b + [x])[..|b|] == b;
    assert (a + [x])[..|a|] == a;
    if |a| > 0 && a[|a| - 1] == x {
      SubsequenceDropLast(a, b);
    }
  }

  lemma {:induction false} SubsequenceDropLast<T>(a: seq<T>, b: seq<T>)
    requires |a| > 0 && IsSubsequence(a, b)
    ensures IsSubsequence(a[..|a| - 1], b)
    decreases |b|
  {
    if |b| > 0 {
      if a[|a| - 1] == b[|b| - 1] {
        SubsequenceWeaken(a[..|a| - 1], b[..|b| - 1], b[|b| - 1]);
        assert b[..|b| - 1] + [b[|b| - 1]] == b;
      } else {
        SubsequenceDropLast(a, b[..|b| - 1]);
        SubsequenceWeaken(a[..|a| - 1], b[..|b| - 1], b[|b| - 1]);
        assert b[..|b| - 1] + [b[|b| - 1]] == b;
      }
    }
  }

  lemma {:induction false} SubsequenceWeaken<T>(a: seq<T>, b: seq<T>, x: T)
    requires IsSubsequence(a, b)
    ensures IsSubsequence(a, b + [x])
    decreases |b|
  {
    assert (b + [x])[..|b|] == b;
    if |a| > 0 && a[|a| - 1] == x {
      if |b| > 0 {
        if a[|a| - 1] == b[|b| - 1] {
          SubsequenceWeaken(a[..|a| - 1], b[..|b| - 1], b[|b| - 1]);
          assert b[..|b| - 1] + [b[|b| - 1]] == b;
        } else {
          SubsequenceDropLast(a, b[..|b| - 1]);
          SubsequenceWeaken(a[..|a| - 1], b[..|b| - 1], b[|b| - 1]);
          assert b[..|b| - 1] + [b[|b| - 1]] == b;
        }
      }
    }
  }

  /** `list(set(s))` up to order: one copy of each element, in first-occurrence order. */
  function Dedup<T(==)>(s: seq<T>): (r: seq<T>)
    ensures NoDup(r)
    ensures forall k :: 0 <= k < |r| ==> r[k] in s
    ensures forall k :: 0 <= k < |s| ==> s[k] in r
  {
    if |s| == 0 then []
    else
      var rest := Dedup(s[..|s| - 1]);
      if s[|s| - 1] in rest then rest else rest + [s[|s| - 1]]
  }

  lemma DedupSnoc<T>(s: seq<T>, x: T)
    ensures Dedup(s + [x]) == if x in Dedup(s) then Dedup(s) else Dedup(s) + [x]
  {
    assert (s + [x])[..|s|] == s;
  }

  function Count<T(==)>(s: seq<T>, x: T): nat
  {
    if |s| == 0 then 0 else Count(s[..|s| - 1], x) + (if s[|s| - 1] == x then 1 else 0)
  }

  lemma {:induction false} CountZero<T>(s: seq<T>, x: T)
    ensures Count(s, x) == 0 <==> x !in s
  {
    if |s| > 0 {
      CountZero(s[..|s| - 1], x);
      assert s == s[..|s| - 1] + [s[|s| - 1]];
    }
  }

  lemma CountAppend<T>(s: seq<T>, y: T, x: T)
    ensures Count(s + [y], x) == Count(s, x) + (if y == x then 1 else 0)
  {
    assert (s + [y])[..|s|] == s;
  }

  /** A set of naturals that holds k has a least element, at most k. */
  lemma {:induction false} LeastElement(s: set<int>, k: int) returns (m: int)
    requires k in s && forall x :: x in s ==> x >= 0
    ensures m in s && m <= k && forall x :: x in s ==> m <= x
    decreases k
  {
    if exists x :: x in s && x < k {
      var x :| x in s && x < k;
      m := LeastElement(s, x);
    } else {
      m := k;
    }
  }

  /** The first element of a non-empty sequence is one of its members. */
  lemma AppendAssoc<T>(a: seq<T>, b: seq<T>, c: seq<T>)
    ensures a + b + c == a + (b + c)
  {
  }

  /** Membership in a non-empty sequence splits at its last element. */
  lemma InSnoc<T>(s: seq<T>, x: T)
    requires |s| > 0
    ensures x in s <==> x in s[..|s| - 1] || x == s[|s| - 1]
  {
    assert s == s[..|s| - 1] + [s[|s| - 1]];
  }

  lemma HeadIsMember<T>(s: seq<T>)
    ensures |s| > 0 ==> s[0] in s
  {
  }

  /** A non-empty set has a member. */
  lemma MemberOfNonEmpty<T>(s: set<T>) returns (x: T)
    requires |s| > 0
    ensures x in s
  {
    x :| x in s;
  }

  /** A Python slice bound normalised against length `n`: a negative bound counts from the end, and both are clamped to `0..n`. */
  function SliceBound(i: int, n: nat): (r: nat)
    ensures r <= n
    ensures 0 <= i <= n ==> r == i
    ensures i > n ==> r == n
    ensures i < 0 ==> r == (if i + n < 0 then 0 else i + n)
  {
    if i < 0 then (if i + n < 0 then 0 else i + n)
    else if i > n then n
    else i
  }

  /** Python `s[a:b]`. */
  function PySlice<T>(s: seq<T>, a: int, b: int): (r: seq<T>)
    ensures 0 <= a <= b <= |s| ==> r == s[a..b]
    ensures forall x :: x in r ==> x in s
  {
    var lo, hi := SliceBound(a, |s|), SliceBound(b, |s|);
    if lo < hi then s[lo..hi] else []
  }

  /** The position Python's `s[i]` reads in a sequence of length `n`, or None where it raises IndexError. */
  function PyIndex(i: int, n: nat): (r: Option<nat>)
    ensures r.Some? <==> 0 <= i + n && i < n
    ensures r.Some? ==> r.value < n && (if i >= 0 then r.value == i else r.value == i + n)
  {
    if 0 <= i < n then Some(i)
    else if 0 <= i + n && i < 0 then Some(i + n)
    else None
  }

  /** Regrouping a concatenation of three parts. */
  lemma Regroup<T>(files: seq<T>, a: seq<T>, b: seq<T>, total: seq<T>)
    requires files + (a + b) == total
    ensures (files + a) + b == total
  {
    assert files + (a + b) == (files + a) + b;
  }
}
