/** Sequence facts shared by the sweep, the name merge and the per-host scan. */
module Seqs {

  /** `xs.filter(p)`: the elements satisfying `p`, in their original order. */
  function Filter<T>(s: seq<T>, p: T -> bool): seq<T>
  {
    if |s| == 0 then [] else (if p(s[0]) then [s[0]] else []) + Filter(s[1..], p)
  }

  /** `t` is obtained from `s` by deleting elements (order is kept). */
  ghost predicate IsSubsequence<T>(t: seq<T>, s: seq<T>)
    decreases |s|
  {
    if |s| == 0 then t == []
    else IsSubsequence(t, s[1..]) || (t != [] && t[0] == s[0] && IsSubsequence(t[1..], s[1..]))
  }

  ghost predicate NoDuplicates<T>(s: seq<T>)
  {
    forall i, j :: 0 <= i < j < |s| ==> s[i] != s[j]
  }

  /** Position of the last occurrence of `x` in `s`. */
  function LastIndexOf<T(==)>(s: seq<T>, x: T): (k: nat)
    requires x in s
    ensures k < |s| && s[k] == x
    ensures forall j :: k < j < |s| ==> s[j] != x
  {
    if s[|s| - 1] == x then |s| - 1 else LastIndexOf(s[..|s| - 1], x)
  }

  lemma {:induction false} FilterMembership<T>(s: seq<T>, p: T -> bool, x: T)
    ensures x in Filter(s, p) <==> x in s && p(x)
  {
    if |s| > 0 {
      FilterMembership(s[1..], p, x);
      assert s == [s[0]] + s[1..];
    }
  }

  lemma {:induction false} FilterIsSubsequence<T>(s: seq<T>, p: T -> bool)
    ensures IsSubsequence(Filter(s, p), s)
  {
    if |s| > 0 {
      FilterIsSubsequence(s[1..], p);
      if p(s[0]) {
        assert Filter(s, p)[0] == s[0] && Filter(s, p)[1..] == Filter(s[1..], p);
      } else {
        assert Filter(s, p) == Filter(s[1..], p);
      }
    }
  }

  lemma {:induction false} SubsequenceMembership<T>(t: seq<T>, s: seq<T>, x: T)
    requires IsSubsequence(t, s)
    requires x in t
    ensures x in s
    decreases |s|
  {
    if IsSubsequence(t, s[1..]) {
      SubsequenceMembership(t, s[1..], x);
    } else if x != t[0] {
      assert x in t[1..];
      SubsequenceMembership(t[1..], s[1..], x);
    }
  }

  lemma {:induction false} SubsequenceKeepsNoDuplicates<T>(t: seq<T>, s: seq<T>)
    requires IsSubsequence(t, s)
    requires NoDuplicates(s)
    ensures NoDuplicates(t)
    decreases |s|
  {
    if |s| > 0 {
      assert NoDuplicates(s[1..]);
      if IsSubsequence(t, s[1..]) {
        SubsequenceKeepsNoDuplicates(t, s[1..]);
      } else {
        SubsequenceKeepsNoDuplicates(t[1..], s[1..]);
        if t[0] in t[1..] {
          SubsequenceMembership(t[1..], s[1..], t[0]);
          assert false;
        }
        forall i, j | 0 <= i < j < |t| ensures t[i] != t[j] {
          if i == 0 {
            assert t[j] == t[1..][j - 1];
          } else {
            assert t[i] == t[1..][i - 1] && t[j] == t[1..][j - 1];
          }
        }
      }
    }
  }

  lemma {:induction false} FilterAppend<T>(a: seq<T>, b: seq<T>, p: T -> bool)
    ensures Filter(a + b, p) == Filter(a, p) + Filter(b, p)
  {
    if |a| > 0 {
      FilterAppend(a[1..], b, p);
      assert (a + b)[1..] == a[1..] + b;
    } else {
      assert a + b == b;
    }
  }

  lemma {:induction false} FilterNone<T>(s: seq<T>, p: T -> bool)
    requires forall i :: 0 <= i < |s| ==> !p(s[i])
    ensures Filter(s, p) == []
  {
    if |s| > 0 {
      FilterNone(s[1..], p);
    }
  }

  lemma {:induction false} FilterOne<T>(s: seq<T>, p: T -> bool, i: nat)
    requires i < |s| && p(s[i])
    requires forall k :: 0 <= k < |s| && k != i ==> !p(s[k])
    ensures Filter(s, p) == [s[i]]
  {
    if i == 0 {
      FilterNone(s[1..], p);
    } else {
      FilterOne(s[1..], p, i - 1);
    }
  }

  /** A filter that keeps exactly positions `i < j` yields `[s[i], s[j]]`. */
  lemma {:induction false} FilterTwo<T>(s: seq<T>, p: T -> bool, i: nat, j: nat)
    requires i < j < |s| && p(s[i]) && p(s[j])
    requires forall k :: 0 <= k < |s| && k != i && k != j ==> !p(s[k])
    ensures Filter(s, p) == [s[i], s[j]]
  {
    if i == 0 {
      FilterOne(s[1..], p, j - 1);
    } else {
      FilterTwo(s[1..], p, i - 1, j - 1);
    }
  }

  /** In a duplicate-free sequence the last occurrence of `s[i]` is `i` itself. */
  lemma LastIndexOfDistinct<T>(s: seq<T>, i: nat)
    requires NoDuplicates(s)
    requires i < |s|
    ensures LastIndexOf(s, s[i]) == i
  {
  }
}
