/** Shared wrappers and counting helpers used by every other module. */
module Common {

  datatype Option<T> = None | Some(value: T)

  /** The outcome of a computation that may raise: either a value or the error that aborted it. */
  datatype Result<T, E> = Success(value: T) | Failure(error: E)

  /** Number of elements of `s` satisfying `p`, counted from the back so that
      `Count(s[..i+1], p)` unfolds to `Count(s[..i], p)` plus one step. */
  function Count<T>(s: seq<T>, p: T -> bool): nat
  {
    if |s| == 0 then 0
    else Count(s[..|s| - 1], p) + (if p(s[|s| - 1]) then 1 else 0)
  }

  /** The elements of `s` satisfying `p`, in their original order. */
  function Filter<T>(s: seq<T>, p: T -> bool): seq<T>
  {
    if |s| == 0 then []
    else Filter(s[..|s| - 1], p) + (if p(s[|s| - 1]) then [s[|s| - 1]] else [])
  }

  lemma CountSnoc<T>(s: seq<T>, x: T, p: T -> bool)
    ensures Count(s + [x], p) == Count(s, p) + (if p(x) then 1 else 0)
  {
    assert (s + [x])[..|s|] == s;
  }

  /** The index of the first element at or after `from` that passes `p`, or
      `|s|` when none does. */
  function FirstFrom<T>(s: seq<T>, p: T -> bool, from: nat): (k: nat)
    requires from <= |s|
    ensures from <= k <= |s|
    ensures forall j :: from <= j < k ==> !p(s[j])
    ensures k < |s| ==> p(s[k])
    decreases |s| - from
  {
    if from == |s| || p(s[from]) then from
    else FirstFrom(s, p, from + 1)
  }

  /** The counting loop: one pass adding one for every element that passes `p`. */
  method CountWhere<T>(s: seq<T>, p: T -> bool) returns (n: nat)
    ensures n == Count(s, p)
  {
    n := 0;
    for k := 0 to |s|
      invariant n == Count(s[..k], p)
    {
      assert s[..k + 1] == s[..k] + [s[k]];
      CountSnoc(s[..k], s[k], p);
      if p(s[k]) {
        n := n + 1;
      }
    }
    assert s[..|s|] == s;
  }

  lemma FilterSnoc<T>(s: seq<T>, x: T, p: T -> bool)
    ensures Filter(s + [x], p) == Filter(s, p) + (if p(x) then [x] else [])
  {
    assert (s + [x])[..|s|] == s;
  }

  /** A filter keeps exactly as many elements as the count says, each satisfying `p`. */
  lemma {:induction false} FilterCount<T>(s: seq<T>, p: T -> bool)
    ensures |Filter(s, p)| == Count(s, p)
    ensures forall x :: x in Filter(s, p) ==> x in s && p(x)
  {
    if |s| > 0 {
      FilterCount(s[..|s| - 1], p);
    }
  }

  /** Counting never exceeds the length, and a weaker predicate counts at least as many. */
  lemma {:induction false} CountMonotone<T>(s: seq<T>, p: T -> bool, q: T -> bool)
    requires forall x :: p(x) ==> q(x)
    ensures Count(s, p) <= Count(s, q) <= |s|
  {
    if |s| > 0 {
      CountMonotone(s[..|s| - 1], p, q);
    }
  }

  /** Counting over a predicate that is the disjoint union of two others adds up. */
  lemma {:induction false} CountDisjointUnion<T>(s: seq<T>, p: T -> bool, q: T -> bool, r: T -> bool)
    requires forall x :: p(x) <==> q(x) || r(x)
    requires forall x :: !(q(x) && r(x))
    ensures Count(s, p) == Count(s, q) + Count(s, r)
  {
    if |s| > 0 {
      CountDisjointUnion(s[..|s| - 1], p, q, r);
    }
  }

  /** Counting is insensitive to replacing the predicate by an equivalent one on the elements present. */
  lemma {:induction false} CountCongruent<T>(s: seq<T>, p: T -> bool, q: T -> bool)
    requires forall i :: 0 <= i < |s| ==> (p(s[i]) <==> q(s[i]))
    ensures Count(s, p) == Count(s, q)
  {
    if |s| > 0 {
      CountCongruent(s[..|s| - 1], p, q);
    }
  }

  /** An element satisfying `p` makes the count positive. */
  lemma CountPositive<T>(s: seq<T>, i: int, p: T -> bool)
    requires 0 <= i < |s| && p(s[i])
    ensures Count(s, p) > 0
  {
    assert s[..i + 1] == s[..i] + [s[i]];
    CountSnoc(s[..i], s[i], p);
    CountPrefix(s, i + 1, p);
  }

  /** A prefix never counts more than the whole. */
  lemma {:induction false} CountPrefix<T>(s: seq<T>, n: nat, p: T -> bool)
    requires n <= |s|
    ensures Count(s[..n], p) <= Count(s, p)
    decreases |s|
  {
    if n < |s| {
      assert s[..|s| - 1][..n] == s[..n];
      CountPrefix(s[..|s| - 1], n, p);
    } else {
      assert s[..n] == s;
    }
  }

  /** Nothing satisfying `p` counts zero. */
  lemma {:induction false} CountNone<T>(s: seq<T>, p: T -> bool)
    requires forall x :: !p(x)
    ensures Count(s, p) == 0
  {
    if |s| > 0 {
      CountNone(s[..|s| - 1], p);
    }
  }
}
