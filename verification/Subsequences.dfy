/** Subsequences: order-preserving selections, each element used at most once. */
module Subsequences {

  predicate IsSubsequence<T(==)>(a: seq<T>, b: seq<T>) {
    if a == [] then true
    else if b == [] then false
    else if a[|a| - 1] == b[|b| - 1] then IsSubsequence(a[..|a| - 1], b[..|b| - 1])
    else IsSubsequence(a, b[..|b| - 1])
  }

  /** A longer host still contains the selection. */
  lemma {:induction false} Widen<T>(a: seq<T>, b: seq<T>, x: T)
    requires IsSubsequence(a, b)
    ensures IsSubsequence(a, b + [x])
    decreases |b|, 1
  {
    assert (b + [x])[..|b|] == b;
    if a != [] && a[|a| - 1] == x {
      DropLast(a, b);
    }
  }

  /** A selection without its last element is a selection. */
  lemma {:induction false} DropLast<T>(a: seq<T>, b: seq<T>)
    requires a != [] && IsSubsequence(a, b)
    ensures IsSubsequence(a[..|a| - 1], b)
    decreases |b|, 0
  {
    var b' := b[..|b| - 1];
    assert b' + [b[|b| - 1]] == b;
    if a[|a| - 1] == b[|b| - 1] {
      Widen(a[..|a| - 1], b', b[|b| - 1]);
    } else {
      DropLast(a, b');
      Widen(a[..|a| - 1], b', b[|b| - 1]);
    }
  }

  lemma AppendBoth<T>(a: seq<T>, b: seq<T>, x: T)
    requires IsSubsequence(a, b)
    ensures IsSubsequence(a + [x], b + [x])
  {
    assert (a + [x])[..|a|] == a && (b + [x])[..|b|] == b;
  }

  lemma {:induction false} Prefix<T>(a: seq<T>, n: nat, b: seq<T>)
    requires n <= |a| && IsSubsequence(a, b)
    ensures IsSubsequence(a[..n], b)
    decreases |a|
  {
    if n < |a| {
      DropLast(a, b);
      assert a[..|a| - 1][..n] == a[..n];
      Prefix(a[..|a| - 1], n, b);
    } else {
      assert a[..n] == a;
    }
  }

  lemma {:induction false} Transitive<T>(a: seq<T>, b: seq<T>, c: seq<T>)
    requires IsSubsequence(a, b) && IsSubsequence(b, c)
    ensures IsSubsequence(a, c)
    decreases |b| + |c|
  {
    if a != [] {
      var c' := c[..|c| - 1];
      assert c == c' + [c[|c| - 1]];
      if b[|b| - 1] == c[|c| - 1] {
        if a[|a| - 1] == b[|b| - 1] {
          Transitive(a[..|a| - 1], b[..|b| - 1], c');
        } else {
          Transitive(a, b[..|b| - 1], c');
        }
      } else {
        Transitive(a, b, c');
        Widen(a, c', c[|c| - 1]);
      }
    }
  }

  // --- the elements that satisfy a test, in order ------------------------------------------------

  function Select<T>(s: seq<T>, p: T -> bool): seq<T> {
    if s == [] then []
    else if p(s[|s| - 1]) then Select(s[..|s| - 1], p) + [s[|s| - 1]]
    else Select(s[..|s| - 1], p)
  }

  lemma SelectAppend<T>(s: seq<T>, p: T -> bool, x: T)
    ensures Select(s + [x], p) == if p(x) then Select(s, p) + [x] else Select(s, p)
  {
    assert (s + [x])[..|s|] == s;
  }

  lemma {:induction false} SelectSubsequence<T>(a: seq<T>, b: seq<T>, p: T -> bool)
    requires IsSubsequence(a, b)
    ensures IsSubsequence(Select(a, p), Select(b, p))
    decreases |b|
  {
    if a != [] {
      var a', b' := a[..|a| - 1], b[..|b| - 1];
      var x, y := a[|a| - 1], b[|b| - 1];
      assert a == a' + [x] && b == b' + [y];
      SelectAppend(a', p, x);
      SelectAppend(b', p, y);
      if x == y {
        SelectSubsequence(a', b', p);
        if p(x) {
          AppendBoth(Select(a', p), Select(b', p), x);
        }
      } else {
        SelectSubsequence(a, b', p);
        if p(y) {
          Widen(Select(a, p), Select(b', p), y);
        }
      }
    }
  }
}
