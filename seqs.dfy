/**
 * The array combinators the hooks are written with (`filter`, `map`, `find`,
 * `[...new Set(xs)]`), as functions on sequences, with the facts about them
 * that the rest of the model relies on.
 */
module Seqs {
  import opened Wrappers

  /** No element occurs twice. */
  predicate NoDups<T(==)>(s: seq<T>)
  {
    forall i, j :: 0 <= i < j < |s| ==> s[i] != s[j]
  }

  /** `s.filter(p)`: the elements satisfying `p`, in their original order. */
  function Filter<T(!new)>(s: seq<T>, p: T -> bool): (r: seq<T>)
    ensures |r| <= |s|
    ensures forall x :: x in r <==> x in s && p(x)
    ensures (forall x :: x in s ==> !p(x)) ==> r == []
  {
    if s == [] then []
    else (if p(s[0]) then [s[0]] else []) + Filter(s[1..], p)
  }

  /** `s.map(f)`. */
  function Map<T(!new), U(!new)>(s: seq<T>, f: T -> U): (r: seq<U>)
    ensures |r| == |s|
    ensures forall i :: 0 <= i < |s| ==> r[i] == f(s[i])
    ensures forall y :: y in r <==> exists x :: x in s && f(x) == y
  {
    var r := seq(|s|, i requires 0 <= i < |s| => f(s[i]));
    assert forall x :: x in s ==> f(x) in r by {
      forall x | x in s ensures f(x) in r {
        var i :| 0 <= i < |s| && s[i] == x;
        assert r[i] == f(x);
      }
    }
    r
  }

  /** `s.map(f).filter(present)`: the present results of `f`, in order. */
  function FilterMap<T(!new), U(!new)>(s: seq<T>, f: T -> Option<U>): (r: seq<U>)
    ensures |r| <= |s|
    ensures forall y :: y in r <==> exists x :: x in s && f(x) == Some(y)
  {
    if s == [] then []
    else
      var rest := FilterMap(s[1..], f);
      assert forall x :: x in s <==> x == s[0] || x in s[1..];
      match f(s[0])
      case Some(y) => [y] + rest
      case None => rest
  }

  /** `s.find(p)`: the first element satisfying `p`, if any. */
  function Find<T(!new)>(s: seq<T>, p: T -> bool): (r: Option<T>)
    ensures r.None? <==> forall x :: x in s ==> !p(x)
    ensures r.Some? ==> r.value in s && p(r.value)
    ensures r.Some? ==> exists i :: 0 <= i < |s| && s[i] == r.value && forall j :: 0 <= j < i ==> !p(s[j])
  {
    if s == [] then None
    else if p(s[0]) then Some(s[0])
    else Find(s[1..], p)
  }

  /** `[...new Set(s)]`: every element once, at its first occurrence. */
  function Dedup<T(==,!new)>(s: seq<T>): (r: seq<T>)
    ensures NoDups(r)
    ensures forall x :: x in r <==> x in s
    ensures |r| <= |s|
  {
    if s == [] then []
    else
      var front := s[..|s| - 1];
      var last := s[|s| - 1];
      assert s == front + [last];
      var prefix := Dedup(front);
      if last in prefix then prefix else prefix + [last]
  }

  lemma {:induction false} FilterConcat<T(!new)>(a: seq<T>, b: seq<T>, p: T -> bool)
    ensures Filter(a + b, p) == Filter(a, p) + Filter(b, p)
  {
    if a == [] {
      assert a + b == b;
    } else {
      var head := if p(a[0]) then [a[0]] else [];
      calc {
        Filter(a + b, p);
      == { assert (a + b)[0] == a[0] && (a + b)[1..] == a[1..] + b; }
        head + Filter(a[1..] + b, p);
      == { FilterConcat(a[1..], b, p); }
        head + (Filter(a[1..], p) + Filter(b, p));
      }
    }
  }

  lemma {:induction false} FilterMapConcat<T(!new), U(!new)>(a: seq<T>, b: seq<T>, f: T -> Option<U>)
    ensures FilterMap(a + b, f) == FilterMap(a, f) + FilterMap(b, f)
  {
    if a == [] {
      assert a + b == b;
    } else {
      assert (a + b)[1..] == a[1..] + b;
      FilterMapConcat(a[1..], b, f);
    }
  }

  /** Filtering by a weaker predicate first changes nothing. */
  lemma {:induction false} FilterFilter<T(!new)>(s: seq<T>, p: T -> bool, q: T -> bool)
    requires forall x :: x in s && q(x) ==> p(x)
    ensures Filter(Filter(s, p), q) == Filter(s, q)
  {
    if s != [] {
      var head := if p(s[0]) then [s[0]] else [];
      FilterConcat(head, Filter(s[1..], p), q);
      FilterFilter(s[1..], p, q);
    }
  }

  /** `find` with two predicates that agree on every element gives the same answer. */
  lemma {:induction false} FindAgrees<T(!new)>(s: seq<T>, p: T -> bool, q: T -> bool)
    requires forall x :: x in s ==> p(x) == q(x)
    ensures Find(s, p) == Find(s, q)
  {
    if s != [] {
      FindAgrees(s[1..], p, q);
    }
  }

  /** Appending elements none of which satisfy `p` does not change what `find` returns. */
  lemma {:induction false} FindIgnoresTail<T(!new)>(a: seq<T>, b: seq<T>, p: T -> bool)
    requires forall x :: x in b ==> !p(x)
    ensures Find(a + b, p) == Find(a, p)
  {
    if a == [] {
      assert a + b == b;
    } else {
      assert (a + b)[1..] == a[1..] + b;
      FindIgnoresTail(a[1..], b, p);
    }
  }

  /** `find` over a pre-filtered sequence, when every element it looks for passes the filter, finds the same element. */
  lemma {:induction false} FindFiltered<T(!new)>(s: seq<T>, p: T -> bool, q: T -> bool)
    requires forall x :: x in s && q(x) ==> p(x)
    ensures Find(Filter(s, p), q) == Find(s, q)
  {
    if s != [] {
      var head := if p(s[0]) then [s[0]] else [];
      assert Filter(s, p) == head + Filter(s[1..], p);
      FindFiltered(s[1..], p, q);
      if head == [] {
        assert Filter(s, p) == Filter(s[1..], p);
      } else {
        assert Filter(s, p)[0] == s[0];
        assert Filter(s, p)[1..] == Filter(s[1..], p);
      }
    }
  }

  /** Two functions that agree on every element give the same `FilterMap`. */
  lemma {:induction false} FilterMapAgrees<T(!new), U(!new)>(s: seq<T>, f: T -> Option<U>, g: T -> Option<U>)
    requires forall x :: x in s ==> f(x) == g(x)
    ensures FilterMap(s, f) == FilterMap(s, g)
  {
    if s != [] {
      FilterMapAgrees(s[1..], f, g);
    }
  }
}
