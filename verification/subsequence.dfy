/** In-order subsequences, filters, and the round-robin split of a list. */
module Subsequence {

  /** `a` is `b` with some elements left out. */
  ghost predicate Sub<T>(a: seq<T>, b: seq<T>)
    decreases |b|
  {
    if a == [] then true
    else if b == [] then false
    else
      var front := b[..|b| - 1];
      (a[|a| - 1] == b[|b| - 1] && Sub(a[..|a| - 1], front)) || Sub(a, front)
  }

  lemma SubNone<T>(b: seq<T>)
    ensures Sub([], b)
  {
  }

  lemma SubSkip<T>(a: seq<T>, b: seq<T>, x: T)
    requires Sub(a, b)
    ensures Sub(a, b + [x])
  {
    assert (b + [x])[..|b|] == b;
  }

  lemma SubTake<T>(a: seq<T>, b: seq<T>, x: T)
    requires Sub(a, b)
    ensures Sub(a + [x], b + [x])
  {
    assert (b + [x])[..|b|] == b && (a + [x])[..|a|] == a;
  }

  lemma {:induction false} SubRefl<T>(a: seq<T>)
    ensures Sub(a, a)
  {
    if a != [] {
      SubRefl(a[..|a| - 1]);
    }
  }

  lemma {:induction false} SubConcat<T>(a: seq<T>, b: seq<T>, c: seq<T>, d: seq<T>)
    requires Sub(a, b) && Sub(c, d)
    ensures Sub(a + c, b + d)
    decreases |d|
  {
    if d == [] {
      assert a + c == a && b + d == b;
    } else {
      var front, x := d[..|d| - 1], d[|d| - 1];
      assert b + d == (b + front) + [x];
      if c == [] || Sub(c, front) {
        SubConcat(a, b, c, front);
        SubSkip(a + c, b + front, x);
      } else {
        var most := c[..|c| - 1];
        SubConcat(a, b, most, front);
        SubTake(a + most, b + front, x);
        assert a + c == (a + most) + [x];
      }
    }
  }

  lemma {:induction false} SubTrans<T>(a: seq<T>, b: seq<T>, c: seq<T>)
    requires Sub(a, b) && Sub(b, c)
    ensures Sub(a, c)
    decreases |c|
  {
    if a != [] && b != [] {
      var front := c[..|c| - 1];
      if Sub(b, front) {
        SubTrans(a, b, front);
      } else if a[|a| - 1] == b[|b| - 1] && Sub(a[..|a| - 1], b[..|b| - 1]) {
        SubTrans(a[..|a| - 1], b[..|b| - 1], front);
      } else {
        SubTrans(a, b[..|b| - 1], front);
      }
    }
  }

  // ---- filters -------------------------------------------------------------

  ghost function Filter<T(!new)>(s: seq<T>, good: iset<T>): seq<T> {
    if s == [] then [] else Filter(s[..|s| - 1], good) + (if s[|s| - 1] in good then [s[|s| - 1]] else [])
  }

  lemma FilterSnoc<T(!new)>(s: seq<T>, x: T, good: iset<T>)
    ensures Filter(s + [x], good) == Filter(s, good) + (if x in good then [x] else [])
  {
    assert (s + [x])[..|s|] == s;
  }

  lemma {:induction false} FilterConcat<T(!new)>(a: seq<T>, b: seq<T>, good: iset<T>)
    ensures Filter(a + b, good) == Filter(a, good) + Filter(b, good)
  {
    if b == [] {
      assert a + b == a;
    } else {
      assert a + b == (a + b[..|b| - 1]) + [b[|b| - 1]];
      FilterSnoc(a + b[..|b| - 1], b[|b| - 1], good);
      FilterConcat(a, b[..|b| - 1], good);
    }
  }

  lemma {:induction false} FilterAll<T(!new)>(s: seq<T>, good: iset<T>)
    requires forall x :: x in s ==> x in good
    ensures Filter(s, good) == s
  {
    if s != [] {
      FilterAll(s[..|s| - 1], good);
      assert s == s[..|s| - 1] + [s[|s| - 1]];
    }
  }

  // ---- round robin ---------------------------------------------------------

  /** The slice s[k::n]: the elements whose position is `k` modulo `n`, in order. */
  function Stride<T>(s: seq<T>, k: nat, n: nat): seq<T>
    requires n > 0
  {
    if s == [] then []
    else Stride(s[..|s| - 1], k, n) + (if (|s| - 1) % n == k then [s[|s| - 1]] else [])
  }

  lemma {:induction false} StrideSub<T>(s: seq<T>, k: nat, n: nat)
    requires n > 0
    ensures Sub(Stride(s, k, n), s)
  {
    hide Sub;
    SubNone(s);
    if s != [] {
      var front, x := s[..|s| - 1], s[|s| - 1];
      StrideSub(front, k, n);
      assert s == front + [x];
      if (|s| - 1) % n == k {
        SubTake(Stride(front, k, n), front, x);
      } else {
        SubSkip(Stride(front, k, n), front, x);
        assert Stride(s, k, n) == Stride(front, k, n);
      }
    }
  }
}
