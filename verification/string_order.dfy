/** Sorting strings, and what makes the sorted list depend on the members alone. */
module StringOrder {

  /** Lexicographic order by character code. */
  predicate StrLeq(a: string, b: string) {
    if a == "" then true
    else if b == "" then false
    else a[0] < b[0] || (a[0] == b[0] && StrLeq(a[1..], b[1..]))
  }

  /** The texts agree up to `k`, and there the first has the smaller character. */
  ghost predicate FallsAt(a: string, b: string, k: nat) {
    k < |a| && k < |b| && a[..k] == b[..k] && a[k] < b[k]
  }

  lemma FallsLater(a: string, b: string, k: nat)
    requires a != "" && b != "" && a[0] == b[0]
    ensures FallsAt(a, b, k + 1) <==> FallsAt(a[1..], b[1..], k)
  {
    if k < |a| - 1 && k < |b| - 1 {
      assert a[..k + 1] == [a[0]] + a[1..][..k] && b[..k + 1] == [b[0]] + b[1..][..k];
      assert a[..k + 1][1..] == a[1..][..k] && b[..k + 1][1..] == b[1..][..k];
    }
  }

  /** A beginning comes first, otherwise the first character that differs decides. */
  lemma {:induction false} StrLeqIff(a: string, b: string)
    ensures StrLeq(a, b) <==> a <= b || exists k: nat :: FallsAt(a, b, k)
  {
    hide FallsAt;
    if a == "" || b == "" {
      Short(a, b);
    } else if a[0] != b[0] {
      FirstDiffers(a, b);
    } else {
      StrLeqIff(a[1..], b[1..]);
      assert a == [a[0]] + a[1..] && b == [b[0]] + b[1..];
      forall k: nat ensures FallsAt(a, b, k + 1) <==> FallsAt(a[1..], b[1..], k) {
        FallsLater(a, b, k);
      }
      assert a <= b <==> a[1..] <= b[1..];
      assert StrLeq(a, b) == StrLeq(a[1..], b[1..]);
      if exists k: nat :: FallsAt(a, b, k) {
        var k: nat :| FallsAt(a, b, k);
        assert k > 0 by { Short(a, b); }
        FallsLater(a, b, k - 1);
        assert FallsAt(a[1..], b[1..], k - 1);
      }
      if exists k: nat :: FallsAt(a[1..], b[1..], k) {
        var k: nat :| FallsAt(a[1..], b[1..], k);
        assert FallsAt(a, b, k + 1);
      }
    }
  }

  lemma Short(a: string, b: string)
    ensures a == "" || b == "" ==> forall k: nat :: !FallsAt(a, b, k)
    ensures a != "" && b != "" && a[0] == b[0] ==> !FallsAt(a, b, 0)
  {
  }

  lemma FirstDiffers(a: string, b: string)
    requires a != "" && b != "" && a[0] != b[0]
    ensures !(a <= b) && ((exists k: nat :: FallsAt(a, b, k)) <==> a[0] < b[0])
  {
    assert a[..0] == b[..0];
    if a[0] < b[0] {
      assert FallsAt(a, b, 0);
    }
    forall k: nat | FallsAt(a, b, k) ensures k == 0 {
    }
  }

  lemma StrTotal(a: string, b: string)
    ensures StrLeq(a, b) || StrLeq(b, a)
  {
  }

  lemma {:induction false} StrAntisymmetric(a: string, b: string)
    requires StrLeq(a, b) && StrLeq(b, a)
    ensures a == b
  {
    if a != "" {
      StrAntisymmetric(a[1..], b[1..]);
      assert a == [a[0]] + a[1..] && b == [b[0]] + b[1..];
    }
  }

  lemma {:induction false} StrTransitive(a: string, b: string, c: string)
    requires StrLeq(a, b) && StrLeq(b, c)
    ensures StrLeq(a, c)
  {
    if a != "" && a[0] == b[0] && b[0] == c[0] {
      StrTransitive(a[1..], b[1..], c[1..]);
    }
  }

  predicate Sorted(s: seq<string>) {
    forall i, j :: 0 <= i < j < |s| ==> StrLeq(s[i], s[j])
  }

  function Insert(x: string, s: seq<string>): seq<string> {
    if s == [] || StrLeq(x, s[0]) then [x] + s else [s[0]] + Insert(x, s[1..])
  }

  function Sort(s: seq<string>): seq<string> {
    if s == [] then [] else Insert(s[0], Sort(s[1..]))
  }

  lemma {:induction false} InsertSorted(x: string, s: seq<string>)
    requires Sorted(s)
    ensures Sorted(Insert(x, s)) && multiset(Insert(x, s)) == multiset(s) + multiset{x}
  {
    if s == [] {
    } else if StrLeq(x, s[0]) {
      forall j | 0 <= j < |s| ensures StrLeq(x, s[j]) {
        if j > 0 {
          StrTransitive(x, s[0], s[j]);
        }
      }
    } else {
      StrTotal(x, s[0]);
      InsertSorted(x, s[1..]);
      var t := Insert(x, s[1..]);
      assert s == [s[0]] + s[1..];
      forall j | 0 <= j < |t| ensures StrLeq(s[0], t[j]) {
        assert t[j] in multiset(t);
        assert t[j] == x || t[j] in s[1..];
      }
    }
  }

  lemma {:induction false} SortSorted(s: seq<string>)
    ensures Sorted(Sort(s)) && multiset(Sort(s)) == multiset(s)
  {
    if s != [] {
      SortSorted(s[1..]);
      InsertSorted(s[0], Sort(s[1..]));
      assert s == [s[0]] + s[1..];
    }
  }

  lemma SortedHead(a: seq<string>, x: string)
    requires Sorted(a) && x in a
    ensures StrLeq(a[0], x)
  {
    StrTotal(x, x);
  }

  lemma TailMembers(a: seq<string>)
    requires a != []
    ensures multiset(a[1..]) == multiset(a) - multiset{a[0]}
  {
    assert a == [a[0]] + a[1..];
  }

  lemma SameHead(a: seq<string>, b: seq<string>)
    requires Sorted(a) && Sorted(b) && multiset(a) == multiset(b) && a != []
    ensures b != [] && a[0] == b[0]
  {
    assert a[0] in multiset(b);
    assert b[0] in multiset(a);
    SortedHead(a, b[0]);
    SortedHead(b, a[0]);
    StrAntisymmetric(a[0], b[0]);
  }

  /** There is one sorted list with given members. */
  lemma {:induction false} SortedUnique(a: seq<string>, b: seq<string>)
    requires Sorted(a) && Sorted(b) && multiset(a) == multiset(b)
    ensures a == b
  {
    if a == [] {
      assert |multiset(b)| == 0;
    } else {
      SameHead(a, b);
      TailMembers(a);
      TailMembers(b);
      SortedUnique(a[1..], b[1..]);
      assert a == [a[0]] + a[1..] && b == [b[0]] + b[1..];
    }
  }

  /** Sorting forgets the order of its input. */
  lemma SortIgnoresOrder(a: seq<string>, b: seq<string>)
    requires multiset(a) == multiset(b)
    ensures Sort(a) == Sort(b)
  {
    SortSorted(a);
    SortSorted(b);
    SortedUnique(Sort(a), Sort(b));
  }
}
