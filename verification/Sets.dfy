/** Facts about finite sets and bags. */
module Sets {

  lemma SomeElement<T>(xs: set<T>) returns (x: T)
    requires xs != {}
    ensures x in xs
  {
    x :| x in xs;
  }

  lemma SubsetSize<T>(a: set<T>, b: set<T>)
    requires a <= b
    ensures |a| <= |b|
  {
    if a != {} {
      var x :| x in a;
      SubsetSize(a - {x}, b - {x});
    }
  }

  /** Integers below n. */
  lemma {:induction false} AtMost(s: set<int>, n: nat)
    requires forall x :: x in s ==> 0 <= x < n
    ensures |s| <= n
  {
    if s != {} {
      var x := SomeElement(s);
      assert n > 0;
      AtMost(s - {n - 1}, n - 1);
    }
  }

  /** What is in a queue before and after one element leaves it. */
  lemma PopMembers<T>(q: seq<T>, rest: seq<T>, c: T)
    requires multiset(q) == multiset(rest) + multiset{c}
    ensures c in q && (forall d :: d in rest ==> d in q) && forall d :: d in q ==> d == c || d in rest
  {
    assert c in multiset(q);
    forall d | d in rest ensures d in q {
      assert d in multiset(rest);
      assert d in multiset(q);
    }
    forall d | d in q ensures d == c || d in rest {
      assert d in multiset(q);
    }
  }
}
