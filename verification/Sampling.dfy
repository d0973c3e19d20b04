/** The sampling pipeline over real numbers (sample/transforms.go, sample/samplers.go): top-k by a heap, temperature,
    softmax, top-p, min-p and the choice by a random number. The exponential is any positive increasing function. */
module Sampling {

  datatype Token = Token(id: int, value: real)

  ghost predicate Exponential(exp: real -> real) {
    && (forall x :: exp(x) > 0.0)
    && (forall x, y :: x < y ==> exp(x) < exp(y))
  }

  predicate Descending(s: seq<Token>) { forall i, j :: 0 <= i < j < |s| ==> s[i].value >= s[j].value }

  // ---------- topK ----------

  /** The list holds k of the tokens, largest first, and no token left out is larger than one of them. */
  ghost predicate IsTop(r: seq<Token>, s: seq<Token>, k: int) {
    && |r| == k && Descending(r)
    && exists rest: seq<Token> :: multiset(r) + multiset(rest) == multiset(s) && Above(r, rest)
  }

  ghost predicate Above(a: seq<Token>, b: seq<Token>) { forall x, y :: x in a && y in b ==> x.value >= y.value }

  /** How many tokens topK leaves. */
  function Kept(n: nat, k: int): nat { if k >= n || k <= 0 then n else k }

  /** A heap gives up its least token: some token that is not above any other. */
  method PopLeast(h: seq<Token>) returns (x: Token, h': seq<Token>)
    requires h != []
    ensures multiset(h) == multiset(h') + multiset{x} && |h'| == |h| - 1
    ensures forall y :: y in h ==> x.value <= y.value
  {
    var m := 0;
    for i := 1 to |h|
      invariant 0 <= m < |h| && forall j :: 0 <= j < i ==> h[m].value <= h[j].value
    {
      if h[i].value < h[m].value {
        m := i;
      }
    }
    x, h' := h[m], h[..m] + h[m + 1..];
    assert h == h[..m] + [h[m]] + h[m + 1..];
  }

  /** Sorting from the largest down. */
  method SortDescending(s: seq<Token>) returns (r: seq<Token>)
    ensures multiset(r) == multiset(s) && |r| == |s| && Descending(r)
  {
    var h := s;
    r := [];
    while h != []
      invariant multiset(r) + multiset(h) == multiset(s) && |r| + |h| == |s|
      invariant Descending(r) && Above(h, r)
      decreases |h|
    {
      var x;
      ghost var before := h;
      x, h := PopLeast(h);
      PushFront(x, r, before, h);
      r := [x] + r;
    }
  }

  lemma PushFront(x: Token, r: seq<Token>, before: seq<Token>, h: seq<Token>)
    requires Descending(r) && Above(before, r) && multiset(before) == multiset(h) + multiset{x}
    requires forall y :: y in before ==> x.value <= y.value
    ensures Descending([x] + r) && Above(h, [x] + r) && multiset([x] + r) == multiset(r) + multiset{x}
  {
    assert x in multiset(before) && x in before;
    forall y | y in h ensures y in before {
      assert y in multiset(h);
      assert y in multiset(before);
    }
    forall j | 0 <= j < |r| ensures x.value >= r[j].value {
      assert r[j] in r;
    }
  }

  /** The heap holds the largest of the tokens seen. */
  ghost predicate HoldsTop(h: seq<Token>, rest: seq<Token>, seen: seq<Token>) {
    multiset(h) + multiset(rest) == multiset(seen) && Above(h, rest)
  }

  lemma SeeSmaller(h: seq<Token>, rest: seq<Token>, seen: seq<Token>, t: Token, least: Token)
    requires HoldsTop(h, rest, seen) && (forall y :: y in h ==> least.value <= y.value) && t.value <= least.value
    ensures HoldsTop(h, rest + [t], seen + [t])
  {
  }

  lemma SeeLarger(h: seq<Token>, rest: seq<Token>, seen: seq<Token>, t: Token, least: Token, h': seq<Token>)
    requires HoldsTop(h, rest, seen) && multiset(h) == multiset(h') + multiset{least}
    requires (forall y :: y in h ==> least.value <= y.value) && t.value > least.value
    ensures HoldsTop(h' + [t], rest + [least], seen + [t])
  {
    assert least in multiset(h) && least in h;
    forall x, y | x in h' + [t] && y in rest + [least] ensures x.value >= y.value {
      assert x in h' ==> x in multiset(h') && x in multiset(h);
      assert least.value <= x.value;
      assert y in rest ==> least.value >= y.value;
    }
  }

  method TopK(ts: seq<Token>, k: int) returns (r: seq<Token>)
    ensures IsTop(r, ts, Kept(|ts|, k))
  {
    if k >= |ts| || k <= 0 {
      r := SortDescending(ts);
      assert multiset(r) + multiset([]) == multiset(ts);
      return;
    }
    var h := ts[..k];
    ghost var rest: seq<Token> := [];
    for i := k to |ts|
      invariant |h| == k && HoldsTop(h, rest, ts[..i])
    {
      var least, h' := PopLeast(h);
      assert ts[..i + 1] == ts[..i] + [ts[i]];
      if ts[i].value > least.value {
        SeeLarger(h, rest, ts[..i], ts[i], least, h');
        h, rest := h' + [ts[i]], rest + [least];
      } else {
        SeeSmaller(h, rest, ts[..i], ts[i], least);
        rest := rest + [ts[i]];
      }
    }
    assert ts[..|ts|] == ts;
    r := SortDescending(h);
    forall x, y | x in r && y in rest ensures x.value >= y.value {
      assert x in multiset(r) && x in multiset(h);
    }
  }

  /** The tokens above a value. */
  function Larger(s: seq<Token>, v: real): seq<Token> {
    if s == [] then [] else (if s[0].value > v then [s[0]] else []) + Larger(s[1..], v)
  }

  lemma {:induction false} LargerCount(s: seq<Token>, v: real, x: Token)
    ensures multiset(Larger(s, v))[x] == if x.value > v then multiset(s)[x] else 0
  {
    if s != [] {
      LargerCount(s[1..], v, x);
      assert s == [s[0]] + s[1..];
      assert Larger(s, v) == (if s[0].value > v then [s[0]] else []) + Larger(s[1..], v);
    }
  }

  lemma {:induction false} SubBag(a: multiset<Token>, b: multiset<Token>)
    requires a <= b
    ensures |a| <= |b|
  {
    assert b == a + (b - a);
  }

  /** Fewer than k tokens are above a token in the list: at most as many as come before it. */
  lemma FewAbove(r: seq<Token>, s: seq<Token>, k: int, i: int)
    requires IsTop(r, s, k) && 0 <= i < |r|
    ensures |Larger(s, r[i].value)| <= i < k
  {
    hide Larger;
    var rest: seq<Token> :| multiset(r) + multiset(rest) == multiset(s) && Above(r, rest);
    var v, above := r[i].value, Larger(s, r[i].value);
    forall x ensures multiset(above)[x] <= multiset(r[..i])[x] {
      LargerCount(s, v, x);
      if x.value > v {
        assert x !in rest by {
          assert r[i] in r;
        }
        assert x !in r[i..];
        assert multiset(r[i..])[x] == 0 && multiset(rest)[x] == 0;
        assert r == r[..i] + r[i..];
      }
    }
    SubBag(multiset(above), multiset(r[..i]));
  }

  // ---------- temperature and softmax ----------

  function Max(a: real, b: real): real { if a >= b then a else b }

  const COLDEST := 0.0000001

  function Scaled(s: seq<Token>, temperature: real): (r: seq<Token>)
    requires temperature > 0.0
    ensures |r| == |s| && forall i :: 0 <= i < |s| ==> r[i] == Token(s[i].id, s[i].value / temperature)
  {
    seq(|s|, i requires 0 <= i < |s| => Token(s[i].id, s[i].value / temperature))
  }

  method Temperature(ts: array<Token>, temp0: real)
    modifies ts
    ensures ts[..] == Scaled(old(ts[..]), Max(temp0, COLDEST))
    ensures var temp := if temp0 > 0.0000001 then temp0 else 0.0000001;
            forall i :: 0 <= i < ts.Length ==> ts[i] == Token(old(ts[i]).id, old(ts[i]).value / temp)
  {
    var temp := Max(temp0, COLDEST);
    for i := 0 to ts.Length
      invariant forall j :: 0 <= j < ts.Length ==>
                  ts[j] == if j < i then Token(old(ts[j]).id, old(ts[j]).value / temp) else old(ts[j])
    {
      ts[i] := Token(ts[i].id, ts[i].value / temp);
    }
  }

  /** The sum of the first n values. */
  function Cumulated(s: seq<Token>, n: int): real
    requires 0 <= n <= |s|
  {
    if n == 0 then 0.0 else Cumulated(s, n - 1) + s[n - 1].value
  }

  lemma CumulatedNext(s: seq<Token>, i: int)
    requires 0 <= i < |s|
    ensures Cumulated(s, i + 1) == Cumulated(s, i) + s[i].value
  {
  }

  /** exp of the distance of each value to m. */
  function Weighted(exp: real -> real, s: seq<Token>, m: real): (r: seq<Token>)
    ensures |r| == |s| && forall i :: 0 <= i < |s| ==> r[i] == Token(s[i].id, exp(s[i].value - m))
  {
    seq(|s|, i requires 0 <= i < |s| => Token(s[i].id, exp(s[i].value - m)))
  }

  ghost predicate IsMax(s: seq<Token>, m: real) {
    (forall i :: 0 <= i < |s| ==> s[i].value <= m) && exists i :: 0 <= i < |s| && s[i].value == m
  }

  lemma {:induction false} CumulatedPositive(s: seq<Token>, n: int)
    requires 0 <= n <= |s| && forall i :: 0 <= i < |s| ==> s[i].value > 0.0
    ensures n > 0 ==> Cumulated(s, n) > 0.0
  {
    if n > 1 {
      CumulatedPositive(s, n - 1);
    }
  }

  function Share(a: real, total: real): real
    requires total > 0.0
  {
    a / total
  }

  lemma ShareSum(a: real, b: real, total: real)
    requires total > 0.0
    ensures Share(a, total) + Share(b, total) == Share(a + b, total)
    ensures Share(0.0, total) == 0.0 && Share(total, total) == 1.0
  {
    assert total / total == 1.0;
  }

  lemma SharePositive(a: real, total: real)
    requires a > 0.0 && total > 0.0
    ensures Share(a, total) > 0.0
  {
  }

  lemma ShareCross(a: real, b: real, total: real)
    requires total > 0.0
    ensures Share(a, total) * b == Share(b, total) * a
  {
  }

  lemma {:induction false} CumulatedShares(s: seq<Token>, r: seq<Token>, d: real, n: int)
    requires d > 0.0 && |r| == |s| && 0 <= n <= |s| && forall i :: 0 <= i < |s| ==> r[i].value == Share(s[i].value, d)
    ensures Cumulated(r, n) == Share(Cumulated(s, n), d)
  {
    hide Share;
    ShareSum(0.0, 0.0, d);
    if n > 0 {
      CumulatedShares(s, r, d, n - 1);
      ShareSum(Cumulated(s, n - 1), s[n - 1].value, d);
    }
  }

  /** The probabilities of tokens with these values: positive, in proportion to exp, summing to one. */
  ghost predicate IsSoftmax(exp: real -> real, s: seq<Token>, r: seq<Token>) {
    && |r| == |s| && Cumulated(r, |r|) == 1.0
    && (forall i :: 0 <= i < |r| ==> r[i].id == s[i].id && r[i].value > 0.0)
    && exists m :: IsMax(s, m) && Proportional(exp, s, m, r)
  }

  ghost predicate Proportional(exp: real -> real, s: seq<Token>, m: real, r: seq<Token>)
    requires |r| == |s|
  {
    forall i, j :: 0 <= i < |s| && 0 <= j < |s| ==>
      r[i].value * exp(s[j].value - m) == r[j].value * exp(s[i].value - m)
  }

  method LargestLogit(ts: array<Token>) returns (m: real)
    requires ts.Length > 0
    ensures IsMax(ts[..], m)
  {
    m := ts[0].value;
    ghost var at := 0;
    for i := 0 to ts.Length
      invariant 0 <= at < ts.Length && ts[at].value == m
      invariant forall j :: 0 <= j < i ==> ts[j].value <= m
    {
      if ts[i].value > m {
        m, at := ts[i].value, i;
      }
    }
    assert ts[..][at].value == m;
  }

  /** Apply exp to the i-th value. */
  method ExpOne(exp: real -> real, ts: array<Token>, i: nat, m: real)
    requires i < ts.Length
    modifies ts
    ensures ts[i] == Token(old(ts[i]).id, exp(old(ts[i]).value - m))
    ensures forall j :: 0 <= j < ts.Length && j != i ==> ts[j] == old(ts[j])
  {
    ts[i] := Token(ts[i].id, exp(ts[i].value - m));
  }

  method ExpAll(exp: real -> real, ts: array<Token>, m: real) returns (sum: real)
    modifies ts
    ensures ts[..] == Weighted(exp, old(ts[..]), m) && sum == Cumulated(ts[..], ts.Length)
  {
    sum := 0.0;
    ghost var s, w := ts[..], Weighted(exp, ts[..], m);
    assert Cumulated(w, 0) == 0.0;
    hide Cumulated, Weighted;
    for i := 0 to ts.Length
      invariant forall j :: 0 <= j < i ==> ts[j] == w[j]
      invariant forall j :: i <= j < ts.Length ==> ts[j] == s[j]
      invariant sum == Cumulated(w, i)
    {
      ExpOne(exp, ts, i, m);
      sum := sum + ts[i].value;
      CumulatedNext(w, i);
    }
    assert ts[..] == w;
  }

  method ShareAll(ts: array<Token>, sum: real)
    requires sum > 0.0
    modifies ts
    ensures forall j :: 0 <= j < ts.Length ==> ts[j] == Token(old(ts[j]).id, Share(old(ts[j]).value, sum))
  {
    hide Share;
    for i := 0 to ts.Length
      invariant forall j :: 0 <= j < i ==> ts[j] == Token(old(ts[j]).id, Share(old(ts[j]).value, sum))
      invariant forall j :: i <= j < ts.Length ==> ts[j] == old(ts[j])
    {
      ts[i] := Token(ts[i].id, Share(ts[i].value, sum));
    }
  }

  method Softmax(exp: real -> real, ts: array<Token>)
    requires Exponential(exp) && ts.Length > 0
    modifies ts
    ensures IsSoftmax(exp, old(ts[..]), ts[..])
  {
    hide Exponential, IsSoftmax, IsMax, Cumulated, Share;
    ghost var s := ts[..];
    var m := LargestLogit(ts);
    var sum := ExpAll(exp, ts, m);
    ghost var w := ts[..];
    WeightedPositive(exp, s, m);
    CumulatedPositive(w, |w|);
    ShareAll(ts, sum);
    SoftmaxHolds(exp, s, m, w, sum, ts[..]);
  }

  lemma WeightedPositive(exp: real -> real, s: seq<Token>, m: real)
    requires Exponential(exp)
    ensures forall i :: 0 <= i < |s| ==> Weighted(exp, s, m)[i].value > 0.0
  {
  }

  lemma ProportionalHolds(exp: real -> real, s: seq<Token>, m: real, w: seq<Token>, sum: real, r: seq<Token>)
    requires w == Weighted(exp, s, m) && sum > 0.0 && |r| == |s|
    requires forall i :: 0 <= i < |s| ==> r[i] == Token(w[i].id, Share(w[i].value, sum))
    ensures Proportional(exp, s, m, r)
  {
    hide Share;
    forall i, j | 0 <= i < |s| && 0 <= j < |s|
      ensures r[i].value * exp(s[j].value - m) == r[j].value * exp(s[i].value - m)
    {
      ShareCross(w[i].value, w[j].value, sum);
    }
  }

  lemma SoftmaxHolds(exp: real -> real, s: seq<Token>, m: real, w: seq<Token>, sum: real, r: seq<Token>)
    requires IsMax(s, m) && w == Weighted(exp, s, m) && sum == Cumulated(w, |w|) && sum > 0.0 && |r| == |s|
    requires forall i :: 0 <= i < |w| ==> w[i].value > 0.0
    requires forall i :: 0 <= i < |s| ==> r[i] == Token(w[i].id, Share(w[i].value, sum))
    ensures IsSoftmax(exp, s, r)
  {
    hide Proportional, IsMax, Share;
    CumulatedShares(w, r, sum, |w|);
    ShareSum(sum, 0.0, sum);
    ProportionalHolds(exp, s, m, w, sum, r);
    forall i | 0 <= i < |r| ensures r[i].value > 0.0 {
      SharePositive(w[i].value, sum);
    }
  }

  lemma SoftmaxDescending(exp: real -> real, s: seq<Token>, r: seq<Token>)
    requires Exponential(exp) && IsSoftmax(exp, s, r) && Descending(s)
    ensures Descending(r)
  {
    hide Exponential, Proportional, IsMax, Cumulated;
    var m :| IsMax(s, m) && Proportional(exp, s, m, r);
    SoftmaxFacts(exp, s, r);
    forall i, j | 0 <= i < j < |r| ensures r[i].value >= r[j].value {
      PairDescends(exp, s, m, r, i, j);
    }
  }

  lemma PairDescends(exp: real -> real, s: seq<Token>, m: real, r: seq<Token>, i: int, j: int)
    requires Exponential(exp) && |r| == |s| && Proportional(exp, s, m, r) && 0 <= i < |s| && 0 <= j < |s|
    requires s[i].value >= s[j].value && r[j].value > 0.0
    ensures r[i].value >= r[j].value
  {
    hide Exponential, Proportional;
    ExpAscends(exp, s[j].value - m, s[i].value - m);
    ProportionalAt(exp, s, m, r, i, j);
    NotBelow(r[i].value, r[j].value, exp(s[i].value - m), exp(s[j].value - m));
  }

  lemma ExpAscends(exp: real -> real, x: real, y: real)
    requires Exponential(exp) && x <= y
    ensures exp(y) >= exp(x) > 0.0
  {
  }

  lemma ProportionalAt(exp: real -> real, s: seq<Token>, m: real, r: seq<Token>, i: int, j: int)
    requires |r| == |s| && Proportional(exp, s, m, r) && 0 <= i < |s| && 0 <= j < |s|
    ensures r[i].value * exp(s[j].value - m) == r[j].value * exp(s[i].value - m)
  {
  }

  lemma NotBelow(x: real, y: real, a: real, b: real)
    requires a >= b > 0.0 && y > 0.0 && x * b == y * a
    ensures x >= y
  {
    assert y * (a - b) >= 0.0;
    assert x >= y || (y - x) * b > 0.0;
  }

  lemma DivideAscends(x: real, y: real, d: real)
    requires x <= y && d > 0.0
    ensures x / d <= y / d
  {
    assert (y - x) / d >= 0.0;
    assert y / d - x / d == (y - x) / d;
  }

  lemma ScaledDescending(s: seq<Token>, temperature: real)
    requires temperature > 0.0 && Descending(s)
    ensures Descending(Scaled(s, temperature))
  {
    var r := Scaled(s, temperature);
    forall i, j | 0 <= i < j < |r| ensures r[i].value >= r[j].value {
      DivideAscends(s[j].value, s[i].value, temperature);
    }
  }

  // ---------- topP and minP ----------

  /** The shortest prefix with more than p, or everything. */
  ghost predicate Nucleus(s: seq<Token>, p: real, n: int) {
    && 0 < n <= |s|
    && (forall m :: 0 < m < n ==> Cumulated(s, m) <= p)
    && (n < |s| ==> Cumulated(s, n) > p)
  }

  method TopP(ts: array<Token>, p: real) returns (n: nat)
    requires ts.Length > 0
    ensures p == 1.0 ==> n == ts.Length
    ensures p != 1.0 ==> Nucleus(ts[..], p, n)
  {
    if p == 1.0 {
      return ts.Length;
    }
    var sum := 0.0;
    for i := 0 to ts.Length
      invariant sum == Cumulated(ts[..], i)
      invariant forall m :: 0 < m <= i ==> Cumulated(ts[..], m) <= p
    {
      sum := sum + ts[i].value;
      if sum > p {
        return i + 1;
      }
    }
    return ts.Length;
  }

  /** The first tokens of n, up to the first below p times the largest. */
  ghost predicate MinPrefix(s: seq<Token>, n: int, p: real, m: int)
    requires 0 < n <= |s|
  {
    && 0 <= m <= n
    && (forall i :: 0 <= i < m ==> s[i].value >= s[0].value * p)
    && (m < n ==> s[m].value < s[0].value * p)
  }

  method MinP(ts: array<Token>, n: nat, p: real) returns (m: nat)
    requires 0 < n <= ts.Length
    ensures MinPrefix(ts[..], n, p, m)
  {
    var threshold := ts[0].value * p;
    for i := 0 to n
      invariant forall j :: 0 <= j < i ==> ts[j].value >= threshold
    {
      if ts[i].value < threshold {
        return i;
      }
    }
    return n;
  }

  /** Of sorted probabilities exactly those of at least p times the largest are kept. */
  lemma MinPrefixExact(s: seq<Token>, n: int, p: real, m: int, i: int)
    requires 0 < n <= |s| && Descending(s) && MinPrefix(s, n, p, m) && 0 <= i < n
    ensures i < m <==> s[i].value >= s[0].value * p
  {
    if m < i {
      assert s[m].value >= s[i].value;
    }
  }

  lemma MinPrefixSome(s: seq<Token>, n: int, p: real, m: int)
    requires 0 < n <= |s| && MinPrefix(s, n, p, m) && p <= 1.0 && s[0].value > 0.0
    ensures m > 0
  {
    assert s[0].value * (1.0 - p) >= 0.0;
  }

  // ---------- The choice ----------

  method RunningSums(ts: array<Token>, n: nat) returns (sum: real)
    requires n <= ts.Length
    modifies ts
    ensures sum == Cumulated(old(ts[..]), n)
    ensures forall i :: 0 <= i < n ==> ts[i] == Token(old(ts[i]).id, Cumulated(old(ts[..]), i + 1))
  {
    sum := 0.0;
    ghost var s := ts[..];
    for i := 0 to n
      invariant sum == Cumulated(s, i)
      invariant forall j :: 0 <= j < i ==> ts[j] == Token(s[j].id, Cumulated(s, j + 1))
      invariant forall j :: i <= j < ts.Length ==> ts[j] == s[j]
    {
      sum := sum + ts[i].value;
      ts[i] := Token(ts[i].id, sum);
    }
  }

  /** The first of n ascending values that is not below the target. */
  method BinarySearch(ts: array<Token>, n: nat, target: real) returns (i: nat)
    requires n <= ts.Length && forall a, b :: 0 <= a < b < n ==> ts[a].value <= ts[b].value
    ensures i <= n && (forall a :: 0 <= a < i ==> ts[a].value < target) && (i < n ==> ts[i].value >= target)
  {
    i := 0;
    var j := n;
    while i < j
      invariant 0 <= i <= j <= n
      invariant (forall a :: 0 <= a < i ==> ts[a].value < target) && (forall a :: j <= a < n ==> ts[a].value >= target)
    {
      var h := (i + j) / 2;
      if ts[h].value < target {
        i := h + 1;
      } else {
        j := h;
      }
    }
  }

  /** The random number, as a share of the first m probabilities, falls on token i. */
  ghost predicate FallsOn(s: seq<Token>, m: int, r: real, i: int)
    requires 0 <= i < m <= |s|
  {
    (i == 0 || Cumulated(s, i) < r * Cumulated(s, m)) && r * Cumulated(s, m) <= Cumulated(s, i + 1)
  }

  lemma {:induction false} CumulatedAscends(s: seq<Token>, a: int, b: int)
    requires 0 <= a <= b <= |s| && forall i :: 0 <= i < |s| ==> s[i].value > 0.0
    ensures Cumulated(s, a) <= Cumulated(s, b) && (a < b ==> Cumulated(s, a) < Cumulated(s, b))
  {
    if a < b {
      CumulatedAscends(s, a, b - 1);
    }
  }

  /** One number falls on one token only, so each token has its share of the numbers. */
  lemma FallsOnce(s: seq<Token>, m: int, r: real, i: int, j: int)
    requires 0 <= i < m <= |s| && 0 <= j < m && (forall k :: 0 <= k < |s| ==> s[k].value > 0.0)
    requires FallsOn(s, m, r, i) && FallsOn(s, m, r, j)
    ensures i == j
  {
    if i < j {
      CumulatedAscends(s, i + 1, j);
    } else if j < i {
      CumulatedAscends(s, j + 1, i);
    }
  }

  function Target(r: real, total: real): real { r * total }

  lemma FallsThere(s: seq<Token>, m: int, r: real, target: real, i: int)
    requires 0 <= i < m <= |s| && target == Target(r, Cumulated(s, m))
    requires (i == 0 || Cumulated(s, i) < target) && target <= Cumulated(s, i + 1)
    ensures FallsOn(s, m, r, i)
  {
  }

  lemma Divided(a: real, r: real, total: real)
    requires total > 0.0
    ensures a < r * total <==> a / total < r
    ensures r * total <= a <==> r <= a / total
  {
    var q := a / total;
    assert q * total == a;
    if q < r {
      assert (r - q) * total > 0.0;
    } else {
      assert (q - r) * total >= 0.0;
    }
  }

  /** The numbers that fall on token i of the first m: an interval as long as its probability among them. */
  ghost predicate InShare(s: seq<Token>, m: int, r: real, i: int)
    requires 0 <= i < m <= |s| && Cumulated(s, m) > 0.0
  {
    var total := Cumulated(s, m);
    (i == 0 || Cumulated(s, i) / total < r) && r <= Cumulated(s, i + 1) / total
  }

  lemma ShareExact(s: seq<Token>, m: int, r: real, i: int)
    requires 0 <= i < m <= |s| && forall k :: 0 <= k < |s| ==> s[k].value > 0.0
    ensures Cumulated(s, m) > 0.0 && (FallsOn(s, m, r, i) <==> InShare(s, m, r, i))
    ensures var total := Cumulated(s, m); Cumulated(s, i + 1) / total == Cumulated(s, i) / total + s[i].value / total
    ensures Cumulated(s, 0) / Cumulated(s, m) == 0.0
  {
    CumulatedPositive(s, m);
    var total := Cumulated(s, m);
    Divided(Cumulated(s, i), r, total);
    Divided(Cumulated(s, i + 1), r, total);
    SumDivided(Cumulated(s, i), s[i].value, total);
  }

  lemma SumDivided(a: real, b: real, total: real)
    requires total > 0.0
    ensures (a + b) / total == a / total + b / total
  {
    assert (a / total + b / total) * total == a + b;
  }

  datatype Sampler = Sampler(topK: int, topP: real, minP: real, temperature: real)

  function Clamp(x: real): real { if x < 0.0 then 0.0 else if x >= 1.0 then 1.0 else x }

  function NewSampler(temperature: real, topK: int, topP: real, minP: real): (s: Sampler)
    ensures ValidSampler(s) && s.topK == topK
    ensures (0.0 <= topP <= 1.0 ==> s.topP == topP) && (0.0 <= minP <= 1.0 ==> s.minP == minP)
    ensures temperature >= 0.0 ==> s.temperature == temperature
    ensures temperature <= 0.0 ==> s.temperature == 0.0
    ensures (topP <= 0.0 ==> s.topP == 0.0) && (topP >= 1.0 ==> s.topP == 1.0)
    ensures (minP <= 0.0 ==> s.minP == 0.0) && (minP >= 1.0 ==> s.minP == 1.0)
  {
    Sampler(topK, Clamp(topP), Clamp(minP), if temperature < 0.0 then 0.0 else temperature)
  }

  predicate ValidSampler(s: Sampler) { 0.0 <= s.topP <= 1.0 && 0.0 <= s.minP <= 1.0 && s.temperature >= 0.0 }

  /** greedy: the first of the largest. */
  ghost predicate FirstLargest(s: seq<Token>, t: Token) {
    exists i :: 0 <= i < |s| && s[i] == t
             && (forall j :: 0 <= j < i ==> s[j].value < t.value) && forall j :: i <= j < |s| ==> s[j].value <= t.value
  }

  method Greedy(tokens: seq<Token>) returns (max: Token)
    requires tokens != []
    ensures FirstLargest(tokens, max)
  {
    max := tokens[0];
    ghost var at := 0;
    for i := 1 to |tokens|
      invariant 0 <= at < i && tokens[at] == max
      invariant forall j :: 0 <= j < at ==> tokens[j].value < max.value
      invariant forall j :: at <= j < i ==> tokens[j].value <= max.value
    {
      if tokens[i].value > max.value {
        max, at := tokens[i], i;
      }
    }
  }

  /** The stages of a choice: the top tokens, their probabilities, how many top-p and then min-p keep, and the index. */
  datatype Choice = Choice(top: seq<Token>, probs: seq<Token>, nucleus: int, kept: int, index: int)

  ghost predicate Chosen(sm: Sampler, exp: real -> real, tokens: seq<Token>, r: real, c: Choice) {
    && IsTop(c.top, tokens, Kept(|tokens|, sm.topK))
    && IsSoftmax(exp, Scaled(c.top, Max(sm.temperature, COLDEST)), c.probs)
    && Picks(sm, c.probs, r, c.nucleus, c.kept, c.index)
  }

  /** Everything is the shortest prefix above one, when it sums to one. */
  lemma NucleusAll(s: seq<Token>)
    requires s != [] && Cumulated(s, |s|) == 1.0 && forall i :: 0 <= i < |s| ==> s[i].value > 0.0
    ensures Nucleus(s, 1.0, |s|)
  {
    forall m | 0 < m < |s| ensures Cumulated(s, m) <= 1.0 {
      CumulatedAscends(s, m, |s|);
    }
  }

  /** The share of the total is no more than the total, and not below zero. */
  lemma ShareOfTotal(r: real, total: real)
    requires 0.0 <= r < 1.0 && total > 0.0
    ensures 0.0 <= Target(r, total) < total
  {
    assert (1.0 - r) * total > 0.0;
  }

  /** The first half of sample: the top tokens and their probabilities. */
  method Distribution(sm: Sampler, exp: real -> real, tokens: seq<Token>)
    returns (ts: array<Token>, ghost top: seq<Token>)
    requires Exponential(exp) && tokens != []
    ensures fresh(ts) && ts.Length == |top| > 0
    ensures IsTop(top, tokens, Kept(|tokens|, sm.topK))
    ensures IsSoftmax(exp, Scaled(top, Max(sm.temperature, COLDEST)), ts[..])
  {
    hide Exponential, IsTop, IsSoftmax, Scaled;
    var r := TopK(tokens, sm.topK);
    top := r;
    TopSome(top, tokens, sm.topK);
    ts := new Token[|r|](i requires 0 <= i < |r| => r[i]);
    assert ts[..] == top;
    Temperature(ts, sm.temperature);
    Softmax(exp, ts);
  }

  /** What sample keeps of probabilities, and the token a random number falls on. */
  ghost predicate Picks(sm: Sampler, probs: seq<Token>, r: real, nucleus: int, kept: int, index: int) {
    && Nucleus(probs, sm.topP, nucleus)
    && MinPrefix(probs, nucleus, sm.minP, kept)
    && 0 <= index < kept
    && FallsOn(probs, kept, r, index)
  }

  ghost predicate Probabilities(s: seq<Token>) {
    s != [] && Cumulated(s, |s|) == 1.0 && forall i :: 0 <= i < |s| ==> s[i].value > 0.0
  }

  /** The second half of sample. */
  method Pick(sm: Sampler, ts: array<Token>, r: real) returns (t: Token, ghost n: nat, ghost m: nat, ghost index: nat)
    requires ValidSampler(sm) && 0.0 <= r < 1.0 && Probabilities(ts[..])
    modifies ts
    ensures Picks(sm, old(ts[..]), r, n, m, index) && t.id == old(ts[index]).id
  {
    hide Nucleus, MinPrefix, Cumulated, Target, FallsOn;
    ghost var probs := ts[..];
    var nucleus := TopP(ts, sm.topP);
    NucleusAll(probs);
    NucleusSome(probs, sm.topP, nucleus);
    var kept := MinP(ts, nucleus, sm.minP);
    MinPrefixSome(probs, nucleus, sm.minP, kept);
    var sum := RunningSums(ts, kept);
    forall a, b | 0 <= a < b < kept ensures ts[a].value <= ts[b].value {
      CumulatedAscends(probs, a + 1, b + 1);
    }
    CumulatedPositive(probs, kept);
    ShareOfTotal(r, sum);
    var i := BinarySearch(ts, kept, Target(r, ts[kept - 1].value));
    assert ts[kept - 1].value == sum && i < kept;
    assert i > 0 ==> ts[i - 1].value == Cumulated(probs, i);
    FallsThere(probs, kept, r, Target(r, sum), i);
    n, m, index := nucleus, kept, i;
    t := ts[i];
  }

  lemma NucleusSome(s: seq<Token>, p: real, n: int)
    requires Nucleus(s, p, n)
    ensures 0 < n <= |s|
  {
  }

  /** sample: the choice of a token. */
  method Sample(sm: Sampler, exp: real -> real, tokens: seq<Token>, r: real) returns (t: Token, ghost c: Choice)
    requires ValidSampler(sm) && Exponential(exp) && tokens != [] && 0.0 <= r < 1.0
    ensures sm.temperature == 0.0 ==> FirstLargest(tokens, t)
    ensures sm.temperature > 0.0 ==> Chosen(sm, exp, tokens, r, c) && t.id == c.top[c.index].id
    ensures sm.temperature > 0.0 ==>
              && (c.index > 0 ==> Cumulated(c.probs, c.index) < r * Cumulated(c.probs, c.kept))
              && r * Cumulated(c.probs, c.kept) <= Cumulated(c.probs, c.index + 1)
  {
    hide Exponential, IsTop, IsSoftmax, Picks, FirstLargest, Cumulated;
    if sm.temperature == 0.0 {
      t := Greedy(tokens);
      c := Choice([], [], 0, 0, 0);
      return;
    }
    var ts;
    ghost var top, n, m, index;
    ts, top := Distribution(sm, exp, tokens);
    ghost var probs := ts[..];
    SoftmaxFacts(exp, Scaled(top, Max(sm.temperature, COLDEST)), probs);
    t, n, m, index := Pick(sm, ts, r);
    c := Choice(top, probs, n, m, index);
    PicksWithin(sm, probs, r, n, m, index);
  }

  lemma PicksWithin(sm: Sampler, probs: seq<Token>, r: real, n: int, m: int, index: int)
    requires Picks(sm, probs, r, n, m, index)
    ensures 0 <= index < m <= n <= |probs|
    ensures index > 0 ==> Cumulated(probs, index) < r * Cumulated(probs, m)
    ensures r * Cumulated(probs, m) <= Cumulated(probs, index + 1)
  {
    hide Cumulated;
  }

  lemma TopSome(top: seq<Token>, tokens: seq<Token>, k: int)
    requires IsTop(top, tokens, Kept(|tokens|, k)) && tokens != []
    ensures top != []
  {
  }

  lemma SoftmaxFacts(exp: real -> real, s: seq<Token>, r: seq<Token>)
    requires IsSoftmax(exp, s, r)
    ensures |r| == |s| && Cumulated(r, |r|) == 1.0
    ensures forall i :: 0 <= i < |r| ==> r[i].id == s[i].id && r[i].value > 0.0
  {
  }

  lemma NucleusMeans(s: seq<Token>, p: real, n: int, i: int)
    requires Probabilities(s) && 0.0 <= p && Nucleus(s, p, n) && 0 <= i < n
    ensures n <= |s| && Cumulated(s, i) <= p && (p < 1.0 ==> Cumulated(s, n) > p)
  {
  }

  lemma PickMeans(sm: Sampler, probs: seq<Token>, r: real, n: int, m: int, index: int)
    requires ValidSampler(sm) && Probabilities(probs) && Picks(sm, probs, r, n, m, index)
    ensures 0 <= index < m <= n <= |probs|
    ensures Cumulated(probs, index) <= sm.topP
    ensures probs[index].value >= probs[0].value * sm.minP
    ensures sm.topP < 1.0 ==> Cumulated(probs, n) > sm.topP
  {
    hide FallsOn, Cumulated, Nucleus;
    NucleusMeans(probs, sm.topP, n, index);
  }

  /** A token is chosen exactly by the numbers in its share. */
  lemma ChosenByShare(sm: Sampler, exp: real -> real, tokens: seq<Token>, r: real, c: Choice, i: int)
    requires ValidSampler(sm) && Exponential(exp) && tokens != [] && Chosen(sm, exp, tokens, r, c) && 0 <= i < c.kept
    ensures c.kept <= |c.probs| && Cumulated(c.probs, c.kept) > 0.0
    ensures c.index == i <==> InShare(c.probs, c.kept, r, i)
  {
    hide Exponential, IsSoftmax, IsTop, Picks, Cumulated, FallsOn, InShare;
    SoftmaxFacts(exp, Scaled(c.top, Max(sm.temperature, COLDEST)), c.probs);
    PicksWithin(sm, c.probs, r, c.nucleus, c.kept, c.index);
    PicksFalls(sm, c.probs, r, c.nucleus, c.kept, c.index);
    ShareExact(c.probs, c.kept, r, i);
    if FallsOn(c.probs, c.kept, r, i) {
      FallsOnce(c.probs, c.kept, r, i, c.index);
    }
  }

  lemma PicksFalls(sm: Sampler, probs: seq<Token>, r: real, n: int, m: int, index: int)
    requires Picks(sm, probs, r, n, m, index)
    ensures 0 <= index < m <= |probs| && FallsOn(probs, m, r, index)
  {
  }

  /** The chosen token has fewer than k larger ones; the tokens before it have at most p in all; and its
      probability is at least min-p of the largest. */
  lemma ChoiceMeans(sm: Sampler, exp: real -> real, tokens: seq<Token>, r: real, c: Choice)
    requires ValidSampler(sm) && Exponential(exp) && tokens != [] && Chosen(sm, exp, tokens, r, c)
    ensures 0 <= c.index < |c.top| == |c.probs| && c.nucleus <= |c.probs|
    ensures |Larger(tokens, c.top[c.index].value)| <= c.index < Kept(|tokens|, sm.topK)
    ensures Descending(c.probs) && Cumulated(c.probs, c.index) <= sm.topP
    ensures c.probs[c.index].value >= c.probs[0].value * sm.minP
    ensures sm.topP < 1.0 ==> Cumulated(c.probs, c.nucleus) > sm.topP
  {
    hide Exponential, IsSoftmax, Larger, IsTop, Picks, Cumulated;
    var k, scaled := Kept(|tokens|, sm.topK), Scaled(c.top, Max(sm.temperature, COLDEST));
    TopDescends(c.top, tokens, k);
    SoftmaxFacts(exp, scaled, c.probs);
    PickMeans(sm, c.probs, r, c.nucleus, c.kept, c.index);
    FewAbove(c.top, tokens, k, c.index);
    ScaledDescending(c.top, Max(sm.temperature, COLDEST));
    SoftmaxDescending(exp, scaled, c.probs);
  }

  lemma TopDescends(r: seq<Token>, s: seq<Token>, k: int)
    requires IsTop(r, s, k)
    ensures Descending(r) && |r| == k
  {
  }
}
