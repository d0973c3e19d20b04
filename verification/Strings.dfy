/** Substring search on sequences, shared by the tokenizers and the parsers. */
module Strings {

  predicate OccursAt<T(==)>(s: seq<T>, sub: seq<T>, i: int) {
    0 <= i <= |s| - |sub| && s[i..i + |sub|] == sub
  }

  predicate Contains<T(==)>(s: seq<T>, sub: seq<T>) { Index(s, sub) >= 0 }

  /** The first place sub occurs in s at or after i, or -1. */
  function IndexFrom<T(==)>(s: seq<T>, sub: seq<T>, i: int): (r: int)
    requires 0 <= i <= |s|
    ensures r >= 0 ==> i <= r && OccursAt(s, sub, r)
    ensures forall j :: i <= j && (r < 0 || j < r) ==> !OccursAt(s, sub, j)
    decreases |s| - i
  {
    if OccursAt(s, sub, i) then i
    else if i == |s| then -1
    else IndexFrom(s, sub, i + 1)
  }

  function Index<T(==)>(s: seq<T>, sub: seq<T>): (r: int)
    ensures r >= 0 ==> OccursAt(s, sub, r)
    ensures forall j :: 0 <= j && (r < 0 || j < r) ==> !OccursAt(s, sub, j)
  {
    IndexFrom(s, sub, 0)
  }

  lemma IndexUnique<T>(s: seq<T>, sub: seq<T>, i: int)
    requires OccursAt(s, sub, i) && forall j :: 0 <= j < i ==> !OccursAt(s, sub, j)
    ensures Index(s, sub) == i
  {
  }

  lemma NoIndex<T>(s: seq<T>, sub: seq<T>)
    requires forall j :: 0 <= j ==> !OccursAt(s, sub, j)
    ensures Index(s, sub) < 0
  {
  }

  lemma Associative<T>(a: seq<T>, b: seq<T>, c: seq<T>)
    ensures (a + b) + c == a + (b + c)
  {
  }

  lemma SliceSlice<T>(s: seq<T>, lo: int, hi: int, a: int, b: int)
    requires 0 <= lo <= hi <= |s| && 0 <= a <= b <= hi - lo
    ensures s[lo..hi][a..b] == s[lo + a..lo + b]
  {
    var part := s[lo..hi];
    assert forall k :: 0 <= k < b - a ==> part[a..b][k] == part[a + k] == s[lo + (a + k)] == s[lo + a..lo + b][k];
  }

  lemma TakeSlice<T>(s: seq<T>, n: int, a: int, b: int)
    requires 0 <= a <= b <= n <= |s|
    ensures s[..n][a..b] == s[a..b]
  {
    assert forall k :: 0 <= k < b - a ==> s[..n][a..b][k] == s[..n][a + k] == s[a + k] == s[a..b][k];
  }

  lemma AppendSlice<T>(s: seq<T>, t: seq<T>, a: int, b: int)
    requires 0 <= a <= b <= |s|
    ensures (s + t)[a..b] == s[a..b]
  {
    assert forall k :: 0 <= k < b - a ==> (s + t)[a..b][k] == (s + t)[a + k] == s[a + k] == s[a..b][k];
  }

  /** Part of a string without an occurrence has none either. */
  lemma PartContainsNot<T>(s: seq<T>, sub: seq<T>, lo: int, hi: int)
    requires 0 <= lo <= hi <= |s| && !Contains(s, sub)
    ensures !Contains(s[lo..hi], sub)
  {
    var part := s[lo..hi];
    forall j | 0 <= j ensures !OccursAt(part, sub, j) {
      if 0 <= j <= |part| - |sub| {
        SliceSlice(s, lo, hi, j, j + |sub|);
        assert !OccursAt(s, sub, lo + j);
      }
    }
    NoIndex(part, sub);
  }
}
