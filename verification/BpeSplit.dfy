/** The pre-tokenizer (model/bytepairencoding.go, split): each regular expression cuts the parts the one before it
    left. Matches are oracles; the text between them is not cut as the name says. */
module BpeSplit {
  import opened Strings
  import opened Vocabularies
  import opened MergeList

  /** A regular-expression match: where it starts and how long it is. */
  datatype Match = Match(index: int, length: int)

  /** Matches come in order without overlap. */
  ghost predicate InOrder(r: Text, ms: seq<Match>) {
    && (forall k :: 0 <= k < |ms| ==> 0 <= ms[k].index && 0 <= ms[k].length && ms[k].index + ms[k].length <= |r|)
    && (forall j, k :: 0 <= j < k < |ms| ==> ms[j].index + ms[j].length <= ms[k].index)
  }

  function End(ms: seq<Match>): int {
    if ms == [] then 0 else ms[|ms| - 1].index + ms[|ms| - 1].length
  }

  /** What split yields for the matches of one expression; before a match it yields everything from the start
      of the part, not from the end of the previous match. */
  function Yielded(r: Text, ms: seq<Match>): seq<Text>
    requires InOrder(r, ms)
  {
    if ms == [] then []
    else
      var n := |ms| - 1;
      InOrderPrefix(r, ms, n);
      Yielded(r, ms[..n]) + Around(r, End(ms[..n]), ms[n])
  }

  /** A match that is found when the text up to e has been yielded. */
  function Around(r: Text, e: int, m: Match): seq<Text>
    requires 0 <= m.index <= m.index + m.length <= |r|
  {
    (if e != m.index then [r[..m.index]] else []) + [r[m.index..m.index + m.length]]
  }

  function SplitParts(r: Text, ms: seq<Match>): seq<Text>
    requires InOrder(r, ms)
  {
    Yielded(r, ms) + if End(ms) < |r| then [r[End(ms)..]] else []
  }

  /** The text yielded before the last match, besides what earlier matches yielded. */
  function GapText(r: Text, ms: seq<Match>): Text
    requires InOrder(r, ms) && ms != []
  {
    if End(ms[..|ms| - 1]) != ms[|ms| - 1].index then r[..ms[|ms| - 1].index] else []
  }

  lemma YieldedSnoc(r: Text, ms: seq<Match>)
    requires InOrder(r, ms) && ms != []
    ensures InOrder(r, ms[..|ms| - 1])
    ensures var m := ms[|ms| - 1];
            Concat(Yielded(r, ms))
              == Concat(Yielded(r, ms[..|ms| - 1])) + GapText(r, ms) + r[m.index..m.index + m.length]
  {
    var m, front := ms[|ms| - 1], ms[..|ms| - 1];
    YieldedLast(r, ms);
    hide Yielded;
    var gap := if End(front) != m.index then [r[..m.index]] else [];
    var hit := [r[m.index..m.index + m.length]];
    Associative(Yielded(r, front), gap, hit);
    ConcatAppend(Yielded(r, front) + gap, hit);
    ConcatAppend(Yielded(r, front), gap);
    assert Concat(hit) == hit[0] + Concat([]);
    assert gap != [] ==> Concat(gap) == gap[0] + Concat([]);
  }

  lemma {:induction false} YieldedLength(r: Text, ms: seq<Match>)
    requires InOrder(r, ms)
    ensures 0 <= End(ms) <= |r| && |Concat(Yielded(r, ms))| >= End(ms)
    ensures Concat(Yielded(r, ms)) == r[..End(ms)] <==> NoGap(ms)
    ensures |Concat(Yielded(r, ms))| == End(ms) ==> NoGap(ms)
  {
    if ms != [] {
      var n := |ms| - 1;
      var m, front := ms[n], ms[..n];
      YieldedSnoc(r, ms);
      hide Concat, Yielded;
      YieldedLength(r, front);
      YieldedCase(r, m, End(front), Concat(Yielded(r, front)), GapText(r, ms));
    }
  }

  /** One more match after text x that ends at e. */
  lemma YieldedCase(r: Text, m: Match, e: int, x: Text, gap: Text)
    requires 0 <= e <= m.index && 0 <= m.length && m.index + m.length <= |r| && |x| >= e
    requires gap == if e != m.index then r[..m.index] else []
    ensures var y := x + gap + r[m.index..m.index + m.length];
            && |y| >= m.index + m.length
            && (|y| == m.index + m.length ==> |x| == e && (e == 0 || e == m.index))
            && (x == r[..e] && (e == 0 || e == m.index) ==> y == r[..m.index + m.length])
  {
    assert r[..m.index] + r[m.index..m.index + m.length] == r[..m.index + m.length];
    if x == r[..e] && e == 0 {
      assert x == [];
    }
  }

  /** Every match starts where the one before it ended, unless nothing has been consumed yet. */
  predicate NoGap(ms: seq<Match>) {
    ms == [] || (NoGap(ms[..|ms| - 1]) && (End(ms[..|ms| - 1]) == 0 || End(ms[..|ms| - 1]) == ms[|ms| - 1].index))
  }

  /** split keeps the text exactly when no match after the first leaves a gap. */
  lemma SplitKeepsText(r: Text, ms: seq<Match>)
    requires InOrder(r, ms)
    ensures Concat(SplitParts(r, ms)) == r <==> NoGap(ms)
  {
    YieldedLength(r, ms);
    var tail := if End(ms) < |r| then [r[End(ms)..]] else [];
    ConcatAppend(Yielded(r, ms), tail);
    assert tail != [] ==> Concat(tail) == r[End(ms)..] + Concat([]) && tail[1..] == [];
    assert r == r[..End(ms)] + r[End(ms)..];
  }

  /** The loop over the matches of one expression in one part. */
  method SplitPart(r: Text, ms: seq<Match>) returns (parts: seq<Text>)
    requires InOrder(r, ms)
    ensures parts == SplitParts(r, ms)
  {
    hide Yielded, InOrder, End;
    parts := [];
    var offset := 0;
    NothingYielded(r);
    for k := 0 to |ms|
      invariant InOrder(r, ms[..k]) && parts == Yielded(r, ms[..k]) && offset == End(ms[..k])
    {
      YieldedNext(r, ms, k);
      if offset != ms[k].index {
        parts := parts + [r[..ms[k].index]];
      }
      parts := parts + [r[ms[k].index..ms[k].index + ms[k].length]];
      offset := ms[k].index + ms[k].length;
    }
    assert ms[..|ms|] == ms;
    EndWithin(r, ms);
    if offset < |r| {
      parts := parts + [r[offset..]];
    }
  }

  lemma EndWithin(r: Text, ms: seq<Match>)
    requires InOrder(r, ms)
    ensures 0 <= End(ms) <= |r|
  {
  }

  lemma NothingYielded(r: Text)
    ensures InOrder(r, []) && Yielded(r, []) == [] && End([]) == 0
  {
  }

  lemma YieldedNext(r: Text, ms: seq<Match>, k: int)
    requires InOrder(r, ms) && 0 <= k < |ms|
    ensures InOrder(r, ms[..k]) && InOrder(r, ms[..k + 1]) && 0 <= ms[k].index <= ms[k].index + ms[k].length <= |r|
    ensures End(ms[..k + 1]) == ms[k].index + ms[k].length
    ensures Yielded(r, ms[..k + 1]) == Yielded(r, ms[..k]) + Around(r, End(ms[..k]), ms[k])
  {
    hide Yielded, Around;
    InOrderPrefix(r, ms, k);
    InOrderPrefix(r, ms, k + 1);
    var f := ms[..k + 1];
    assert f[..k] == ms[..k] && f[k] == ms[k];
    YieldedLast(r, f);
  }

  lemma YieldedLast(r: Text, ms: seq<Match>)
    requires InOrder(r, ms) && ms != []
    ensures var n := |ms| - 1;
            InOrder(r, ms[..n]) && Yielded(r, ms) == Yielded(r, ms[..n]) + Around(r, End(ms[..n]), ms[n])
  {
    hide Around;
    InOrderPrefix(r, ms, |ms| - 1);
  }

  lemma InOrderPrefix(r: Text, ms: seq<Match>, k: int)
    requires InOrder(r, ms) && 0 <= k <= |ms|
    ensures InOrder(r, ms[..k])
  {
  }

  /** A match that leaves a gap repeats all the text before it. */
  lemma GapRepeats()
    ensures InOrder([97, 49, 98, 50], [Match(1, 1), Match(3, 1)])
    ensures SplitParts([97, 49, 98, 50], [Match(1, 1), Match(3, 1)]) == [[97], [49], [97, 49, 98], [50]]
    ensures Concat(SplitParts([97, 49, 98, 50], [Match(1, 1), Match(3, 1)])) != [97, 49, 98, 50]
  {
    var r, one, two := [97, 49, 98, 50], Match(1, 1), Match(3, 1);
    assert [one, two][..1] == [one] && [one][..0] == [];
    NothingYielded(r);
    assert Yielded(r, [one]) == [[97], [49]] by {
      assert r[..1] == [97] && r[1..2] == [49];
    }
    assert r[..3] == [97, 49, 98] && r[3..4] == [50];
    YieldedLast(r, [one, two]);
    hide Yielded;
    SplitKeepsText(r, [one, two]);
    assert !NoGap([one, two]);
  }

  // ---------- All expressions ----------

  /** Where an expression matches in a text. */
  type Finder = Text -> seq<Match>

  ghost predicate Ordered(find: Finder) { forall r :: InOrder(r, find(r)) }

  /** Every part cut by one expression. */
  function SplitEach(find: Finder, parts: seq<Text>): seq<Text>
    requires Ordered(find)
  {
    if parts == [] then []
    else SplitEach(find, parts[..|parts| - 1]) + SplitParts(parts[|parts| - 1], find(parts[|parts| - 1]))
  }

  ghost predicate AllOrdered(finds: seq<Finder>) { forall k :: 0 <= k < |finds| ==> Ordered(finds[k]) }

  function SplitAll(finds: seq<Finder>, s: Text): seq<Text>
    requires AllOrdered(finds)
  {
    if finds == [] then [s] else SplitEach(finds[|finds| - 1], SplitAll(finds[..|finds| - 1], s))
  }

  /** No expression leaves a gap in any part it is given. */
  predicate NoGaps(find: Finder, parts: seq<Text>) { forall k :: 0 <= k < |parts| ==> NoGap(find(parts[k])) }

  predicate GapFree(finds: seq<Finder>, s: Text)
    requires AllOrdered(finds)
  {
    finds == [] || (var n := |finds| - 1; GapFree(finds[..n], s) && NoGaps(finds[n], SplitAll(finds[..n], s)))
  }

  method Split(finds: seq<Finder>, s: Text) returns (parts: seq<Text>)
    requires AllOrdered(finds)
    ensures parts == SplitAll(finds, s)
  {
    hide SplitParts;
    parts := [s];
    for k := 0 to |finds|
      invariant parts == SplitAll(finds[..k], s)
    {
      assert finds[..k + 1][..k] == finds[..k];
      var more: seq<Text> := [];
      for i := 0 to |parts|
        invariant more == SplitEach(finds[k], parts[..i])
      {
        assert parts[..i + 1][..i] == parts[..i];
        var cut := SplitPart(parts[i], finds[k](parts[i]));
        more := more + cut;
      }
      assert parts[..|parts|] == parts;
      parts := more;
    }
    assert finds[..|finds|] == finds;
  }

  lemma PartsLength(r: Text, ms: seq<Match>)
    requires InOrder(r, ms)
    ensures |Concat(SplitParts(r, ms))| >= |r|
    ensures |Concat(SplitParts(r, ms))| == |r| ==> NoGap(ms)
    ensures NoGap(ms) ==> Concat(SplitParts(r, ms)) == r
  {
    SplitKeepsText(r, ms);
    YieldedLength(r, ms);
    var tail := if End(ms) < |r| then [r[End(ms)..]] else [];
    ConcatAppend(Yielded(r, ms), tail);
    assert tail != [] ==> Concat(tail) == r[End(ms)..] + Concat([]) && tail[1..] == [];
  }

  /** What splitting the parts means for all but the last of them, and for the last. */
  lemma LastPart(find: Finder, parts: seq<Text>)
    requires Ordered(find) && parts != []
    ensures var front, last := parts[..|parts| - 1], parts[|parts| - 1];
            && Concat(parts) == Concat(front) + last
            && Concat(SplitEach(find, parts)) == Concat(SplitEach(find, front)) + Concat(SplitParts(last, find(last)))
            && (NoGaps(find, parts) <==> NoGaps(find, front) && NoGap(find(last)))
  {
    var front, last := parts[..|parts| - 1], parts[|parts| - 1];
    assert parts == front + [last];
    assert Concat([last]) == last + Concat([]);
    hide Concat, SplitParts, NoGap;
    ConcatAppend(SplitEach(find, front), SplitParts(last, find(last)));
    ConcatAppend(front, [last]);
  }

  lemma {:induction false} EachLength(find: Finder, parts: seq<Text>)
    requires Ordered(find)
    ensures |Concat(SplitEach(find, parts))| >= |Concat(parts)|
    ensures |Concat(SplitEach(find, parts))| == |Concat(parts)| ==> NoGaps(find, parts)
    ensures NoGaps(find, parts) ==> Concat(SplitEach(find, parts)) == Concat(parts)
  {
    if parts != [] {
      hide SplitParts, SplitEach, NoGap, NoGaps, Concat;
      var front, last := parts[..|parts| - 1], parts[|parts| - 1];
      EachLength(find, front);
      PartsLength(last, find(last));
      LastPart(find, parts);
    }
  }

  /** Splitting never shortens the text, and keeps it exactly if no expression leaves a gap in any part. */
  lemma {:induction false} SplitAllKeeps(finds: seq<Finder>, s: Text)
    requires AllOrdered(finds)
    ensures |Concat(SplitAll(finds, s))| >= |s|
    ensures Concat(SplitAll(finds, s)) == s <==> GapFree(finds, s)
    ensures |Concat(SplitAll(finds, s))| == |s| ==> GapFree(finds, s)
  {
    hide SplitEach, NoGaps;
    if finds == [] {
      assert Concat([s]) == s + Concat([]);
    } else {
      var n := |finds| - 1;
      SplitAllKeeps(finds[..n], s);
      EachLength(finds[n], SplitAll(finds[..n], s));
    }
  }
}
