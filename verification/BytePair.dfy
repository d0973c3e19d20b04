/** The byte-pair merge loop (model/bytepairencoding.go): every merge joins a pair of lowest rank among the
    current neighbours whose join is a token, until there is none. */
module BytePairs {
  import opened Vocabularies
  import opened MergeList
  import opened Sets
  import opened SentencePieces

  // ---------- The reference: lowest rank first, ties in any order ----------

  predicate Mergeable(v: Vocabulary, ps: Pieces, k: int) {
    0 <= k < |ps| - 1 && v.Rank(ps[k], ps[k + 1]) >= 0 && v.Has(ps[k] + ps[k + 1])
  }

  ghost predicate LowestRank(v: Vocabulary, ps: Pieces, k: int) {
    Mergeable(v, ps, k) && forall j :: Mergeable(v, ps, j) ==> v.Rank(ps[k], ps[k + 1]) <= v.Rank(ps[j], ps[j + 1])
  }

  ghost predicate MergeStep(v: Vocabulary, ps: Pieces, ps': Pieces) {
    exists k :: LowestRank(v, ps, k) && ps' == MergeAt(ps, k)
  }

  /** A run of merges from ps to ps', each of a pair of lowest rank. */
  ghost predicate IsRun(v: Vocabulary, trace: seq<Pieces>, ps: Pieces, ps': Pieces) {
    && |trace| >= 1 && trace[0] == ps && trace[|trace| - 1] == ps'
    && forall i :: 0 <= i < |trace| - 1 ==> MergeStep(v, trace[i], trace[i + 1])
  }

  /** Every piece is one rune or a token. */
  ghost predicate AllTokens(v: Vocabulary, ps: Pieces) {
    forall k :: 0 <= k < |ps| ==> |ps[k]| == 1 || v.Has(ps[k])
  }

  /** A run never changes the text and only makes tokens. */
  lemma {:induction false} RunKeeps(v: Vocabulary, trace: seq<Pieces>, ps: Pieces, ps': Pieces)
    requires IsRun(v, trace, ps, ps') && AllTokens(v, ps)
    ensures Concat(ps') == Concat(ps) && AllTokens(v, ps')
    decreases |trace|
  {
    if |trace| > 1 {
      var n := |trace| - 1;
      RunKeeps(v, trace[..n], ps, trace[n - 1]);
      assert MergeStep(v, trace[n - 1], trace[n - 1 + 1]);
      var mid := trace[n - 1];
      var k :| LowestRank(v, mid, k) && ps' == MergeAt(mid, k);
      MergeKeepsText(mid, k);
      MergeKeepsTokens(v, mid, k);
    }
  }

  lemma MergeKeepsTokens(v: Vocabulary, ps: Pieces, k: int)
    requires AllTokens(v, ps) && Mergeable(v, ps, k)
    ensures AllTokens(v, MergeAt(ps, k))
  {
    var r := MergeAt(ps, k);
    forall j | 0 <= j < |r| ensures |r[j]| == 1 || v.Has(r[j]) {
      assert r[j] == if j < k then ps[j] else if j == k then ps[k] + ps[k + 1] else ps[j + 1];
    }
  }

  lemma RunExtends(v: Vocabulary, trace: seq<Pieces>, ps: Pieces, mid: Pieces, k: int)
    requires IsRun(v, trace, ps, mid) && LowestRank(v, mid, k)
    ensures IsRun(v, trace + [MergeAt(mid, k)], ps, MergeAt(mid, k))
  {
    var t := trace + [MergeAt(mid, k)];
    forall i | 0 <= i < |t| - 1 ensures MergeStep(v, t[i], t[i + 1]) {
      if i < |trace| - 1 {
        assert MergeStep(v, trace[i], trace[i + 1]);
      }
    }
  }

  // ---------- Heap entries ----------

  datatype Pair = Pair(a: int, b: int, rank: int, value: Text)

  /** What the heap's Pop promises: some entry of lowest rank leaves it. */
  method PopLowest(q: seq<Pair>) returns (c: Pair, rest: seq<Pair>)
    requires q != []
    ensures multiset(q) == multiset(rest) + multiset{c}
    ensures forall d :: d in q ==> c.rank <= d.rank
    ensures |rest| == |q| - 1
  {
    var best := 0;
    for i := 1 to |q|
      invariant 0 <= best < |q|
      invariant forall j :: 0 <= j < i ==> q[best].rank <= q[j].rank
    {
      if q[i].rank < q[best].rank {
        best := i;
      }
    }
    c, rest := q[best], q[..best] + q[best + 1..];
    assert q == q[..best] + [q[best]] + q[best + 1..];
    assert multiset(q) == multiset(q[..best]) + multiset{c} + multiset(q[best + 1..]);
  }

  function PairFor(v: Vocabulary, text: Text, a: int, b: int, e: int): Pair
    requires 0 <= a <= b <= e <= |text|
  {
    Pair(a, b, v.Rank(text[a..b], text[b..e]), text[a..e])
  }

  ghost predicate MadeFor(v: Vocabulary, text: Text, starts: seq<int>, c: Pair, e: int) {
    WasPair(text, starts, c.a, c.b, e) && c == PairFor(v, text, c.a, c.b, e) && c.rank >= 0
  }

  ghost predicate Sound(v: Vocabulary, text: Text, starts: seq<int>, c: Pair) {
    exists e :: MadeFor(v, text, starts, c, e)
  }

  ghost predicate AllSound(v: Vocabulary, text: Text, starts: seq<int>, q: seq<Pair>) {
    forall c :: c in q ==> Sound(v, text, starts, c)
  }

  /** The heap entry of live pieces k and k+1. */
  function PairOf(v: Vocabulary, text: Text, starts: seq<int>, k: int): Pair
    requires 0 <= k < |starts| - 1 && 0 <= starts[k] <= starts[k + 1] <= EndOf(text, starts, k + 1) <= |text|
  {
    PairFor(v, text, starts[k], starts[k + 1], EndOf(text, starts, k + 1))
  }

  /** Every mergeable pair among the first n pairs of live pieces is in the heap. */
  ghost predicate CompleteTo(v: Vocabulary, text: Text, starts: seq<int>, q: seq<Pair>, n: int)
    requires Starts(text, starts)
  {
    forall k {:trigger PairOf(v, text, starts, k)} :: 0 <= k < n && k < |starts| - 1 ==>
      PairOf(v, text, starts, k).rank >= 0 && v.Has(PairOf(v, text, starts, k).value) ==>
        PairOf(v, text, starts, k) in q
  }

  ghost predicate Complete(v: Vocabulary, text: Text, starts: seq<int>, q: seq<Pair>)
    requires Starts(text, starts)
  {
    CompleteTo(v, text, starts, q, |starts|)
  }

  lemma CompleteNext(v: Vocabulary, text: Text, starts: seq<int>, q: seq<Pair>, q': seq<Pair>, n: int)
    requires Starts(text, starts) && CompleteTo(v, text, starts, q, n) && 0 <= n < |starts| - 1 && q <= q'
    requires PairOf(v, text, starts, n).rank >= 0 ==> PairOf(v, text, starts, n) in q'
    ensures CompleteTo(v, text, starts, q', n + 1)
  {
    assert forall c :: c in q ==> c in q';
  }

  lemma PairOfPieces(v: Vocabulary, text: Text, starts: seq<int>, k: int)
    requires Starts(text, starts) && 0 <= k < |starts| - 1
    ensures var ps, c := PiecesOf(text, starts), PairOf(v, text, starts, k);
            && c.rank == v.Rank(ps[k], ps[k + 1]) && c.value == ps[k] + ps[k + 1]
            && (Mergeable(v, ps, k) <==> c.rank >= 0 && v.Has(c.value))
  {
    PairTextJoins(text, starts, k);
  }

  /** The code's staleness test. */
  predicate Fresh(merges: seq<Merge>, c: Pair)
    requires 0 <= c.a < |merges| && 0 <= c.b < |merges|
  {
    merges[c.a].runes != [] && merges[c.b].runes != [] && merges[c.a].runes + merges[c.b].runes == c.value
  }

  /** The test accepts exactly the entries of pairs that are neighbours now. */
  lemma FreshExact(v: Vocabulary, text: Text, merges: seq<Merge>, starts: seq<int>, c: Pair) returns (k: int)
    requires Linked(text, merges, starts) && Sound(v, text, starts, c)
    ensures 0 <= c.a < |merges| && 0 <= c.b < |merges|
    ensures Fresh(merges, c) ==> 0 <= k < |starts| - 1 && c == PairOf(v, text, starts, k) && c.rank >= 0
    ensures !Fresh(merges, c) ==> forall j {:trigger PairOf(v, text, starts, j)} :: 0 <= j < |starts| - 1 ==>
            c != PairOf(v, text, starts, j)
  {
    var e :| MadeFor(v, text, starts, c, e);
    LiveNonEmpty(text, merges, starts, c.a);
    LiveNonEmpty(text, merges, starts, c.b);
    forall j {:trigger PairOf(v, text, starts, j)} | 0 <= j < |starts| - 1 && c == PairOf(v, text, starts, j)
      ensures Fresh(merges, c)
    {
      CurrentValue(v, text, merges, starts, j);
    }
    k := 0;
    if c.a in starts && c.b in starts {
      k := StillNeighbours(text, starts, c.a, c.b, e);
      CurrentValue(v, text, merges, starts, k);
      if Fresh(merges, c) {
        assert |text[c.a..e]| == |text[c.a..EndOf(text, starts, k + 1)]|;
      }
    }
  }

  lemma CurrentValue(v: Vocabulary, text: Text, merges: seq<Merge>, starts: seq<int>, k: int)
    requires Linked(text, merges, starts) && 0 <= k < |starts| - 1
    ensures merges[starts[k]].runes + merges[starts[k + 1]].runes == PairOf(v, text, starts, k).value
    ensures merges[starts[k]].runes != [] && merges[starts[k + 1]].runes != []
  {
    assert merges[starts[k]] == EntryAt(text, starts, k);
    assert merges[starts[k + 1]] == EntryAt(text, starts, k + 1);
    PairTextJoins(text, starts, k);
  }

  /** An entry of lowest rank that is current and a token joins a pair of lowest rank. */
  lemma CurrentLowest(v: Vocabulary, text: Text, starts: seq<int>, q: seq<Pair>, k: int)
    requires Starts(text, starts) && Complete(v, text, starts, q) && 0 <= k < |starts| - 1
    requires var c := PairOf(v, text, starts, k);
             c.rank >= 0 && v.Has(c.value) && forall d :: d in q ==> c.rank <= d.rank
    ensures LowestRank(v, PiecesOf(text, starts), k)
  {
    var ps := PiecesOf(text, starts);
    PairOfPieces(v, text, starts, k);
    forall j | Mergeable(v, ps, j) ensures v.Rank(ps[k], ps[k + 1]) <= v.Rank(ps[j], ps[j + 1]) {
      PairOfPieces(v, text, starts, j);
      assert PairOf(v, text, starts, j) in q;
    }
  }

  lemma PairOfAfterDrop(v: Vocabulary, text: Text, starts: seq<int>, k: int, j: int)
    requires 0 <= k < |starts| - 1 && 0 <= j < |starts| - 2 && j != k && j != k - 1
    requires Starts(text, starts) && Starts(text, DropStart(starts, k))
    ensures 0 <= Skip(k, j) < |starts| - 1 && Skip(k, j) != k
    ensures PairOf(v, text, DropStart(starts, k), j) == PairOf(v, text, starts, Skip(k, j))
  {
    PairAfterDrop(text, starts, k, j);
  }

  lemma CompleteAfter(v: Vocabulary, text: Text, starts: seq<int>, q: seq<Pair>, rest: seq<Pair>, k: int, q': seq<Pair>)
    requires Starts(text, starts) && Complete(v, text, starts, q) && 0 <= k < |starts| - 1
    requires Starts(text, DropStart(starts, k))
    requires forall d :: d in q ==> d == PairOf(v, text, starts, k) || d in rest
    requires forall d :: d in rest ==> d in q'
    requires var r := DropStart(starts, k);
             forall j {:trigger PairOf(v, text, r, j)} ::
               (j == k || j == k - 1) && 0 <= j < |r| - 1 && PairOf(v, text, r, j).rank >= 0 ==>
                 PairOf(v, text, r, j) in q'
    ensures Complete(v, text, DropStart(starts, k), q')
  {
    var r := DropStart(starts, k);
    forall j {:trigger PairOf(v, text, r, j)} | 0 <= j < |r| - 1
      && PairOf(v, text, r, j).rank >= 0 && v.Has(PairOf(v, text, r, j).value)
      ensures PairOf(v, text, r, j) in q'
    {
      if j != k && j != k - 1 {
        PairOfAfterDrop(v, text, starts, k, j);
        assert PairOf(v, text, starts, Skip(k, j)) in q;
        assert starts[Skip(k, j)] != starts[k];
      }
    }
  }

  lemma SoundAfter(v: Vocabulary, text: Text, starts: seq<int>, k: int, c: Pair)
    requires Starts(text, starts) && 0 <= k < |starts| - 1 && Sound(v, text, starts, c)
    ensures Sound(v, text, DropStart(starts, k), c)
  {
    var e :| MadeFor(v, text, starts, c, e);
    WasPairDrop(text, starts, k, c.a, c.b, e);
    assert MadeFor(v, text, DropStart(starts, k), c, e);
  }

  lemma Discarded(v: Vocabulary, text: Text, starts: seq<int>, q: seq<Pair>, rest: seq<Pair>, c: Pair)
    requires Starts(text, starts) && Complete(v, text, starts, q)
    requires forall d :: d in q ==> d == c || d in rest
    requires forall j {:trigger PairOf(v, text, starts, j)} ::
               0 <= j < |starts| - 1 && v.Has(PairOf(v, text, starts, j).value) ==>
                 c != PairOf(v, text, starts, j)
    ensures Complete(v, text, starts, rest)
  {
  }

  // ---------- The loop ----------

  /** pairwise: push the entry of a and b, if there are such entries and their merge has a rank. */
  method PushPair(v: Vocabulary, text: Text, merges: seq<Merge>, ghost starts: seq<int>, ghost k: int,
                  a: int, b: int, q: seq<Pair>) returns (r: seq<Pair>)
    requires Linked(text, merges, starts) && AllSound(v, text, starts, q)
    requires if a < 0 || b >= |text| then !(0 <= k < |starts| - 1)
             else 0 <= k < |starts| - 1 && a == starts[k] && b == starts[k + 1]
    ensures q <= r && AllSound(v, text, starts, r)
    ensures 0 <= k < |starts| - 1 && PairOf(v, text, starts, k).rank >= 0 ==> PairOf(v, text, starts, k) in r
  {
    r := q;
    if a < 0 || b >= |text| {
      return;
    }
    assert merges[starts[k]] == EntryAt(text, starts, k);
    assert merges[starts[k + 1]] == EntryAt(text, starts, k + 1);
    PairTextJoins(text, starts, k);
    var left, right := merges[a].runes, merges[b].runes;
    var rank := v.Rank(left, right);
    if rank >= 0 {
      var c := Pair(a, b, rank, left + right);
      PairNow(text, starts, k);
      assert MadeFor(v, text, starts, c, EndOf(text, starts, k + 1));
      r := r + [c];
    }
  }

  method PushAll(v: Vocabulary, text: Text, merges: seq<Merge>) returns (q: seq<Pair>)
    requires Linked(text, merges, Identity(|text|))
    ensures AllSound(v, text, Identity(|text|), q) && Complete(v, text, Identity(|text|), q)
  {
    q := [];
    ghost var starts := Identity(|text|);
    var i := 0;
    while i < |text| - 1
      invariant 0 <= i && AllSound(v, text, starts, q) && CompleteTo(v, text, starts, q, i)
    {
      ghost var before := q;
      q := PushPair(v, text, merges, starts, i, i, i + 1, q);
      CompleteNext(v, text, starts, before, q, i);
      i := i + 1;
    }
  }

  /** One successful pop: merge entries a and b and push the new neighbours. */
  method MergeOne(v: Vocabulary, text: Text, merges: array<Merge>, ghost starts: seq<int>, ghost k: int, c: Pair,
                  ghost q0: seq<Pair>, rest: seq<Pair>) returns (q: seq<Pair>, ghost next: seq<int>)
    requires Linked(text, merges[..], starts) && 0 <= k < |starts| - 1 && c == PairOf(v, text, starts, k)
    requires AllSound(v, text, starts, rest) && Complete(v, text, starts, q0)
    requires forall d :: d in q0 ==> d == c || d in rest
    modifies merges
    ensures next == DropStart(starts, k) && Linked(text, merges[..], next)
    ensures AllSound(v, text, next, q) && Complete(v, text, next, q)
  {
    ghost var before := merges[..];
    AbsorbLinked(text, before, starts, k);
    assert before[starts[k]] == EntryAt(text, starts, k);
    var left, right := merges[c.a], merges[c.b];
    merges[c.a] := Merge(left.p, right.n, left.runes + right.runes);
    merges[c.b] := Merge(right.p, right.n, []);
    if right.n < merges.Length {
      merges[right.n] := Merge(c.a, merges[right.n].n, merges[right.n].runes);
    }
    assert merges[..] == Absorb(before, c.a, c.b);
    next := DropStart(starts, k);
    q := PushSides(v, text, merges[..], starts, k, c, q0, rest);
  }

  method PushSides(v: Vocabulary, text: Text, merges: seq<Merge>, ghost starts: seq<int>, ghost k: int, c: Pair,
                   ghost q0: seq<Pair>, rest: seq<Pair>) returns (q: seq<Pair>)
    requires Starts(text, starts) && 0 <= k < |starts| - 1 && c == PairOf(v, text, starts, k)
    requires Linked(text, merges, DropStart(starts, k))
    requires AllSound(v, text, starts, rest) && Complete(v, text, starts, q0)
    requires forall d :: d in q0 ==> d == c || d in rest
    ensures AllSound(v, text, DropStart(starts, k), q) && Complete(v, text, DropStart(starts, k), q)
  {
    ghost var r := DropStart(starts, k);
    DropAt(starts, k, k);
    assert merges[r[k]] == EntryAt(text, r, k) && r[k] == c.a;
    forall d | d in rest ensures Sound(v, text, r, d) {
      SoundAfter(v, text, starts, k, d);
    }
    q := PushPair(v, text, merges, r, k - 1, merges[c.a].p, c.a, rest);
    q := PushPair(v, text, merges, r, k, c.a, merges[c.a].n, q);
    CompleteAfter(v, text, starts, q0, rest, k, q);
  }

  /** The merge loop. */
  method MergeLoop(v: Vocabulary, text: Text) returns (ps: Pieces, ghost trace: seq<Pieces>)
    ensures IsRun(v, trace, Singletons(text), ps)
    ensures forall k :: !Mergeable(v, ps, k)
  {
    var merges := InitialMerges(text);
    ghost var starts := Identity(|text|);
    trace := [Singletons(text)];
    var q := PushAll(v, text, merges[..]);
    while |q| > 0
      invariant Linked(text, merges[..], starts)
      invariant AllSound(v, text, starts, q) && Complete(v, text, starts, q)
      invariant IsRun(v, trace, Singletons(text), PiecesOf(text, starts))
      decreases |starts|, |q|
    {
      var c, rest := PopLowest(q);
      PopMembers(q, rest, c);
      ghost var k := FreshExact(v, text, merges[..], starts, c);
      if !Fresh(merges[..], c) || v.Encode(c.value) < 0 {
        Discarded(v, text, starts, q, rest, c);
        q := rest;
      } else {
        CurrentLowest(v, text, starts, q, k);
        DropPieces(text, starts, k);
        RunExtends(v, trace, Singletons(text), PiecesOf(text, starts), k);
        trace := trace + [PiecesOf(text, DropStart(starts, k))];
        q, starts := MergeOne(v, text, merges, starts, k, c, q, rest);
      }
    }
    NothingLeft(v, text, starts);
    ps := Collect(text, merges[..], starts);
  }

  lemma NothingLeft(v: Vocabulary, text: Text, starts: seq<int>)
    requires Starts(text, starts) && Complete(v, text, starts, [])
    ensures forall k :: !Mergeable(v, PiecesOf(text, starts), k)
  {
    forall k | 0 <= k < |starts| - 1 ensures !Mergeable(v, PiecesOf(text, starts), k) {
      PairOfPieces(v, text, starts, k);
    }
  }
}
