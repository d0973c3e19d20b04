/** The SentencePiece merge loop (model/sentencepiece.go): a heap of candidates with lazy deletion computes
    exactly what scanning all neighbours for the best pair, again and again, computes. */
module SentencePieces {
  import opened Vocabularies
  import opened MergeList
  import opened Sets
  import BpeEncode

  // ---------- The reference: merge the best pair until none is left ----------

  /** Joining pieces k and k+1 gives a known token. */
  predicate Joinable(v: Vocabulary, ps: Pieces, k: int) {
    0 <= k < |ps| - 1 && v.Has(ps[k] + ps[k + 1])
  }

  function Score(v: Vocabulary, s: Text): real
    requires v.Valid() && v.Has(s)
  {
    v.scores[v.Encode(s)]
  }

  function JoinScore(v: Vocabulary, ps: Pieces, k: int): real
    requires v.Valid() && Joinable(v, ps, k)
  {
    Score(v, ps[k] + ps[k + 1])
  }

  /** k is the leftmost of the highest-scoring joinable pairs among the first n. */
  ghost predicate IsBest(v: Vocabulary, ps: Pieces, n: int, k: int)
    requires v.Valid()
  {
    && k < n && Joinable(v, ps, k)
    && forall j :: 0 <= j < n && Joinable(v, ps, j) ==>
         JoinScore(v, ps, j) <= JoinScore(v, ps, k) && (JoinScore(v, ps, j) == JoinScore(v, ps, k) ==> k <= j)
  }

  /** The best of the first n pairs, or -1. */
  function Best(v: Vocabulary, ps: Pieces, n: int): (k: int)
    requires v.Valid() && 0 <= n
    ensures k >= 0 ==> IsBest(v, ps, n, k)
    ensures k < 0 ==> forall j :: 0 <= j < n ==> !Joinable(v, ps, j)
  {
    if n == 0 then -1
    else
      var k := Best(v, ps, n - 1);
      if !Joinable(v, ps, n - 1) then k
      else if k < 0 || JoinScore(v, ps, n - 1) > JoinScore(v, ps, k) then n - 1
      else k
  }

  function Naive(v: Vocabulary, ps: Pieces): Pieces
    requires v.Valid()
    decreases |ps|
  {
    var k := Best(v, ps, |ps|);
    if k < 0 then ps else Naive(v, MergeAt(ps, k))
  }

  lemma BestUnique(v: Vocabulary, ps: Pieces, k: int)
    requires v.Valid() && IsBest(v, ps, |ps|, k)
    ensures Best(v, ps, |ps|) == k
  {
    var b := Best(v, ps, |ps|);
    assert Joinable(v, ps, k);
    assert IsBest(v, ps, |ps|, b);
  }

  /** The naive algorithm keeps the text and ends with nothing to join. */
  lemma {:induction false} NaiveEnds(v: Vocabulary, ps: Pieces)
    requires v.Valid()
    ensures Concat(Naive(v, ps)) == Concat(ps)
    ensures forall k :: !Joinable(v, Naive(v, ps), k)
    decreases |ps|
  {
    var k := Best(v, ps, |ps|);
    if k >= 0 {
      MergeKeepsText(ps, k);
      NaiveEnds(v, MergeAt(ps, k));
    }
  }

  // ---------- The heap ----------

  /** UTF-8 length of a code point. */
  function RuneLen(r: Rune): (n: int)
    ensures 1 <= n <= 4
  {
    if r < 0x80 then 1 else if r < 0x800 then 2 else if r < 0x1_0000 then 3 else 4
  }

  function ByteLen(s: Text): (n: int)
    ensures n >= |s|
  {
    if s == [] then 0 else ByteLen(s[..|s| - 1]) + RuneLen(s[|s| - 1])
  }

  /** The size of a piece is that of its UTF-8 text. */
  lemma {:induction false} ByteLenIsUtf8(t: Text)
    ensures ByteLen(t) == |BpeEncode.Utf8(t)|
  {
    if t != [] {
      var n := |t| - 1;
      ByteLenIsUtf8(t[..n]);
      Utf8Last(t[..n], t[n]);
      assert t == t[..n] + [t[n]];
    }
  }

  lemma {:induction false} Utf8Last(t: Text, r: Rune)
    ensures |BpeEncode.Utf8(t + [r])| == |BpeEncode.Utf8(t)| + RuneLen(r)
  {
    if t == [] {
      assert t + [r] == [r] && [r][1..] == [];
    } else {
      assert (t + [r])[1..] == t[1..] + [r];
      Utf8Last(t[1..], r);
    }
  }

  lemma {:induction false} ByteLenAppend(a: Text, b: Text)
    ensures ByteLen(a + b) == ByteLen(a) + ByteLen(b)
  {
    if b == [] {
      assert a + b == a;
    } else {
      assert (a + b)[..|a + b| - 1] == a + b[..|b| - 1];
      ByteLenAppend(a, b[..|b| - 1]);
    }
  }

  datatype Candidate = Candidate(a: int, b: int, score: real, size: int)

  predicate Less(c: Candidate, d: Candidate) {
    c.score > d.score || (c.score == d.score && c.a < d.a)
  }

  /** What heap.Pop promises: some least element leaves the queue. */
  method PopLeast(q: seq<Candidate>) returns (c: Candidate, rest: seq<Candidate>)
    requires q != []
    ensures multiset(q) == multiset(rest) + multiset{c}
    ensures forall d :: d in q ==> !Less(d, c)
    ensures |rest| == |q| - 1
  {
    var best := 0;
    for i := 1 to |q|
      invariant 0 <= best < |q|
      invariant forall j :: 0 <= j < i ==> !Less(q[j], q[best])
    {
      if Less(q[i], q[best]) {
        best := i;
      }
    }
    c, rest := q[best], q[..best] + q[best + 1..];
    assert q == q[..best] + [q[best]] + q[best + 1..];
  }

  // ---------- Candidates ----------

  /** The text a candidate for live pieces k and k+1 would join. */
  function PairText(text: Text, starts: seq<int>, k: int): Text
    requires 0 <= k < |starts| - 1 && 0 <= starts[k] <= EndOf(text, starts, k + 1) <= |text|
  {
    text[starts[k]..EndOf(text, starts, k + 1)]
  }

  lemma PairTextJoins(text: Text, starts: seq<int>, k: int)
    requires Starts(text, starts) && 0 <= k < |starts| - 1
    ensures PairText(text, starts, k) == PieceAt(text, starts, k) + PieceAt(text, starts, k + 1)
    ensures PairText(text, starts, k) == PiecesOf(text, starts)[k] + PiecesOf(text, starts)[k + 1]
  {
  }

  /** The candidate pairwise builds for the text from a to e split at b. */
  function CandidateFor(v: Vocabulary, text: Text, a: int, b: int, e: int): Candidate
    requires v.Valid() && 0 <= a <= e <= |text| && v.Has(text[a..e])
  {
    Candidate(a, b, Score(v, text[a..e]), ByteLen(text[a..e]))
  }

  /** c was built for neighbours a, b that ended at e, and nothing has started between since. */
  ghost predicate MadeFor(v: Vocabulary, text: Text, starts: seq<int>, c: Candidate, e: int)
    requires v.Valid()
  {
    WasPair(text, starts, c.a, c.b, e) && v.Has(text[c.a..e]) && c == CandidateFor(v, text, c.a, c.b, e)
  }

  ghost predicate Sound(v: Vocabulary, text: Text, starts: seq<int>, c: Candidate)
    requires v.Valid()
  {
    exists e :: MadeFor(v, text, starts, c, e)
  }

  /** c is the candidate of live pieces k and k+1. */
  ghost predicate Current(v: Vocabulary, text: Text, starts: seq<int>, c: Candidate, k: int)
    requires v.Valid() && Starts(text, starts)
  {
    && 0 <= k < |starts| - 1
    && v.Has(PairText(text, starts, k))
    && c == CandidateFor(v, text, starts[k], starts[k + 1], EndOf(text, starts, k + 1))
  }

  /** Every joinable pair among the first n pairs of live pieces has its candidate in the queue. */
  ghost predicate CompleteTo(v: Vocabulary, text: Text, starts: seq<int>, q: seq<Candidate>, n: int)
    requires v.Valid() && Starts(text, starts)
  {
    forall k {:trigger PairText(text, starts, k)} ::
      0 <= k < n && k < |starts| - 1 && v.Has(PairText(text, starts, k)) ==>
        CandidateFor(v, text, starts[k], starts[k + 1], EndOf(text, starts, k + 1)) in q
  }

  ghost predicate Complete(v: Vocabulary, text: Text, starts: seq<int>, q: seq<Candidate>)
    requires v.Valid() && Starts(text, starts)
  {
    CompleteTo(v, text, starts, q, |starts|)
  }

  lemma CompleteNext(v: Vocabulary, text: Text, starts: seq<int>, q: seq<Candidate>, q': seq<Candidate>, n: int)
    requires v.Valid() && Starts(text, starts) && CompleteTo(v, text, starts, q, n) && 0 <= n < |starts| - 1 && q <= q'
    requires v.Has(PairText(text, starts, n)) ==>
             CandidateFor(v, text, starts[n], starts[n + 1], EndOf(text, starts, n + 1)) in q'
    ensures CompleteTo(v, text, starts, q', n + 1)
  {
    assert forall c :: c in q ==> c in q';
  }

  /** The code's staleness test. */
  predicate Fresh(merges: seq<Merge>, c: Candidate)
    requires 0 <= c.a < |merges| && 0 <= c.b < |merges|
  {
    merges[c.a].runes != [] && merges[c.b].runes != []
    && ByteLen(merges[c.a].runes) + ByteLen(merges[c.b].runes) == c.size
  }

  /** A longer stretch from the same start has more bytes. */
  lemma ByteLenGrows(text: Text, a: int, e: int, f: int)
    requires 0 <= a <= e < f <= |text|
    ensures ByteLen(text[a..e]) < ByteLen(text[a..f])
  {
    assert text[a..f] == text[a..e] + text[e..f];
    ByteLenAppend(text[a..e], text[e..f]);
  }

  /** The test accepts exactly the candidates of pairs that are neighbours now: comparing sizes is enough. */
  lemma FreshExact(v: Vocabulary, text: Text, merges: seq<Merge>, starts: seq<int>, c: Candidate) returns (k: int)
    requires v.Valid() && Linked(text, merges, starts) && Sound(v, text, starts, c)
    ensures 0 <= c.a < |merges| && 0 <= c.b < |merges|
    ensures Fresh(merges, c) <==> Current(v, text, starts, c, k)
    ensures !Fresh(merges, c) ==> forall j :: !Current(v, text, starts, c, j)
  {
    var e :| MadeFor(v, text, starts, c, e);
    LiveNonEmpty(text, merges, starts, c.a);
    LiveNonEmpty(text, merges, starts, c.b);
    forall j | Current(v, text, starts, c, j) ensures Fresh(merges, c) {
      CurrentFresh(v, text, merges, starts, c, j);
    }
    k := 0;
    if c.a in starts && c.b in starts {
      k := StillNeighbours(text, starts, c.a, c.b, e);
      CurrentSize(text, merges, starts, k);
      var f := EndOf(text, starts, k + 1);
      if e < f {
        ByteLenGrows(text, c.a, e, f);
      }
    }
  }

  /** The size test needs the emptiness tests beside it: of x, a, b, c, once xa and bc are pieces, the candidate
      for ab has two bytes, and so have what is left at its places. */
  lemma SizeAloneIsNotEnough(v: Vocabulary, merges: seq<Merge>)
    requires v.Valid() && v.Has([97, 98]) && Linked([120, 97, 98, 99], merges, [0, 2])
    ensures var c := Candidate(1, 2, Score(v, [97, 98]), 2);
            && Sound(v, [120, 97, 98, 99], [0, 2], c) && !Fresh(merges, c)
            && ByteLen(merges[1].runes) + ByteLen(merges[2].runes) == c.size
  {
    var text, starts, c := [120, 97, 98, 99], [0, 2], Candidate(1, 2, Score(v, [97, 98]), 2);
    assert text[1..3] == [97, 98] && text[2..4] == [98, 99];
    assert ByteLen([97, 98]) == 2 by {
      ByteLenAppend([97], [98]);
    }
    assert ByteLen([98, 99]) == 2 by {
      ByteLenAppend([98], [99]);
    }
    assert MadeFor(v, text, starts, c, 3);
    assert merges[starts[1]] == EntryAt(text, starts, 1);
  }

  /** xa, bc and ab, with falling scores. */
  const THREE := Vocabulary([[120, 97], [98, 99], [97, 98]], [3.0, 2.0, 1.0], [], [])

  lemma ThreeHas(t: Text)
    ensures THREE.Has(t) <==> t == [120, 97] || t == [98, 99] || t == [97, 98]
    ensures Score(THREE, [120, 97]) == 3.0 && Score(THREE, [98, 99]) == 2.0 && Score(THREE, [97, 98]) == 1.0
  {
    var vs := THREE.values;
    assert vs[..2] == [[120, 97], [98, 99]] && vs[..2][..1] == [[120, 97]] && [[120, 97]][..0] == [];
    assert [120, 97][0] != [98, 99][0] && [120, 97][0] != [97, 98][0] && [98, 99][0] != [97, 98][0];
  }

  lemma NothingBest(v: Vocabulary, ps: Pieces)
    requires v.Valid() && forall k :: !Joinable(v, ps, k)
    ensures Naive(v, ps) == ps
  {
  }

  lemma NaiveOnce(v: Vocabulary, ps: Pieces, k: int)
    requires v.Valid() && Best(v, ps, |ps|) == k && 0 <= k < |ps| - 1
    ensures Naive(v, ps) == Naive(v, MergeAt(ps, k))
  {
    hide Best;
  }

  /** The state of SizeAloneIsNotEnough is one the loop goes through: with this vocabulary it joins xa first and bc
      second, and the pair ab, for which there was a candidate from the start, is never joined. */
  lemma StaleStateReached()
    ensures THREE.Valid() && Joinable(THREE, [[120], [97], [98], [99]], 1)
    ensures Best(THREE, [[120], [97], [98], [99]], 4) == 0
            && MergeAt([[120], [97], [98], [99]], 0) == [[120, 97], [98], [99]]
    ensures Best(THREE, [[120, 97], [98], [99]], 3) == 1 && MergeAt([[120, 97], [98], [99]], 1) == [[120, 97], [98, 99]]
    ensures Naive(THREE, [[120], [97], [98], [99]]) == [[120, 97], [98, 99]]
  {
    hide Best;
    var one, two, three: Pieces := [[120], [97], [98], [99]], [[120, 97], [98], [99]], [[120, 97], [98, 99]];
    ThreeHas([120] + [97]);
    ThreeHas([97] + [98]);
    ThreeHas([98] + [99]);
    ThreeHas([120, 97] + [98]);
    ThreeHas([120, 97] + [98, 99]);
    hide Score;
    assert [120] + [97] == [120, 97] && [97] + [98] == [97, 98] && [98] + [99] == [98, 99];
    assert |[120, 97] + [98]| == 3 && |[120, 97] + [98, 99]| == 4;
    assert IsBest(THREE, one, 4, 0) && IsBest(THREE, two, 3, 1) && Joinable(THREE, one, 1);
    assert forall k :: !Joinable(THREE, three, k);
    assert MergeAt(one, 0) == two && MergeAt(two, 1) == three;
    hide Joinable, IsBest;
    BestUnique(THREE, one, 0);
    BestUnique(THREE, two, 1);
    NothingBest(THREE, three);
    NaiveOnce(THREE, one, 0);
    NaiveOnce(THREE, two, 1);
  }

  lemma CurrentSize(text: Text, merges: seq<Merge>, starts: seq<int>, k: int)
    requires Linked(text, merges, starts) && 0 <= k < |starts| - 1
    ensures ByteLen(merges[starts[k]].runes) + ByteLen(merges[starts[k + 1]].runes)
            == ByteLen(PairText(text, starts, k))
    ensures merges[starts[k]].runes != [] && merges[starts[k + 1]].runes != []
  {
    assert merges[starts[k]] == EntryAt(text, starts, k);
    assert merges[starts[k + 1]] == EntryAt(text, starts, k + 1);
    PairTextJoins(text, starts, k);
    ByteLenAppend(PieceAt(text, starts, k), PieceAt(text, starts, k + 1));
  }

  lemma CurrentFresh(v: Vocabulary, text: Text, merges: seq<Merge>, starts: seq<int>, c: Candidate, k: int)
    requires v.Valid() && Linked(text, merges, starts) && Current(v, text, starts, c, k)
    ensures 0 <= c.a < |merges| && 0 <= c.b < |merges| && Fresh(merges, c)
  {
    CurrentSize(text, merges, starts, k);
  }

  /** A least candidate that is current belongs to the best pair. */
  lemma CurrentBest(v: Vocabulary, text: Text, starts: seq<int>, q: seq<Candidate>, c: Candidate, k: int)
    requires v.Valid() && Starts(text, starts) && Complete(v, text, starts, q)
    requires Current(v, text, starts, c, k) && forall d :: d in q ==> !Less(d, c)
    ensures IsBest(v, PiecesOf(text, starts), |starts|, k)
  {
    var ps := PiecesOf(text, starts);
    PairTextJoins(text, starts, k);
    forall j | 0 <= j < |ps| && Joinable(v, ps, j)
      ensures JoinScore(v, ps, j) <= JoinScore(v, ps, k) && (JoinScore(v, ps, j) == JoinScore(v, ps, k) ==> k <= j)
    {
      PairTextJoins(text, starts, j);
      var d := CandidateFor(v, text, starts[j], starts[j + 1], EndOf(text, starts, j + 1));
      assert d in q && !Less(d, c);
    }
  }

  /** After pieces k and k+1 join, every pair away from piece k is an old pair. */
  lemma PairAfterDrop(text: Text, starts: seq<int>, k: int, j: int)
    requires 0 <= k < |starts| - 1 && 0 <= j < |starts| - 2
    requires Starts(text, starts) && Starts(text, DropStart(starts, k))
    requires j != k && j != k - 1
    ensures var r, i := DropStart(starts, k), Skip(k, j);
            && i != k && 0 <= i < |starts| - 1
            && r[j] == starts[i] && r[j + 1] == starts[i + 1] && EndOf(text, r, j + 1) == EndOf(text, starts, i + 1)
            && PairText(text, r, j) == PairText(text, starts, i)
  {
    DropAt(starts, k, j);
    DropAt(starts, k, j + 1);
    DropPiece(text, starts, k, j + 1);
  }

  /** Popping the candidate of pair k and pushing those of the grown piece's two sides keeps the queue complete. */
  lemma CompleteAfter(v: Vocabulary, text: Text, starts: seq<int>, q: seq<Candidate>, rest: seq<Candidate>,
                      c: Candidate, k: int, q': seq<Candidate>)
    requires v.Valid() && Starts(text, starts) && Complete(v, text, starts, q) && Current(v, text, starts, c, k)
    requires Starts(text, DropStart(starts, k))
    requires forall d :: d in q ==> d == c || d in rest
    requires forall d :: d in rest ==> d in q'
    requires var r := DropStart(starts, k);
             forall j {:trigger PairText(text, r, j)} ::
               (j == k || j == k - 1) && 0 <= j < |r| - 1 && v.Has(PairText(text, r, j)) ==>
                 CandidateFor(v, text, r[j], r[j + 1], EndOf(text, r, j + 1)) in q'
    ensures Complete(v, text, DropStart(starts, k), q')
  {
    var r := DropStart(starts, k);
    forall j {:trigger PairText(text, r, j)} | 0 <= j < |r| - 1 && v.Has(PairText(text, r, j))
      ensures CandidateFor(v, text, r[j], r[j + 1], EndOf(text, r, j + 1)) in q'
    {
      if j != k && j != k - 1 {
        PairAfterDrop(text, starts, k, j);
        var i := Skip(k, j);
        var d := CandidateFor(v, text, starts[i], starts[i + 1], EndOf(text, starts, i + 1));
        assert v.Has(PairText(text, starts, i)) && d in q;
        assert starts[i] != starts[k];
      }
    }
  }

  lemma SoundAfter(v: Vocabulary, text: Text, starts: seq<int>, k: int, c: Candidate)
    requires v.Valid() && Starts(text, starts) && 0 <= k < |starts| - 1 && Sound(v, text, starts, c)
    ensures Sound(v, text, DropStart(starts, k), c)
  {
    var e :| MadeFor(v, text, starts, c, e);
    WasPairDrop(text, starts, k, c.a, c.b, e);
    assert MadeFor(v, text, DropStart(starts, k), c, e);
  }

  ghost predicate AllSound(v: Vocabulary, text: Text, starts: seq<int>, q: seq<Candidate>)
    requires v.Valid()
  {
    forall c :: c in q ==> Sound(v, text, starts, c)
  }

  /** pairwise: push the candidate of entries a and b, if there are such entries and their join is known. */
  method PushPair(v: Vocabulary, text: Text, merges: seq<Merge>, ghost starts: seq<int>, ghost k: int,
                  a: int, b: int, q: seq<Candidate>) returns (r: seq<Candidate>)
    requires v.Valid() && Linked(text, merges, starts) && AllSound(v, text, starts, q)
    requires if a < 0 || b >= |text| then !(0 <= k < |starts| - 1)
             else 0 <= k < |starts| - 1 && a == starts[k] && b == starts[k + 1]
    ensures q <= r && AllSound(v, text, starts, r)
    ensures 0 <= k < |starts| - 1 && v.Has(PairText(text, starts, k)) ==>
              CandidateFor(v, text, starts[k], starts[k + 1], EndOf(text, starts, k + 1)) in r
  {
    r := q;
    if a < 0 || b >= |text| {
      return;
    }
    assert merges[starts[k]] == EntryAt(text, starts, k);
    assert merges[starts[k + 1]] == EntryAt(text, starts, k + 1);
    PairTextJoins(text, starts, k);
    ByteLenAppend(PieceAt(text, starts, k), PieceAt(text, starts, k + 1));
    var left, right := merges[a].runes, merges[b].runes;
    var id := v.Encode(left + right);
    if id >= 0 {
      var c := Candidate(a, b, v.scores[id], ByteLen(left) + ByteLen(right));
      PairNow(text, starts, k);
      assert MadeFor(v, text, starts, c, EndOf(text, starts, k + 1));
      r := r + [c];
    }
  }

  /** The initial candidates. */
  method PushAll(v: Vocabulary, text: Text, merges: seq<Merge>) returns (q: seq<Candidate>)
    requires v.Valid() && Linked(text, merges, Identity(|text|))
    ensures AllSound(v, text, Identity(|text|), q) && Complete(v, text, Identity(|text|), q)
  {
    q := [];
    ghost var starts := Identity(|text|);
    var i := 0;
    while i < |text| - 1
      invariant 0 <= i && AllSound(v, text, starts, q) && CompleteTo(v, text, starts, q, i)
    {
      ghost var before := q;
      q := PushPair(v, text, merges, starts, i, i, i + 1, q);
      CompleteNext(v, text, starts, before, q, i);
      i := i + 1;
    }
  }

  /** One successful pop: merge entries a and b and push the new neighbours. */
  method MergeOne(v: Vocabulary, text: Text, merges: array<Merge>, ghost starts: seq<int>, ghost k: int, c: Candidate,
                  ghost q0: seq<Candidate>, rest: seq<Candidate>) returns (q: seq<Candidate>, ghost next: seq<int>)
    requires v.Valid() && Linked(text, merges[..], starts) && Current(v, text, starts, c, k)
    requires AllSound(v, text, starts, rest) && Complete(v, text, starts, q0)
    requires forall d :: d in q0 ==> d == c || d in rest
    modifies merges
    ensures next == DropStart(starts, k) && Linked(text, merges[..], next)
    ensures AllSound(v, text, next, q) && Complete(v, text, next, q)
  {
    ghost var before := merges[..];
    AbsorbLinked(text, before, starts, k);
    assert before[starts[k]] == EntryAt(text, starts, k);
    var left, right := merges[c.a], merges[c.b];
    merges[c.a] := Merge(left.p, right.n, left.runes + right.runes);
    merges[c.b] := Merge(right.p, right.n, []);
    if right.n < merges.Length {
      merges[right.n] := Merge(c.a, merges[right.n].n, merges[right.n].runes);
    }
    assert merges[..] == Absorb(before, c.a, c.b);
    next := DropStart(starts, k);
    q := PushSides(v, text, merges[..], starts, k, c, q0, rest);
  }

  /** Push the candidates on both sides of the piece that has just grown. */
  method PushSides(v: Vocabulary, text: Text, merges: seq<Merge>, ghost starts: seq<int>, ghost k: int, c: Candidate,
                   ghost q0: seq<Candidate>, rest: seq<Candidate>) returns (q: seq<Candidate>)
    requires v.Valid() && Starts(text, starts) && Current(v, text, starts, c, k)
    requires Linked(text, merges, DropStart(starts, k))
    requires AllSound(v, text, starts, rest) && Complete(v, text, starts, q0)
    requires forall d :: d in q0 ==> d == c || d in rest
    ensures AllSound(v, text, DropStart(starts, k), q) && Complete(v, text, DropStart(starts, k), q)
  {
    ghost var r := DropStart(starts, k);
    DropAt(starts, k, k);
    assert merges[r[k]] == EntryAt(text, r, k) && r[k] == c.a;
    forall d | d in rest ensures Sound(v, text, r, d) {
      SoundAfter(v, text, starts, k, d);
    }
    q := PushPair(v, text, merges, r, k - 1, merges[c.a].p, c.a, rest);
    q := PushPair(v, text, merges, r, k, c.a, merges[c.a].n, q);
    CompleteAfter(v, text, starts, q0, rest, c, k, q);
  }

  /** The merge loop: the pieces it leaves are those of the naive algorithm. */
  method MergeLoop(v: Vocabulary, text: Text) returns (ps: Pieces)
    requires v.Valid()
    ensures ps == Naive(v, Singletons(text))
  {
    var merges := InitialMerges(text);
    ghost var starts := Identity(|text|);
    var q := PushAll(v, text, merges[..]);
    while |q| > 0
      invariant Linked(text, merges[..], starts)
      invariant AllSound(v, text, starts, q) && Complete(v, text, starts, q)
      invariant Naive(v, PiecesOf(text, starts)) == Naive(v, Singletons(text))
      decreases |starts|, |q|
    {
      var c, rest := PopLeast(q);
      PopMembers(q, rest, c);
      ghost var k := FreshExact(v, text, merges[..], starts, c);
      if Fresh(merges[..], c) {
        CurrentBest(v, text, starts, q, c, k);
        NaiveStep(v, text, starts, k);
        q, starts := MergeOne(v, text, merges, starts, k, c, q, rest);
      } else {
        StaleDropped(v, text, starts, q, rest, c);
        q := rest;
      }
    }
    NaiveDone(v, text, starts);
    ps := Collect(text, merges[..], starts);
  }

  lemma StaleDropped(v: Vocabulary, text: Text, starts: seq<int>, q: seq<Candidate>, rest: seq<Candidate>, c: Candidate)
    requires v.Valid() && Starts(text, starts) && Complete(v, text, starts, q)
    requires forall d :: d in q ==> d == c || d in rest
    requires forall j :: !Current(v, text, starts, c, j)
    ensures Complete(v, text, starts, rest)
  {
    forall k {:trigger PairText(text, starts, k)} | 0 <= k < |starts| - 1 && v.Has(PairText(text, starts, k))
      ensures CandidateFor(v, text, starts[k], starts[k + 1], EndOf(text, starts, k + 1)) in rest
    {
      assert !Current(v, text, starts, c, k);
    }
  }

  lemma NaiveStep(v: Vocabulary, text: Text, starts: seq<int>, k: int)
    requires v.Valid() && Starts(text, starts) && IsBest(v, PiecesOf(text, starts), |starts|, k)
    ensures 0 <= k < |starts| - 1 && Starts(text, DropStart(starts, k))
    ensures Naive(v, PiecesOf(text, starts)) == Naive(v, PiecesOf(text, DropStart(starts, k)))
  {
    BestUnique(v, PiecesOf(text, starts), k);
    DropPieces(text, starts, k);
  }

  lemma NaiveDone(v: Vocabulary, text: Text, starts: seq<int>)
    requires v.Valid() && Starts(text, starts) && Complete(v, text, starts, [])
    ensures Naive(v, PiecesOf(text, starts)) == PiecesOf(text, starts)
  {
    var ps := PiecesOf(text, starts);
    forall j | 0 <= j < |ps| ensures !Joinable(v, ps, j) {
      if j < |ps| - 1 {
        PairTextJoins(text, starts, j);
      }
    }
    var k := Best(v, ps, |ps|);
  }
}
