/** The doubly linked list both tokenizers keep in an array while they merge the pieces of a text
    (model/sentencepiece.go, model/bytepairencoding.go). */
module MergeList {
  import opened Strings
  import opened Vocabularies

  /** One array entry: the previous and next live entries and the piece that starts here. */
  datatype Merge = Merge(p: int, n: int, runes: Text)

  type Pieces = seq<Text>

  function Concat(ps: Pieces): Text {
    if ps == [] then [] else ps[0] + Concat(ps[1..])
  }

  /** Join pieces k and k+1. */
  function MergeAt(ps: Pieces, k: int): (r: Pieces)
    requires 0 <= k < |ps| - 1
    ensures |r| == |ps| - 1
  {
    ps[..k] + [ps[k] + ps[k + 1]] + ps[k + 2..]
  }

  lemma {:induction false} ConcatAppend(a: Pieces, b: Pieces)
    ensures Concat(a + b) == Concat(a) + Concat(b)
  {
    if a == [] {
      assert a + b == b;
    } else {
      assert (a + b)[1..] == a[1..] + b;
      assert Concat(a + b) == a[0] + Concat(a[1..] + b) && Concat(a) == a[0] + Concat(a[1..]);
      hide Concat;
      ConcatAppend(a[1..], b);
      Associative(a[0], Concat(a[1..]), Concat(b));
    }
  }

  lemma ConcatMiddle(a: Pieces, m: Pieces, m': Pieces, c: Pieces)
    requires Concat(m) == Concat(m')
    ensures Concat(a + m + c) == Concat(a + m' + c)
  {
    ConcatAppend(a + m, c);
    ConcatAppend(a + m', c);
    ConcatAppend(a, m);
    ConcatAppend(a, m');
  }

  lemma ConcatPair(x: Text, y: Text)
    ensures Concat([x, y]) == x + y && Concat([x + y]) == x + y
  {
    assert [x, y][1..] == [y] && [y][1..] == [];
    assert Concat([y]) == y + Concat([]);
  }

  lemma MergeShape(ps: Pieces, k: int)
    requires 0 <= k < |ps| - 1
    ensures ps == ps[..k] + [ps[k], ps[k + 1]] + ps[k + 2..]
  {
  }

  /** A merge does not change the text. */
  lemma MergeKeepsText(ps: Pieces, k: int)
    requires 0 <= k < |ps| - 1
    ensures Concat(MergeAt(ps, k)) == Concat(ps)
  {
    MergeShape(ps, k);
    ConcatPair(ps[k], ps[k + 1]);
    ConcatMiddle(ps[..k], [ps[k], ps[k + 1]], [ps[k] + ps[k + 1]], ps[k + 2..]);
  }

  // ---------- Live entries ----------

  /** Where each live piece of the text starts, in order. */
  ghost predicate Starts(text: Text, starts: seq<int>) {
    && (text == [] <==> starts == [])
    && (starts != [] ==> starts[0] == 0)
    && (forall k :: 0 <= k < |starts| ==> 0 <= starts[k] < |text|)
    && (forall k, l :: 0 <= k < l < |starts| ==> starts[k] < starts[l])
  }

  /** Where live piece k ends. */
  function EndOf(text: Text, starts: seq<int>, k: int): int
    requires 0 <= k < |starts|
  {
    if k + 1 < |starts| then starts[k + 1] else |text|
  }

  function PieceAt(text: Text, starts: seq<int>, k: int): Text
    requires 0 <= k < |starts| && 0 <= starts[k] <= EndOf(text, starts, k) <= |text|
  {
    text[starts[k]..EndOf(text, starts, k)]
  }

  ghost function PiecesOf(text: Text, starts: seq<int>): (ps: Pieces)
    requires Starts(text, starts)
    ensures |ps| == |starts|
    ensures forall k :: 0 <= k < |ps| ==> ps[k] == PieceAt(text, starts, k)
  {
    seq(|starts|, k requires 0 <= k < |starts| => PieceAt(text, starts, k))
  }

  /** The array entry of live piece k. */
  function EntryAt(text: Text, starts: seq<int>, k: int): Merge
    requires 0 <= k < |starts| && 0 <= starts[k] <= EndOf(text, starts, k) <= |text|
  {
    Merge(if k == 0 then -1 else starts[k - 1], EndOf(text, starts, k), PieceAt(text, starts, k))
  }

  /** The array is the list of the live pieces; dead entries are empty. */
  ghost predicate Linked(text: Text, merges: seq<Merge>, starts: seq<int>) {
    && Starts(text, starts) && |merges| == |text|
    && (forall k {:trigger EntryAt(text, starts, k)} :: 0 <= k < |starts| ==>
        merges[starts[k]] == EntryAt(text, starts, k))
    && (forall i :: 0 <= i < |merges| && i !in starts ==> merges[i].runes == [])
  }

  /** Drop live piece k + 1 from the list of starts. */
  function DropStart(starts: seq<int>, k: int): (r: seq<int>)
    requires 0 <= k < |starts| - 1
    ensures |r| == |starts| - 1
  {
    starts[..k + 1] + starts[k + 2..]
  }

  /** Where piece j was before piece k + 1 was dropped. */
  function Skip(k: int, j: int): int { if j <= k then j else j + 1 }

  lemma DropAt(starts: seq<int>, k: int, j: int)
    requires 0 <= k < |starts| - 1 && 0 <= j < |starts| - 1
    ensures DropStart(starts, k)[j] == starts[Skip(k, j)]
  {
  }

  lemma DropMember(text: Text, starts: seq<int>, k: int, x: int)
    requires Starts(text, starts) && 0 <= k < |starts| - 1
    ensures x in DropStart(starts, k) <==> x in starts && x != starts[k + 1]
  {
    var r := DropStart(starts, k);
    if x in starts && x != starts[k + 1] {
      var j :| 0 <= j < |starts| && starts[j] == x;
      DropAt(starts, k, if j <= k then j else j - 1);
    }
    if x in r {
      var j :| 0 <= j < |r| && r[j] == x;
      DropAt(starts, k, j);
    }
  }

  lemma DropStarts(text: Text, starts: seq<int>, k: int)
    requires Starts(text, starts) && 0 <= k < |starts| - 1
    ensures Starts(text, DropStart(starts, k))
  {
    var r := DropStart(starts, k);
    forall i | 0 <= i < |r| ensures 0 <= r[i] < |text| {
      DropAt(starts, k, i);
    }
    forall i, j | 0 <= i < j < |r| ensures r[i] < r[j] {
      DropAt(starts, k, i);
      DropAt(starts, k, j);
    }
    DropAt(starts, k, 0);
  }

  /** The piece at j after the drop: piece k has grown, the others are as before. */
  lemma DropPiece(text: Text, starts: seq<int>, k: int, j: int)
    requires 0 <= k < |starts| - 1 && 0 <= j < |starts| - 1
    requires Starts(text, starts) && Starts(text, DropStart(starts, k))
    ensures var r := DropStart(starts, k);
            && EndOf(text, r, j) == EndOf(text, starts, if j == k then k + 1 else Skip(k, j))
            && PieceAt(text, r, j) == if j == k then PieceAt(text, starts, k) + PieceAt(text, starts, k + 1)
                                      else PieceAt(text, starts, Skip(k, j))
  {
    DropAt(starts, k, j);
    if j + 1 < |starts| - 1 {
      DropAt(starts, k, j + 1);
    }
  }

  lemma DropPieces(text: Text, starts: seq<int>, k: int)
    requires Starts(text, starts) && 0 <= k < |starts| - 1
    ensures Starts(text, DropStart(starts, k))
    ensures PiecesOf(text, DropStart(starts, k)) == MergeAt(PiecesOf(text, starts), k)
  {
    DropStarts(text, starts, k);
    var r, ps := DropStart(starts, k), PiecesOf(text, starts);
    forall j | 0 <= j < |r| ensures PiecesOf(text, r)[j] == MergeAt(ps, k)[j] {
      DropPiece(text, starts, k, j);
    }
  }

  /** The array after entry b has been absorbed into the entry a before it. */
  function Absorb(merges: seq<Merge>, a: int, b: int): (r: seq<Merge>)
    requires 0 <= a < b < |merges| && b < merges[b].n
    ensures |r| == |merges|
    ensures r[a] == Merge(merges[a].p, merges[b].n, merges[a].runes + merges[b].runes)
    ensures r[b].runes == []
    ensures merges[b].n < |r| ==> r[merges[b].n] == Merge(a, merges[merges[b].n].n, merges[merges[b].n].runes)
    ensures forall i :: 0 <= i < |r| && i != a && i != b && i != merges[b].n ==> r[i] == merges[i]
  {
    var m := merges[a := Merge(merges[a].p, merges[b].n, merges[a].runes + merges[b].runes)];
    var m := m[b := Merge(merges[b].p, merges[b].n, [])];
    if merges[b].n < |m| then m[merges[b].n := Merge(a, m[merges[b].n].n, m[merges[b].n].runes)] else m
  }

  /** Absorbing a live entry's right neighbour is a merge of the two pieces. */
  lemma AbsorbLinked(text: Text, merges: seq<Merge>, starts: seq<int>, k: int)
    requires Linked(text, merges, starts) && 0 <= k < |starts| - 1
    ensures merges[starts[k + 1]].n == EndOf(text, starts, k + 1) > starts[k + 1] > starts[k]
    ensures Linked(text, Absorb(merges, starts[k], starts[k + 1]), DropStart(starts, k))
  {
    DropStarts(text, starts, k);
    assert merges[starts[k + 1]] == EntryAt(text, starts, k + 1);
    var m, r := Absorb(merges, starts[k], starts[k + 1]), DropStart(starts, k);
    forall j {:trigger EntryAt(text, r, j)} | 0 <= j < |r| ensures m[r[j]] == EntryAt(text, r, j) {
      AbsorbAt(text, merges, starts, k, j);
    }
    forall i | 0 <= i < |m| && i !in r ensures m[i].runes == [] {
      AbsorbDead(text, merges, starts, k, i);
    }
    assert |m| == |text|;
  }

  ghost predicate Absorbable(text: Text, merges: seq<Merge>, starts: seq<int>, k: int) {
    && Linked(text, merges, starts) && 0 <= k < |starts| - 1
    && starts[k] < starts[k + 1] < merges[starts[k + 1]].n == EndOf(text, starts, k + 1)
  }

  lemma AbsorbDead(text: Text, merges: seq<Merge>, starts: seq<int>, k: int, i: int)
    requires Absorbable(text, merges, starts, k) && 0 <= i < |merges| && i !in DropStart(starts, k)
    ensures Absorb(merges, starts[k], starts[k + 1])[i].runes == []
  {
    DropMember(text, starts, k, i);
    if i != starts[k + 1] {
      assert i !in starts && starts[k] in starts;
      if merges[starts[k + 1]].n < |merges| {
        assert starts[k + 2] in starts;
      }
    }
  }

  lemma AbsorbAt(text: Text, merges: seq<Merge>, starts: seq<int>, k: int, j: int)
    requires Absorbable(text, merges, starts, k) && 0 <= j < |starts| - 1 && Starts(text, DropStart(starts, k))
    ensures Absorb(merges, starts[k], starts[k + 1])[DropStart(starts, k)[j]] == EntryAt(text, DropStart(starts, k), j)
  {
    hide Absorb, DropStart;
    DropAt(starts, k, j);
    DropPiece(text, starts, k, j);
    if j > 0 {
      DropAt(starts, k, j - 1);
    }
    AbsorbEntry(text, merges, starts, k, j);
  }

  lemma AbsorbEntry(text: Text, merges: seq<Merge>, starts: seq<int>, k: int, j: int)
    requires Absorbable(text, merges, starts, k) && 0 <= j < |starts| - 1
    ensures var m := Absorb(merges, starts[k], starts[k + 1])[starts[Skip(k, j)]];
            && m.p == (if j == 0 then -1 else starts[Skip(k, j - 1)])
            && m.n == EndOf(text, starts, if j == k then k + 1 else Skip(k, j))
            && m.runes == if j == k then PieceAt(text, starts, k) + PieceAt(text, starts, k + 1)
                          else PieceAt(text, starts, Skip(k, j))
  {
    hide PieceAt;
    assert merges[starts[Skip(k, j)]] == EntryAt(text, starts, Skip(k, j));
    if j == k {
      assert merges[starts[k + 1]] == EntryAt(text, starts, k + 1);
    } else if j > k {
      assert starts[k + 1] < starts[j + 1];
    }
  }

  ghost function Identity(n: int): (r: seq<int>)
    requires n >= 0
    ensures |r| == n && forall k :: 0 <= k < n ==> r[k] == k
  {
    seq(n, k => k)
  }

  lemma IdentityEntry(text: Text, k: int)
    requires 0 <= k < |text|
    ensures var starts := Identity(|text|);
            EndOf(text, starts, k) == k + 1 && EntryAt(text, starts, k) == Merge(k - 1, k + 1, [text[k]])
              && PieceAt(text, starts, k) == [text[k]]
  {
    hide Identity;
    assert text[k..k + 1] == [text[k]];
  }

  lemma IdentityPieces(text: Text)
    ensures Starts(text, Identity(|text|)) && PiecesOf(text, Identity(|text|)) == Singletons(text)
  {
    hide PieceAt, Identity;
    var starts := Identity(|text|);
    forall k | 0 <= k < |text| ensures PiecesOf(text, starts)[k] == Singletons(text)[k] {
      IdentityEntry(text, k);
    }
  }

  lemma IdentityHas(n: int, k: int)
    requires 0 <= k < n
    ensures k in Identity(n)
  {
    assert Identity(n)[k] == k;
  }

  lemma IdentityLinked(text: Text, merges: seq<Merge>)
    requires |merges| == |text| && forall r :: 0 <= r < |text| ==> merges[r] == Merge(r - 1, r + 1, [text[r]])
    ensures Linked(text, merges, Identity(|text|)) && PiecesOf(text, Identity(|text|)) == Singletons(text)
  {
    hide Identity, PiecesOf, Starts, EntryAt;
    var starts := Identity(|text|);
    IdentityPieces(text);
    forall k {:trigger EntryAt(text, starts, k)} | 0 <= k < |starts|
      ensures merges[starts[k]] == EntryAt(text, starts, k)
    {
      IdentityEntry(text, k);
    }
    forall i | 0 <= i < |merges| ensures i in starts {
      IdentityHas(|text|, i);
    }
  }

  /** One entry per rune, as both loops start. */
  method InitialMerges(text: Text) returns (merges: array<Merge>)
    ensures fresh(merges) && Linked(text, merges[..], Identity(|text|))
    ensures PiecesOf(text, Identity(|text|)) == Singletons(text)
  {
    merges := new Merge[|text|](r requires 0 <= r < |text| => Merge(r - 1, r + 1, [text[r]]));
    IdentityLinked(text, merges[..]);
  }

  function Singletons(text: Text): (ps: Pieces)
    ensures |ps| == |text|
    ensures forall k :: 0 <= k < |ps| ==> ps[k] == [text[k]]
  {
    seq(|text|, k requires 0 <= k < |text| => [text[k]])
  }

  lemma {:induction false} ConcatSingletons(text: Text)
    ensures Concat(Singletons(text)) == text
  {
    if text != [] {
      ConcatSingletons(text[1..]);
      assert Singletons(text)[1..] == Singletons(text[1..]);
    }
  }

  /** The first live piece at or after entry i. */
  ghost predicate Before(starts: seq<int>, k: int, i: int) {
    0 <= k <= |starts| && forall j :: 0 <= j < |starts| ==> (j < k <==> starts[j] < i)
  }

  lemma BeforeNext(text: Text, merges: seq<Merge>, starts: seq<int>, k: int, i: int)
    requires Linked(text, merges, starts) && Before(starts, k, i) && 0 <= i < |merges|
    ensures if merges[i].runes != []
            then k < |starts| && merges[i].runes == PieceAt(text, starts, k) && Before(starts, k + 1, i + 1)
            else Before(starts, k, i + 1)
  {
    LiveNonEmpty(text, merges, starts, i);
    if i in starts {
      var j :| 0 <= j < |starts| && starts[j] == i;
      assert merges[starts[j]] == EntryAt(text, starts, j);
    }
  }

  lemma BeforeEnd(text: Text, starts: seq<int>, k: int)
    requires Starts(text, starts) && Before(starts, k, |text|)
    ensures k == |starts|
  {
    if starts != [] {
      assert starts[|starts| - 1] < |text|;
    }
  }

  /** The live entries read off the array in index order: what both loops emit. */
  method Collect(text: Text, merges: seq<Merge>, ghost starts: seq<int>) returns (ps: Pieces)
    requires Linked(text, merges, starts)
    ensures ps == PiecesOf(text, starts)
  {
    ps := [];
    ghost var k, all := 0, PiecesOf(text, starts);
    for i := 0 to |merges|
      invariant Before(starts, k, i) && ps == all[..k]
    {
      BeforeNext(text, merges, starts, k, i);
      if merges[i].runes != [] {
        assert merges[i].runes == all[k];
        ps := ps + [merges[i].runes];
        k := k + 1;
      }
    }
    BeforeEnd(text, starts, k);
  }

  // ---------- Candidates that outlive their pair ----------

  /** No live piece starts strictly between x and y. */
  ghost predicate NoneBetween(starts: seq<int>, x: int, y: int) {
    forall k :: 0 <= k < |starts| ==> !(x < starts[k] < y)
  }

  /** a, b and e were the starts of neighbours and their end once; nothing has started between since. */
  ghost predicate WasPair(text: Text, starts: seq<int>, a: int, b: int, e: int) {
    0 <= a < b < e <= |text| && NoneBetween(starts, a, b) && NoneBetween(starts, b, e)
  }

  /** If both entries are still live they are still neighbours, and the right one can only have grown. */
  lemma StillNeighbours(text: Text, starts: seq<int>, a: int, b: int, e: int) returns (k: int)
    requires Starts(text, starts) && WasPair(text, starts, a, b, e) && a in starts && b in starts
    ensures 0 <= k < |starts| - 1 && starts[k] == a && starts[k + 1] == b && EndOf(text, starts, k + 1) >= e
  {
    k :| 0 <= k < |starts| && starts[k] == a;
    var l :| 0 <= l < |starts| && starts[l] == b;
    assert k + 1 < |starts| ==> !(a < starts[k + 1] < b);
  }

  lemma WasPairDrop(text: Text, starts: seq<int>, k: int, a: int, b: int, e: int)
    requires Starts(text, starts) && 0 <= k < |starts| - 1 && WasPair(text, starts, a, b, e)
    ensures WasPair(text, DropStart(starts, k), a, b, e)
  {
    var r := DropStart(starts, k);
    forall j | 0 <= j < |r| ensures !(a < r[j] < b) && !(b < r[j] < e) {
      DropAt(starts, k, j);
    }
  }

  lemma PairNow(text: Text, starts: seq<int>, k: int)
    requires Starts(text, starts) && 0 <= k < |starts| - 1
    ensures WasPair(text, starts, starts[k], starts[k + 1], EndOf(text, starts, k + 1))
  {
  }

  /** An entry is non-empty exactly when it is live. */
  lemma LiveNonEmpty(text: Text, merges: seq<Merge>, starts: seq<int>, i: int)
    requires Linked(text, merges, starts) && 0 <= i < |merges|
    ensures merges[i].runes != [] <==> i in starts
  {
    if i in starts {
      var k :| 0 <= k < |starts| && starts[k] == i;
      assert merges[starts[k]] == EntryAt(text, starts, k);
      assert starts[k] < EndOf(text, starts, k);
    }
  }
}
