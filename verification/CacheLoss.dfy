/** A run of the causal KV cache after which removing positions from the middle loses a token that the window still
    needs (kvcache/causal.go): one sequence, one token at a time, a window of two. */
module CacheLoss {
  import opened CacheStore
  import opened CausalCache
  import opened CacheHistory
  import opened CacheRuns

  /** A window of two, batches of one, and no padding, as Init sets them up for one sequence. */
  const SMALL := Params(2, 2, 0, 1, 1)

  /** Where token n is stored, going round the three locations. */
  function Loc(n: int): (j: int)
    ensures 0 <= j < 3 && (0 <= n < 3 ==> j == n)
  {
    if n <= 0 then 0 else if Loc(n - 1) == 2 then 0 else Loc(n - 1) + 1
  }

  /** The last position before n at location j. */
  function LastAt(n: int, j: int): (q: int)
    requires 0 <= j < 3 && j < n
    ensures n - 3 <= q < n && 0 <= q && (q == n - 3 <==> j == Loc(n))
  {
    if Loc(n - 1) == j then n - 1 else if Loc(n - 2) == j then n - 2 else n - 3
  }

  function CellAt(n: int, j: int): Cell
    requires 0 <= j < 3
  {
    if j < n then Cell(LastAt(n, j), {0}) else Cell(0, {})
  }

  function RowAt(data: seq<Data>, n: int, j: int): Row
    requires 0 <= j < 3 && n <= |data|
  {
    if j < n then Row(data[LastAt(n, j)], LastAt(n, j)) else Row(0, 0)
  }

  /** The cache after n tokens. */
  function Rolled(data: seq<Data>, n: int): Store
    requires 0 <= n <= |data|
  {
    Store([CellAt(n, 0), CellAt(n, 1), CellAt(n, 2)],
          [RowAt(data, n, 0), RowAt(data, n, 1), RowAt(data, n, 2)],
          if n == 0 then map[] else map[0 := Range(0, if n < 3 then n - 1 else 2)])
  }

  function Next(data: seq<Data>, n: int): seq<Token>
    requires 0 <= n < |data|
  {
    [Token(0, n, data[n])]
  }

  /** Eviction frees exactly the location the next token goes to, once all are in use. */
  lemma SlidCell(data: seq<Data>, n: int, j: int)
    requires 0 <= n < |data| && 0 <= j < 3
    ensures SlideCell(Rolled(data, n).cells, Next(data, n), 2, CellAt(n, j))
            == if j < n && j == Loc(n) then Cell(n - 3, {}) else CellAt(n, j)
  {
    var batch := Next(data, n);
    assert batch[0].sequence == 0 && InBatch(batch, 0) && LowestInBatch(batch, 0) == n;
    assert Lowest(Rolled(data, n).cells, batch, 0) == n;
    var c := SlideCell(Rolled(data, n).cells, batch, 2, CellAt(n, j));
    if j < n {
      assert forall s :: s in c.seqs <==> s == 0 && LastAt(n, j) >= n - 2;
      assert LastAt(n, j) >= n - 2 <==> j != Loc(n);
    } else {
      assert c.seqs == {};
    }
  }

  lemma Slid(data: seq<Data>, n: int)
    requires 0 <= n < |data|
    ensures var slid := Slide(Rolled(data, n), Next(data, n), SMALL);
            && |slid.cells| == 3 && slid.rows == Rolled(data, n).rows && slid.ranges.Keys == Rolled(data, n).ranges.Keys
            && (forall j :: 0 <= j < 3 ==>
                  slid.cells[j] == if j < n && j == Loc(n) then Cell(n - 3, {}) else CellAt(n, j))
            && (n > 0 ==> slid.ranges[0] == Span(slid.cells, 0))
  {
    hide SlideCell, Span, CellAt, RowAt, LastAt, Loc, Next;
    var cells := Rolled(data, n).cells;
    forall j | 0 <= j < 3
      ensures SlideCell(cells, Next(data, n), 2, cells[j])
              == if j < n && j == Loc(n) then Cell(n - 3, {}) else CellAt(n, j)
    {
      SlidCell(data, n, j);
      assert cells[j] == CellAt(n, j);
    }
  }

  /** The locations in use after eviction, and the one that is not. */
  lemma SlidSpan(cells: seq<Cell>, n: int)
    requires n > 0 && |cells| == 3
    requires forall j :: 0 <= j < 3 ==> (Holds(cells, j, 0) <==> j < n && j != Loc(n))
    ensures Widen(Span(cells, 0), Loc(n)) == Range(0, if n < 3 then n else 2)
  {
    var r := if n == 1 then Range(0, 0) else if n == 2 then Range(0, 1)
             else if Loc(n) == 0 then Range(1, 2) else if Loc(n) == 1 then Range(0, 2) else Range(0, 1);
    assert IsSpan(cells, 0, r, 0, 3);
    SpanUnique(cells, 0, r);
  }

  /** The freed location, or the first one not used yet, is the first free one. */
  lemma FirstOne(cells: seq<Cell>, n: int)
    requires 0 <= n && |cells| == 3
    requires forall j :: 0 <= j < 3 ==> cells[j] == if j < n && j == Loc(n) then Cell(n - 3, {}) else CellAt(n, j)
    ensures FirstFree(cells, [Loc(n)], 1)
  {
    assert cells[Loc(n)].seqs == {};
    assert forall j :: j in FreeSet(cells) ==> j == Loc(n) || (n < 3 && j > n);
  }

  lemma OneStep(data: seq<Data>, n: int)
    requires 0 <= n < |data|
    ensures Forwarded(Rolled(data, n), SMALL, Next(data, n), true, [Loc(n)], Rolled(data, n + 1))
  {
    var st, batch, locs := Rolled(data, n), Next(data, n), [Loc(n)];
    var slid := Slide(st, batch, SMALL);
    Slid(data, n);
    FirstOne(slid.cells, n);
    StoreNext(data, n, slid);
    hide Slide, Span, FirstFree, Place, CellAt, RowAt, Loc, LastAt, Rolled;
    assert ValidLocs(slid, batch, locs);
    assert batch[..0] == [] && locs[..0] == [];
    assert PlaceAll(slid, [], []) == slid;
    assert PlaceAll(slid, batch, locs) == Place(slid, Loc(n), batch[0]);
  }

  /** Token n is the last one at its location; the other locations keep theirs. */
  lemma LastNext(data: seq<Data>, n: int, j: int)
    requires 0 <= n < |data| && 0 <= j < 3
    ensures CellAt(n + 1, j) == if j == Loc(n) then Cell(n, {0}) else CellAt(n, j)
    ensures RowAt(data, n + 1, j) == if j == Loc(n) then Row(data[n], n) else RowAt(data, n, j)
  {
    if j == Loc(n) {
      assert LastAt(n + 1, j) == n;
    } else if j < n {
      assert LastAt(n + 1, j) == LastAt(n, j);
    }
  }

  /** Storing the token in the freed location gives the next state. */
  lemma StoreNext(data: seq<Data>, n: int, slid: Store)
    requires 0 <= n < |data| && |slid.cells| == 3 && slid.rows == Rolled(data, n).rows
    requires slid.ranges.Keys == Rolled(data, n).ranges.Keys && (n > 0 ==> slid.ranges[0] == Span(slid.cells, 0))
    requires forall j :: 0 <= j < 3 ==> slid.cells[j] == if j < n && j == Loc(n) then Cell(n - 3, {}) else CellAt(n, j)
    ensures Place(slid, Loc(n), Next(data, n)[0]) == Rolled(data, n + 1)
  {
    hide Span, CellAt, RowAt, Loc, LastAt;
    var placed, next := Place(slid, Loc(n), Next(data, n)[0]), Rolled(data, n + 1);
    LastNext(data, n, 0);
    LastNext(data, n, 1);
    LastNext(data, n, 2);
    assert placed.cells == next.cells;
    assert placed.rows == next.rows;
    RangeNext(data, n, slid);
  }

  lemma RangeNext(data: seq<Data>, n: int, slid: Store)
    requires 0 <= n < |data| && |slid.cells| == 3 && |slid.rows| == 3
    requires slid.ranges.Keys == Rolled(data, n).ranges.Keys && (n > 0 ==> slid.ranges[0] == Span(slid.cells, 0))
    requires forall j :: 0 <= j < 3 ==> slid.cells[j] == if j < n && j == Loc(n) then Cell(n - 3, {}) else CellAt(n, j)
    ensures Place(slid, Loc(n), Next(data, n)[0]).ranges == Rolled(data, n + 1).ranges
  {
    hide Span, Loc, LastAt;
    if n > 0 {
      SlidSpan(slid.cells, n);
    }
  }

  // ---------- The run ----------

  function Told(data: seq<Data>, n: int): Ref
    requires 0 <= n <= |data|
  {
    Ref(if n == 0 then map[] else map[0 := data[..n]], {})
  }

  lemma TellOne(data: seq<Data>, n: int)
    requires 0 <= n < |data| <= 100
    ensures Told(data, n + 1) == RefStep(SMALL, Told(data, n), Stored(Next(data, n), [Loc(n)]))
    ensures MayForward(Told(data, n), Next(data, n))
  {
    var ref, batch := Told(data, n), Next(data, n);
    assert batch[..0] == [] && Append(ref.hist, []) == ref.hist;
    assert Of(ref.hist, 0) == data[..n];
    assert data[..n] + [data[n]] == data[..n + 1];
  }

  lemma StepRolls(data: seq<Data>, n: int)
    requires 0 <= n < |data| <= 100
    ensures var e := Stored(Next(data, n), [Loc(n)]);
            && WellFormed(Rolled(data, n)) && Disciplined(Rolled(data, n), SMALL, Told(data, n), e)
            && CacheStep(Rolled(data, n), SMALL, e, Rolled(data, n + 1))
            && Told(data, n + 1) == RefStep(SMALL, Told(data, n), e)
  {
    hide Rolled, Told, Next, Forwarded, MayForward, RefStep;
    RolledWellFormed(data, n);
    OneStep(data, n);
    TellOne(data, n);
  }

  /** Storing tokens one at a time is a disciplined run from an empty cache of the size Init gives it. */
  lemma Rolls(data: seq<Data>) returns (sts: seq<Store>, refs: seq<Ref>, es: seq<Event>)
    requires |data| <= 100
    ensures Run(SMALL, sts, refs, es) && |es| == |data|
    ensures sts[|data|] == Rolled(data, |data|) && refs[|data|] == Told(data, |data|)
    ensures |sts[0].cells| == CacheSize(MemorySize(2, 0, 1, 100), 1, 100, 1)
  {
    sts := seq(|data| + 1, n requires 0 <= n <= |data| => Rolled(data, n));
    refs := seq(|data| + 1, n requires 0 <= n <= |data| => Told(data, n));
    es := seq(|data|, n requires 0 <= n < |data| => Stored(Next(data, n), [Loc(n)]));
    RolledEmpty(data);
    hide Rolled, Told, Next, Disciplined, CacheStep, WellFormed, Initial, RefStep;
    forall k | 0 <= k < |es|
      ensures WellFormed(sts[k]) && Disciplined(sts[k], SMALL, refs[k], es[k])
      ensures CacheStep(sts[k], SMALL, es[k], sts[k + 1]) && refs[k + 1] == RefStep(SMALL, refs[k], es[k])
    {
      StepRolls(data, k);
    }
  }

  lemma RolledWellFormed(data: seq<Data>, n: int)
    requires 0 <= n <= |data| <= 100
    ensures WellFormed(Rolled(data, n))
  {
  }

  lemma RolledEmpty(data: seq<Data>)
    ensures Initial(Rolled(data, 0), SMALL, Told(data, 0)) && |Rolled(data, 0).cells| == 3
  {
  }

  lemma LosesPositionTwo(st: Store)
    requires WellFormed(st) && st.cells == [Cell(9, {0}), Cell(7, {0}), Cell(8, {0})]
    ensures NoneBlocked(st.cells, 0, 9) && !Present(Cut(st, 0, 3, 9).cells, 0, 2)
  {
    assert !Present(st.cells, 0, 2);
    hide Cut, Present;
    if Present(Cut(st, 0, 3, 9).cells, 0, 2) {
      CutHeld(st, 0, 3, 9, 2);
    }
  }

  /** Ten tokens, then positions 3 to 8 are removed: four positions are left, the window before the next token reaches
      back to position 2, and that is gone, although nothing stood in the way of the removal. */
  lemma ShiftLosesWindow(data: seq<Data>) returns (sts: seq<Store>, refs: seq<Ref>, es: seq<Event>)
    requires |data| == 10
    ensures Run(SMALL, sts, refs, es) && |es| == 10 && refs[10] == Ref(map[0 := data], {})
    ensures |sts[0].cells| == CacheSize(MemorySize(2, 0, 1, 100), 1, 100, 1)
    ensures WellFormed(sts[10]) && NoneBlocked(sts[10].cells, 0, 9)
    ensures |Splice(data, 3, 9)| == 4 && !Present(Cut(sts[10], 0, 3, 9).cells, 0, 2)
    ensures !HasFrom(Cut(sts[10], 0, 3, 9).cells, 0, Splice(data, 3, 9), 4 - SMALL.window)
  {
    sts, refs, es := Rolls(data);
    RolledWellFormed(data, 10);
    assert data[..10] == data;
    assert sts[10].cells == [Cell(9, {0}), Cell(7, {0}), Cell(8, {0})];
    hide Run, Cut, Present, WellFormed, NoneBlocked, Rolled;
    LosesPositionTwo(sts[10]);
  }
}
