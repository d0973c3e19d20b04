/** The size Init gives the cache is enough: a disciplined caller never sees a full cache. */
module CacheCapacity {
  import opened CacheStore
  import opened CausalCache
  import opened CacheHistory
  import opened CacheRuns
  import opened Arith
  import opened Sets

  ghost function Held(cells: seq<Cell>, s: int): set<int> {
    set i | 0 <= i < |cells| && Holds(cells, i, s)
  }

  ghost predicate HeldByOneOf(cells: seq<Cell>, i: int, m: int) {
    exists s :: 0 <= s < m && Holds(cells, i, s)
  }

  /** The locations held by sequences 0 .. m-1. */
  ghost function HeldBelow(cells: seq<Cell>, m: int): set<int> {
    set i | 0 <= i < |cells| && HeldByOneOf(cells, i, m)
  }

  ghost function Locations(n: int): (r: set<int>)
    requires n >= 0
    ensures |r| == n && forall i :: i in r <==> 0 <= i < n
  {
    if n == 0 then {} else Locations(n - 1) + {n - 1}
  }

  lemma UnionSize<T>(a: set<T>, b: set<T>)
    ensures |a + b| <= |a| + |b|
  {
    assert a + b == a + (b - a);
    SubsetSize(b - a, b);
  }

  /** Cells of one sequence with distinct positions in [lo, hi) number at most hi - lo. */
  lemma {:induction false} HeldSize(cells: seq<Cell>, s: int, held: set<int>, lo: int, hi: int)
    requires lo <= hi
    requires forall i :: i in held ==> Holds(cells, i, s) && lo <= cells[i].pos < hi
    requires forall i, j :: Holds(cells, i, s) && Holds(cells, j, s) && cells[i].pos == cells[j].pos ==> i == j
    ensures |held| <= hi - lo
    decreases hi - lo
  {
    if lo == hi {
      if held != {} {
        var i := SomeElement(held);
      }
    } else if i :| i in held && cells[i].pos == hi - 1 {
      HeldSize(cells, s, held - {i}, lo, hi - 1);
    } else {
      HeldSize(cells, s, held, lo, hi - 1);
    }
  }

  ghost function SumHeld(cells: seq<Cell>, m: int): int
    requires m >= 0
  {
    if m == 0 then 0 else SumHeld(cells, m - 1) + |Held(cells, m - 1)|
  }

  lemma {:induction false} HeldBelowSize(cells: seq<Cell>, m: int)
    requires m >= 0
    ensures |HeldBelow(cells, m)| <= SumHeld(cells, m)
  {
    if m == 0 {
      assert HeldBelow(cells, 0) == {};
    } else {
      HeldBelowSize(cells, m - 1);
      var a, b := HeldBelow(cells, m - 1), Held(cells, m - 1);
      forall i ensures i in HeldBelow(cells, m) <==> i in a + b {
        if i in HeldBelow(cells, m) {
          var s :| 0 <= s < m && Holds(cells, i, s);
          assert s < m - 1 ==> HeldByOneOf(cells, i, m - 1);
        }
        if i in b {
          assert Holds(cells, i, m - 1);
          assert HeldByOneOf(cells, i, m);
        }
        if i in a {
          var s :| 0 <= s < m - 1 && Holds(cells, i, s);
          assert HeldByOneOf(cells, i, m);
        }
      }
      assert HeldBelow(cells, m) == a + b;
      UnionSize(a, b);
    }
  }

  /** Whatever is not held by one of the m sequences is free. */
  lemma FreeSize(cells: seq<Cell>, m: int)
    requires m >= 0
    requires forall i, s :: Holds(cells, i, s) ==> 0 <= s < m
    ensures |FreeSet(cells)| >= |cells| - SumHeld(cells, m)
  {
    var free, held := FreeSet(cells), HeldBelow(cells, m);
    forall i ensures i in Locations(|cells|) <==> i in free + held {
      if 0 <= i < |cells| && cells[i].seqs != {} {
        var s := SomeElement(cells[i].seqs);
        assert Holds(cells, i, s) && HeldByOneOf(cells, i, m);
      }
    }
    assert Locations(|cells|) == free + held;
    UnionSize(free, held);
    HeldBelowSize(cells, m);
  }

  // ---------- Finite memory ----------

  lemma SlidExtent(st: Store, p: Params, ref: Ref, batch: seq<Token>, s: int)
    requires Agrees(st, p, ref) && Continues(ref.hist, batch) && !p.Unlimited()
    ensures var low, cells := Lowest(st.cells, batch, s), Slide(st, batch, p).cells;
            forall i :: Holds(cells, i, s) ==> low - p.memory <= cells[i].pos < low
  {
    if InBatch(batch, s) {
      LowestIsEnd(ref.hist, batch, s);
    }
    assert Tracks(st, s, Of(ref.hist, s));
    var low, cells := Lowest(st.cells, batch, s), Slide(st, batch, p).cells;
    forall i | Holds(cells, i, s) ensures low - p.memory <= cells[i].pos < low {
      SlideHolds(st, batch, p, i, s);
    }
  }

  /** After updateSlidingWindow each sequence holds at most swaMemorySize cells. */
  lemma SlidHeldSize(st: Store, p: Params, ref: Ref, batch: seq<Token>, s: int)
    requires Agrees(st, p, ref) && Continues(ref.hist, batch) && !p.Unlimited()
    ensures |Held(Slide(st, batch, p).cells, s)| <= p.memory
  {
    var st' := Slide(st, batch, p);
    SlideAgrees(st, p, ref, batch);
    SlidExtent(st, p, ref, batch, s);
    assert Tracks(st', s, Of(ref.hist, s));
    var low := Lowest(st.cells, batch, s);
    HeldSize(st'.cells, s, Held(st'.cells, s), low - p.memory, low);
  }

  lemma {:induction false} SumHeldBound(cells: seq<Cell>, m: int, each: int)
    requires m >= 0 && each >= 0 && forall s :: 0 <= s < m ==> |Held(cells, s)| <= each
    ensures SumHeld(cells, m) <= m * each
  {
    if m > 0 {
      SumHeldBound(cells, m - 1, each);
      assert m * each == (m - 1) * each + each;
    }
  }

  // ---------- No memory limit ----------

  function TotalLength(h: History, m: int): int
    requires m >= 0
  {
    if m == 0 then 0 else TotalLength(h, m - 1) + |Of(h, m - 1)|
  }

  lemma {:induction false} TotalAppendOne(h: History, s: int, d: Data, m: int)
    requires m >= 0
    ensures TotalLength(h[s := Of(h, s) + [d]], m) == TotalLength(h, m) + if 0 <= s < m then 1 else 0
  {
    if m > 0 {
      TotalAppendOne(h, s, d, m - 1);
    }
  }

  lemma {:induction false} TotalAppend(h: History, batch: seq<Token>, m: int)
    requires m >= 0 && forall k :: 0 <= k < |batch| ==> 0 <= batch[k].sequence < m
    ensures TotalLength(Append(h, batch), m) == TotalLength(h, m) + |batch|
  {
    if batch != [] {
      var n := |batch| - 1;
      TotalAppend(h, batch[..n], m);
      TotalAppendOne(Append(h, batch[..n]), batch[n].sequence, batch[n].data, m);
    }
  }

  lemma {:induction false} TotalBound(h: History, m: int, each: int)
    requires m >= 0 && each >= 0 && forall s :: 0 <= s < m ==> |Of(h, s)| <= each
    ensures TotalLength(h, m) <= m * each
  {
    if m > 0 {
      TotalBound(h, m - 1, each);
      assert m * each == (m - 1) * each + each;
    }
  }

  lemma {:induction false} SumHeldTotal(st: Store, p: Params, ref: Ref, m: int)
    requires Agrees(st, p, ref) && m >= 0
    ensures SumHeld(st.cells, m) <= TotalLength(ref.hist, m)
  {
    if m > 0 {
      SumHeldTotal(st, p, ref, m - 1);
      HeldSize(st.cells, m - 1, Held(st.cells, m - 1), 0, |Of(ref.hist, m - 1)|);
    }
  }

  // ---------- Never full ----------

  /** Only sequences 0 .. m-1 have any history. */
  ghost predicate AtMost(h: History, m: int) {
    forall s :: !(0 <= s < m) ==> Of(h, s) == []
  }

  /** StartForward finds room: the cache has the size Init gives it for m sequences, the batch is no
      larger than maxBatch, and without a memory limit every sequence stays within capacity. */
  lemma NeverFull(st: Store, p: Params, ref: Ref, batch: seq<Token>, m: int, capacity: int)
    requires Agrees(st, p, ref) && Continues(ref.hist, batch) && m >= 0 && capacity >= 0
    requires |st.cells| >= CacheSize(p.memory, m, capacity, p.maxBatch) && |batch| <= p.maxBatch
    requires AtMost(ref.hist, m) && forall k :: 0 <= k < |batch| ==> 0 <= batch[k].sequence < m
    requires p.Unlimited() ==> forall s :: 0 <= s < m ==> |Of(Append(ref.hist, batch), s)| <= capacity
    ensures |FreeSet(Slide(st, batch, p).cells)| >= |batch|
  {
    var st' := Slide(st, batch, p);
    SlideAgrees(st, p, ref, batch);
    SlideWellFormed(st, batch, p);
    forall i, s | Holds(st'.cells, i, s) ensures 0 <= s < m {
      assert Tracks(st', s, Of(ref.hist, s));
    }
    FreeSize(st'.cells, m);
    if p.Unlimited() {
      SumHeldTotal(st', p, ref, m);
      TotalAppend(ref.hist, batch, m);
      TotalBound(Append(ref.hist, batch), m, capacity);
    } else {
      forall s | 0 <= s < m ensures |Held(st'.cells, s)| <= p.memory {
        SlidHeldSize(st, p, ref, batch, s);
      }
      SumHeldBound(st'.cells, m, p.memory);
    }
  }

  // ---------- Over whole runs ----------

  /** The event uses sequences 0 .. m-1 only, batches are no larger than maxBatch, and without a memory limit
      every sequence stays within capacity. */
  ghost predicate Modest(p: Params, ref: Ref, e: Event, m: int, capacity: int) {
    match e
    case Stored(batch, _) => ModestBatch(p, ref, batch, m, capacity)
    case Refused(batch) => ModestBatch(p, ref, batch, m, capacity)
    case Copied(_, dst, _) => 0 <= dst < m
    case _ => true
  }

  ghost predicate ModestBatch(p: Params, ref: Ref, batch: seq<Token>, m: int, capacity: int) {
    && |batch| <= p.maxBatch && (forall k :: 0 <= k < |batch| ==> 0 <= batch[k].sequence < m)
    && (p.Unlimited() ==> forall s :: 0 <= s < m ==> |Of(Append(ref.hist, batch), s)| <= capacity)
  }

  lemma StepCells(st: Store, p: Params, e: Event, st': Store)
    requires WellFormed(st) && CacheStep(st, p, e, st')
    ensures |st'.cells| == |st.cells|
  {
    hide FirstFree, FreeSet;
  }

  lemma StepAtMost(p: Params, ref: Ref, e: Event, m: int, capacity: int, st: Store)
    requires AtMost(ref.hist, m) && Modest(p, ref, e, m, capacity) && Disciplined(st, p, ref, e)
    ensures AtMost(RefStep(p, ref, e).hist, m)
  {
    hide Append;
    forall s | !(0 <= s < m) ensures Of(RefStep(p, ref, e).hist, s) == [] {
      assert Of(ref.hist, s) == [];
      if e.Stored? {
        assert !InBatch(e.batch, s);
        AppendGrows(ref.hist, e.batch, s);
      }
    }
  }

  lemma {:induction false} RunModest(p: Params, sts: seq<Store>, refs: seq<Ref>, es: seq<Event>, m: int, capacity: int,
                                     k: int)
    requires Run(p, sts, refs, es) && 0 <= k <= |es|
    requires forall i :: 0 <= i < |es| ==> Modest(p, refs[i], es[i], m, capacity)
    ensures AtMost(refs[k].hist, m) && |sts[k].cells| == |sts[0].cells|
  {
    hide Modest, AtMost, CacheStep, Disciplined, RefStep;
    if k == 0 {
      NoHistory(refs[0], m);
    } else {
      RunModest(p, sts, refs, es, m, capacity, k - 1);
      StepCells(sts[k - 1], p, es[k - 1], sts[k]);
      StepAtMost(p, refs[k - 1], es[k - 1], m, capacity, sts[k - 1]);
    }
  }

  lemma NoHistory(ref: Ref, m: int)
    requires ref == Ref(map[], {})
    ensures AtMost(ref.hist, m)
  {
  }

  /** No disciplined run of modest events on a cache of the size Init gives ever has a batch refused. */
  lemma RunNeverRefuses(p: Params, sts: seq<Store>, refs: seq<Ref>, es: seq<Event>, m: int, capacity: int, k: int)
    requires Run(p, sts, refs, es) && 0 <= k < |es| && m >= 0 && capacity >= 0
    requires |sts[0].cells| >= CacheSize(p.memory, m, capacity, p.maxBatch)
    requires forall i :: 0 <= i < |es| ==> Modest(p, refs[i], es[i], m, capacity)
    ensures !es[k].Refused?
  {
    hide Slide, FreeSet, CacheSize, AtMost, Agrees, Append, Continues;
    assert Modest(p, refs[k], es[k], m, capacity);
    RunModest(p, sts, refs, es, m, capacity, k);
    RunAgrees(p, sts, refs, es, k);
    if es[k].Refused? {
      assert Disciplined(sts[k], p, refs[k], es[k]) && CacheStep(sts[k], p, es[k], sts[k + 1]);
      NeverFull(sts[k], p, refs[k], es[k].batch, m, capacity);
    }
  }
}
