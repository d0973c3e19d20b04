/** The causal KV cache (kvcache/causal.go): every method is proved to compute, in place, the
    function of the same operation in CacheStore. */
module CausalCache {
  import opened Options
  import opened CacheStore
  import opened Arith
  import opened Sets

  function Wrap32(x: int): int {
    if x > MAX_INT32 then x - 0x1_0000_0000 else x
  }

  function RoundDown(length: int, pad: int): (r: int)
    requires pad >= 1 && length >= 0
    ensures length - pad < r <= length && r >= 0 && r % pad == 0
  {
    MultipleMod(pad, length / pad);
    assert (length / pad) * pad == pad * (length / pad);
    (length / pad) * pad
  }

  function RoundUp(length: int, pad: int): (r: int)
    requires pad >= 1 && length >= 0
    ensures length <= r < length + pad && r % pad == 0
  {
    RoundDown(length + pad - 1, pad)
  }

  /** The memory the cache keeps per sequence, or MAX_INT32 for no limit. */
  function MemorySize(window: int, memory: int, maxSequences: int, capacity: int): int {
    var m := if memory == 0 then window else memory;
    var m := if m != MAX_INT32 && maxSequences > 1 then Max(m, Wrap32(window + 1)) else m;
    if m >= capacity then MAX_INT32 else m
  }

  function CacheSize(memory: int, maxSequences: int, capacity: int, maxBatch: int): int {
    if memory == MAX_INT32 then maxSequences * capacity else maxSequences * memory + maxBatch
  }

  /** The keys of a Go map, in the unspecified order a range loop visits them. */
  method InAnyOrder<T(==)>(keys: set<T>) returns (order: seq<T>)
    ensures forall s :: s in order <==> s in keys
    ensures forall i, j :: 0 <= i < j < |order| ==> order[i] != order[j]
  {
    order := [];
    var todo := keys;
    while |todo| != 0
      invariant forall s :: s in keys <==> s in todo || s in order
      invariant forall i :: 0 <= i < |order| ==> order[i] !in todo
      invariant forall i, j :: 0 <= i < j < |order| ==> order[i] != order[j]
      decreases |todo|
    {
      var s :| s in todo;
      todo, order := todo - {s}, order + [s];
    }
  }

  /** The lowest batch position of each sequence of the batch. */
  method LowestOfBatch(batch: seq<Token>) returns (lowest: map<int, int>)
    ensures forall s :: s in lowest <==> InBatch(batch, s)
    ensures forall s :: s in lowest ==> lowest[s] == LowestInBatch(batch, s)
  {
    lowest := map[];
    for k := 0 to |batch|
      invariant forall s :: s in lowest <==> InBatch(batch[..k], s)
      invariant forall s :: s in lowest ==> lowest[s] == LowestInBatch(batch[..k], s)
    {
      ghost var before := lowest;
      var s := batch[k].sequence;
      if s !in lowest {
        lowest := lowest[s := batch[k].pos];
      } else if batch[k].pos < lowest[s] {
        lowest := lowest[s := batch[k].pos];
      }
      forall s'
        ensures s' in lowest <==> InBatch(batch[..k + 1], s')
        ensures s' in lowest ==> lowest[s'] == LowestInBatch(batch[..k + 1], s')
      {
        InBatchSnoc(batch, k, s');
        assert s' in before <==> InBatch(batch[..k], s');
      }
    }
    assert batch[..|batch|] == batch;
  }

  /** Highest position s holds, scanning only its recorded range. */
  method LastOf(cells: seq<Cell>, s: int, range: Range) returns (last: int)
    requires GoodRange(range, |cells|)
    requires forall i :: Holds(cells, i, s) ==> range.min <= i <= range.max
    ensures last == LastPos(cells, s)
  {
    last := 0;
    var i := range.min;
    while i <= range.max
      invariant range.min <= i && (i <= range.max + 1 || range == EMPTY)
      invariant last >= 0
      invariant forall j :: Holds(cells, j, s) && j < i ==> cells[j].pos <= last
      invariant last == 0 || exists j :: At(cells, j, s, last)
    {
      if s in cells[i].seqs {
        assert At(cells, i, s, cells[i].pos);
        last := Max(last, cells[i].pos);
      }
      i := i + 1;
    }
  }

  /** The source's lowestPos map: the batch's sequences, then every other recorded one. */
  method LowestPositions(cells: seq<Cell>, ranges: map<int, Range>, batch: seq<Token>) returns (lowest: map<int, int>)
    requires Covered(cells, ranges)
    ensures forall s :: s in lowest <==> InBatch(batch, s) || s in ranges
    ensures forall s :: s in lowest ==> lowest[s] == Lowest(cells, batch, s)
  {
    lowest := LowestOfBatch(batch);
    var order := InAnyOrder(ranges.Keys);
    for k := 0 to |order|
      invariant forall s :: s in lowest <==> InBatch(batch, s) || s in order[..k]
      invariant forall s :: s in lowest ==> lowest[s] == Lowest(cells, batch, s)
    {
      var s := order[k];
      if s !in lowest {
        var last := LastOf(cells, s, ranges[s]);
        lowest := lowest[s := last + 1];
      }
      assert forall s' :: s' in order[..k + 1] <==> s' in order[..k] || s' == s;
    }
    assert order[..|order|] == order;
  }

  /** Locations below i of range are done, those from i on are untouched. */
  ghost predicate Dropped(was: seq<Cell>, cells: seq<Cell>, s: int, bound: int, i: int) {
    && |cells| == |was|
    && forall j :: 0 <= j < |cells| ==> cells[j] == if j < i then Drop(was[j], s, bound) else was[j]
  }

  /** Every location below i that still holds s with a position of at least from lies in cur. */
  ghost predicate CurCovers(cells: seq<Cell>, s: int, from: int, cur: Range, i: int) {
    forall j :: Holds(cells, j, s) && j < i && cells[j].pos >= from ==> cur.min <= j <= cur.max
  }

  ghost predicate Grown(old': Range, cur: Range, n: int) {
    cur.min <= old'.min && old'.max <= cur.max && (GoodRange(old', n) ==> GoodRange(cur, n))
  }

  lemma DroppedNext(was: seq<Cell>, cells: seq<Cell>, s: int, bound: int, i: int, r: Range)
    requires Dropped(was, cells, s, bound, i) && 0 <= i < |was| < MAX_INT
    requires IsSpan(cells, s, r, 0, i)
    ensures var cells' := cells[i := Drop(was[i], s, bound)];
            Dropped(was, cells', s, bound, i + 1)
            && IsSpan(cells', s, if s in cells'[i].seqs then Widen(r, i) else r, 0, i + 1)
            && forall j :: j != i ==> (Holds(cells', j, s) <==> Holds(cells, j, s))
  {
    var cells' := cells[i := Drop(was[i], s, bound)];
    assert forall j :: j != i ==> (Holds(cells', j, s) <==> Holds(cells, j, s));
  }

  lemma DroppedCell(was: seq<Cell>, cells: seq<Cell>, s: int, bound: int, i: int)
    requires Dropped(was, cells, s, bound, i) && 0 <= i < |was|
    ensures |cells| == |was| && cells[i] == was[i]
  {
  }

  /** No cell of s lies before its range. */
  lemma NoneCovered(was: seq<Cell>, s: int, from: int, cur: Range, range: Range)
    requires forall i :: Holds(was, i, s) ==> range.min <= i <= range.max
    ensures CurCovers(was, s, from, cur, range.min)
  {
  }

  /** One more location, which the current range takes in if the window needs it. */
  lemma CoversNext(was: seq<Cell>, cells: seq<Cell>, s: int, bound: int, from: int, cur: Range, i: int)
    requires Dropped(was, cells, s, bound, i) && 0 <= i < |was|
    ensures var next := cells[i := Drop(was[i], s, bound)];
            CurCovers(cells, s, from, cur, i) ==>
              && CurCovers(next, s, from, Widen(cur, i), i + 1)
              && (s !in was[i].seqs || was[i].pos < from ==> CurCovers(next, s, from, cur, i + 1))
  {
    var next := cells[i := Drop(was[i], s, bound)];
    assert forall j :: j != i && Holds(next, j, s) ==> Holds(cells, j, s) && next[j] == cells[j];
  }

  lemma DroppedOutside(was: seq<Cell>, cells: seq<Cell>, s: int, bound: int, range: Range, i: int, r: Range)
    requires |was| < MAX_INT && GoodRange(range, |was|)
    requires forall j :: Holds(was, j, s) ==> range.min <= j <= range.max
    requires Dropped(was, cells, s, bound, i) && i > range.max
             && IsSpan(cells, s, r, 0, if range == EMPTY then |cells| else i)
    ensures Dropped(was, cells, s, bound, |was|) && r == Span(cells, s)
    ensures forall j :: Holds(cells, j, s) ==> j < i
  {
    forall j | 0 <= j < |was| && i <= j ensures !Holds(cells, j, s) && was[j] == Drop(was[j], s, bound) {
      assert !Holds(was, j, s);
    }
    SpanUnique(cells, s, r);
  }

  lemma DroppedStart(was: seq<Cell>, s: int, bound: int, range: Range)
    requires |was| < MAX_INT && GoodRange(range, |was|)
    requires forall j :: Holds(was, j, s) ==> range.min <= j <= range.max
    ensures Dropped(was, was, s, bound, range.min)
    ensures IsSpan(was, s, EMPTY, 0, if range == EMPTY then |was| else range.min)
  {
    forall j | 0 <= j < |was| && j < range.min ensures !Holds(was, j, s) && was[j] == Drop(was[j], s, bound) {
    }
  }

  /** One pass of the deletion loop: take s off its cells below low - memory. */
  method SlideOne(was: seq<Cell>, range: Range, p: Params, s: int, low: int, inBatch: bool, cur0: Range)
    returns (cells: seq<Cell>, newRange: Range, cur: Range)
    requires p.Valid() && |was| < MAX_INT && GoodRange(range, |was|)
    requires forall i :: Holds(was, i, s) ==> range.min <= i <= range.max
    ensures Dropped(was, cells, s, low - p.memory, |was|)
    ensures newRange == Span(cells, s)
    ensures Grown(cur0, cur, |was|)
    ensures inBatch ==> CurCovers(cells, s, low - p.window, cur, |cells|)
  {
    hide IsSpan, Span, CurCovers, Dropped;
    NoneCovered(was, s, low - p.window, cur0, range);
    cells, newRange, cur := was, EMPTY, cur0;
    var i := range.min;
    DroppedStart(was, s, low - p.memory, range);
    while i <= range.max
      invariant range.min <= i && (i <= range.max + 1 || range == EMPTY)
      invariant Dropped(was, cells, s, low - p.memory, i)
      invariant IsSpan(cells, s, newRange, 0, if range == EMPTY then |cells| else i)
      invariant Grown(cur0, cur, |was|)
      invariant inBatch ==> CurCovers(cells, s, low - p.window, cur, i)
    {
      DroppedNext(was, cells, s, low - p.memory, i, newRange);
      DroppedCell(was, cells, s, low - p.memory, i);
      CoversNext(was, cells, s, low - p.memory, low - p.window, cur, i);
      ghost var next := cells[i := Drop(was[i], s, low - p.memory)];
      if s in cells[i].seqs {
        var pos := cells[i].pos;
        if pos < low - p.memory {
          cells := cells[i := Cell(pos, cells[i].seqs - {s})];
        } else {
          newRange := Widen(newRange, i);
        }
        if inBatch && pos >= low - p.window {
          cur := Widen(cur, i);
        }
      }
      assert cells == next;
      i := i + 1;
    }
    DroppedOutside(was, cells, s, low - p.memory, range, i, newRange);
    DroppedLength(was, cells, s, low - p.memory, |was|);
    if inBatch {
      CoversAll(cells, s, low - p.window, cur, i);
    }
  }

  lemma CoversAll(cells: seq<Cell>, s: int, from: int, cur: Range, i: int)
    requires CurCovers(cells, s, from, cur, i) && forall j :: Holds(cells, j, s) ==> j < i
    ensures CurCovers(cells, s, from, cur, |cells|)
  {
  }

  lemma DroppedLength(was: seq<Cell>, cells: seq<Cell>, s: int, bound: int, i: int)
    requires Dropped(was, cells, s, bound, i)
    ensures |cells| == |was|
  {
  }

  ghost predicate SlidFor(was: seq<Cell>, cells: seq<Cell>, batch: seq<Token>, memory: int, done: set<int>) {
    && |cells| == |was|
    && forall i :: 0 <= i < |cells| ==> cells[i] == SlideCellFor(was, batch, memory, was[i], done)
  }

  lemma SlidForStart(was: seq<Cell>, batch: seq<Token>, memory: int)
    ensures SlidFor(was, was, batch, memory, {})
  {
    forall i | 0 <= i < |was| ensures was[i] == SlideCellFor(was, batch, memory, was[i], {}) {
      assert SlideCellFor(was, batch, memory, was[i], {}).seqs == was[i].seqs;
    }
  }

  lemma SlidForNext(was: seq<Cell>, cells: seq<Cell>, cells': seq<Cell>, batch: seq<Token>, memory: int, done: set<int>,
                    s: int)
    requires SlidFor(was, cells, batch, memory, done) && s !in done
    requires Dropped(cells, cells', s, Lowest(was, batch, s) - memory, |cells|)
    ensures SlidFor(was, cells', batch, memory, done + {s})
    ensures forall i, s' :: s' != s ==> (Holds(cells', i, s') <==> Holds(cells, i, s'))
    ensures forall i :: Holds(cells', i, s) ==> Holds(was, i, s)
  {
    forall i | 0 <= i < |was| ensures cells'[i] == SlideCellFor(was, batch, memory, was[i], done + {s}) {
      SlideCellNext(was, batch, memory, was[i], done, s);
    }
  }

  lemma SlidForEnd(was: seq<Cell>, cells: seq<Cell>, batch: seq<Token>, memory: int, done: set<int>)
    requires SlidFor(was, cells, batch, memory, done)
    requires forall i, s :: Holds(was, i, s) ==> s in done
    ensures cells == SlideCells(was, batch, memory)
  {
    forall i | 0 <= i < |cells| ensures cells[i] == SlideCell(was, batch, memory, was[i]) {
      forall s | s in was[i].seqs ensures s in done {
        assert Holds(was, i, s);
      }
      assert cells[i].seqs == SlideCell(was, batch, memory, was[i]).seqs;
    }
  }

  /** The covering range of the batch's sequences when nothing is ever deleted. */
  method RangeOfBatch(cells: seq<Cell>, ranges: map<int, Range>, batch: seq<Token>) returns (cur: Range)
    requires Covered(cells, ranges)
    ensures GoodRange(cur, |cells|)
    ensures forall s, i :: InBatch(batch, s) && Holds(cells, i, s) ==> cur.min <= i <= cur.max
  {
    cur := EMPTY;
    for k := 0 to |batch|
      invariant GoodRange(cur, |cells|)
      invariant forall s, i :: InBatch(batch[..k], s) && Holds(cells, i, s) ==> cur.min <= i <= cur.max
    {
      forall s ensures InBatch(batch[..k + 1], s) <==> InBatch(batch[..k], s) || batch[k].sequence == s {
        InBatchSnoc(batch, k, s);
      }
      if batch[k].sequence in ranges {
        var r := ranges[batch[k].sequence];
        cur := Range(Min(cur.min, r.min), Max(cur.max, r.max));
      }
    }
    assert batch[..|batch|] == batch;
  }

  /** The deletion loop over all sequences. */
  method SlideAll(was: seq<Cell>, wasRanges: map<int, Range>, p: Params, batch: seq<Token>, lowest: map<int, int>)
    returns (cells: seq<Cell>, ranges: map<int, Range>, cur: Range)
    requires p.Valid() && |was| < MAX_INT && Covered(was, wasRanges)
    requires forall s :: s in lowest <==> InBatch(batch, s) || s in wasRanges
    requires forall s :: s in lowest ==> lowest[s] == Lowest(was, batch, s)
    ensures cells == SlideCells(was, batch, p.memory)
    ensures ranges == map s | s in wasRanges :: Span(cells, s)
    ensures GoodRange(cur, |cells|)
    ensures forall s :: InBatch(batch, s) ==> CurCovers(cells, s, LowestInBatch(batch, s) - p.window, cur, |cells|)
  {
    hide Span, LowestInBatch, SlideCells, IsSpan;
    cells, ranges, cur := was, wasRanges, EMPTY;
    ghost var done: set<int> := {};
    var order := InAnyOrder(lowest.Keys);
    SlidForStart(was, batch, p.memory);
    for k := 0 to |order|
      invariant done == set s | s in order[..k]
      invariant Sliding(was, wasRanges, p, batch, done, cells, ranges, cur)
    {
      var s := order[k];
      assert s !in order[..k];
      ghost var before, beforeRanges, beforeCur := cells, ranges, cur;
      SlidingHolds(was, wasRanges, p, batch, done, cells, ranges, cur, s);
      if s in ranges {
        var r;
        cells, r, cur := SlideOne(cells, ranges[s], p, s, lowest[s], InBatch(batch, s), cur);
        ranges := ranges[s := r];
      } else {
        DroppedNothing(cells, s, lowest[s] - p.memory);
      }
      SlidingNext(was, wasRanges, p, batch, done, before, beforeRanges, beforeCur, s, cells, ranges, cur);
      done := done + {s};
      assert forall s' :: s' in order[..k + 1] <==> s' in order[..k] || s' == s;
    }
    assert order[..|order|] == order;
    SlidForEnd(was, cells, batch, p.memory, done);
  }

  /** The state of the deletion loop when the sequences in done have been handled. */
  ghost predicate Sliding(was: seq<Cell>, wasRanges: map<int, Range>, p: Params, batch: seq<Token>, done: set<int>,
                          cells: seq<Cell>, ranges: map<int, Range>, cur: Range) {
    && |was| < MAX_INT && SlidFor(was, cells, batch, p.memory, done)
    && ranges.Keys == wasRanges.Keys && GoodRange(cur, |cells|)
    && (forall s :: s in ranges ==> ranges[s] == if s in done then Span(cells, s) else wasRanges[s])
    && (forall s :: s in done && InBatch(batch, s) ==>
          CurCovers(cells, s, LowestInBatch(batch, s) - p.window, cur, |cells|))
  }

  lemma SlidingHolds(was: seq<Cell>, wasRanges: map<int, Range>, p: Params, batch: seq<Token>, done: set<int>,
                     cells: seq<Cell>, ranges: map<int, Range>, cur: Range, s: int)
    requires Sliding(was, wasRanges, p, batch, done, cells, ranges, cur) && Covered(was, wasRanges) && s !in done
    ensures s in ranges ==> GoodRange(ranges[s], |cells|)
    ensures forall i :: Holds(cells, i, s) ==> s in ranges && ranges[s].min <= i <= ranges[s].max
  {
    assert forall i :: Holds(cells, i, s) ==> Holds(was, i, s);
  }

  lemma SlidingNext(was: seq<Cell>, wasRanges: map<int, Range>, p: Params, batch: seq<Token>, done: set<int>,
                    before: seq<Cell>, beforeRanges: map<int, Range>, beforeCur: Range,
                    s: int, cells: seq<Cell>, ranges: map<int, Range>, cur: Range)
    requires Sliding(was, wasRanges, p, batch, done, before, beforeRanges, beforeCur) && s !in done
    requires Dropped(before, cells, s, Lowest(was, batch, s) - p.memory, |before|)
    requires ranges == if s in beforeRanges then beforeRanges[s := Span(cells, s)] else beforeRanges
    requires Grown(beforeCur, cur, |before|)
    requires InBatch(batch, s) ==> CurCovers(cells, s, LowestInBatch(batch, s) - p.window, cur, |cells|)
    ensures Sliding(was, wasRanges, p, batch, done + {s}, cells, ranges, cur)
  {
    hide Span, Lowest, LowestInBatch, InBatch, SlidFor, IsSpan;
    SlidForNext(was, before, cells, batch, p.memory, done, s);
    SpansKept(before, cells, s);
    CoversKept(before, cells, beforeCur, cur, s, p, batch);
  }

  lemma DroppedNothing(cells: seq<Cell>, s: int, bound: int)
    requires forall i :: !Holds(cells, i, s)
    ensures Dropped(cells, cells, s, bound, |cells|)
  {
    forall i | 0 <= i < |cells| ensures cells[i] == Drop(cells[i], s, bound) {
      assert !Holds(cells, i, s);
    }
  }

  lemma SpansKept(before: seq<Cell>, cells: seq<Cell>, s: int)
    requires |before| == |cells| < MAX_INT
    requires forall i, s' :: s' != s ==> (Holds(cells, i, s') <==> Holds(before, i, s'))
    ensures forall s' :: s' != s ==> Span(cells, s') == Span(before, s')
  {
    forall s' | s' != s ensures Span(cells, s') == Span(before, s') {
      assert IsSpan(cells, s', Span(before, s'), 0, |cells|);
      SpanUnique(cells, s', Span(before, s'));
    }
  }

  lemma CoversKept(before: seq<Cell>, cells: seq<Cell>, cur: Range, cur': Range, s: int, p: Params, batch: seq<Token>)
    requires |before| == |cells|
    requires forall i, s' :: s' != s ==> (Holds(cells, i, s') <==> Holds(before, i, s'))
    requires forall i :: 0 <= i < |cells| ==> cells[i].pos == before[i].pos
    requires cur'.min <= cur.min && cur.max <= cur'.max
    ensures forall s', from :: s' != s && CurCovers(before, s', from, cur, |before|) ==>
            CurCovers(cells, s', from, cur', |cells|)
  {
  }

  /** Entry (i, j) of a mask whose rows cover the given range. */
  ghost predicate MaskRow(mask: seq<bool>, cells: seq<Cell>, t: Token, p: Params, causal: bool, range: Range, i: int)
    requires 0 <= range.min <= range.max < |cells|
  {
    var width := range.max - range.min + 1;
    && 0 <= i * width && i * width + width <= |mask|
    && forall j :: range.min <= j <= range.max ==> mask[i * width + (j - range.min)] == Visible(cells[j], t, p, causal)
  }

  /** Fill one row of the mask. */
  method FillRow(mask: array<bool>, cells: seq<Cell>, t: Token, p: Params, causal: bool, range: Range, base: int)
    requires 0 <= range.min <= range.max < |cells| && 0 <= base && base + (range.max - range.min + 1) <= mask.Length
    modifies mask
    ensures forall j :: range.min <= j <= range.max ==> mask[base + (j - range.min)] == Visible(cells[j], t, p, causal)
    ensures forall m :: 0 <= m < mask.Length && !(base <= m <= base + (range.max - range.min)) ==>
            mask[m] == old(mask[m])
  {
    var j := range.min;
    while j <= range.max
      invariant range.min <= j <= range.max + 1
      invariant forall j' :: range.min <= j' < j ==> mask[base + (j' - range.min)] == Visible(cells[j'], t, p, causal)
      invariant forall m :: 0 <= m < mask.Length && !(base <= m < base + (j - range.min)) ==> mask[m] == old(mask[m])
    {
      if t.sequence !in cells[j].seqs || (causal && cells[j].pos > t.pos)
         || (p.chunk > 0 && cells[j].pos < t.pos - t.pos % p.chunk) || cells[j].pos < t.pos - p.window {
        mask[base + (j - range.min)] := false;
      } else {
        mask[base + (j - range.min)] := true;
      }
      j := j + 1;
    }
  }

  /** The mask of the batch over the given range of locations, row after row; true means attended. */
  method MaskOf(cells: seq<Cell>, batch: seq<Token>, except: seq<int>, p: Params, range: Range) returns (r: seq<bool>)
    requires 0 <= range.min <= range.max < |cells|
    ensures |r| == |batch| * (range.max - range.min + 1)
    ensures forall i :: 0 <= i < |batch| ==> MaskRow(r, cells, batch[i], p, i !in except, range, i)
  {
    var width := range.max - range.min + 1;
    MulMono(width, 0, |batch|);
    assert width * |batch| == |batch| * width;
    var mask := new bool[|batch| * width];
    for i := 0 to |batch|
      invariant forall i' :: 0 <= i' < i ==> MaskRow(mask[..], cells, batch[i'], p, i' !in except, range, i')
    {
      RowEnd(i, |batch|, width);
      MulMono(width, 0, i);
      assert width * i == i * width;
      ghost var before := mask[..];
      FillRow(mask, cells, batch[i], p, i !in except, range, i * width);
      forall i' | 0 <= i' < i ensures MaskRow(mask[..], cells, batch[i'], p, i' !in except, range, i') {
        RowEnd(i', i, width);
        assert MaskRow(before, cells, batch[i'], p, i' !in except, range, i');
      }
    }
    r := mask[..];
  }

  /** Placing a batch leaves every other location alone. */
  lemma {:induction false} PlaceAllElsewhere(st: Store, batch: seq<Token>, locs: seq<int>, i: int)
    requires ValidLocs(st, batch, locs) && 0 <= i < |st.cells| && i !in locs
    ensures PlaceAll(st, batch, locs).cells[i] == st.cells[i] && PlaceAll(st, batch, locs).rows[i] == st.rows[i]
  {
    if batch != [] {
      var n := |batch| - 1;
      assert locs[n] in locs;
      PlaceAllElsewhere(st, batch[..n], locs[..n], i);
    }
  }

  /** Each token ends up at the location found for it. */
  lemma {:induction false} PlaceAllHere(st: Store, batch: seq<Token>, locs: seq<int>, k: int)
    requires ValidLocs(st, batch, locs) && 0 <= k < |locs|
    ensures PlaceAll(st, batch, locs).cells[locs[k]] == Cell(batch[k].pos, {batch[k].sequence})
    ensures PlaceAll(st, batch, locs).rows[locs[k]] == Row(batch[k].data, batch[k].pos)
  {
    var n := |batch| - 1;
    if k < n {
      PlaceAllHere(st, batch[..n], locs[..n], k);
    }
  }

  lemma PlaceAllNext(st: Store, batch: seq<Token>, locs: seq<int>, k: int)
    requires |st.cells| == |st.rows| && |batch| == |locs| && 0 <= k < |batch|
    requires forall l :: 0 <= l < |locs| ==> 0 <= locs[l] < |st.cells|
    ensures PlaceAll(st, batch[..k + 1], locs[..k + 1]) == Place(PlaceAll(st, batch[..k], locs[..k]), locs[k], batch[k])
  {
    assert batch[..k + 1][..k] == batch[..k] && locs[..k + 1][..k] == locs[..k];
  }

  /** The last loop of StartForward: store the batch at the locations found for it. */
  method StoreBatch(st: Store, batch: seq<Token>, locs: seq<int>, cur0: Range) returns (r: Store, cur: Range)
    requires |st.cells| == |st.rows| && |batch| == |locs|
    requires forall k :: 0 <= k < |locs| ==> 0 <= locs[k] < |st.cells|
    requires GoodRange(cur0, |st.cells|)
    ensures r == PlaceAll(st, batch, locs)
    ensures Grown(cur0, cur, |st.cells|)
    ensures forall k :: 0 <= k < |locs| ==> cur.min <= locs[k] <= cur.max
  {
    assert PlaceAll(st, [], []) == st;
    hide PlaceAll;
    r, cur := st, cur0;
    assert batch[..0] == [] && locs[..0] == [];
    for k := 0 to |batch|
      invariant r == PlaceAll(st, batch[..k], locs[..k])
      invariant Grown(cur0, cur, |st.cells|)
      invariant forall l :: 0 <= l < k ==> cur.min <= locs[l] <= cur.max
    {
      var seqRange := if batch[k].sequence in r.ranges then r.ranges[batch[k].sequence] else EMPTY;
      seqRange := Widen(seqRange, locs[k]);
      cur := Widen(cur, locs[k]);
      PlaceAllNext(st, batch, locs, k);
      r := Store(r.cells[locs[k] := Cell(batch[k].pos, {batch[k].sequence})],
                 r.rows[locs[k] := Row(batch[k].data, batch[k].pos)],
                 r.ranges[batch[k].sequence := seqRange]);
    }
    assert batch[..|batch|] == batch && locs[..|locs|] == locs;
  }

  lemma SlideWellFormed(st: Store, batch: seq<Token>, p: Params)
    requires WellFormed(st)
    ensures WellFormed(Slide(st, batch, p)) && |Slide(st, batch, p).cells| == |st.cells|
  {
    if !p.Unlimited() {
      var cells := SlideCells(st.cells, batch, p.memory);
      forall i, s | Holds(cells, i, s) ensures Holds(st.cells, i, s) && cells[i].pos == st.cells[i].pos {
        assert cells[i] == SlideCell(st.cells, batch, p.memory, st.cells[i]);
      }
    }
  }

  lemma PlaceWellFormed(st: Store, loc: int, t: Token)
    requires WellFormed(st) && 0 <= loc < |st.cells| && 0 <= t.pos < MAX_INT32
    ensures WellFormed(Place(st, loc, t))
  {
    var st' := Place(st, loc, t);
    forall i, s | Holds(st'.cells, i, s)
      ensures s in st'.ranges && st'.ranges[s].min <= i <= st'.ranges[s].max && 0 <= st'.cells[i].pos < MAX_INT32
    {
      if i != loc {
        assert Holds(st.cells, i, s);
      }
    }
  }

  lemma {:induction false} PlaceAllWellFormed(st: Store, batch: seq<Token>, locs: seq<int>)
    requires WellFormed(st) && |batch| == |locs|
    requires forall k :: 0 <= k < |locs| ==> 0 <= locs[k] < |st.cells|
    requires forall k :: 0 <= k < |batch| ==> 0 <= batch[k].pos < MAX_INT32
    ensures WellFormed(PlaceAll(st, batch, locs))
  {
    if batch != [] {
      var n := |batch| - 1;
      PlaceAllWellFormed(st, batch[..n], locs[..n]);
      PlaceWellFormed(PlaceAll(st, batch[..n], locs[..n]), locs[n], batch[n]);
    }
  }

  /** The scan of CopyPrefix. */
  method CopyScan(was: seq<Cell>, src: int, dst: int, len: int) returns (cells: seq<Cell>, range: Range)
    requires |was| < MAX_INT
    ensures cells == CopyCells(was, src, dst, len) && range == Span(cells, dst)
  {
    cells, range := was, EMPTY;
    for i := 0 to |was|
      invariant |cells| == |was|
      invariant forall j :: 0 <= j < |was| ==> cells[j] == if j < i then CopyCell(was[j], src, dst, len) else was[j]
      invariant IsSpan(cells, dst, range, 0, i)
    {
      ghost var before := cells;
      if dst in cells[i].seqs {
        cells := cells[i := Cell(cells[i].pos, cells[i].seqs - {dst})];
      }
      if src in cells[i].seqs && cells[i].pos < len {
        cells := cells[i := Cell(cells[i].pos, cells[i].seqs + {dst})];
        if i < range.min {
          range := Range(i, range.max);
        }
        if i > range.max {
          range := Range(range.min, i);
        }
      }
      assert cells[i].seqs == CopyCell(was[i], src, dst, len).seqs;
      assert forall j :: j != i ==> (Holds(cells, j, dst) <==> Holds(before, j, dst));
    }
    SpanUnique(cells, dst, range);
  }

  /** The scan of CanResume over the recorded range: the lowest and highest position of s. */
  method Extent(cells: seq<Cell>, s: int, range: Range) returns (first: int, last: int)
    requires GoodRange(range, |cells|)
    requires forall i :: Holds(cells, i, s) ==> range.min <= i <= range.max && 0 <= cells[i].pos < MAX_INT32
    ensures last == -1 <==> !AnyHolder(cells, s)
    ensures forall i :: Holds(cells, i, s) ==> first <= cells[i].pos <= last
    ensures last != -1 ==> Present(cells, s, first) && Present(cells, s, last)
  {
    first, last := MAX_INT32, -1;
    var i := range.min;
    while i <= range.max
      invariant range.min <= i && (i <= range.max + 1 || range == EMPTY)
      invariant -1 <= last
      invariant last == -1 ==> first == MAX_INT32
      invariant forall j :: Holds(cells, j, s) && j < i ==> first <= cells[j].pos <= last
      invariant last != -1 ==> Present(cells, s, first) && Present(cells, s, last)
    {
      if s in cells[i].seqs {
        assert At(cells, i, s, cells[i].pos);
        first, last := Min(first, cells[i].pos), Max(last, cells[i].pos);
      }
      i := i + 1;
    }
    if last != -1 {
      var j :| At(cells, j, s, last);
      assert Holds(cells, j, s);
    }
  }

  /** Locations below n have been turned where they must be; the others are untouched. */
  ghost predicate TurnedBelow(cells: seq<Cell>, was: seq<Row>, rows: seq<Row>, s: int, begin: int, offset: int,
                              n: int) {
    && |cells| == |was| == |rows|
    && forall i :: 0 <= i < |rows| ==>
         rows[i] == if i < n && MustTurn(cells, i, s, begin) then Row(was[i].data, was[i].rotation + offset) else was[i]
  }

  /** Apply the shift function: turn each row of the slice by its own offset. */
  function TurnSlice(rows: seq<Row>, first: int, offsets: seq<int>): (r: seq<Row>)
    requires 0 <= first && first + |offsets| <= |rows|
    ensures |r| == |rows|
    ensures forall i :: 0 <= i < |r| ==>
              r[i] == if first <= i < first + |offsets| then Row(rows[i].data, rows[i].rotation + offsets[i - first])
                      else rows[i]
  {
    seq(|rows|, i requires 0 <= i < |rows| =>
      if first <= i < first + |offsets| then Row(rows[i].data, rows[i].rotation + offsets[i - first]) else rows[i])
  }

  /** Location i of the slice at start must turn. */
  predicate Turns(cells: seq<Cell>, start: int, i: int, s: int, begin: int) {
    MustTurn(cells, start + i, s, begin)
  }

  /** The offsets of the slice at start, done for its first n locations, and which of those turn first and
      last (first is negative if none). */
  ghost predicate IsSlice(cells: seq<Cell>, s: int, begin: int, offset: int, start: int, offsets: seq<int>, n: int,
                          first: int, last: int) {
    && (forall i :: 0 <= i < |offsets| ==>
        offsets[i] == if i < n && Turns(cells, start, i, s, begin) then offset else 0)
    && (if first < 0 then forall i :: 0 <= i < n ==> !Turns(cells, start, i, s, begin)
        else first <= last < n && forall i :: 0 <= i < n && Turns(cells, start, i, s, begin) ==> first <= i <= last)
  }

  method SliceOffsets(cells: seq<Cell>, s: int, begin: int, offset: int, start: int, size: int)
    returns (offsets: seq<int>, first: int, last: int)
    requires 0 <= start && 0 <= size && start + size <= |cells|
    ensures |offsets| == size && IsSlice(cells, s, begin, offset, start, offsets, size, first, last)
    ensures first >= 0 ==> Turns(cells, start, first, s, begin)
  {
    offsets := seq(size, _ => 0);
    first, last := -1, 0;
    for i := 0 to size
      invariant |offsets| == size && IsSlice(cells, s, begin, offset, start, offsets, i, first, last)
      invariant first >= 0 ==> Turns(cells, start, first, s, begin)
    {
      if s in cells[start + i].seqs && cells[start + i].pos >= begin {
        offsets := offsets[i := offset];
        if first < 0 {
          first := i;
        }
        last := i;
      }
    }
  }

  lemma TurnedSlice(cells: seq<Cell>, was: seq<Row>, rows: seq<Row>, s: int, begin: int, offset: int, start: int,
                    offsets: seq<int>, first: int, last: int)
    requires TurnedBelow(cells, was, rows, s, begin, offset, start)
    requires 0 <= start && start + |offsets| <= |cells|
    requires IsSlice(cells, s, begin, offset, start, offsets, |offsets|, first, last)
    ensures TurnedBelow(cells, was,
                        if first < 0 then rows else TurnSlice(rows, start + first, offsets[first..last + 1]),
                        s, begin, offset, start + |offsets|)
  {
    var rows' := if first < 0 then rows else TurnSlice(rows, start + first, offsets[first..last + 1]);
    forall i | 0 <= i < |rows|
      ensures rows'[i] == if i < start + |offsets| && MustTurn(cells, i, s, begin)
                          then Row(was[i].data, was[i].rotation + offset) else was[i]
    {
      assert Turns(cells, start, i - start, s, begin) == MustTurn(cells, i, s, begin);
    }
  }

  /** The slices of shift. shiftOk says for which slices the shift function reports no error. */
  method ShiftSlices(cells: seq<Cell>, was: seq<Row>, range: Range, s: int, begin: int, offset: int, maxBatch: int,
                     shiftOk: int -> bool)
    returns (ok: bool, rows: seq<Row>)
    requires |cells| == |was| < MAX_INT && GoodRange(range, |cells|) && maxBatch >= 1
    requires forall i :: Holds(cells, i, s) ==> range.min <= i <= range.max
    ensures ok ==> rows == TurnRows(cells, was, s, begin, offset)
    ensures !ok ==> PartlyTurned(cells, was, rows, s, begin, offset)
    ensures ok <==> SlicesShift(cells, s, begin, range.min, maxBatch, shiftOk)
  {
    hide SliceShifts, SlicesShift, TurnSlice, IsSlice;
    rows := was;
    var start := range.min;
    ghost var n: nat := 0;
    while start <= range.max
      invariant range.min <= start == range.min + n * maxBatch
      invariant TurnedBelow(cells, was, rows, s, begin, offset, start)
      invariant forall k: nat :: k < n ==> SliceShifts(cells, s, begin, range.min, k, maxBatch, shiftOk)
    {
      var size := Min(range.max - start + 1, maxBatch);
      var offsets, first, last := SliceOffsets(cells, s, begin, offset, start, size);
      TurnedSlice(cells, was, rows, s, begin, offset, start, offsets, first, last);
      SliceTested(cells, s, begin, offset, range, n, maxBatch, offsets, first, last, shiftOk);
      if first >= 0 {
        if !shiftOk(start) {
          OneSliceFails(cells, s, begin, range.min, n, maxBatch, shiftOk);
          return false, rows;
        }
        rows := TurnSlice(rows, start + first, offsets[first..last + 1]);
      }
      start, n := start + maxBatch, n + 1;
    }
    ok := true;
    assert rows == TurnRows(cells, was, s, begin, offset);
    SlicesBeyond(cells, s, begin, range, n, maxBatch, shiftOk);
  }

  /** A slice is given to the shift function if a key in it must turn. */
  lemma SliceTested(cells: seq<Cell>, s: int, begin: int, offset: int, range: Range, k: nat, maxBatch: int,
                    offsets: seq<int>, first: int, last: int, shiftOk: int -> bool)
    requires forall i :: Holds(cells, i, s) ==> range.min <= i <= range.max
    requires var start := range.min + k * maxBatch;
             && 0 <= start && |offsets| == Min(range.max - start + 1, maxBatch)
             && IsSlice(cells, s, begin, offset, start, offsets, |offsets|, first, last)
             && (first >= 0 ==> Turns(cells, start, first, s, begin))
    ensures SliceShifts(cells, s, begin, range.min, k, maxBatch, shiftOk) <==>
            (first >= 0 ==> shiftOk(range.min + k * maxBatch))
  {
    var start := range.min + k * maxBatch;
    if first >= 0 {
      assert Later(cells, s, begin, start + first);
    }
    forall i | start <= i < start + maxBatch && Later(cells, s, begin, i) ensures first >= 0 {
      assert Holds(cells, i, s);
      assert Turns(cells, start, i - start, s, begin);
    }
  }

  lemma OneSliceFails(cells: seq<Cell>, s: int, begin: int, lo: int, k: nat, size: int, shiftOk: int -> bool)
    requires !SliceShifts(cells, s, begin, lo, k, size, shiftOk)
    ensures !SlicesShift(cells, s, begin, lo, size, shiftOk)
  {
  }

  lemma SlicesBeyond(cells: seq<Cell>, s: int, begin: int, range: Range, n: nat, maxBatch: int, shiftOk: int -> bool)
    requires forall i :: Holds(cells, i, s) ==> range.min <= i <= range.max
    requires maxBatch >= 1 && range.min + n * maxBatch > range.max
    requires forall k: nat :: k < n ==> SliceShifts(cells, s, begin, range.min, k, maxBatch, shiftOk)
    ensures SlicesShift(cells, s, begin, range.min, maxBatch, shiftOk)
  {
    forall k: nat | k >= n ensures SliceShifts(cells, s, begin, range.min, k, maxBatch, shiftOk) {
      MulMono(maxBatch, n, k);
      forall i | Later(cells, s, begin, i) ensures i <= range.max {
        assert Holds(cells, i, s);
      }
    }
  }

  lemma CutCellsNext(was: seq<Cell>, s: int, begin: int, end: int, i: int, r: Range)
    requires 0 <= i < |was| < MAX_INT && IsSpan(CutCells(was, s, begin, end, i), s, r, 0, i)
    ensures var cells, c := CutCells(was, s, begin, end, i), CutCell(was[i], s, begin, end);
            && cells[i] == was[i]
            && CutCells(was, s, begin, end, i + 1) == cells[i := c]
            && (c == was[i] ==> CutCells(was, s, begin, end, i + 1) == cells)
            && IsSpan(cells[i := c], s, if s in c.seqs then Widen(r, i) else r, 0, i + 1)
  {
    var cells, c := CutCells(was, s, begin, end, i), CutCell(was[i], s, begin, end);
    var cells' := cells[i := c];
    assert forall j :: j != i ==> (Holds(cells', j, s) <==> Holds(cells, j, s));
    assert Holds(cells', i, s) <==> s in c.seqs;
    assert c == was[i] ==> cells' == cells;
  }

  lemma NoCellsYet(cells: seq<Cell>, s: int)
    ensures IsSpan(cells, s, EMPTY, 0, 0)
  {
  }

  /** The scan of Remove: stops with an error at the first cell it would have to move for another sequence too. */
  method RemoveScan(was: seq<Cell>, s: int, begin: int, end: int)
    returns (ok: bool, cells: seq<Cell>, range: Range, ghost n: int)
    requires |was| < MAX_INT
    ensures ok <==> NoneBlocked(was, s, end)
    ensures 0 <= n <= |was| && cells == CutCells(was, s, begin, end, n)
    ensures forall i :: 0 <= i < n ==> !Blocked(was[i], s, end)
    ensures ok ==> n == |was| && range == Span(cells, s)
    ensures !ok ==> n < |was| && Blocked(was[n], s, end)
  {
    var offset := 0;
    if end != MAX_INT32 {
      offset := begin - end;
    }
    hide IsSpan, Span;
    NoCellsYet(was, s);
    cells, range := was, EMPTY;
    for i := 0 to |was|
      invariant cells == CutCells(was, s, begin, end, i)
      invariant forall j :: 0 <= j < i ==> !Blocked(was[j], s, end)
      invariant IsSpan(cells, s, range, 0, i)
    {
      CutCellsNext(was, s, begin, end, i, range);
      if s in cells[i].seqs {
        if begin <= cells[i].pos < end {
          cells := cells[i := Cell(cells[i].pos, cells[i].seqs - {s})];
        } else {
          if cells[i].pos >= end {
            if exists s' :: s' in cells[i].seqs && s' != s {
              assert Blocked(was[i], s, end);
              return false, cells, range, i;
            }
            assert cells[i].seqs == {s};
            cells := cells[i := Cell(cells[i].pos + offset, cells[i].seqs)];
          }
          range := Widen(range, i);
        }
      }
    }
    ok, n := true, |was|;
    SpanUnique(cells, s, range);
  }

  lemma CopyWellFormed(st: Store, src: int, dst: int, len: int)
    requires WellFormed(st)
    ensures WellFormed(Copy(st, src, dst, len))
  {
    var st' := Copy(st, src, dst, len);
    forall i, s | Holds(st'.cells, i, s)
      ensures s in st'.ranges && st'.ranges[s].min <= i <= st'.ranges[s].max && 0 <= st'.cells[i].pos < MAX_INT32
    {
      assert st'.cells[i] == CopyCell(st.cells[i], src, dst, len);
      if s == dst {
        assert Holds(st.cells, i, src);
      } else {
        assert Holds(st.cells, i, s);
      }
    }
  }

  /** However far the scan of Remove gets, the store stays well formed. */
  lemma CutCellsWellFormed(st: Store, s: int, begin: int, end: int, n: int)
    requires WellFormed(st) && 0 <= begin <= end <= MAX_INT32 && 0 <= n <= |st.cells|
    ensures WellFormed(Store(CutCells(st.cells, s, begin, end, n), st.rows, st.ranges))
  {
    var cells := CutCells(st.cells, s, begin, end, n);
    forall i, s' | Holds(cells, i, s')
      ensures Holds(st.cells, i, s') && 0 <= cells[i].pos < MAX_INT32
    {
      assert cells[i] == st.cells[i] || cells[i] == CutCell(st.cells[i], s, begin, end);
      assert Holds(st.cells, i, s');
      if cells[i] != st.cells[i] {
        assert Holds(st.cells, i, s);
      }
    }
  }

  /** Removing a tail moves nothing. */
  lemma NeverBlocked(st: Store, s: int)
    requires WellFormed(st)
    ensures NoneBlocked(st.cells, s, MAX_INT32)
  {
    forall i | 0 <= i < |st.cells| ensures !Blocked(st.cells[i], s, MAX_INT32) {
      assert s in st.cells[i].seqs ==> Holds(st.cells, i, s);
    }
  }

  /** When the model can always shift, only sharing stands in the way. */
  lemma AlwaysShifts(cells: seq<Cell>, s: int, begin: int, end: int, canShift: bool, size: int, shiftOk: int -> bool)
    ensures canShift && (forall start :: shiftOk(start)) ==>
              (MayRemove(cells, s, begin, end, canShift, size, shiftOk) <==>
                 forall i, t :: Later(cells, s, end, i) && t in cells[i].seqs ==> t == s)
  {
  }

  /** Sharing is what the scan finds. */
  lemma SharedMeans(cells: seq<Cell>, s: int, begin: int, end: int, canShift: bool, size: int, shiftOk: int -> bool)
    ensures MayRemove(cells, s, begin, end, canShift, size, shiftOk) ==> NoneBlocked(cells, s, end)
  {
    if MayRemove(cells, s, begin, end, canShift, size, shiftOk) {
      forall i | 0 <= i < |cells| ensures !Blocked(cells[i], s, end) {
        if Later(cells, s, end, i) {
          assert forall t :: t in cells[i].seqs ==> t == s;
        }
      }
    }
  }

  /** What is left to decide once nothing is shared, in terms of the cells after the scan. */
  lemma FinishMeans(was: seq<Cell>, s: int, begin: int, end: int, canShift: bool, size: int, shiftOk: int -> bool)
    requires |was| <= MAX_INT && 0 <= begin <= end <= MAX_INT32 && NoneBlocked(was, s, end)
    ensures var cells := CutCells(was, s, begin, end, |was|);
            var range := Span(cells, s);
            MayRemove(was, s, begin, end, canShift, size, shiftOk) <==>
              || end == MAX_INT32 || range == EMPTY
              || (canShift && SlicesShift(cells, s, begin, range.min, size, shiftOk))
  {
    hide SliceShifts;
    var cells := CutCells(was, s, begin, end, |was|);
    var range := Span(cells, s);
    forall i ensures Stays(was, s, begin, end, i) <==> Holds(cells, i, s) {
    }
    SpanFirst(cells, s);
    if end != MAX_INT32 {
      SlicesMoved(was, s, begin, end, range.min, size, shiftOk);
      assert range != EMPTY ==> FirstStaying(was, s, begin, end, range.min);
      assert forall lo :: FirstStaying(was, s, begin, end, lo) ==> lo == range.min;
      hide FirstStaying, SlicesShift;
      assert range == EMPTY <==> forall i :: !Stays(was, s, begin, end, i);
    }
    assert forall i, t :: Later(was, s, end, i) && t in was[i].seqs ==> t == s by {
      forall i, t | Later(was, s, end, i) && t in was[i].seqs ensures t == s {
        assert !Blocked(was[i], s, end);
      }
    }
  }

  lemma SpanFirst(cells: seq<Cell>, s: int)
    requires |cells| <= MAX_INT
    ensures Span(cells, s) == EMPTY <==> forall i :: !Holds(cells, i, s)
    ensures Span(cells, s) != EMPTY ==> Holds(cells, Span(cells, s).min, s)
    ensures forall i :: Holds(cells, i, s) ==> Span(cells, s).min <= i
  {
  }

  lemma SliceMoved(was: seq<Cell>, s: int, begin: int, end: int, lo: int, k: nat, size: int, shiftOk: int -> bool)
    requires 0 <= begin <= end < MAX_INT32
    ensures SliceShifts(CutCells(was, s, begin, end, |was|), s, begin, lo, k, size, shiftOk)
            <==> SliceShifts(was, s, end, lo, k, size, shiftOk)
  {
    var cells := CutCells(was, s, begin, end, |was|);
    forall i ensures Later(cells, s, begin, i) <==> Later(was, s, end, i) {
    }
  }

  lemma SlicesMoved(was: seq<Cell>, s: int, begin: int, end: int, lo: int, size: int, shiftOk: int -> bool)
    requires 0 <= begin <= end < MAX_INT32
    ensures SlicesShift(CutCells(was, s, begin, end, |was|), s, begin, lo, size, shiftOk)
            <==> SlicesShift(was, s, end, lo, size, shiftOk)
  {
    hide SliceShifts;
    forall k: nat
      ensures SliceShifts(CutCells(was, s, begin, end, |was|), s, begin, lo, k, size, shiftOk)
              <==> SliceShifts(was, s, end, lo, k, size, shiftOk)
    {
      SliceMoved(was, s, begin, end, lo, k, size, shiftOk);
    }
  }

  lemma TailMayBeRemoved(st: Store, s: int, begin: int, canShift: bool, size: int, shiftOk: int -> bool)
    requires WellFormed(st)
    ensures MayRemove(st.cells, s, begin, MAX_INT32, canShift, size, shiftOk)
  {
    forall i ensures !Later(st.cells, s, MAX_INT32, i) {
      assert Later(st.cells, s, MAX_INT32, i) ==> Holds(st.cells, i, s);
    }
  }

  lemma CutNothingToTurn(st: Store, s: int, begin: int, end: int)
    requires |st.cells| == |st.rows| <= MAX_INT
    requires Span(CutCells(st.cells, s, begin, end, |st.cells|), s) == EMPTY
    ensures Cut(st, s, begin, end).rows == st.rows
  {
  }

  lemma CacheSizeNotNegative(memory: int, maxSequences: int, capacity: int, maxBatch: int)
    requires memory >= 0 && maxSequences >= 0 && capacity >= 0 && maxBatch >= 0
    ensures CacheSize(memory, maxSequences, capacity, maxBatch) >= 0
  {
    MulMono(maxSequences, 0, capacity);
    MulMono(maxSequences, 0, memory);
  }

  class Causal {
    var p: Params
    const canShift: bool

    // current forward pass
    var batch: seq<Token>
    var except: seq<int>
    var curRange: Range
    var curLocs: seq<int>
    var curMask: seq<bool>

    // cache metadata
    var cells: seq<Cell>
    var ranges: map<int, Range>

    // contents of the K and V tensors
    var rows: seq<Row>

    ghost function St(): Store
      reads this
    {
      Store(cells, rows, ranges)
    }

    ghost function All(): (Params, Store)
      reads this
    {
      (p, St())
    }

    ghost predicate Valid()
      reads this
    {
      p.Valid() && WellFormed(St()) && |cells| % p.padding == 0
    }

    constructor (window: int, memory: int, chunk: int, shift: bool)
      requires 0 <= window <= MAX_INT32 && 0 <= memory <= MAX_INT32 && 0 <= chunk
      ensures p == Params(window, memory, chunk, 1, 1) && canShift == shift
      ensures cells == [] && rows == [] && ranges == map[]
    {
      p := Params(window, memory, chunk, 1, 1);
      canShift := shift;
      batch, except, curLocs, curMask := [], [], [], [];
      curRange := EMPTY;
      cells, rows, ranges := [], [], map[];
    }

    /** ok is false where the source panics: a window larger than the memory. */
    method Init(maxSequences: int, capacity: int, maxBatch: int, cachePadding: int) returns (ok: bool)
      requires 0 <= p.window <= MAX_INT32 && 0 <= p.memory <= MAX_INT32 && 0 <= p.chunk
      requires 1 <= maxSequences && 1 <= capacity && 1 <= maxBatch && 0 <= cachePadding
      requires CacheSize(MemorySize(if p.window == 0 then MAX_INT32 else p.window, p.memory, maxSequences, capacity),
                         maxSequences, capacity, maxBatch) + cachePadding < MAX_INT
      modifies this
      ensures p.window == (if old(p.window) == 0 then MAX_INT32 else old(p.window)) && p.chunk == old(p.chunk)
      ensures p.memory == MemorySize(p.window, old(p.memory), maxSequences, capacity)
      ensures ok <==> p.window <= p.memory
      ensures ok ==> Valid() && p.maxBatch == maxBatch && p.padding == Max(cachePadding, 1)
      ensures ok ==> ranges == map[] && |cells| >= CacheSize(p.memory, maxSequences, capacity, maxBatch)
      ensures ok ==>
                var size := maxSequences * (if p.memory == 0x7FFF_FFFF then capacity else p.memory)
                            + if p.memory == 0x7FFF_FFFF then 0 else maxBatch;
                size <= |cells| < size + p.padding
      ensures ok ==> forall i :: 0 <= i < |cells| ==> cells[i].seqs == {}
    {
      var padding := if cachePadding == 0 then 1 else cachePadding;
      var window := if p.window == 0 then MAX_INT32 else p.window;
      var memory := if p.memory == 0 then window else p.memory;
      if memory != MAX_INT32 && maxSequences > 1 {
        memory := Max(memory, Wrap32(window + 1));
      }
      if memory >= capacity {
        memory := MAX_INT32;
      }
      p := Params(window, memory, p.chunk, maxBatch, padding);
      if memory < window {
        return false;
      }
      var cacheSize := CacheSize(memory, maxSequences, capacity, maxBatch);
      CacheSizeNotNegative(memory, maxSequences, capacity, maxBatch);
      cacheSize := RoundUp(cacheSize, padding);
      cells := seq(cacheSize, _ => Cell(0, {}));
      rows := seq(cacheSize, _ => Row(0, 0));
      ranges := map[];
      ok := true;
    }

    /** The first free cells for the batch, or None when there are too few. */
    method FindLocs() returns (r: Option<seq<int>>)
      requires batch != []
      ensures r.None? <==> |FreeSet(cells)| < |batch|
      ensures r.Some? ==> FirstFree(cells, r.value, |batch|)
    {
      var loc: seq<int> := [];
      FreeBelowAll(cells);
      hide FreeBelow, FreeSet, FirstFree;
      for i := 0 to |cells|
        invariant |loc| == |FreeBelow(cells, i)| < |batch|
        invariant forall k :: 0 <= k < |loc| ==> 0 <= loc[k] < i && cells[loc[k]].seqs == {}
        invariant forall k, l :: 0 <= k < l < |loc| ==> loc[k] < loc[l]
        invariant forall j :: 0 <= j < i && cells[j].seqs == {} ==> j in loc
      {
        FreeBelowNext(cells, i);
        if cells[i].seqs == {} {
          loc := loc + [i];
          if |loc| >= |batch| {
            FirstFound(cells, loc, i);
            return Some(loc);
          }
        }
      }
      return None;
    }

    method UpdateSlidingWindow()
      requires Valid()
      modifies this`cells, this`ranges, this`curRange
      ensures St() == Slide(old(St()), batch, p)
      ensures GoodRange(curRange, |cells|)
      ensures forall s :: InBatch(batch, s) ==>
              CurCovers(cells, s, LowestInBatch(batch, s) - p.window, curRange, |cells|)
    {
      if p.memory == MAX_INT32 {
        curRange := RangeOfBatch(cells, ranges, batch);
      } else {
        var lowest := LowestPositions(cells, ranges, batch);
        cells, ranges, curRange := SlideAll(cells, ranges, p, batch, lowest);
      }
    }

    /** The current mask is the one buildMask specifies, and no cell a token may attend to lies outside it. */
    ghost predicate MaskReady()
      reads this
    {
      && 0 <= curRange.min <= curRange.max < |cells|
      && |curMask| == |batch| * (curRange.max - curRange.min + 1)
      && (forall i :: 0 <= i < |batch| ==> MaskRow(curMask, cells, batch[i], p, i !in except, curRange, i))
      && BatchCovered()
    }

    ghost predicate BatchCovered()
      reads this
    {
      forall i, j :: 0 <= i < |batch| && 0 <= j < |cells| && Visible(cells[j], batch[i], p, false) ==>
        curRange.min <= j <= curRange.max
    }

    method BuildMask()
      requires Valid() && 0 <= curRange.min <= curRange.max < |cells| && BatchCovered()
      modifies this`curRange, this`curMask
      ensures MaskReady() && Grown(old(curRange), curRange, |cells|)
      ensures curRange.min % p.padding == 0 && (curRange.max + 1) % p.padding == 0
      ensures old(curRange.min) - p.padding < curRange.min && curRange.max < old(curRange.max) + p.padding
    {
      var top := RoundUp(curRange.max + 1, p.padding);
      if top > |cells| {
        MultiplesApart(p.padding, top, |cells|);
      }
      curRange := Range(RoundDown(curRange.min, p.padding), top - 1);
      curMask := MaskOf(cells, batch, except, p, curRange);
    }

    /** Tokens listed in the options attend to later tokens of their own batch too. */
    method SetCausal(exceptions: seq<int>)
      requires Valid() && MaskReady()
      modifies this`except, this`curRange, this`curMask
      ensures MaskReady() && except == exceptions
      ensures old(except) == exceptions ==> curRange == old(curRange) && curMask == old(curMask)
    {
      if except != exceptions {
        except := exceptions;
        BuildMask();
      }
    }

    /** The batch goes to the given free cells and the mask is built. */
    method StoreAt(locs: seq<int>)
      requires Valid() && batch != [] && GoodRange(curRange, |cells|)
      requires forall k :: 0 <= k < |batch| ==> 0 <= batch[k].pos < MAX_INT32
      requires ValidLocs(St(), batch, locs)
      requires forall s :: InBatch(batch, s) ==>
               CurCovers(cells, s, LowestInBatch(batch, s) - p.window, curRange, |cells|)
      modifies this`cells, this`rows, this`ranges, this`curRange, this`curMask
      ensures St() == PlaceAll(old(St()), batch, locs)
      ensures Valid() && MaskReady()
    {
      ghost var was := St();
      PlaceAllWellFormed(was, batch, locs);
      var st, cur := StoreBatch(Store(cells, rows, ranges), batch, locs, curRange);
      CoveredAfterStore(was, batch, locs, p, curRange, cur);
      cells, rows, ranges, curRange := st.cells, st.rows, st.ranges, cur;
      assert curRange.min <= locs[0] <= curRange.max;
      BuildMask();
    }

    /** The batch is stored at the first free cells, once cells outside the window are freed; it is
        refused exactly when too few are free. */
    method StartForward(tokens: seq<Token>) returns (ok: bool)
      requires Valid() && tokens != []
      requires forall k :: 0 <= k < |tokens| ==> 0 <= tokens[k].pos < MAX_INT32
      modifies this
      ensures Valid() && p == old(p) && batch == tokens && except == []
      ensures ok <==> |FreeSet(Slide(old(St()), tokens, p).cells)| >= |tokens|
      ensures Forwarded(old(St()), p, tokens, ok, curLocs, St())
      ensures ok ==> MaskReady()
    {
      batch, except := tokens, [];
      SlideWellFormed(St(), tokens, p);
      UpdateSlidingWindow();
      var locs := FindLocs();
      ok := locs.Some?;
      if ok {
        curLocs := locs.value;
        FirstFreeValid(St(), tokens, curLocs);
        StoreAt(curLocs);
      }
    }

    method CopyPrefix(src: int, dst: int, len: int)
      requires Valid()
      modifies this`cells, this`ranges
      ensures Valid() && St() == Copy(old(St()), src, dst, len)
    {
      CopyWellFormed(St(), src, dst, len);
      var range;
      cells, range := CopyScan(cells, src, dst, len);
      ranges := ranges[dst := range];
    }

    method CanResumeAt(s: int, pos: int) returns (r: bool)
      requires Valid()
      ensures r == CanResume(St(), p, s, pos)
      ensures p.memory == MAX_INT32 ==> r
    {
      if p.memory == MAX_INT32 {
        return true;
      }
      if s !in ranges {
        return false;
      }
      var first, last := Extent(cells, s, ranges[s]);
      if last == -1 {
        return false;
      }
      r := Max(0, pos - p.window) >= first && pos <= last + 1;
      assert Present(cells, s, first) && Present(cells, s, last);
    }

    /** Turn the keys of s from position begin on by offset; shiftOk(start) is false where the model's
        shift function fails on the slice at start, which leaves that slice and the later ones alone. */
    method Shift(s: int, begin: int, offset: int, shiftOk: int -> bool) returns (ok: bool)
      requires Valid() && s in ranges
      modifies this`rows
      ensures ok ==> rows == TurnRows(cells, old(rows), s, begin, offset)
      ensures !ok ==> PartlyTurned(cells, old(rows), rows, s, begin, offset)
      ensures ok <==> canShift && SlicesShift(cells, s, begin, ranges[s].min, p.maxBatch, shiftOk)
    {
      hide SlicesShift;
      if !canShift {
        return false;
      }
      ok, rows := ShiftSlices(cells, rows, ranges[s], s, begin, offset, p.maxBatch, shiftOk);
    }

    /** The rest of Remove once the cells are moved: record the new range and turn the keys. */
    method FinishRemove(ghost was: Store, s: int, begin: int, end: int, range: Range, shiftOk: int -> bool)
      returns (ok: bool)
      requires Valid() && 0 <= begin <= end <= MAX_INT32
      requires WellFormed(was) && rows == was.rows && ranges == was.ranges
      requires NoneBlocked(was.cells, s, end)
      requires cells == CutCells(was.cells, s, begin, end, |was.cells|) && range == Span(cells, s)
      modifies this`rows, this`ranges
      ensures Valid()
      ensures ok ==> St() == Cut(was, s, begin, end)
      ensures !ok ==> CutUnturned(was, St(), s, begin, end)
      ensures ok <==> MayRemove(was.cells, s, begin, end, canShift, p.maxBatch, shiftOk)
    {
      hide Span, CutCells, TurnRows, MayRemove, SlicesShift;
      FinishMeans(was.cells, s, begin, end, canShift, p.maxBatch, shiftOk);
      if range == EMPTY {
        ranges := ranges - {s};
        CutNothingToTurn(was, s, begin, end);
        return true;
      }
      ranges := ranges[s := range];
      ok := true;
      if end != MAX_INT32 {
        ok := Shift(s, end + (begin - end), begin - end, shiftOk);
      }
    }

    /** Remove positions [begin, end) of s and move the later ones down; end == MAX_INT32 removes the tail. */
    method Remove(s: int, begin: int, end: int, shiftOk: int -> bool) returns (ok: bool)
      requires Valid() && 0 <= begin <= end <= MAX_INT32
      modifies this`cells, this`rows, this`ranges
      ensures Valid()
      ensures ok ==> NoneBlocked(old(cells), s, end) && St() == Cut(old(St()), s, begin, end)
      ensures !ok ==> CutFailed(old(St()), St(), s, begin, end)
      ensures ok <==> MayRemove(old(cells), s, begin, end, canShift, p.maxBatch, shiftOk)
      ensures canShift && (forall start :: shiftOk(start)) ==>
                (ok <==> forall i, t :: Later(old(cells), s, end, i) && t in old(cells)[i].seqs ==> t == s)
      ensures end == MAX_INT32 ==> ok
    {
      AlwaysShifts(cells, s, begin, end, canShift, p.maxBatch, shiftOk);
      hide MayRemove;
      ghost var was := St();
      SharedMeans(cells, s, begin, end, canShift, p.maxBatch, shiftOk);
      TailMayBeRemoved(was, s, begin, canShift, p.maxBatch, shiftOk);
      var range;
      ghost var n;
      ok, cells, range, n := RemoveScan(cells, s, begin, end);
      CutCellsWellFormed(was, s, begin, end, n);
      NeverBlocked(was, s);
      if ok {
        ok := FinishRemove(was, s, begin, end, range, shiftOk);
      } else {
        assert CutStopped(was, St(), s, begin, end, n);
      }
    }
  }

  lemma FirstFreeValid(st: Store, batch: seq<Token>, locs: seq<int>)
    requires |st.cells| == |st.rows| && FirstFree(st.cells, locs, |batch|)
    ensures ValidLocs(st, batch, locs)
    ensures forall k :: 0 <= k < |locs| ==> st.cells[locs[k]].seqs == {}
  {
    forall k | 0 <= k < |locs| ensures 0 <= locs[k] < |st.cells| && st.cells[locs[k]].seqs == {} {
      assert locs[k] in FreeSet(st.cells);
    }
  }

  /** After the batch is stored every cell one of its tokens may see lies in the current range. */
  lemma CoveredAfterStore(slid: Store, batch: seq<Token>, locs: seq<int>, p: Params, before: Range, cur: Range)
    requires ValidLocs(slid, batch, locs) && Grown(before, cur, |slid.cells|)
    requires forall s :: InBatch(batch, s) ==>
             CurCovers(slid.cells, s, LowestInBatch(batch, s) - p.window, before, |slid.cells|)
    requires forall k :: 0 <= k < |locs| ==> cur.min <= locs[k] <= cur.max
    ensures forall i, j ::
              0 <= i < |batch| && 0 <= j < |slid.cells|
              && Visible(PlaceAll(slid, batch, locs).cells[j], batch[i], p, false) ==>
                cur.min <= j <= cur.max
  {
    forall i, j | 0 <= i < |batch| && 0 <= j < |slid.cells|
      && Visible(PlaceAll(slid, batch, locs).cells[j], batch[i], p, false)
      ensures cur.min <= j <= cur.max
    {
      if j !in locs {
        PlaceAllElsewhere(slid, batch, locs, j);
        assert InBatch(batch, batch[i].sequence);
        assert Holds(slid.cells, j, batch[i].sequence);
      }
    }
  }

  lemma FirstFound(cells: seq<Cell>, loc: seq<int>, i: int)
    requires 0 <= i < |cells|
    requires forall k :: 0 <= k < |loc| ==> 0 <= loc[k] <= i && cells[loc[k]].seqs == {}
    requires forall k, l :: 0 <= k < l < |loc| ==> loc[k] < loc[l]
    requires forall j :: 0 <= j <= i && cells[j].seqs == {} ==> j in loc
    ensures FirstFree(cells, loc, |loc|)
  {
  }

  /** The free cells before cell n. */
  ghost function FreeBelow(cells: seq<Cell>, n: int): set<int>
    requires 0 <= n <= |cells|
  {
    set j | 0 <= j < n && cells[j].seqs == {}
  }

  lemma FreeBelowAll(cells: seq<Cell>)
    ensures FreeBelow(cells, 0) == {} && FreeBelow(cells, |cells|) == FreeSet(cells)
  {
  }

  lemma FreeBelowNext(cells: seq<Cell>, i: int)
    requires 0 <= i < |cells|
    ensures |FreeBelow(cells, i + 1)| == |FreeBelow(cells, i)| + if cells[i].seqs == {} then 1 else 0
    ensures |FreeBelow(cells, i + 1)| <= |FreeSet(cells)|
  {
    assert FreeBelow(cells, i + 1) == FreeBelow(cells, i) + if cells[i].seqs == {} then {i} else {};
    SubsetSize(FreeBelow(cells, i + 1), FreeSet(cells));
  }
}
