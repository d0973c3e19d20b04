/** The metadata and contents of the causal KV cache as values, and what each cache operation
    does to them. The class in Causal.dfy is proved to compute these functions in place. */
module CacheStore {
  import opened Arith

  const MAX_INT32 := 0x7FFF_FFFF
  const MAX_INT := 0x7FFF_FFFF_FFFF_FFFF

  /** The keys and values stored for one token, named by an arbitrary tag. */
  type Data = int

  /** One location of the cache: a position and the sequences that refer to it. */
  datatype Cell = Cell(pos: int, seqs: set<int>)

  /** What the tensors hold at one location: the token's data and the position its key is rotated to. */
  datatype Row = Row(data: Data, rotation: int)

  /** An inclusive range of locations; `EMPTY` is the source's newRange. */
  datatype Range = Range(min: int, max: int)

  const EMPTY := Range(MAX_INT, 0)

  /** One token of a batch. */
  datatype Token = Token(sequence: int, pos: int, data: Data)

  datatype Params = Params(window: int, memory: int, chunk: int, maxBatch: int, padding: int)
  {
    ghost predicate Valid() {
      0 <= window <= memory <= MAX_INT32 && 0 <= chunk && 1 <= maxBatch && 1 <= padding
    }

    predicate Unlimited() { memory == MAX_INT32 }
  }

  datatype Store = Store(cells: seq<Cell>, rows: seq<Row>, ranges: map<int, Range>)

  function Max(a: int, b: int): int { if a >= b then a else b }

  function Widen(r: Range, i: int): Range { Range(Min(r.min, i), Max(r.max, i)) }

  // ---------- Locations of a sequence ----------

  predicate Holds(cells: seq<Cell>, i: int, s: int) {
    0 <= i < |cells| && s in cells[i].seqs
  }

  predicate At(cells: seq<Cell>, i: int, s: int, p: int) {
    Holds(cells, i, s) && cells[i].pos == p
  }

  /** Sequence s has a cell for position p. */
  ghost predicate Present(cells: seq<Cell>, s: int, p: int) {
    exists i :: At(cells, i, s, p)
  }

  ghost predicate AnyHolder(cells: seq<Cell>, s: int) {
    exists i :: Holds(cells, i, s)
  }

  /** r is exactly the span of the locations in [lo, hi) that hold s. */
  ghost predicate IsSpan(cells: seq<Cell>, s: int, r: Range, lo: int, hi: int) {
    if r == EMPTY then forall i :: lo <= i < hi ==> !Holds(cells, i, s)
    else
      && lo <= r.min <= r.max < hi
      && Holds(cells, r.min, s) && Holds(cells, r.max, s)
      && forall i :: lo <= i < hi && Holds(cells, i, s) ==> r.min <= i <= r.max
  }

  /** The smallest range of locations that contains every cell of s. */
  ghost function Span(cells: seq<Cell>, s: int): (r: Range)
    requires |cells| <= MAX_INT
    ensures IsSpan(cells, s, r, 0, |cells|)
  {
    if cells == [] then EMPTY
    else
      var front := cells[..|cells| - 1];
      assert forall i :: 0 <= i < |cells| - 1 ==> (Holds(cells, i, s) <==> Holds(front, i, s));
      var r := Span(front, s);
      if s in cells[|cells| - 1].seqs then Widen(r, |cells| - 1) else r
  }

  lemma SpanUnique(cells: seq<Cell>, s: int, r: Range)
    requires |cells| <= MAX_INT
    requires IsSpan(cells, s, r, 0, |cells|)
    ensures r == Span(cells, s)
  {
  }

  /** The highest position s holds, or 0. */
  ghost function LastPos(cells: seq<Cell>, s: int): (last: int)
    ensures last >= 0
    ensures forall i :: Holds(cells, i, s) ==> cells[i].pos <= last
    ensures last == 0 || exists i :: At(cells, i, s, last)
  {
    if cells == [] then 0
    else
      var front := cells[..|cells| - 1];
      assert forall i :: 0 <= i < |cells| - 1 ==> (Holds(cells, i, s) <==> Holds(front, i, s));
      var last := LastPos(front, s);
      assert last == 0 || exists i :: At(cells, i, s, last) by {
        if last != 0 {
          var i :| At(front, i, s, last);
          assert At(cells, i, s, last);
        }
      }
      if s in cells[|cells| - 1].seqs then
        assert At(cells, |cells| - 1, s, cells[|cells| - 1].pos);
        Max(last, cells[|cells| - 1].pos)
      else last
  }

  predicate InBatch(batch: seq<Token>, s: int) {
    exists k :: 0 <= k < |batch| && batch[k].sequence == s
  }

  /** The lowest position of s in a batch that mentions it. */
  ghost function LowestInBatch(batch: seq<Token>, s: int): (low: int)
    requires InBatch(batch, s)
    ensures forall k :: 0 <= k < |batch| && batch[k].sequence == s ==> low <= batch[k].pos
    ensures exists k :: 0 <= k < |batch| && batch[k].sequence == s && batch[k].pos == low
  {
    var front := batch[..|batch| - 1];
    var last := batch[|batch| - 1];
    assert forall k :: 0 <= k < |front| ==> batch[k] == front[k];
    if !InBatch(front, s) then last.pos
    else if last.sequence == s then Min(LowestInBatch(front, s), last.pos)
    else LowestInBatch(front, s)
  }

  /** The position from which the sliding window of s is measured. */
  ghost function Lowest(cells: seq<Cell>, batch: seq<Token>, s: int): int {
    if InBatch(batch, s) then LowestInBatch(batch, s) else LastPos(cells, s) + 1
  }

  /** Extending a batch by one token. */
  lemma InBatchSnoc(batch: seq<Token>, k: int, s: int)
    requires 0 <= k < |batch|
    ensures InBatch(batch[..k + 1], s) <==> InBatch(batch[..k], s) || batch[k].sequence == s
    ensures InBatch(batch[..k + 1], s) ==>
              LowestInBatch(batch[..k + 1], s) ==
              if !InBatch(batch[..k], s) then batch[k].pos
              else if batch[k].sequence == s then Min(LowestInBatch(batch[..k], s), batch[k].pos)
              else LowestInBatch(batch[..k], s)
  {
    assert batch[..k + 1][..k] == batch[..k];
    if InBatch(batch[..k], s) {
      var j :| 0 <= j < k && batch[..k][j].sequence == s;
      assert batch[..k + 1][j].sequence == s;
    }
    assert batch[..k + 1][k].sequence == batch[k].sequence;
  }

  // ---------- updateSlidingWindow ----------

  /** Take s off a cell that lies below the bound. */
  function Drop(c: Cell, s: int, bound: int): Cell {
    if s in c.seqs && c.pos < bound then Cell(c.pos, c.seqs - {s}) else c
  }

  ghost function SlideCell(cells: seq<Cell>, batch: seq<Token>, memory: int, c: Cell): Cell {
    Cell(c.pos, set s | s in c.seqs && c.pos >= Lowest(cells, batch, s) - memory)
  }

  /** The cell once the deletion loop has handled the sequences in done. */
  ghost function SlideCellFor(cells: seq<Cell>, batch: seq<Token>, memory: int, c: Cell, done: set<int>): Cell {
    Cell(c.pos, set s | s in c.seqs && (s in done ==> c.pos >= Lowest(cells, batch, s) - memory))
  }

  lemma SlideCellNext(cells: seq<Cell>, batch: seq<Token>, memory: int, c: Cell, done: set<int>, s: int)
    requires s !in done
    ensures Drop(SlideCellFor(cells, batch, memory, c, done), s, Lowest(cells, batch, s) - memory)
         == SlideCellFor(cells, batch, memory, c, done + {s})
  {
    var a := SlideCellFor(cells, batch, memory, c, done);
    var b := SlideCellFor(cells, batch, memory, c, done + {s});
    assert forall x :: x in b.seqs <==> x in Drop(a, s, Lowest(cells, batch, s) - memory).seqs;
  }

  ghost function SlideCells(cells: seq<Cell>, batch: seq<Token>, memory: int): (r: seq<Cell>)
    ensures |r| == |cells|
    ensures forall i :: 0 <= i < |r| ==> r[i] == SlideCell(cells, batch, memory, cells[i])
  {
    seq(|cells|, i requires 0 <= i < |cells| => SlideCell(cells, batch, memory, cells[i]))
  }

  ghost function Slide(st: Store, batch: seq<Token>, p: Params): Store
    requires |st.cells| <= MAX_INT
  {
    if p.Unlimited() then st
    else
      var cells := SlideCells(st.cells, batch, p.memory);
      Store(cells, st.rows, map s | s in st.ranges :: Span(cells, s))
  }

  // ---------- StartForward ----------

  ghost function FreeSet(cells: seq<Cell>): set<int> {
    set i | 0 <= i < |cells| && cells[i].seqs == {}
  }

  /** The first n free locations, in order. */
  ghost predicate FirstFree(cells: seq<Cell>, locs: seq<int>, n: int) {
    && |locs| == n
    && (forall k :: 0 <= k < n ==> locs[k] in FreeSet(cells))
    && (forall k, l :: 0 <= k < l < n ==> locs[k] < locs[l])
    && (forall i :: i in FreeSet(cells) && i !in locs ==> forall k :: 0 <= k < n ==> locs[k] < i)
  }

  function RangeOf(st: Store, s: int): Range {
    if s in st.ranges then st.ranges[s] else EMPTY
  }

  function Place(st: Store, loc: int, t: Token): Store
    requires 0 <= loc < |st.cells| == |st.rows|
  {
    Store(st.cells[loc := Cell(t.pos, {t.sequence})],
          st.rows[loc := Row(t.data, t.pos)],
          st.ranges[t.sequence := Widen(RangeOf(st, t.sequence), loc)])
  }

  function PlaceAll(st: Store, batch: seq<Token>, locs: seq<int>): (r: Store)
    requires |st.cells| == |st.rows| && |batch| == |locs|
    requires forall k :: 0 <= k < |locs| ==> 0 <= locs[k] < |st.cells|
    ensures |r.cells| == |r.rows| == |st.cells|
  {
    if batch == [] then st
    else
      var n := |batch| - 1;
      Place(PlaceAll(st, batch[..n], locs[..n]), locs[n], batch[n])
  }

  ghost predicate ValidLocs(st: Store, batch: seq<Token>, locs: seq<int>) {
    && |st.cells| == |st.rows| && |batch| == |locs|
    && (forall k :: 0 <= k < |locs| ==> 0 <= locs[k] < |st.cells|)
    && (forall k, l :: 0 <= k < l < |locs| ==> locs[k] < locs[l])
  }

  /** st' is what StartForward leaves: the batch stored at the first free cells of the slid store, or
      only the slid store when it reports a full cache. */
  ghost predicate Forwarded(st: Store, p: Params, batch: seq<Token>, ok: bool, locs: seq<int>, st': Store)
    requires |st.cells| == |st.rows| <= MAX_INT
  {
    var slid := Slide(st, batch, p);
    if ok
    then FirstFree(slid.cells, locs, |batch|) && ValidLocs(slid, batch, locs) && st' == PlaceAll(slid, batch, locs)
    else st' == slid
  }

  // ---------- CopyPrefix ----------

  function CopyCell(c: Cell, src: int, dst: int, len: int): Cell {
    var seqs := c.seqs - {dst};
    Cell(c.pos, if src in seqs && c.pos < len then seqs + {dst} else seqs)
  }

  function CopyCells(cells: seq<Cell>, src: int, dst: int, len: int): (r: seq<Cell>)
    ensures |r| == |cells|
    ensures forall i :: 0 <= i < |r| ==> r[i] == CopyCell(cells[i], src, dst, len)
  {
    seq(|cells|, i requires 0 <= i < |cells| => CopyCell(cells[i], src, dst, len))
  }

  ghost function Copy(st: Store, src: int, dst: int, len: int): Store
    requires |st.cells| <= MAX_INT
  {
    var cells := CopyCells(st.cells, src, dst, len);
    Store(cells, st.rows, st.ranges[dst := Span(cells, dst)])
  }

  // ---------- Remove ----------

  function Offset(begin: int, end: int): int {
    if end != MAX_INT32 then begin - end else 0
  }

  function CutCell(c: Cell, s: int, begin: int, end: int): Cell {
    if s !in c.seqs then c
    else if begin <= c.pos < end then Cell(c.pos, c.seqs - {s})
    else if c.pos >= end then Cell(c.pos + Offset(begin, end), c.seqs)
    else c
  }

  /** The cell must move but another sequence refers to it too. */
  predicate Blocked(c: Cell, s: int, end: int) {
    s in c.seqs && c.pos >= end && c.seqs != {s}
  }

  ghost predicate NoneBlocked(cells: seq<Cell>, s: int, end: int) {
    forall i :: 0 <= i < |cells| ==> !Blocked(cells[i], s, end)
  }

  /** The cells after the scan of Remove has handled the first n locations. */
  function CutCells(cells: seq<Cell>, s: int, begin: int, end: int, n: int): (r: seq<Cell>)
    requires 0 <= n <= |cells|
    ensures |r| == |cells|
    ensures forall i :: 0 <= i < n ==> r[i] == CutCell(cells[i], s, begin, end)
    ensures forall i :: n <= i < |r| ==> r[i] == cells[i]
  {
    seq(|cells|, i requires 0 <= i < |cells| => if i < n then CutCell(cells[i], s, begin, end) else cells[i])
  }

  /** The keys of s from position begin on turned by offset. */
  function TurnRows(cells: seq<Cell>, rows: seq<Row>, s: int, begin: int, offset: int): (r: seq<Row>)
    requires |cells| == |rows|
    ensures |r| == |rows|
    ensures forall i :: 0 <= i < |r| ==>
      r[i] == if Holds(cells, i, s) && cells[i].pos >= begin then Row(rows[i].data, rows[i].rotation + offset)
              else rows[i]
  {
    seq(|rows|, i requires 0 <= i < |rows| =>
      if Holds(cells, i, s) && cells[i].pos >= begin then Row(rows[i].data, rows[i].rotation + offset) else rows[i])
  }

  ghost function RangesAfterCut(st: Store, cells: seq<Cell>, s: int): map<int, Range>
    requires |cells| <= MAX_INT
  {
    var r := Span(cells, s);
    if r == EMPTY then st.ranges - {s} else st.ranges[s := r]
  }

  /** A Remove that meets no blocked cell and whose rotations all succeed. */
  ghost function Cut(st: Store, s: int, begin: int, end: int): Store
    requires |st.cells| == |st.rows| <= MAX_INT
  {
    var cells := CutCells(st.cells, s, begin, end, |st.cells|);
    Store(cells,
          if end == MAX_INT32 then st.rows else TurnRows(cells, st.rows, s, begin, begin - end),
          RangesAfterCut(st, cells, s))
  }

  /** Shifting s from position begin on must turn the key at location i. */
  predicate MustTurn(cells: seq<Cell>, i: int, s: int, begin: int) {
    Holds(cells, i, s) && cells[i].pos >= begin
  }

  /** Some of the keys that must turn did; no other row changed. */
  ghost predicate PartlyTurned(cells: seq<Cell>, was: seq<Row>, rows: seq<Row>, s: int, begin: int, offset: int) {
    && |cells| == |was| == |rows|
    && forall i :: 0 <= i < |rows| ==>
         rows[i] == was[i]
         || (MustTurn(cells, i, s, begin) && rows[i] == Row(was[i].data, was[i].rotation + offset))
  }

  /** Remove stopped with an error at the blocked location n. */
  ghost predicate CutStopped(st: Store, st': Store, s: int, begin: int, end: int, n: int) {
    && 0 <= n < |st.cells| && Blocked(st.cells[n], s, end)
    && (forall i :: 0 <= i < n ==> !Blocked(st.cells[i], s, end))
    && st' == Store(CutCells(st.cells, s, begin, end, n), st.rows, st.ranges)
  }

  /** Remove moved the cells but the rotation of the keys failed part way. */
  ghost predicate CutUnturned(st: Store, st': Store, s: int, begin: int, end: int)
    requires |st.cells| == |st.rows| <= MAX_INT
  {
    && NoneBlocked(st.cells, s, end)
    && end != MAX_INT32
    && st'.cells == CutCells(st.cells, s, begin, end, |st.cells|)
    && st'.ranges == RangesAfterCut(st, st'.cells, s)
    && PartlyTurned(st'.cells, st.rows, st'.rows, s, begin, begin - end)
  }

  ghost predicate CutFailed(st: Store, st': Store, s: int, begin: int, end: int)
    requires |st.cells| == |st.rows| <= MAX_INT
  {
    CutUnturned(st, st', s, begin, end) || exists n :: CutStopped(st, st', s, begin, end, n)
  }

  /** Location i holds a position of s at or after end. */
  predicate Later(cells: seq<Cell>, s: int, end: int, i: int) {
    0 <= i < |cells| && s in cells[i].seqs && cells[i].pos >= end
  }

  /** Location i holds a position of s that a removal of [begin, end) leaves in place or moves. */
  predicate Stays(cells: seq<Cell>, s: int, begin: int, end: int, i: int) {
    0 <= i < |cells| && s in cells[i].seqs && !(begin <= cells[i].pos < end)
  }

  ghost predicate FirstStaying(cells: seq<Cell>, s: int, begin: int, end: int, lo: int) {
    Stays(cells, s, begin, end, lo) && forall i :: Stays(cells, s, begin, end, i) ==> lo <= i
  }

  /** The model's shift function takes slice k of size locations from lo on, if a later position is in it. */
  ghost predicate SliceShifts(cells: seq<Cell>, s: int, end: int, lo: int, k: nat, size: int, shiftOk: int -> bool) {
    var start := lo + k * size;
    (exists i :: start <= i < start + size && Later(cells, s, end, i)) ==> shiftOk(start)
  }

  ghost predicate SlicesShift(cells: seq<Cell>, s: int, end: int, lo: int, size: int, shiftOk: int -> bool) {
    forall k: nat :: SliceShifts(cells, s, end, lo, k, size, shiftOk)
  }

  /** Nothing stands in the way of removing [begin, end): no other sequence shares a later position, and, unless it is a
      tail or nothing stays, the model can shift every slice with a later position in it. */
  ghost predicate MayRemove(cells: seq<Cell>, s: int, begin: int, end: int, canShift: bool, size: int,
                            shiftOk: int -> bool) {
    && (forall i, t :: Later(cells, s, end, i) && t in cells[i].seqs ==> t == s)
    && (|| end == MAX_INT32
        || (forall i :: !Stays(cells, s, begin, end, i))
        || (canShift && forall lo :: FirstStaying(cells, s, begin, end, lo) ==>
                          SlicesShift(cells, s, end, lo, size, shiftOk)))
  }

  // ---------- CanResume and the mask ----------

  /** What CanResume answers from the stored cells of s. */
  ghost predicate CanResume(st: Store, p: Params, s: int, pos: int) {
    p.Unlimited()
    || (&& AnyHolder(st.cells, s)
        && (exists i :: Holds(st.cells, i, s) && st.cells[i].pos <= Max(0, pos - p.window))
        && (exists i :: Holds(st.cells, i, s) && pos <= st.cells[i].pos + 1))
  }

  /** The first position a token at pos may attend to. */
  function WindowStart(p: Params, pos: int): int
    requires p.chunk >= 0
  {
    Max(pos - p.window, if p.chunk > 0 then pos - pos % p.chunk else 0)
  }

  /** The mask entry of a cell for a token; causal is false for tokens listed in Except. */
  predicate Visible(c: Cell, t: Token, p: Params, causal: bool) {
    && t.sequence in c.seqs
    && !(causal && c.pos > t.pos)
    && !(p.chunk > 0 && c.pos < t.pos - t.pos % p.chunk)
    && !(c.pos < t.pos - p.window)
  }

  // ---------- Representation invariant ----------

  ghost predicate GoodRange(r: Range, n: int) {
    r == EMPTY || 0 <= r.min <= r.max < n
  }

  /** Every cell of a sequence lies in the range recorded for it. */
  ghost predicate Covered(cells: seq<Cell>, ranges: map<int, Range>) {
    && (forall s :: s in ranges ==> GoodRange(ranges[s], |cells|))
    && (forall i, s :: Holds(cells, i, s) ==> s in ranges && ranges[s].min <= i <= ranges[s].max)
  }

  ghost predicate WellFormed(st: Store) {
    && |st.cells| == |st.rows| < MAX_INT
    && Covered(st.cells, st.ranges)
    && (forall i, s :: Holds(st.cells, i, s) ==> 0 <= st.cells[i].pos < MAX_INT32)
  }
}
