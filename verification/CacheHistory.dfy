/** The causal KV cache against its reference: an unbounded history per sequence that never evicts,
    shares or reuses anything. */
module CacheHistory {
  import opened CacheStore
  import opened CausalCache

  /** The data of positions 0, 1, 2, ... of each sequence. */
  type History = map<int, seq<Data>>

  function Of(h: History, s: int): seq<Data> { if s in h then h[s] else [] }

  function Take(h: seq<Data>, n: int): seq<Data>
    requires n >= 0
  {
    if n <= |h| then h[..n] else h
  }

  /** h without positions [begin, end). */
  function Splice(h: seq<Data>, begin: int, end: int): seq<Data>
    requires 0 <= begin <= end
  {
    Take(h, begin) + if end <= |h| then h[end..] else []
  }

  /** What the cache holds of s is a suffix of its history: right data, right rotation, no position twice. */
  ghost predicate Tracks(st: Store, s: int, h: seq<Data>)
    requires |st.cells| == |st.rows|
  {
    && (forall i :: Holds(st.cells, i, s) ==>
          0 <= st.cells[i].pos < |h| && st.rows[i] == Row(h[st.cells[i].pos], st.cells[i].pos))
    && (forall i, j :: Holds(st.cells, i, s) && Holds(st.cells, j, s) && st.cells[i].pos == st.cells[j].pos ==> i == j)
    && (forall i, q :: Holds(st.cells, i, s) && st.cells[i].pos <= q < |h| ==> Present(st.cells, s, q))
  }

  /** Every position of the history from `from` on is in the cache. */
  ghost predicate HasFrom(cells: seq<Cell>, s: int, h: seq<Data>, from: int) {
    forall q :: 0 <= q && from <= q < |h| ==> Present(cells, s, q)
  }

  // ---------- Steps that do not concern a sequence ----------

  /** Nothing about s differs between the two stores. */
  ghost predicate SameFor(st: Store, st': Store, s: int)
    requires |st.cells| == |st.rows| && |st'.cells| == |st'.rows|
  {
    && |st.cells| == |st'.cells|
    && forall i :: (Holds(st'.cells, i, s) <==> Holds(st.cells, i, s))
         && (Holds(st.cells, i, s) ==> st'.cells[i].pos == st.cells[i].pos && st'.rows[i] == st.rows[i])
  }

  lemma SameTracks(st: Store, st': Store, s: int, h: seq<Data>)
    requires |st.cells| == |st.rows| && |st'.cells| == |st'.rows| && SameFor(st, st', s)
    requires Tracks(st, s, h)
    ensures Tracks(st', s, h)
    ensures forall from :: HasFrom(st.cells, s, h, from) ==> HasFrom(st'.cells, s, h, from)
  {
    forall q | Present(st.cells, s, q) ensures Present(st'.cells, s, q) {
      var i :| At(st.cells, i, s, q);
      assert At(st'.cells, i, s, q);
    }
  }

  // ---------- updateSlidingWindow ----------

  lemma SlideHolds(st: Store, batch: seq<Token>, p: Params, i: int, s: int)
    requires WellFormed(st) && !p.Unlimited()
    ensures Holds(Slide(st, batch, p).cells, i, s) <==>
            Holds(st.cells, i, s) && st.cells[i].pos >= Lowest(st.cells, batch, s) - p.memory
    ensures 0 <= i < |st.cells| ==> Slide(st, batch, p).cells[i].pos == st.cells[i].pos
  {
  }

  /** Eviction is invisible: the cache still holds a suffix of the history, and all that a token at or
      after the end of the history can reach through the window. */
  lemma SlideTracks(st: Store, batch: seq<Token>, p: Params, s: int, h: seq<Data>, from: int)
    requires WellFormed(st) && p.Valid() && Tracks(st, s, h)
    requires InBatch(batch, s) ==> LowestInBatch(batch, s) == |h|
    requires HasFrom(st.cells, s, h, from) && (from >= |h| - p.memory || p.Unlimited())
    ensures WellFormed(Slide(st, batch, p)) && Tracks(Slide(st, batch, p), s, h)
    ensures HasFrom(Slide(st, batch, p).cells, s, h, from)
  {
    SlideWellFormed(st, batch, p);
    if !p.Unlimited() {
      var st' := Slide(st, batch, p);
      forall i ensures Holds(st'.cells, i, s) <==>
          Holds(st.cells, i, s) && st.cells[i].pos >= Lowest(st.cells, batch, s) - p.memory
        ensures Holds(st'.cells, i, s) ==> st'.cells[i].pos == st.cells[i].pos
      {
        SlideHolds(st, batch, p, i, s);
      }
      forall i, q | Holds(st'.cells, i, s) && st'.cells[i].pos <= q < |h| ensures Present(st'.cells, s, q) {
        assert Holds(st.cells, i, s) && Present(st.cells, s, q);
        var j :| At(st.cells, j, s, q);
        assert At(st'.cells, j, s, q);
      }
      forall q | 0 <= q && from <= q < |h| ensures Present(st'.cells, s, q) {
        assert Present(st.cells, s, q);
        var j :| At(st.cells, j, s, q);
        assert Lowest(st.cells, batch, s) <= |h| by {
          if !InBatch(batch, s) && LastPos(st.cells, s) != 0 {
            var l :| At(st.cells, l, s, LastPos(st.cells, s));
            assert Holds(st.cells, l, s);
          }
        }
        assert At(st'.cells, j, s, q);
      }
    }
  }

  // ---------- StartForward ----------

  /** Each token of the batch goes to the end of its sequence's history. */
  function Append(h: History, batch: seq<Token>): History {
    if batch == [] then h
    else
      var n := |batch| - 1;
      var front := Append(h, batch[..n]);
      front[batch[n].sequence := Of(front, batch[n].sequence) + [batch[n].data]]
  }

  /** The positions of the batch continue the histories of its sequences. */
  predicate Continues(h: History, batch: seq<Token>) {
    batch == []
    || (var n := |batch| - 1;
        && Continues(h, batch[..n])
        && batch[n].pos == |Of(Append(h, batch[..n]), batch[n].sequence)| < MAX_INT32)
  }

  lemma {:induction false} AppendGrows(h: History, batch: seq<Token>, s: int)
    ensures Of(h, s) <= Of(Append(h, batch), s)
    ensures !InBatch(batch, s) ==> Of(Append(h, batch), s) == Of(h, s)
  {
    if batch != [] {
      var n := |batch| - 1;
      assert batch[..n + 1] == batch;
      InBatchSnoc(batch, n, s);
      AppendGrows(h, batch[..n], s);
    }
  }

  lemma AppendOne(h: History, t: int, d: Data, s: int)
    ensures Of(h, s) <= Of(h[t := Of(h, t) + [d]], s)
  {
  }

  /** Every token's position is inside the history the batch leads to. */
  lemma {:induction false} ContinuesAt(h: History, batch: seq<Token>, k: int)
    requires Continues(h, batch) && 0 <= k < |batch|
    ensures |Of(h, batch[k].sequence)| <= batch[k].pos < |Of(Append(h, batch), batch[k].sequence)|
    ensures batch[k].pos < MAX_INT32
    ensures Of(Append(h, batch), batch[k].sequence)[batch[k].pos] == batch[k].data
  {
    var n := |batch| - 1;
    var s, front := batch[k].sequence, batch[..n];
    AppendGrows(h, front, s);
    assert Append(h, batch)
           == Append(h, front)[batch[n].sequence := Of(Append(h, front), batch[n].sequence) + [batch[n].data]];
    if k < n {
      assert front[k] == batch[k];
      ContinuesAt(h, front, k);
      hide Append, Continues;
      AppendOne(Append(h, front), batch[n].sequence, batch[n].data, s);
    }
  }

  lemma {:induction false} LowestIsEnd(h: History, batch: seq<Token>, s: int)
    requires Continues(h, batch) && InBatch(batch, s)
    ensures LowestInBatch(batch, s) == |Of(h, s)|
  {
    var n := |batch| - 1;
    assert batch[..n + 1] == batch;
    InBatchSnoc(batch, n, s);
    AppendGrows(h, batch[..n], s);
    if InBatch(batch[..n], s) {
      LowestIsEnd(h, batch[..n], s);
    }
  }

  lemma PlaceTracks(st: Store, loc: int, t: Token, h: seq<Data>, from: int)
    requires WellFormed(st) && 0 <= loc < |st.cells| && st.cells[loc].seqs == {}
    requires Tracks(st, t.sequence, h) && HasFrom(st.cells, t.sequence, h, from) && t.pos == |h|
    ensures Tracks(Place(st, loc, t), t.sequence, h + [t.data])
    ensures HasFrom(Place(st, loc, t).cells, t.sequence, h + [t.data], from)
  {
    var st', s := Place(st, loc, t), t.sequence;
    assert forall i :: i != loc ==> (Holds(st'.cells, i, s) <==> Holds(st.cells, i, s));
    assert !Holds(st.cells, loc, s) && At(st'.cells, loc, s, t.pos);
    forall q | Present(st.cells, s, q) ensures Present(st'.cells, s, q) {
      var i :| At(st.cells, i, s, q);
      assert At(st'.cells, i, s, q);
    }
  }

  lemma PlaceSame(st: Store, loc: int, t: Token, s: int)
    requires WellFormed(st) && 0 <= loc < |st.cells| && st.cells[loc].seqs == {} && s != t.sequence
    ensures SameFor(st, Place(st, loc, t), s)
  {
    var st' := Place(st, loc, t);
    assert !Holds(st.cells, loc, s) && !Holds(st'.cells, loc, s);
    assert forall i :: i != loc ==> (Holds(st'.cells, i, s) <==> Holds(st.cells, i, s));
  }

  /** Storing a batch at free cells appends it to the histories. */
  lemma {:induction false} PlaceAllTracks(st: Store, batch: seq<Token>, locs: seq<int>, h: History, s: int, from: int)
    requires WellFormed(st) && ValidLocs(st, batch, locs) && Continues(h, batch)
    requires forall k :: 0 <= k < |locs| ==> st.cells[locs[k]].seqs == {}
    requires Tracks(st, s, Of(h, s)) && HasFrom(st.cells, s, Of(h, s), from)
    ensures WellFormed(PlaceAll(st, batch, locs))
    ensures Tracks(PlaceAll(st, batch, locs), s, Of(Append(h, batch), s))
    ensures HasFrom(PlaceAll(st, batch, locs).cells, s, Of(Append(h, batch), s), from)
  {
    if batch != [] {
      var n := |batch| - 1;
      PlaceAllTracks(st, batch[..n], locs[..n], h, s, from);
      var mid := PlaceAll(st, batch[..n], locs[..n]);
      assert locs[n] !in locs[..n];
      PlaceAllElsewhere(st, batch[..n], locs[..n], locs[n]);
      PlaceWellFormed(mid, locs[n], batch[n]);
      if s == batch[n].sequence {
        PlaceTracks(mid, locs[n], batch[n], Of(Append(h, batch[..n]), s), from);
      } else {
        PlaceSame(mid, locs[n], batch[n], s);
        SameTracks(mid, Place(mid, locs[n], batch[n]), s, Of(Append(h, batch[..n]), s));
      }
    }
  }

  // ---------- CopyPrefix ----------

  lemma CopyTracks(st: Store, src: int, dst: int, len: int, h: seq<Data>)
    requires WellFormed(st) && src != dst && len >= 0 && Tracks(st, src, h)
    ensures WellFormed(Copy(st, src, dst, len)) && Tracks(Copy(st, src, dst, len), dst, Take(h, len))
    ensures HasFrom(st.cells, src, h, 0) ==> HasFrom(Copy(st, src, dst, len).cells, dst, Take(h, len), 0)
  {
    CopyWellFormed(st, src, dst, len);
    hide Span, WellFormed;
    var st' := Copy(st, src, dst, len);
    CopyHolds(st, src, dst, len);
    hide Copy;
    forall q | Present(st.cells, src, q) && q < len ensures Present(st'.cells, dst, q) {
      var i :| At(st.cells, i, src, q);
      assert Holds(st.cells, i, src);
      assert At(st'.cells, i, dst, q);
    }
  }

  lemma CopyHolds(st: Store, src: int, dst: int, len: int)
    requires |st.cells| == |st.rows| <= MAX_INT && src != dst
    ensures var st' := Copy(st, src, dst, len);
            && |st'.cells| == |st.cells| && st'.rows == st.rows
            && (forall i :: Holds(st'.cells, i, dst) <==> Holds(st.cells, i, src) && st.cells[i].pos < len)
            && forall i :: Holds(st.cells, i, src) ==> st'.cells[i].pos == st.cells[i].pos
  {
    hide Span;
    var st' := Copy(st, src, dst, len);
    forall i ensures Holds(st'.cells, i, dst) <==> Holds(st.cells, i, src) && st.cells[i].pos < len {
      if 0 <= i < |st.cells| {
        assert st'.cells[i] == CopyCell(st.cells[i], src, dst, len);
      }
    }
  }

  lemma CopySame(st: Store, src: int, dst: int, len: int, s: int)
    requires WellFormed(st) && s != dst
    ensures SameFor(st, Copy(st, src, dst, len), s)
  {
    var st' := Copy(st, src, dst, len);
    forall i ensures Holds(st'.cells, i, s) <==> Holds(st.cells, i, s) {
      if 0 <= i < |st.cells| {
        assert st'.cells[i] == CopyCell(st.cells[i], src, dst, len);
      }
    }
  }

  // ---------- Remove ----------

  lemma CutHolds(st: Store, s: int, begin: int, end: int, i: int)
    requires WellFormed(st) && 0 <= begin <= end <= MAX_INT32
    ensures Holds(Cut(st, s, begin, end).cells, i, s) <==> Holds(st.cells, i, s) && !(begin <= st.cells[i].pos < end)
    ensures Holds(Cut(st, s, begin, end).cells, i, s) ==>
              Cut(st, s, begin, end).cells[i].pos ==
              if st.cells[i].pos < begin then st.cells[i].pos else st.cells[i].pos - (end - begin)
  {
    if 0 <= i < |st.cells| {
      assert Cut(st, s, begin, end).cells[i] == CutCell(st.cells[i], s, begin, end);
      assert s in st.cells[i].seqs ==> Holds(st.cells, i, s);
    }
  }

  /** The position that moves to q when [begin, end) is removed. */
  function Before(q: int, begin: int, end: int): int { if q < begin then q else q + (end - begin) }

  lemma CutPresent(st: Store, s: int, begin: int, end: int, q: int)
    requires WellFormed(st) && 0 <= begin <= end <= MAX_INT32
    requires Present(st.cells, s, Before(q, begin, end))
    ensures Present(Cut(st, s, begin, end).cells, s, q)
  {
    var i :| At(st.cells, i, s, Before(q, begin, end));
    CutHolds(st, s, begin, end, i);
    assert At(Cut(st, s, begin, end).cells, i, s, q);
  }

  /** Removing a range moves the later entries down and turns their keys by exactly that much. */
  lemma CutTracks(st: Store, s: int, begin: int, end: int, h: seq<Data>)
    requires WellFormed(st) && 0 <= begin <= end <= MAX_INT32 && Tracks(st, s, h) && |h| <= MAX_INT32
    ensures Tracks(Cut(st, s, begin, end), s, Splice(h, begin, end))
  {
    var st', h' := Cut(st, s, begin, end), Splice(h, begin, end);
    CutTracksRows(st, s, begin, end, h);
    hide Cut, Present;
    forall i, j | Holds(st'.cells, i, s) && Holds(st'.cells, j, s) && st'.cells[i].pos == st'.cells[j].pos
      ensures i == j
    {
      CutHolds(st, s, begin, end, i);
      CutHolds(st, s, begin, end, j);
    }
    forall i, q | Holds(st'.cells, i, s) && st'.cells[i].pos <= q < |h'| ensures Present(st'.cells, s, q) {
      CutHolds(st, s, begin, end, i);
      assert Holds(st.cells, i, s) && Present(st.cells, s, Before(q, begin, end));
      CutPresent(st, s, begin, end, q);
    }
  }

  lemma CutHasAll(st: Store, s: int, begin: int, end: int, h: seq<Data>)
    requires WellFormed(st) && 0 <= begin <= end <= MAX_INT32 && |h| <= MAX_INT32 && HasFrom(st.cells, s, h, 0)
    ensures HasFrom(Cut(st, s, begin, end).cells, s, Splice(h, begin, end), 0)
  {
    forall q | 0 <= q < |Splice(h, begin, end)| ensures Present(Cut(st, s, begin, end).cells, s, q) {
      assert Present(st.cells, s, Before(q, begin, end));
      CutPresent(st, s, begin, end, q);
    }
  }

  /** Cutting the tail keeps everything before the cut. */
  lemma CutTailHas(st: Store, s: int, begin: int, h: seq<Data>, from: int)
    requires WellFormed(st) && 0 <= begin <= MAX_INT32 && HasFrom(st.cells, s, h, from)
    ensures HasFrom(Cut(st, s, begin, MAX_INT32).cells, s, Take(h, begin), from)
  {
    forall q | 0 <= q && from <= q < |Take(h, begin)| ensures Present(Cut(st, s, begin, MAX_INT32).cells, s, q) {
      assert Present(st.cells, s, q);
      CutPresent(st, s, begin, MAX_INT32, q);
    }
  }

  lemma CutTracksRows(st: Store, s: int, begin: int, end: int, h: seq<Data>)
    requires WellFormed(st) && 0 <= begin <= end <= MAX_INT32 && Tracks(st, s, h) && |h| <= MAX_INT32
    ensures var st', h' := Cut(st, s, begin, end), Splice(h, begin, end);
            forall i :: Holds(st'.cells, i, s) ==>
              0 <= st'.cells[i].pos < |h'| && st'.rows[i] == Row(h'[st'.cells[i].pos], st'.cells[i].pos)
  {
    var st', h' := Cut(st, s, begin, end), Splice(h, begin, end);
    forall i | Holds(st'.cells, i, s)
      ensures 0 <= st'.cells[i].pos < |h'| && st'.rows[i] == Row(h'[st'.cells[i].pos], st'.cells[i].pos)
    {
      assert st'.cells[i] == CutCell(st.cells[i], s, begin, end);
      assert Holds(st.cells, i, s);
    }
  }

  /** Removing from s changes nothing for any other sequence. */
  lemma CutSame(st: Store, s: int, begin: int, end: int, s': int)
    requires WellFormed(st) && NoneBlocked(st.cells, s, end) && 0 <= begin <= end <= MAX_INT32 && s' != s
    ensures SameFor(st, Cut(st, s, begin, end), s')
  {
    var st' := Cut(st, s, begin, end);
    forall i
      ensures Holds(st'.cells, i, s') <==> Holds(st.cells, i, s')
      ensures Holds(st.cells, i, s') ==> st'.cells[i].pos == st.cells[i].pos && st'.rows[i] == st.rows[i]
    {
      if 0 <= i < |st.cells| {
        assert st'.cells[i] == CutCell(st.cells[i], s, begin, end);
        assert !Blocked(st.cells[i], s, end);
      }
    }
  }

  /** A failed Remove changes nothing for any other sequence either. */
  lemma CutFailedSame(st: Store, st': Store, s: int, begin: int, end: int, s': int)
    requires WellFormed(st) && 0 <= begin <= end <= MAX_INT32 && s' != s && CutFailed(st, st', s, begin, end)
    ensures |st'.cells| == |st'.rows| && SameFor(st, st', s')
  {
    if CutUnturned(st, st', s, begin, end) {
      forall i
        ensures Holds(st'.cells, i, s') <==> Holds(st.cells, i, s')
        ensures Holds(st.cells, i, s') ==> st'.cells[i].pos == st.cells[i].pos && st'.rows[i] == st.rows[i]
      {
        if 0 <= i < |st.cells| {
          assert st'.cells[i] == CutCell(st.cells[i], s, begin, end);
          assert !Blocked(st.cells[i], s, end);
        }
      }
    } else {
      var n :| CutStopped(st, st', s, begin, end, n);
      forall i
        ensures Holds(st'.cells, i, s') <==> Holds(st.cells, i, s')
        ensures Holds(st.cells, i, s') ==> st'.cells[i].pos == st.cells[i].pos
      {
        if 0 <= i < n {
          assert st'.cells[i] == CutCell(st.cells[i], s, begin, end);
          assert !Blocked(st.cells[i], s, end);
        }
      }
    }
  }

  lemma CutFailedWellFormed(st: Store, st': Store, s: int, begin: int, end: int)
    requires WellFormed(st) && 0 <= begin <= end <= MAX_INT32 && CutFailed(st, st', s, begin, end)
    ensures WellFormed(st')
  {
    if CutUnturned(st, st', s, begin, end) {
      CutCellsWellFormed(st, s, begin, end, |st.cells|);
      assert forall i, s' :: Holds(st'.cells, i, s') ==> Holds(st.cells, i, s');
    } else {
      var n :| CutStopped(st, st', s, begin, end, n);
      CutCellsWellFormed(st, s, begin, end, n);
    }
  }

  lemma CutFullyWellFormed(st: Store, s: int, begin: int, end: int)
    requires WellFormed(st) && 0 <= begin <= end <= MAX_INT32
    ensures WellFormed(Cut(st, s, begin, end))
  {
    CutCellsWellFormed(st, s, begin, end, |st.cells|);
  }

  /** Removing everything of s always works and leaves nothing of it. */
  lemma CutAllTracks(st: Store, s: int)
    requires WellFormed(st)
    ensures NoneBlocked(st.cells, s, MAX_INT32)
    ensures Tracks(Cut(st, s, 0, MAX_INT32), s, []) && s !in Cut(st, s, 0, MAX_INT32).ranges
  {
    NeverBlocked(st, s);
    var st' := Cut(st, s, 0, MAX_INT32);
    forall i ensures !Holds(st'.cells, i, s) {
      if 0 <= i < |st.cells| {
        assert st'.cells[i] == CutCell(st.cells[i], s, 0, MAX_INT32);
        assert s in st.cells[i].seqs ==> Holds(st.cells, i, s);
      }
    }
  }

  // ---------- CanResume ----------

  /** CanResume answers exactly whether the history, cut to pos, still has its whole window. */
  lemma CanResumeExact(st: Store, p: Params, s: int, h: seq<Data>, pos: int)
    requires WellFormed(st) && p.Valid() && !p.Unlimited() && Tracks(st, s, h) && pos >= 0
    ensures CanResume(st, p, s, pos) <==>
            AnyHolder(st.cells, s) && pos <= |h| && HasFrom(st.cells, s, h, Max(0, pos - p.window))
  {
    var start := Max(0, pos - p.window);
    if CanResume(st, p, s, pos) {
      var i :| Holds(st.cells, i, s) && st.cells[i].pos <= start;
      forall q | start <= q < |h| ensures Present(st.cells, s, q) {
      }
    }
    if AnyHolder(st.cells, s) && pos <= |h| && HasFrom(st.cells, s, h, start) {
      var i :| Holds(st.cells, i, s);
      assert Present(st.cells, s, |h| - 1);
      var last :| At(st.cells, last, s, |h| - 1);
      if start < |h| {
        assert Present(st.cells, s, start);
        var first :| At(st.cells, first, s, start);
        assert Holds(st.cells, first, s);
      }
      assert Holds(st.cells, last, s);
    }
  }
}
