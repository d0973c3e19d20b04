/** Whole runs of the causal KV cache: in every run by a disciplined caller, what a token attends to is
    exactly its window of the unbounded history. */
module CacheRuns {
  import opened CacheStore
  import opened CausalCache
  import opened CacheHistory

  /** The reference state: the histories, and the sequences that were copied or shifted since the caller
      last asked whether they can be resumed. */
  datatype Ref = Ref(hist: History, unchecked: set<int>)
  {
    predicate Checked(s: int) { s !in unchecked }
  }

  /** One operation of a run, with what the cache answered. */
  datatype Event =
    | Stored(batch: seq<Token>, locs: seq<int>)
    | Refused(batch: seq<Token>)
    | Copied(src: int, dst: int, len: int)
    | Trimmed(s: int, begin: int)
    | Shifted(s: int, begin: int, end: int)
    | ShiftFailed(s: int, begin: int, end: int, mid: Store)

  /** The cache agrees with the histories. */
  ghost predicate Agrees(st: Store, p: Params, ref: Ref) {
    && WellFormed(st) && p.Valid()
    && (forall s :: |Of(ref.hist, s)| <= MAX_INT32 && Tracks(st, s, Of(ref.hist, s)))
    && (forall s :: ref.Checked(s) ==> HasFrom(st.cells, s, Of(ref.hist, s), |Of(ref.hist, s)| - p.window))
    && (p.Unlimited() ==> forall s :: HasFrom(st.cells, s, Of(ref.hist, s), 0))
  }

  ghost predicate Initial(st: Store, p: Params, ref: Ref) {
    && WellFormed(st) && p.Valid() && ref == Ref(map[], {})
    && forall i :: 0 <= i < |st.cells| ==> st.cells[i].seqs == {}
  }

  /** What the caller promises before an event: batches continue their sequences, a sequence that was
      copied or shifted is trimmed to a position CanResume accepts (or to nothing) before it goes on. */
  ghost predicate Disciplined(st: Store, p: Params, ref: Ref, e: Event) {
    match e
    case Stored(batch, _) => MayForward(ref, batch)
    case Refused(batch) => MayForward(ref, batch)
    case Copied(src, dst, len) => src != dst && 0 <= len
    case Trimmed(s, begin) => 0 <= begin <= MAX_INT32 && (begin == 0 || CanResume(st, p, s, begin))
    case Shifted(s, begin, end) => 0 <= begin <= end < MAX_INT32
    case ShiftFailed(s, begin, end, _) => 0 <= begin <= end < MAX_INT32
  }

  ghost predicate MayForward(ref: Ref, batch: seq<Token>) {
    && batch != [] && Continues(ref.hist, batch)
    && forall k :: 0 <= k < |batch| ==> ref.Checked(batch[k].sequence)
  }

  /** What the cache does. A failed shift is followed by removing the whole sequence, as Remove's
      documentation demands. */
  ghost predicate CacheStep(st: Store, p: Params, e: Event, st': Store)
    requires WellFormed(st)
  {
    match e
    case Stored(batch, locs) => Forwarded(st, p, batch, true, locs, st')
    case Refused(batch) => |FreeSet(Slide(st, batch, p).cells)| < |batch| && Forwarded(st, p, batch, false, [], st')
    case Copied(src, dst, len) => st' == Copy(st, src, dst, len)
    case Trimmed(s, begin) => st' == Cut(st, s, begin, MAX_INT32)
    case Shifted(s, begin, end) => NoneBlocked(st.cells, s, end) && st' == Cut(st, s, begin, end)
    case ShiftFailed(s, begin, end, mid) =>
      CutFailed(st, mid, s, begin, end) && |mid.cells| == |mid.rows| <= MAX_INT && st' == Cut(mid, s, 0, MAX_INT32)
  }

  /** What the reference does. */
  function RefStep(p: Params, ref: Ref, e: Event): Ref
    requires e.Copied? ==> 0 <= e.len
    requires e.Trimmed? ==> 0 <= e.begin
    requires e.Shifted? ==> 0 <= e.begin <= e.end
  {
    match e
    case Stored(batch, _) => Ref(Append(ref.hist, batch), ref.unchecked)
    case Refused(_) => ref
    case Copied(src, dst, len) => Ref(ref.hist[dst := Take(Of(ref.hist, src), len)], ref.unchecked + {dst})
    case Trimmed(s, begin) => Ref(ref.hist[s := Take(Of(ref.hist, s), begin)], ref.unchecked - {s})
    case Shifted(s, begin, end) =>
      Ref(ref.hist[s := Splice(Of(ref.hist, s), begin, end)],
          if p.Unlimited() then ref.unchecked else ref.unchecked + {s})
    case ShiftFailed(s, _, _, _) => Ref(ref.hist[s := []], ref.unchecked - {s})
  }

  // ---------- Every step keeps the agreement ----------

  lemma InitialAgrees(st: Store, p: Params, ref: Ref)
    requires Initial(st, p, ref)
    ensures Agrees(st, p, ref)
  {
  }

  lemma SlideAgrees(st: Store, p: Params, ref: Ref, batch: seq<Token>)
    requires Agrees(st, p, ref) && Continues(ref.hist, batch)
    ensures Agrees(Slide(st, batch, p), p, ref)
  {
    var st' := Slide(st, batch, p);
    SlideWellFormed(st, batch, p);
    forall s
      ensures Tracks(st', s, Of(ref.hist, s))
      ensures s !in ref.unchecked ==> HasFrom(st'.cells, s, Of(ref.hist, s), |Of(ref.hist, s)| - p.window)
      ensures p.Unlimited() ==> HasFrom(st'.cells, s, Of(ref.hist, s), 0)
    {
      var h := Of(ref.hist, s);
      if InBatch(batch, s) {
        LowestIsEnd(ref.hist, batch, s);
      }
      SlideTracks(st, batch, p, s, h, if s in ref.unchecked then |h| else |h| - p.window);
    }
  }

  lemma StoredOne(slid: Store, p: Params, ref: Ref, batch: seq<Token>, locs: seq<int>, s: int)
    requires Agrees(slid, p, ref) && MayForward(ref, batch)
    requires FirstFree(slid.cells, locs, |batch|) && ValidLocs(slid, batch, locs)
    ensures var st', h' := PlaceAll(slid, batch, locs), Of(Append(ref.hist, batch), s);
            && |h'| <= MAX_INT32 && Tracks(st', s, h')
            && (ref.Checked(s) ==>
                HasFrom(st'.cells, s, h', |Of(ref.hist, s)| - p.window) && HasFrom(st'.cells, s, h', |h'| - p.window))
            && (p.Unlimited() ==> HasFrom(st'.cells, s, h', 0))
  {
    FirstFreeValid(slid, batch, locs);
    AppendBounded(ref.hist, batch, s);
    AppendGrows(ref.hist, batch, s);
    var h := Of(ref.hist, s);
    PlaceAllTracks(slid, batch, locs, ref.hist, s, if ref.Checked(s) then |h| - p.window else |h|);
    if p.Unlimited() {
      PlaceAllTracks(slid, batch, locs, ref.hist, s, 0);
    }
  }

  lemma StoredAgrees(slid: Store, p: Params, ref: Ref, batch: seq<Token>, locs: seq<int>)
    requires Agrees(slid, p, ref) && MayForward(ref, batch)
    requires FirstFree(slid.cells, locs, |batch|) && ValidLocs(slid, batch, locs)
    ensures Agrees(PlaceAll(slid, batch, locs), p, Ref(Append(ref.hist, batch), ref.unchecked))
  {
    hide Tracks, HasFrom, PlaceAll, Append, WellFormed, FirstFree, Of;
    var st', h' := PlaceAll(slid, batch, locs), Append(ref.hist, batch);
    forall k | 0 <= k < |batch| ensures 0 <= batch[k].pos < MAX_INT32 {
      ContinuesAt(ref.hist, batch, k);
    }
    PlaceAllWellFormed(slid, batch, locs);
    forall s
      ensures |Of(h', s)| <= MAX_INT32 && Tracks(st', s, Of(h', s))
      ensures ref.Checked(s) ==> HasFrom(st'.cells, s, Of(h', s), |Of(h', s)| - p.window)
      ensures p.Unlimited() ==> HasFrom(st'.cells, s, Of(h', s), 0)
    {
      StoredOne(slid, p, ref, batch, locs, s);
    }
  }

  lemma {:induction false} AppendBounded(h: History, batch: seq<Token>, s: int)
    requires Continues(h, batch) && |Of(h, s)| <= MAX_INT32
    ensures |Of(Append(h, batch), s)| <= MAX_INT32
  {
    if batch != [] {
      AppendBounded(h, batch[..|batch| - 1], s);
    }
  }

  /** Agreement after an event that concerns only sequence s. */
  lemma OneChanged(st: Store, st': Store, p: Params, ref: Ref, s: int, h': seq<Data>, unchecked': set<int>)
    requires Agrees(st, p, ref) && WellFormed(st')
    requires forall s' :: s' != s ==> SameFor(st, st', s')
    requires unchecked' - {s} == ref.unchecked - {s}
    requires |h'| <= MAX_INT32 && Tracks(st', s, h')
    requires s !in unchecked' ==> HasFrom(st'.cells, s, h', |h'| - p.window)
    requires p.Unlimited() ==> HasFrom(st'.cells, s, h', 0)
    ensures Agrees(st', p, Ref(ref.hist[s := h'], unchecked'))
  {
    var hist' := ref.hist[s := h'];
    forall s'
      ensures |Of(hist', s')| <= MAX_INT32 && Tracks(st', s', Of(hist', s'))
      ensures s' !in unchecked' ==> HasFrom(st'.cells, s', Of(hist', s'), |Of(hist', s')| - p.window)
      ensures p.Unlimited() ==> HasFrom(st'.cells, s', Of(hist', s'), 0)
    {
      if s' != s {
        assert s' in unchecked' <==> s' in unchecked' - {s};
        assert s' in ref.unchecked <==> s' in ref.unchecked - {s};
        SameTracks(st, st', s', Of(ref.hist, s'));
      }
    }
  }

  lemma CopiedAgrees(st: Store, p: Params, ref: Ref, src: int, dst: int, len: int)
    requires Agrees(st, p, ref) && src != dst && 0 <= len
    ensures Agrees(Copy(st, src, dst, len), p, RefStep(p, ref, Copied(src, dst, len)))
  {
    CopyTracks(st, src, dst, len, Of(ref.hist, src));
    forall s | s != dst ensures SameFor(st, Copy(st, src, dst, len), s) {
      CopySame(st, src, dst, len, s);
    }
    OneChanged(st, Copy(st, src, dst, len), p, ref, dst, Take(Of(ref.hist, src), len), ref.unchecked + {dst});
  }

  lemma TrimmedAgrees(st: Store, p: Params, ref: Ref, s: int, begin: int)
    requires Agrees(st, p, ref) && Disciplined(st, p, ref, Trimmed(s, begin))
    ensures Agrees(Cut(st, s, begin, MAX_INT32), p, RefStep(p, ref, Trimmed(s, begin)))
  {
    var h, st' := Of(ref.hist, s), Cut(st, s, begin, MAX_INT32);
    NeverBlocked(st, s);
    CutFullyWellFormed(st, s, begin, MAX_INT32);
    forall s' | s' != s ensures SameFor(st, st', s') {
      CutSame(st, s, begin, MAX_INT32, s');
    }
    CutTracks(st, s, begin, MAX_INT32, h);
    assert Splice(h, begin, MAX_INT32) == Take(h, begin);
    if p.Unlimited() {
      CutTailHas(st, s, begin, h, 0);
    } else if begin > 0 {
      CanResumeExact(st, p, s, h, begin);
      CutTailHas(st, s, begin, h, Max(0, begin - p.window));
    }
    OneChanged(st, st', p, ref, s, Take(h, begin), ref.unchecked - {s});
  }

  lemma ShiftedAgrees(st: Store, p: Params, ref: Ref, s: int, begin: int, end: int)
    requires Agrees(st, p, ref) && 0 <= begin <= end < MAX_INT32 && NoneBlocked(st.cells, s, end)
    ensures Agrees(Cut(st, s, begin, end), p, RefStep(p, ref, Shifted(s, begin, end)))
  {
    var h, st' := Of(ref.hist, s), Cut(st, s, begin, end);
    CutFullyWellFormed(st, s, begin, end);
    forall s' | s' != s ensures SameFor(st, st', s') {
      CutSame(st, s, begin, end, s');
    }
    CutTracks(st, s, begin, end, h);
    if p.Unlimited() {
      CutHasAll(st, s, begin, end, h);
    }
    OneChanged(st, st', p, ref, s, Splice(h, begin, end), if p.Unlimited() then ref.unchecked else ref.unchecked + {s});
  }

  /** A failed shift harms nobody else, and removing the whole sequence afterwards always works and
      restores agreement. */
  lemma ShiftFailedAgrees(st: Store, p: Params, ref: Ref, s: int, begin: int, end: int, mid: Store)
    requires Agrees(st, p, ref) && 0 <= begin <= end < MAX_INT32 && CutFailed(st, mid, s, begin, end)
    ensures WellFormed(mid) && NoneBlocked(mid.cells, s, MAX_INT32)
    ensures Agrees(Cut(mid, s, 0, MAX_INT32), p, Ref(ref.hist[s := []], ref.unchecked - {s}))
  {
    CutFailedWellFormed(st, mid, s, begin, end);
    CutAllTracks(mid, s);
    CutFullyWellFormed(mid, s, 0, MAX_INT32);
    var st' := Cut(mid, s, 0, MAX_INT32);
    forall s' | s' != s ensures SameFor(st, st', s') {
      CutFailedSame(st, mid, s, begin, end, s');
      CutSame(mid, s, 0, MAX_INT32, s');
    }
    OneChanged(st, st', p, ref, s, [], ref.unchecked - {s});
  }

  lemma StepAgrees(st: Store, p: Params, ref: Ref, e: Event, st': Store)
    requires Agrees(st, p, ref) && Disciplined(st, p, ref, e) && CacheStep(st, p, e, st')
    ensures Agrees(st', p, RefStep(p, ref, e))
  {
    match e
    case Stored(batch, locs) =>
      SlideAgrees(st, p, ref, batch);
      StoredAgrees(Slide(st, batch, p), p, ref, batch, locs);
    case Refused(batch) =>
      SlideAgrees(st, p, ref, batch);
    case Copied(src, dst, len) =>
      CopiedAgrees(st, p, ref, src, dst, len);
    case Trimmed(s, begin) =>
      TrimmedAgrees(st, p, ref, s, begin);
    case Shifted(s, begin, end) =>
      ShiftedAgrees(st, p, ref, s, begin, end);
    case ShiftFailed(s, begin, end, mid) =>
      ShiftFailedAgrees(st, p, ref, s, begin, end, mid);
  }

  // ---------- What a token attends to ----------

  /** The cells unmasked for t are exactly the entries of its history from the start of its window (and
      chunk) to its own position, or to the end of its history if t is exempt from causality: right data,
      right rotation, one cell each. */
  ghost predicate Attends(st: Store, p: Params, t: Token, h: seq<Data>, causal: bool)
    requires |st.cells| == |st.rows| && p.Valid()
  {
    var top := if causal then t.pos else |h| - 1;
    && (forall j :: 0 <= j < |st.cells| && Visible(st.cells[j], t, p, causal) ==>
          && WindowStart(p, t.pos) <= st.cells[j].pos <= top < |h|
          && 0 <= st.cells[j].pos
          && st.rows[j] == Row(h[st.cells[j].pos], st.cells[j].pos))
    && (forall q :: 0 <= q && WindowStart(p, t.pos) <= q <= top ==> Seen(st, p, t, causal, q))
    && (forall i, j :: 0 <= i < |st.cells| && 0 <= j < |st.cells| ==>
          Visible(st.cells[i], t, p, causal) && Visible(st.cells[j], t, p, causal) ==>
          st.cells[i].pos == st.cells[j].pos ==> i == j)
  }

  /** Some unmasked cell has position q. */
  ghost predicate Seen(st: Store, p: Params, t: Token, causal: bool, q: int) {
    exists j :: At(st.cells, j, t.sequence, q) && Visible(st.cells[j], t, p, causal)
  }

  lemma VisibleAttends(st: Store, p: Params, t: Token, h: seq<Data>, causal: bool)
    requires |st.cells| == |st.rows| && p.Valid() && Tracks(st, t.sequence, h)
    requires 0 <= t.pos < |h| && HasFrom(st.cells, t.sequence, h, t.pos - p.window)
    ensures Attends(st, p, t, h, causal)
  {
    var s, top := t.sequence, if causal then t.pos else |h| - 1;
    forall j | 0 <= j < |st.cells| && Visible(st.cells[j], t, p, causal) ensures Holds(st.cells, j, s) {
    }
    forall q | 0 <= q && WindowStart(p, t.pos) <= q <= top ensures Seen(st, p, t, causal, q) {
      assert Present(st.cells, s, q);
      var j :| At(st.cells, j, s, q);
      assert Visible(st.cells[j], t, p, causal);
    }
  }

  /** Attention after any accepted batch is exactly the windowed history. */
  lemma ForwardAttends(st: Store, p: Params, ref: Ref, batch: seq<Token>, locs: seq<int>, st': Store, k: int,
                       causal: bool)
    requires Agrees(st, p, ref) && MayForward(ref, batch) && Forwarded(st, p, batch, true, locs, st')
    requires 0 <= k < |batch|
    ensures |st'.cells| == |st'.rows|
    ensures Attends(st', p, batch[k], Of(Append(ref.hist, batch), batch[k].sequence), causal)
  {
    hide Slide, PlaceAll, Append, Tracks, FirstFree;
    SlideAgrees(st, p, ref, batch);
    StoredOne(Slide(st, batch, p), p, ref, batch, locs, batch[k].sequence);
    ContinuesAt(ref.hist, batch, k);
    VisibleAttends(st', p, batch[k], Of(Append(ref.hist, batch), batch[k].sequence), causal);
  }

  // ---------- Runs ----------

  ghost predicate Run(p: Params, sts: seq<Store>, refs: seq<Ref>, es: seq<Event>) {
    && |sts| == |refs| == |es| + 1
    && Initial(sts[0], p, refs[0])
    && forall k :: 0 <= k < |es| ==>
         && WellFormed(sts[k]) && Disciplined(sts[k], p, refs[k], es[k])
         && CacheStep(sts[k], p, es[k], sts[k + 1])
         && refs[k + 1] == RefStep(p, refs[k], es[k])
  }

  lemma {:induction false} RunAgrees(p: Params, sts: seq<Store>, refs: seq<Ref>, es: seq<Event>, k: int)
    requires Run(p, sts, refs, es) && 0 <= k <= |es|
    ensures Agrees(sts[k], p, refs[k])
  {
    if k == 0 {
      InitialAgrees(sts[0], p, refs[0]);
    } else {
      RunAgrees(p, sts, refs, es, k - 1);
      StepAgrees(sts[k - 1], p, refs[k - 1], es[k - 1], sts[k]);
    }
  }

  /** In every disciplined run, every token of every accepted batch attends to exactly its window of the
      never-evicting history, whatever was evicted, shared, shifted or reused before. */
  lemma RunAttends(p: Params, sts: seq<Store>, refs: seq<Ref>, es: seq<Event>, k: int, t: int, causal: bool)
    requires Run(p, sts, refs, es) && 0 <= k < |es| && es[k].Stored? && 0 <= t < |es[k].batch|
    ensures |sts[k + 1].cells| == |sts[k + 1].rows| && p.Valid()
    ensures Attends(sts[k + 1], p, es[k].batch[t], Of(refs[k + 1].hist, es[k].batch[t].sequence), causal)
  {
    RunAgrees(p, sts, refs, es, k);
    ForwardAttends(sts[k], p, refs[k], es[k].batch, es[k].locs, sts[k + 1], t, causal);
  }

  /** The same read off the mask the class has built: row i of the mask, over the current range, lets
      token i see exactly its window, and nothing it needs lies outside the range. */
  lemma MaskAttends(c: Causal, st: Store, ref: Ref, i: int, causal: bool)
    requires c.Valid() && c.MaskReady() && 0 <= i < |c.batch| && causal == (i !in c.except)
    requires Agrees(st, c.p, ref) && MayForward(ref, c.batch) && Forwarded(st, c.p, c.batch, true, c.curLocs, c.St())
    ensures Attends(c.St(), c.p, c.batch[i], Of(Append(ref.hist, c.batch), c.batch[i].sequence), causal)
    ensures forall j :: 0 <= j < |c.cells| ==>
              (Visible(c.cells[j], c.batch[i], c.p, causal) <==> Unmasked(c.curMask, c.curRange, i, j))
  {
    ForwardAttends(st, c.p, ref, c.batch, c.curLocs, c.St(), i, causal);
    assert MaskRow(c.curMask, c.cells, c.batch[i], c.p, causal, c.curRange, i);
    forall j | 0 <= j < |c.cells| && Visible(c.cells[j], c.batch[i], c.p, causal)
      ensures c.curRange.min <= j <= c.curRange.max
    {
      assert Visible(c.cells[j], c.batch[i], c.p, false);
    }
  }

  /** Location j is inside the mask's range and its entry in row i is on. */
  ghost predicate Unmasked(mask: seq<bool>, range: Range, i: int, j: int) {
    var width := range.max - range.min + 1;
    range.min <= j <= range.max && 0 <= i * width + (j - range.min) < |mask| && mask[i * width + (j - range.min)]
  }

  // ---------- Middle removal under a finite window ----------

  /** After a successful shift, a sequence with a finite window is still whole exactly when CanResume
      accepts its new end: this is the check the source leaves out. */
  lemma ShiftedWhole(st: Store, p: Params, ref: Ref, s: int, begin: int, end: int)
    requires Agrees(st, p, ref) && !p.Unlimited() && 0 <= begin <= end < MAX_INT32 && NoneBlocked(st.cells, s, end)
    requires AnyHolder(Cut(st, s, begin, end).cells, s)
    ensures var st', h' := Cut(st, s, begin, end), Splice(Of(ref.hist, s), begin, end);
            CanResume(st', p, s, |h'|) <==> HasFrom(st'.cells, s, h', |h'| - p.window)
  {
    ShiftedAgrees(st, p, ref, s, begin, end);
    var st', h' := Cut(st, s, begin, end), Splice(Of(ref.hist, s), begin, end);
    assert Of(RefStep(p, ref, Shifted(s, begin, end)).hist, s) == h';
    CanResumeExact(st', p, s, h', |h'|);
  }

  /** The cell that holds position q after the cut, for q before it, held q before. */
  lemma CutHeld(st: Store, s: int, begin: int, end: int, q: int)
    requires WellFormed(st) && 0 <= begin <= end <= MAX_INT32 && q < begin
             && Present(Cut(st, s, begin, end).cells, s, q)
    ensures Present(st.cells, s, q)
  {
    var i :| At(Cut(st, s, begin, end).cells, i, s, q);
    assert Holds(Cut(st, s, begin, end).cells, i, s);
    CutHolds(st, s, begin, end, i);
    assert At(st.cells, i, s, q);
  }

  /** Before the call: a removal from the middle leaves the sequence whole exactly if its new window starts behind the
      cut, or reaches back to what the cache could resume from anyway. */
  lemma ShiftKeepsWindow(st: Store, p: Params, ref: Ref, s: int, begin: int, end: int)
    requires Agrees(st, p, ref) && ref.Checked(s) && !p.Unlimited() && 1 <= p.window && AnyHolder(st.cells, s)
    requires 0 <= begin <= end < MAX_INT32
    ensures var st', h' := Cut(st, s, begin, end), Splice(Of(ref.hist, s), begin, end);
            HasFrom(st'.cells, s, h', |h'| - p.window) <==>
              Max(0, |h'| - p.window) >= begin || CanResume(st, p, s, |h'|)
  {
    var h, st', h' := Of(ref.hist, s), Cut(st, s, begin, end), Splice(Of(ref.hist, s), begin, end);
    var start := Max(0, |h'| - p.window);
    CanResumeExact(st, p, s, h, |h'|);
    hide Cut, CanResume, Tracks, HasFrom, Agrees;
    if start >= begin || CanResume(st, p, s, |h'|) {
      ShiftHasWindow(st, p, ref, s, begin, end);
    }
    if start < begin && HasFrom(st'.cells, s, h', |h'| - p.window) {
      ShiftNeedsWindow(st, p, ref, s, begin, end);
    }
  }

  lemma ShiftHasWindow(st: Store, p: Params, ref: Ref, s: int, begin: int, end: int)
    requires Agrees(st, p, ref) && ref.Checked(s) && 0 <= begin <= end < MAX_INT32
    requires var h, h' := Of(ref.hist, s), Splice(Of(ref.hist, s), begin, end);
             Max(0, |h'| - p.window) >= begin || HasFrom(st.cells, s, h, Max(0, |h'| - p.window))
    ensures var h' := Splice(Of(ref.hist, s), begin, end); HasFrom(Cut(st, s, begin, end).cells, s, h', |h'| - p.window)
  {
    hide Cut, Present, Tracks;
    var h, h' := Of(ref.hist, s), Splice(Of(ref.hist, s), begin, end);
    assert HasFrom(st.cells, s, h, |h| - p.window);
    forall q | 0 <= q && |h'| - p.window <= q < |h'| ensures Present(Cut(st, s, begin, end).cells, s, q) {
      assert Present(st.cells, s, Before(q, begin, end));
      CutPresent(st, s, begin, end, q);
    }
  }

  lemma ShiftNeedsWindow(st: Store, p: Params, ref: Ref, s: int, begin: int, end: int)
    requires Agrees(st, p, ref) && 1 <= p.window && AnyHolder(st.cells, s) && 0 <= begin <= end < MAX_INT32
    requires var h' := Splice(Of(ref.hist, s), begin, end);
             Max(0, |h'| - p.window) < begin && HasFrom(Cut(st, s, begin, end).cells, s, h', |h'| - p.window)
    ensures var h' := Splice(Of(ref.hist, s), begin, end);
            HasFrom(st.cells, s, Of(ref.hist, s), Max(0, |h'| - p.window))
  {
    hide Cut;
    var h, h' := Of(ref.hist, s), Splice(Of(ref.hist, s), begin, end);
    var start := Max(0, |h'| - p.window);
    assert Tracks(st, s, h);
    var i :| Holds(st.cells, i, s);
    assert start < |h'|;
    CutHeld(st, s, begin, end, start);
    var j :| At(st.cells, j, s, start);
    assert Holds(st.cells, j, s);
  }
}
