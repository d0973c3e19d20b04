/** A cache made of several causal caches (kvcache/wrapper.go): all take a batch or none keeps it. */
module WrapperCaches {
  import opened CacheStore
  import opened CausalCache
  import opened CacheHistory
  import opened CacheRuns

  /** The tail removals that undo a batch, in batch order. */
  ghost function Unwind(st: Store, batch: seq<Token>): (r: Store)
    requires |st.cells| == |st.rows| <= MAX_INT
    ensures |r.cells| == |r.rows| == |st.cells|
  {
    if batch == [] then st
    else
      var n := |batch| - 1;
      Cut(Unwind(st, batch[..n]), batch[n].sequence, batch[n].pos, MAX_INT32)
  }

  ghost predicate Proper(batch: seq<Token>) {
    forall k :: 0 <= k < |batch| ==> 0 <= batch[k].pos < MAX_INT32
  }

  lemma {:induction false} UnwindWellFormed(st: Store, batch: seq<Token>)
    requires WellFormed(st) && Proper(batch)
    ensures WellFormed(Unwind(st, batch))
  {
    if batch != [] {
      var n := |batch| - 1;
      assert forall k :: 0 <= k < n ==> batch[..n][k] == batch[k];
      UnwindWellFormed(st, batch[..n]);
      CutFullyWellFormed(Unwind(st, batch[..n]), batch[n].sequence, batch[n].pos, MAX_INT32);
    }
  }

  /** Some token of the batch lies at or before position pos of s. */
  ghost predicate Reached(batch: seq<Token>, s: int, pos: int) {
    exists k :: 0 <= k < |batch| && batch[k].sequence == s && batch[k].pos <= pos
  }

  lemma {:induction false} UnwindHolds(st: Store, batch: seq<Token>, i: int, s: int)
    requires WellFormed(st) && Proper(batch) && 0 <= i < |st.cells|
    ensures Holds(Unwind(st, batch).cells, i, s) <==> Holds(st.cells, i, s) && !Reached(batch, s, st.cells[i].pos)
    ensures Unwind(st, batch).cells[i].pos == st.cells[i].pos
    ensures Unwind(st, batch).rows == st.rows
  {
    if batch != [] {
      var n := |batch| - 1;
      var front, t := batch[..n], batch[n];
      assert forall k :: 0 <= k < n ==> front[k] == batch[k];
      UnwindHolds(st, front, i, s);
      UnwindWellFormed(st, front);
      CutTailHolds(Unwind(st, front), t.sequence, t.pos, i, s);
      ReachedSnoc(batch, s, st.cells[i].pos);
    }
  }

  lemma CutTailHolds(st: Store, s: int, pos: int, i: int, s': int)
    requires WellFormed(st) && 0 <= pos < MAX_INT32 && 0 <= i < |st.cells|
    ensures var st' := Cut(st, s, pos, MAX_INT32);
            && (Holds(st'.cells, i, s') <==> Holds(st.cells, i, s') && !(s' == s && st.cells[i].pos >= pos))
            && st'.cells[i].pos == st.cells[i].pos
            && st'.rows == st.rows
  {
    assert Cut(st, s, pos, MAX_INT32).cells[i] == CutCell(st.cells[i], s, pos, MAX_INT32);
    assert s in st.cells[i].seqs ==> Holds(st.cells, i, s);
  }

  lemma ReachedSnoc(batch: seq<Token>, s: int, pos: int)
    requires batch != []
    ensures Reached(batch, s, pos) <==>
            Reached(batch[..|batch| - 1], s, pos) || (batch[|batch| - 1].sequence == s && batch[|batch| - 1].pos <= pos)
  {
    var front := batch[..|batch| - 1];
    if Reached(front, s, pos) {
      var k :| 0 <= k < |front| && front[k].sequence == s && front[k].pos <= pos;
      assert batch[k] == front[k];
    }
    if Reached(batch, s, pos) {
      var k :| 0 <= k < |batch| && batch[k].sequence == s && batch[k].pos <= pos;
      assert k < |front| ==> batch[k] == front[k];
    }
  }

  /** Unwinding a batch of appended positions leaves exactly the entries the cache had after its own
      eviction, for every sequence. */
  lemma UnwindRestores(slid: Store, p: Params, ref: Ref, batch: seq<Token>, locs: seq<int>, s: int)
    requires Agrees(slid, p, ref) && MayForward(ref, batch) && Proper(batch)
    requires FirstFree(slid.cells, locs, |batch|) && ValidLocs(slid, batch, locs)
    ensures SameFor(slid, Unwind(PlaceAll(slid, batch, locs), batch), s)
  {
    FirstFreeValid(slid, batch, locs);
    PlaceAllWellFormed(slid, batch, locs);
    var placed := PlaceAll(slid, batch, locs);
    var st' := Unwind(placed, batch);
    forall i | 0 <= i < |slid.cells|
      ensures Holds(st'.cells, i, s) <==> Holds(slid.cells, i, s)
      ensures Holds(slid.cells, i, s) ==> st'.cells[i].pos == slid.cells[i].pos && st'.rows[i] == slid.rows[i]
    {
      UnwindHolds(placed, batch, i, s);
      if i in locs {
        var k :| 0 <= k < |locs| && locs[k] == i;
        PlaceAllHere(slid, batch, locs, k);
        assert Holds(placed.cells, i, s) ==> Reached(batch, s, placed.cells[i].pos);
      } else {
        PlaceAllElsewhere(slid, batch, locs, i);
        if Holds(slid.cells, i, s) {
          NotReached(ref, batch, s, slid.cells[i].pos);
        }
      }
    }
  }

  lemma NotReached(ref: Ref, batch: seq<Token>, s: int, pos: int)
    requires Continues(ref.hist, batch) && pos < |Of(ref.hist, s)|
    ensures !Reached(batch, s, pos)
  {
    forall k | 0 <= k < |batch| && batch[k].sequence == s ensures batch[k].pos > pos {
      ContinuesAt(ref.hist, batch, k);
    }
  }

  /** A refused batch leaves no trace but eviction: the cache agrees with the old histories, whether it
      took the batch and unwound it or was the one that refused. */
  lemma UnwindAgrees(st: Store, p: Params, ref: Ref, batch: seq<Token>, locs: seq<int>, st': Store)
    requires Agrees(st, p, ref) && MayForward(ref, batch) && Proper(batch)
    requires Forwarded(st, p, batch, true, locs, st')
    ensures |st'.cells| == |st'.rows| <= MAX_INT && Agrees(Unwind(st', batch), p, ref)
    ensures forall s :: SameFor(Slide(st, batch, p), Unwind(st', batch), s)
  {
    var slid := Slide(st, batch, p);
    SlideAgrees(st, p, ref, batch);
    FirstFreeValid(slid, batch, locs);
    PlaceAllWellFormed(slid, batch, locs);
    UnwindWellFormed(st', batch);
    forall s
      ensures SameFor(slid, Unwind(st', batch), s)
      ensures Tracks(Unwind(st', batch), s, Of(ref.hist, s))
      ensures forall from :: HasFrom(slid.cells, s, Of(ref.hist, s), from) ==>
                HasFrom(Unwind(st', batch).cells, s, Of(ref.hist, s), from)
    {
      UnwindRestores(slid, p, ref, batch, locs, s);
      SameTracks(slid, Unwind(st', batch), s, Of(ref.hist, s));
    }
  }

  /** What eviction took away no token of this batch or a later one could have attended to. */
  lemma EvictedUnreachable(st: Store, p: Params, ref: Ref, batch: seq<Token>, i: int, s: int)
    requires Agrees(st, p, ref) && MayForward(ref, batch)
    requires Holds(st.cells, i, s) && !Holds(Slide(st, batch, p).cells, i, s)
    ensures forall t: Token, causal: bool :: t.sequence == s && t.pos >= |Of(ref.hist, s)| ==>
            !Visible(st.cells[i], t, p, causal)
  {
    if !p.Unlimited() {
      SlideHolds(st, batch, p, i, s);
      assert Tracks(st, s, Of(ref.hist, s));
      if InBatch(batch, s) {
        LowestIsEnd(ref.hist, batch, s);
      } else if LastPos(st.cells, s) != 0 {
        var l :| At(st.cells, l, s, LastPos(st.cells, s));
        assert Holds(st.cells, l, s);
      }
    }
  }

  /** Undo a batch on one cache; no removal fails. */
  method UnwindOne(c: Causal, tokens: seq<Token>)
    requires c.Valid() && Proper(tokens)
    modifies c
    ensures c.Valid() && c.All() == Unwound(old(c.All()), tokens)
  {
    ghost var was := c.St();
    for k := 0 to |tokens|
      invariant c.Valid() && c.p == old(c.p) && c.St() == Unwind(was, tokens[..k])
    {
      var ok := c.Remove(tokens[k].sequence, tokens[k].pos, MAX_INT32, _ => true);
      assert ok;
      assert tokens[..k + 1][..k] == tokens[..k];
    }
    assert tokens[..|tokens|] == tokens;
  }

  /** The cache stored the batch. */
  ghost predicate Taken(was: (Params, Store), tokens: seq<Token>, now: (Params, Store)) {
    && WellFormed(was.1) && |now.1.cells| == |now.1.rows| <= MAX_INT && now.0 == was.0
    && exists locs :: Forwarded(was.1, was.0, tokens, true, locs, now.1)
  }

  /** The cache had too few free cells and stored nothing. */
  ghost predicate Refuses(was: (Params, Store), tokens: seq<Token>, now: (Params, Store)) {
    && WellFormed(was.1) && now.0 == was.0
    && |FreeSet(Slide(was.1, tokens, was.0).cells)| < |tokens|
    && now.1 == Slide(was.1, tokens, was.0)
  }

  ghost function Unwound(was: (Params, Store), tokens: seq<Token>): (Params, Store)
    requires |was.1.cells| == |was.1.rows| <= MAX_INT
  {
    (was.0, Unwind(was.1, tokens))
  }

  /** The cache stored the batch and then undid it. */
  ghost predicate Undone(was: (Params, Store), tokens: seq<Token>, now: (Params, Store)) {
    exists mid :: Taken(was, tokens, mid) && now == Unwound(mid, tokens)
  }

  /** Offer the batch to one cache. */
  method TryOne(c: Causal, tokens: seq<Token>) returns (ok: bool)
    requires c.Valid() && tokens != [] && Proper(tokens)
    modifies c
    ensures c.Valid()
    ensures ok ==> Taken(old(c.All()), tokens, c.All())
    ensures !ok ==> Refuses(old(c.All()), tokens, c.All())
  {
    ok := c.StartForward(tokens);
  }

  /** The cache removed positions [begin, end) of s. */
  ghost predicate Removed(was: (Params, Store), s: int, begin: int, end: int, now: (Params, Store)) {
    WellFormed(was.1) && now.0 == was.0 && NoneBlocked(was.1.cells, s, end) && now.1 == Cut(was.1, s, begin, end)
  }

  /** The cache failed to, and stopped on the way. */
  ghost predicate Failed(was: (Params, Store), s: int, begin: int, end: int, now: (Params, Store)) {
    WellFormed(was.1) && now.0 == was.0 && CutFailed(was.1, now.1, s, begin, end)
  }

  /** The cache has no reason to fail. */
  ghost predicate Removable(was: (Params, Store), s: int, begin: int, end: int, canShift: bool, shiftOk: int -> bool) {
    MayRemove(was.1.cells, s, begin, end, canShift, was.0.maxBatch, shiftOk)
  }

  method RemoveOne(c: Causal, s: int, begin: int, end: int, shiftOk: int -> bool) returns (ok: bool)
    requires c.Valid() && 0 <= begin <= end <= MAX_INT32
    modifies c
    ensures c.Valid() && (end == MAX_INT32 ==> ok)
    ensures ok <==> Removable(old(c.All()), s, begin, end, c.canShift, shiftOk)
    ensures if ok then Removed(old(c.All()), s, begin, end, c.All()) else Failed(old(c.All()), s, begin, end, c.All())
  {
    ok := c.Remove(s, begin, end, shiftOk);
  }

  class WrapperCache {
    const caches: seq<Causal>

    ghost predicate Valid()
      reads this, caches
    {
      && (forall i, j :: 0 <= i < j < |caches| ==> caches[i] != caches[j])
      && (forall i :: 0 <= i < |caches| ==> caches[i].Valid())
    }

    constructor (cs: seq<Causal>)
      requires forall i, j :: 0 <= i < j < |cs| ==> cs[i] != cs[j]
      requires forall i :: 0 <= i < |cs| ==> cs[i].Valid()
      ensures Valid() && caches == cs
    {
      caches := cs;
    }

    /** Undo the batch on caches n-1 down to 0. */
    method UnwindBelow(n: int, tokens: seq<Token>)
      requires Valid() && 0 <= n <= |caches| && Proper(tokens)
      modifies caches
      ensures Valid()
      ensures forall j :: 0 <= j < n ==> caches[j].All() == Unwound(old(caches[j].All()), tokens)
      ensures forall j :: n <= j < |caches| ==> caches[j].All() == old(caches[j].All())
    {
      var j := n;
      while j > 0
        invariant 0 <= j <= n && Valid()
        invariant forall l :: j <= l < n ==> caches[l].All() == Unwound(old(caches[l].All()), tokens)
        invariant forall l :: 0 <= l < |caches| && !(j <= l < n) ==> caches[l].All() == old(caches[l].All())
      {
        j := j - 1;
        UnwindOne(caches[j], tokens);
      }
    }

    /** Every wrapped cache takes the batch, or some cache n refuses it, the caches before n undo it and
        the caches after n never see it. */
    method StartForward(tokens: seq<Token>) returns (ok: bool, ghost n: int)
      requires Valid() && tokens != [] && Proper(tokens)
      modifies caches
      ensures Valid() && 0 <= n <= |caches| && (ok <==> n == |caches|)
      ensures forall j :: 0 <= j < n ==> if ok then Taken(old(caches[j].All()), tokens, caches[j].All())
                                         else Undone(old(caches[j].All()), tokens, caches[j].All())
      ensures !ok ==> Refuses(old(caches[n].All()), tokens, caches[n].All())
      ensures forall j :: n < j < |caches| ==> caches[j].All() == old(caches[j].All())
    {
      hide Forwarded, FreeSet, Slide, WellFormed, Unwind, Refuses;
      n := 0;
      var i := 0;
      while i < |caches|
        invariant 0 <= i == n <= |caches| && Valid()
        invariant forall j :: 0 <= j < i ==> Taken(old(caches[j].All()), tokens, caches[j].All())
        invariant forall j :: i <= j < |caches| ==> caches[j].All() == old(caches[j].All())
      {
        var taken := TryOne(caches[i], tokens);
        if !taken {
          UnwindBelow(i, tokens);
          return false, i;
        }
        i, n := i + 1, n + 1;
      }
      return true, n;
    }

    /** Every wrapped cache removes the positions, or some cache n fails, the caches before n have removed them and
        the caches after n are as they were. Removing up to the end never fails. */
    method Remove(s: int, begin: int, end: int, shiftOk: seq<int -> bool>) returns (ok: bool, ghost n: int)
      requires Valid() && 0 <= begin <= end <= MAX_INT32 && |shiftOk| == |caches|
      modifies caches
      ensures Valid() && 0 <= n <= |caches| && (ok <==> n == |caches|) && (end == MAX_INT32 ==> ok)
      ensures forall j :: 0 <= j < n ==> Removed(old(caches[j].All()), s, begin, end, caches[j].All())
      ensures !ok ==> Failed(old(caches[n].All()), s, begin, end, caches[n].All())
      ensures ok <==> forall j :: 0 <= j < |caches| ==>
                Removable(old(caches[j].All()), s, begin, end, caches[j].canShift, shiftOk[j])
      ensures !ok ==> !Removable(old(caches[n].All()), s, begin, end, caches[n].canShift, shiftOk[n])
      ensures forall j :: n < j < |caches| ==> caches[j].All() == old(caches[j].All())
    {
      hide Removed, Failed, Removable;
      n := 0;
      var i := 0;
      while i < |caches|
        invariant 0 <= i == n <= |caches| && Valid()
        invariant forall j :: 0 <= j < i ==> Removed(old(caches[j].All()), s, begin, end, caches[j].All())
        invariant forall j :: 0 <= j < i ==>
                    Removable(old(caches[j].All()), s, begin, end, caches[j].canShift, shiftOk[j])
        invariant forall j :: i <= j < |caches| ==> caches[j].All() == old(caches[j].All())
      {
        var removed := RemoveOne(caches[i], s, begin, end, shiftOk[i]);
        if !removed {
          return false, i;
        }
        i, n := i + 1, n + 1;
      }
      return true, n;
    }

    method CanResumeAt(s: int, pos: int) returns (r: bool)
      requires Valid()
      ensures r <==> forall i :: 0 <= i < |caches| ==> CanResume(caches[i].St(), caches[i].p, s, pos)
    {
      for i := 0 to |caches|
        invariant forall j :: 0 <= j < i ==> CanResume(caches[j].St(), caches[j].p, s, pos)
      {
        var one := caches[i].CanResumeAt(s, pos);
        if !one {
          return false;
        }
      }
      return true;
    }
  }

  /** All wrapped caches agreed with the same histories before a refused batch, and still do after it. */
  lemma RefusalInvisible(was: (Params, Store), ref: Ref, batch: seq<Token>, now: (Params, Store))
    requires Agrees(was.1, was.0, ref) && MayForward(ref, batch) && Proper(batch)
    requires Undone(was, batch, now) || Refuses(was, batch, now) || now == was
    ensures now.0 == was.0 && Agrees(now.1, now.0, ref)
  {
    if Undone(was, batch, now) {
      var mid :| Taken(was, batch, mid) && now == Unwound(mid, batch);
      var locs :| Forwarded(was.1, was.0, batch, true, locs, mid.1);
      UnwindAgrees(was.1, was.0, ref, batch, locs, mid.1);
    } else if now != was {
      SlideAgrees(was.1, was.0, ref, batch);
    }
  }

  /** After a failed removal, whatever a wrapped cache did, removing the whole sequence succeeds on it, and then all
      wrapped caches agree with the same histories again, without the sequence. */
  lemma FailureCleared(was: (Params, Store), ref: Ref, s: int, begin: int, end: int, now: (Params, Store),
                       clear: (Params, Store))
    requires Agrees(was.1, was.0, ref) && 0 <= begin <= end < MAX_INT32
    requires Removed(was, s, begin, end, now) || Failed(was, s, begin, end, now) || now == was
    ensures WellFormed(now.1) && NoneBlocked(now.1.cells, s, MAX_INT32)
    ensures Removed(now, s, 0, MAX_INT32, clear) ==>
              clear.0 == was.0 && Agrees(clear.1, clear.0, Ref(ref.hist[s := []], ref.unchecked - {s}))
  {
    hide CutFailed, Cut;
    if Failed(was, s, begin, end, now) {
      ShiftFailedAgrees(was.1, was.0, ref, s, begin, end, now.1);
    } else if Removed(was, s, begin, end, now) {
      ShiftedAgrees(was.1, was.0, ref, s, begin, end);
      ClearedAgrees(now.1, was.0, RefStep(was.0, ref, Shifted(s, begin, end)), s);
      SameCleared(was.0, ref, s, begin, end);
    } else {
      ClearedAgrees(was.1, was.0, ref, s);
    }
  }

  lemma ClearedAgrees(st: Store, p: Params, ref: Ref, s: int)
    requires Agrees(st, p, ref)
    ensures WellFormed(st) && NoneBlocked(st.cells, s, MAX_INT32)
    ensures Agrees(Cut(st, s, 0, MAX_INT32), p, Ref(ref.hist[s := []], ref.unchecked - {s}))
  {
    hide Cut;
    NeverBlocked(st, s);
    TrimmedAgrees(st, p, ref, s, 0);
    assert Take(Of(ref.hist, s), 0) == [];
  }

  /** Clearing a sequence forgets that it was shifted. */
  lemma SameCleared(p: Params, ref: Ref, s: int, begin: int, end: int)
    requires 0 <= begin <= end
    ensures var shifted := RefStep(p, ref, Shifted(s, begin, end));
            Ref(shifted.hist[s := []], shifted.unchecked - {s}) == Ref(ref.hist[s := []], ref.unchecked - {s})
  {
  }
}
