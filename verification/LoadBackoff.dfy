/** Backing off after a failed allocation (llm/server.go, buildLayout): it leaves less space on every GPU, and places no
    more layers. */
module LoadBackoff {
  import opened GreedyFits
  import opened LayoutSearch
  import opened LayoutOptimal
  import opened LoadLayout

  /** One more tenth takes a tenth of the free memory, as long as any is left; at ten tenths none is. */
  lemma BackoffLeavesLess(d: Device, m: Memory, overhead: nat, tenths: nat)
    ensures Remaining(d, m, overhead, tenths + 1) <= Remaining(d, m, overhead, tenths)
    ensures Remaining(d, m, overhead, tenths + 1) > 0 ==>
              Remaining(d, m, overhead, tenths) - Remaining(d, m, overhead, tenths + 1)
              == d.free * (tenths + 1) / 10 - d.free * tenths / 10
    ensures tenths >= 10 ==> Remaining(d, m, overhead, tenths) == 0
  {
    hide Find;
    assert d.free * (tenths + 1) == d.free * tenths + d.free;
    if tenths >= 10 {
      assert d.free * tenths == d.free * (tenths - 10) + d.free * 10;
      assert d.free * (tenths - 10) >= 0;
    }
  }

  // ---------- Less space, no more layers ----------

  /** The same GPUs, with no more space on any of them. */
  ghost predicate NoMoreSpace(less: seq<Device>, more: seq<Device>) {
    && |less| == |more|
    && forall i :: 0 <= i < |less| ==> less[i].integrated == more[i].integrated && less[i].free <= more[i].free
  }

  ghost predicate NoMoreSpaces(less: seq<seq<Device>>, more: seq<seq<Device>>) {
    |less| == |more| && forall i :: 0 <= i < |less| ==> NoMoreSpace(less[i], more[i])
  }

  lemma AppendLess(a: seq<Device>, a': seq<Device>, b: seq<Device>, b': seq<Device>)
    requires NoMoreSpace(a, a') && NoMoreSpace(b, b')
    ensures NoMoreSpace(a + b, a' + b')
  {
  }

  lemma {:induction false} FilterLess(less: seq<Device>, more: seq<Device>, integrated: bool)
    requires NoMoreSpace(less, more)
    ensures NoMoreSpace(Filter(less, IsIntegrated, integrated), Filter(more, IsIntegrated, integrated))
  {
    if less != [] {
      var n := |less| - 1;
      FilterLess(less[..n], more[..n], integrated);
      var last := if IsIntegrated(less[n]) == integrated then [less[n]] else [];
      var last' := if IsIntegrated(more[n]) == integrated then [more[n]] else [];
      assert NoMoreSpace(last, last');
      hide NoMoreSpace;
      AppendLess(Filter(less[..n], IsIntegrated, integrated), Filter(more[..n], IsIntegrated, integrated), last, last');
    }
  }

  lemma GroupsLess(less: seq<Device>, more: seq<Device>)
    requires NoMoreSpace(less, more)
    ensures NoMoreSpaces(PerformanceGroups(less), PerformanceGroups(more))
  {
    hide Filter;
    FilterLess(less, more, true);
    FilterLess(less, more, false);
  }

  lemma {:induction false} StackedLess(less: seq<seq<Device>>, more: seq<seq<Device>>)
    requires NoMoreSpaces(less, more)
    ensures NoMoreSpace(Stacked(less), Stacked(more))
  {
    if less != [] {
      var n := |less| - 1;
      StackedLess(less[..n], more[..n]);
      assert NoMoreSpace(less[n], more[n]);
      hide NoMoreSpace;
      AppendLess(less[n], more[n], Stacked(less[..n]), Stacked(more[..n]));
    }
  }

  lemma SpaceLess(d: Device, d': Device, factor: real)
    requires factor >= 0.0 && d.free <= d'.free
    ensures Space(d, factor) <= Space(d', factor)
  {
    var f, f' := d.free as real, d'.free as real;
    assert (f' - f) * factor >= 0.0;
    assert f * factor <= f' * factor;
  }

  lemma FitCountLess(sizes: seq<nat>, less: seq<Device>, more: seq<Device>, requested: int, force: bool)
    requires NoMoreSpace(less, more)
    ensures FitCount(sizes, less, requested, force) <= FitCount(sizes, more, requested, force)
  {
    hide PerformanceGroups, Stacked;
    var top, lo := Top(requested, force), LowestLayer(|sizes|, requested);
    var a, b := PerformanceGroups(less), PerformanceGroups(more);
    GroupsLess(less, more);
    StackedLess(a, b);
    GroupsAreOne(sizes, a, requested, top);
    GroupsAreOne(sizes, b, requested, top);
    forall g | 0 <= g < |Stacked(a)| ensures Caps(Stacked(a), top)[g] <= Caps(Stacked(b), top)[g] {
      SpaceLess(Stacked(a)[g], Stacked(b)[g], top);
    }
    CountMonotone(sizes, Caps(Stacked(a), top), Caps(Stacked(b), top), lo);
  }

  lemma TakeAllLess(sizes: seq<nat>, less: seq<Device>, more: seq<Device>, requested: int, lastUsed: int)
    requires NoMoreSpace(less, more) && 0 <= lastUsed && SomeTakeAll(sizes, less, requested, lastUsed, |less|)
    ensures SomeTakeAll(sizes, more, requested, lastUsed, |more|)
  {
    hide FitCount;
    var n :| lastUsed < n <= |less| && FitCount(sizes, less[..n], requested, false) == |sizes|;
    FitCountLess(sizes, less[..n], more[..n], requested, false);
  }

  lemma PlacedLess(sizes: seq<nat>, less: seq<Device>, more: seq<Device>, requireFull: bool, requested: int,
                   lastUsed: int)
    requires NoMoreSpace(less, more) && requested < 0 && 0 <= lastUsed < |less| && sizes != []
    ensures Placed(sizes, less, requireFull, requested, lastUsed, false)
            <= Placed(sizes, more, requireFull, requested, lastUsed, false)
  {
    hide Placed, FitCount, SomeTakeAll;
    var rest := sizes[..|sizes| - 1];
    PlacedMeans(sizes, less, requireFull, requested, lastUsed);
    PlacedMeans(sizes, more, requireFull, requested, lastUsed);
    if SomeTakeAll(sizes, less, requested, lastUsed, |less|) {
      TakeAllLess(sizes, less, more, requested, lastUsed);
    }
    if SomeTakeAll(rest, less, requested, lastUsed, |less|) {
      TakeAllLess(rest, less, more, requested, lastUsed);
    }
    FitCountLess(rest, less, more, requested, false);
  }

  /** Without a request and without spreading, one more tenth never makes a library hold more layers. */
  lemma BackoffPlacesNoMore(env: Env, m: Memory, requireFull: bool, requested: int, tenths: nat, library: string)
    requires requested < 0 && !env.spread && Layers(m) > 0
    requires exists d :: d in env.gpus && LibraryOf(d) == library
    ensures LibraryCount(env, m, requireFull, requested, tenths + 1, library)
            <= LibraryCount(env, m, requireFull, requested, tenths, library)
  {
    hide Filter, Placed, LastUsed, Remaining;
    var gl := Filter(env.gpus, LibraryOf, library);
    var d :| d in env.gpus && LibraryOf(d) == library;
    assert d in gl;
    LastUsedExact(gl, m);
    var less, more := WithRemaining(gl, m, env.overhead, tenths + 1), WithRemaining(gl, m, env.overhead, tenths);
    forall i | 0 <= i < |gl| ensures less[i].free <= more[i].free {
      BackoffLeavesLess(gl[i], m, env.overhead, tenths);
    }
    PlacedLess(LayerSizes(m), less, more, requireFull, requested, LastUsed(gl, m));
  }
}
