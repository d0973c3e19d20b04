/** The layouts findBestFit chooses place the most layers possible (llm/server.go): packing the groups of GPUs one
    after another is greedy packing of all of them at once. */
module LayoutOptimal {
  import opened GreedyFits
  import opened LayoutSearch

  /** The GPUs in the order of their layers: those that are used first hold the last layers. */
  function Stacked(groups: seq<seq<Device>>): seq<Device> {
    if groups == [] then [] else groups[|groups| - 1] + Stacked(groups[..|groups| - 1])
  }

  lemma {:induction false} FillPrefix(sizes: seq<nat>, c: int, n: int, free: int, lo: int)
    requires 0 <= lo <= n <= c <= |sizes| && 0 <= free
    ensures Fill(sizes[..c], n, free, lo) == Fill(sizes, n, free, lo)
    decreases n
  {
    if n > lo && sizes[n - 1] <= free {
      FillPrefix(sizes, c, n - 1, free - sizes[n - 1], lo);
    }
  }

  /** The last GPUs are filled as if there were no others. */
  lemma {:induction false} CutTail(sizes: seq<nat>, a: seq<nat>, b: seq<nat>, lo: int, h: int)
    requires 0 <= lo <= |sizes| && 0 <= h <= |b|
    ensures CutAt(sizes, a + b, lo, |a| + h) == CutAt(sizes, b, lo, h)
    decreases |b| - h
  {
    if h < |b| {
      CutTail(sizes, a, b, lo, h + 1);
    }
  }

  /** The first GPUs are filled with what the last ones leave. */
  lemma {:induction false} CutHead(sizes: seq<nat>, a: seq<nat>, b: seq<nat>, lo: int, g: int)
    requires 0 <= lo <= |sizes| && 0 <= g <= |a|
    ensures var c := CutAt(sizes, b, lo, 0); CutAt(sizes, a + b, lo, g) == CutAt(sizes[..c], a, lo, g) <= c
    decreases |a| - g
  {
    CutTail(sizes, a, b, lo, 0);
    if g < |a| {
      CutHead(sizes, a, b, lo, g + 1);
      var c := CutAt(sizes, b, lo, 0);
      FillPrefix(sizes, c, CutAt(sizes, a + b, lo, g + 1), a[g], lo);
    }
  }

  lemma LowestLeft(n: int, c: int, requested: int)
    requires 0 <= n && LowestLayer(n, requested) <= c <= n
    ensures LowestLayer(c, requested - (n - c)) == LowestLayer(n, requested)
  {
  }

  lemma {:induction false} GroupsAreOne(sizes: seq<nat>, groups: seq<seq<Device>>, requested: int, top: real)
    requires top >= 0.0
    ensures GroupsCount(sizes, groups, requested, top)
            == Count(sizes, Caps(Stacked(groups), top), LowestLayer(|sizes|, requested))
    decreases |groups|
  {
    hide CutAt;
    if groups == [] {
      NoGpus(sizes, LowestLayer(|sizes|, requested));
    } else {
      var k := |groups| - 1;
      var lo, front := LowestLayer(|sizes|, requested), Caps(Stacked(groups[..k]), top);
      GroupsAreOne(sizes, groups[..k], requested, top);
      var c := CutAt(sizes, front, lo, 0);
      LowestLeft(|sizes|, c, requested);
      CutHead(sizes, Caps(groups[k], top), front, lo, 0);
      assert Caps(Stacked(groups), top) == Caps(groups[k], top) + front;
    }
  }

  lemma NoGpus(sizes: seq<nat>, lo: int)
    requires 0 <= lo <= |sizes|
    ensures Count(sizes, [], lo) == 0
  {
  }

  /** No assignment of one block of layers per GPU, the faster GPUs behind the slower ones, within the same
      capacities and the request, places more layers than findBestFit. */
  lemma FitIsBest(sizes: seq<nat>, gpus: seq<Device>, requested: int, force: bool, cuts: seq<int>)
    requires Fits(sizes, Caps(Stacked(PerformanceGroups(gpus)), Top(requested, force)), LowestLayer(|sizes|, requested),
                  cuts)
    ensures |sizes| - cuts[0] <= FitCount(sizes, gpus, requested, force)
  {
    hide CutAt, Stacked, PerformanceGroups;
    GroupsAreOne(sizes, PerformanceGroups(gpus), requested, Top(requested, force));
    GreedyOptimal(sizes, Caps(Stacked(PerformanceGroups(gpus)), Top(requested, force)), LowestLayer(|sizes|, requested),
                  cuts);
  }

  // ---------- Equally fast GPUs ----------

  /** All GPUs in order, when they are equally fast. */
  lemma OneStack(gpus: seq<Device>, integrated: bool)
    requires gpus != [] && forall d :: d in gpus ==> IsIntegrated(d) == integrated
    ensures Stacked(PerformanceGroups(gpus)) == gpus
  {
    hide Filter, Stacked;
    assert forall i :: 0 <= i < |gpus| ==> gpus[i] in gpus;
    FilterAll(gpus, IsIntegrated, integrated);
    FilterNone(gpus, IsIntegrated, !integrated, [integrated]);
    assert gpus[0] in gpus && IsIntegrated(gpus[0]) == gpus[0].integrated;
    assert PerformanceGroups(gpus) == [gpus];
    StackedOne(gpus);
  }

  lemma StackedOne(gpus: seq<Device>)
    ensures Stacked([gpus]) == gpus
  {
    assert [gpus][..0] == [];
    assert Stacked([]) == [];
  }

  lemma {:induction false} FilterAll<K>(l: seq<Device>, key: Device -> K, k: K)
    requires forall i :: 0 <= i < |l| ==> key(l[i]) == k
    ensures Filter(l, key, k) == l
  {
    if l != [] {
      var n := |l| - 1;
      assert Filter(l, key, k) == Filter(l[..n], key, k) + [l[n]];
      hide Filter;
      FilterAll(l[..n], key, k);
      assert l == l[..n] + [l[n]];
    }
  }

  /** The last k layers can be cut, in order, into one block per GPU that fits on it. */
  ghost predicate CanPlace(sizes: seq<nat>, gpus: seq<Device>, k: int, factor: real)
    requires factor >= 0.0
  {
    exists cuts :: Fits(sizes, Caps(gpus, factor), 0, cuts) && cuts[0] == |sizes| - k
  }

  /** c is the largest number of layers, up to the request, that can be placed. */
  ghost predicate MostPlaced(sizes: seq<nat>, gpus: seq<Device>, requested: int, factor: real, c: int)
    requires factor >= 0.0
  {
    && CanPlace(sizes, gpus, c, factor) && (requested >= 0 ==> c <= requested)
    && forall k :: CanPlace(sizes, gpus, k, factor) && (requested >= 0 ==> k <= requested) ==> k <= c
  }

  lemma {:induction false} CutsAscend(sizes: seq<nat>, caps: seq<nat>, lo: int, cuts: seq<int>, g: int)
    requires Fits(sizes, caps, lo, cuts) && 0 <= g <= |caps|
    ensures cuts[0] <= cuts[g]
  {
    if g > 0 {
      CutsAscend(sizes, caps, lo, cuts, g - 1);
      assert Block(sizes, caps, cuts, g - 1);
    }
  }

  /** An assignment that starts at lo or above keeps to that bound. */
  lemma FitsAbove(sizes: seq<nat>, caps: seq<nat>, lo: int, cuts: seq<int>)
    requires Fits(sizes, caps, 0, cuts) && 0 <= lo <= cuts[0]
    ensures Fits(sizes, caps, lo, cuts)
  {
    forall g | 0 <= g < |cuts| ensures lo <= cuts[g] {
      CutsAscend(sizes, caps, 0, cuts, g);
    }
    forall g | 0 <= g < |caps| ensures Block(sizes, caps, cuts, g) {
    }
  }

  lemma GreedyPlaces(sizes: seq<nat>, caps: seq<nat>, lo: int)
    requires 0 <= lo <= |sizes|
    ensures Fits(sizes, caps, 0, GreedyCuts(sizes, caps, lo))
  {
    var cuts := GreedyCuts(sizes, caps, lo);
    forall g | 0 <= g < |caps| ensures Block(sizes, caps, cuts, g) {
    }
  }

  /** On equally fast GPUs findBestFit places the most layers that any in-order assignment places. */
  lemma FitIsMost(sizes: seq<nat>, gpus: seq<Device>, integrated: bool, requested: int, force: bool)
    requires gpus != [] && forall d :: d in gpus ==> IsIntegrated(d) == integrated
    ensures MostPlaced(sizes, gpus, requested, Top(requested, force), FitCount(sizes, gpus, requested, force))
  {
    hide CutAt, Stacked, PerformanceGroups;
    var factor := Top(requested, force);
    var caps, lo := Caps(gpus, factor), LowestLayer(|sizes|, requested);
    OneStack(gpus, integrated);
    GroupsAreOne(sizes, PerformanceGroups(gpus), requested, factor);
    GreedyPlaces(sizes, caps, lo);
    assert GreedyCuts(sizes, caps, lo)[0] == |sizes| - FitCount(sizes, gpus, requested, force);
    forall k | CanPlace(sizes, gpus, k, factor) && (requested >= 0 ==> k <= requested)
      ensures k <= FitCount(sizes, gpus, requested, force)
    {
      var cuts :| Fits(sizes, caps, 0, cuts) && cuts[0] == |sizes| - k;
      FitsAbove(sizes, caps, lo, cuts);
      GreedyOptimal(sizes, caps, lo, cuts);
    }
  }

  // ---------- Rounds with a request ----------

  /** The factor for the first n GPUs: only all of them may be forced to meet a request. */
  function FactorOf(gpus: seq<Device>, requireFull: bool, requested: int, n: int): real {
    Top(requested, n == |gpus| && !requireFull)
  }

  /** Some first n GPUs, lastUsed < n, can take what is requested. */
  ghost predicate SomeMeet(sizes: seq<nat>, gpus: seq<Device>, requireFull: bool, requested: int, lastUsed: int)
    requires 0 <= lastUsed
  {
    exists n :: lastUsed < n <= |gpus|
      && CanPlace(sizes, gpus[..n], requested, FactorOf(gpus, requireFull, requested, n))
  }

  /** The request is met if and only if it can be placed. */
  lemma MetExactly(sizes: seq<nat>, gpus: seq<Device>, integrated: bool, requested: int, force: bool)
    requires gpus != [] && (forall d :: d in gpus ==> IsIntegrated(d) == integrated) && 0 <= requested
    ensures FitCount(sizes, gpus, requested, force) <= requested
    ensures FitCount(sizes, gpus, requested, force) == requested <==>
            CanPlace(sizes, gpus, requested, Top(requested, force))
  {
    hide FitCount, CanPlace;
    FitIsMost(sizes, gpus, integrated, requested, force);
  }

  /** With a request, a round on equally fast GPUs meets it if and only if some first GPUs can, and otherwise places
      the most that all GPUs can take. */
  lemma {:induction false} RoundMeets(sizes: seq<nat>, gpus: seq<Device>, integrated: bool, requireFull: bool,
                                      requested: int, i: int)
    requires (forall d :: d in gpus ==> IsIntegrated(d) == integrated) && 0 <= requested <= |sizes| && 0 <= i < |gpus|
    ensures var c := RoundCount(sizes, gpus, requireFull, requested, i);
            if SomeMeet(sizes, gpus, requireFull, requested, i) then c == requested
            else c < requested && MostPlaced(sizes, gpus, requested, Top(requested, !requireFull), c)
    decreases |gpus| - i
  {
    hide FitCount, CanPlace, MostPlaced;
    MetExactly(sizes, gpus[..i + 1], integrated, requested, i == |gpus| - 1 && !requireFull);
    MeetsLater(sizes, gpus, requireFull, requested, i);
    if i == |gpus| - 1 {
      assert gpus[..i + 1] == gpus;
      FitIsMost(sizes, gpus, integrated, requested, !requireFull);
    } else {
      RoundMeets(sizes, gpus, integrated, requireFull, requested, i + 1);
    }
  }

  lemma MeetsLater(sizes: seq<nat>, gpus: seq<Device>, requireFull: bool, requested: int, i: int)
    requires 0 <= i < |gpus|
    ensures SomeMeet(sizes, gpus, requireFull, requested, i) <==>
            || CanPlace(sizes, gpus[..i + 1], requested, FactorOf(gpus, requireFull, requested, i + 1))
            || SomeMeet(sizes, gpus, requireFull, requested, i + 1)
  {
    hide CanPlace;
    if SomeMeet(sizes, gpus, requireFull, requested, i) {
      var n :| i < n <= |gpus| && CanPlace(sizes, gpus[..n], requested, FactorOf(gpus, requireFull, requested, n));
      assert n == i + 1 || i + 1 < n;
    }
  }

  /** With a request r, and without spreading: all layers if r asks for them and some first GPUs take them; otherwise
      what r asks for of all but the output layer if some first GPUs take that; otherwise the most of those that all
      GPUs take. How fast a GPU is does not matter. */
  lemma PlacedOnRequest(sizes: seq<nat>, gpus: seq<Device>, requireFull: bool, requested: int, lastUsed: int)
    requires 0 <= requested && 0 <= lastUsed < |gpus| && sizes != []
    ensures var rest := sizes[..|sizes| - 1];
            var r := AtMostAll(rest, requested);
            var c := Placed(sizes, gpus, requireFull, requested, lastUsed, false);
            if requested >= |sizes| && SomeMeet(sizes, gpus, requireFull, |sizes|, lastUsed) then c == |sizes|
            else if SomeMeet(rest, gpus, requireFull, r, lastUsed) then c == r
            else c < r && MostPlaced(rest, gpus, r, Top(r, !requireFull), c)
  {
    hide RoundCount, SomeMeet, MostPlaced;
    var even, rest := Evened(gpus), sizes[..|sizes| - 1];
    var r0, r := AtMostAll(sizes, requested), AtMostAll(rest, requested);
    RoundMeets(sizes, even, false, requireFull, r0, lastUsed);
    RoundMeets(rest, even, false, requireFull, r, lastUsed);
    EvenSomeMeet(sizes, gpus, requireFull, r0, lastUsed);
    EvenSomeMeet(rest, gpus, requireFull, r, lastUsed);
    EvenCaps(gpus, Top(r, !requireFull));
    MostByCaps(rest, gpus, even, r, Top(r, !requireFull));
  }

  lemma EvenCaps(gpus: seq<Device>, factor: real)
    requires factor >= 0.0
    ensures Caps(Evened(gpus), factor) == Caps(gpus, factor)
  {
    forall g | 0 <= g < |gpus| ensures Space(Evened(gpus)[g], factor) == Space(gpus[g], factor) {
      SameSpace(gpus[g], Evened(gpus)[g], factor);
    }
  }

  lemma MostByCaps(sizes: seq<nat>, gpus: seq<Device>, gpus': seq<Device>, requested: int, factor: real)
    requires factor >= 0.0 && Caps(gpus, factor) == Caps(gpus', factor)
    ensures forall k :: CanPlace(sizes, gpus, k, factor) <==> CanPlace(sizes, gpus', k, factor)
    ensures forall c :: MostPlaced(sizes, gpus, requested, factor, c) <==>
            MostPlaced(sizes, gpus', requested, factor, c)
  {
    hide Fits;
    assert forall k :: CanPlace(sizes, gpus, k, factor) <==> CanPlace(sizes, gpus', k, factor);
    hide CanPlace;
  }

  lemma EvenSomeMeet(sizes: seq<nat>, gpus: seq<Device>, requireFull: bool, requested: int, lastUsed: int)
    requires 0 <= lastUsed
    ensures SomeMeet(sizes, Evened(gpus), requireFull, requested, lastUsed) <==>
            SomeMeet(sizes, gpus, requireFull, requested, lastUsed)
  {
    hide CanPlace, MostPlaced;
    var even := Evened(gpus);
    forall n | 0 <= n <= |gpus|
      ensures var factor := FactorOf(gpus, requireFull, requested, n);
              CanPlace(sizes, even[..n], requested, factor) <==> CanPlace(sizes, gpus[..n], requested, factor)
    {
      assert even[..n] == Evened(gpus[..n]);
      EvenCaps(gpus[..n], FactorOf(gpus, requireFull, requested, n));
      MostByCaps(sizes, gpus[..n], even[..n], requested, FactorOf(gpus, requireFull, requested, n));
    }
  }

  /** When spreading: all layers if they are wanted and all GPUs together take them; otherwise the most, up to the
      request, of all but the output layer. */
  lemma PlacedSpread(sizes: seq<nat>, gpus: seq<Device>, requireFull: bool, requested: int, lastUsed: int)
    requires 0 <= lastUsed && gpus != [] && sizes != []
    ensures var rest := sizes[..|sizes| - 1];
            var all, r := AtMostAll(sizes, requested), AtMostAll(rest, requested);
            var c := Placed(sizes, gpus, requireFull, requested, lastUsed, true);
            if (requested < 0 || requested >= |sizes|) && CanPlace(sizes, gpus, |sizes|, Top(all, !requireFull))
            then c == |sizes|
            else MostPlaced(rest, gpus, r, Top(r, !requireFull), c)
  {
    hide FitCount, CanPlace;
    var even, rest := Evened(gpus), sizes[..|sizes| - 1];
    var all, r := AtMostAll(sizes, requested), AtMostAll(rest, requested);
    FitIsMost(sizes, even, false, all, !requireFull);
    FitIsMost(rest, even, false, r, !requireFull);
    EvenCaps(gpus, Top(all, !requireFull));
    MostByCaps(sizes, gpus, even, all, Top(all, !requireFull));
    EvenCaps(gpus, Top(r, !requireFull));
    MostByCaps(rest, gpus, even, r, Top(r, !requireFull));
  }
}
