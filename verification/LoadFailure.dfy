/** A load whose fitting ends with a layout that failed (llm/server.go, ollamaServer.Load): two GPUs, three layers, and
    a runner that needs its compute graph now on one GPU, now on the other. */
module LoadFailure {
  import opened Options
  import opened GreedyFits
  import opened LayoutSearch
  import opened LayoutOptimal
  import opened LoadLayout
  import opened LoadLimits
  import opened LoadSearch

  const LAYER: nat := 100 * MEBIBYTE

  /** Besides what is always kept back, room for three layers on one GPU and for one on the other. */
  const BIG := Device(DeviceId("1", "CUDA"), false, 457 * MEBIBYTE + 3 * LAYER, 457 * MEBIBYTE + 3 * LAYER)
  const LITTLE := Device(DeviceId("0", "CUDA"), false, 457 * MEBIBYTE + LAYER, 457 * MEBIBYTE + LAYER)

  const TWO_GPUS := Env([BIG, LITTLE], SystemInfo(3 * LAYER, 3 * LAYER, 0), false, 0, false)

  /** Three layers of the same size, and graphs of the given sizes on the two GPUs. */
  function Report(big: nat, little: nat): (m: Memory)
    ensures Layers(m) == 3
  {
    BackendMemory(0, DeviceMemory(DeviceId("", ""), [LAYER, LAYER, LAYER], [0, 0, 0], 0),
                  [DeviceMemory(BIG.id, [0, 0, 0], [0, 0, 0], big),
                   DeviceMemory(LITTLE.id, [0, 0, 0], [0, 0, 0], little)])
  }

  // ---------- What is left on the GPUs ----------

  lemma ReportSizes(big: nat, little: nat)
    ensures LayerSizes(Report(big, little)) == [LAYER, LAYER, LAYER]
  {
    var m := Report(big, little);
    forall i | 0 <= i < 3 ensures LayerSize(m, i) == LAYER {
      assert OnGpus(m, i, 0) == 0 && OnGpus(m, i, 1) == 0 && OnGpus(m, i, 2) == 0;
    }
  }

  lemma ReportGraphs(big: nat, little: nat)
    ensures var m := Report(big, little);
            && Find(m.gpus, BIG.id) == 0 && Find(m.gpus, LITTLE.id) == 1
            && GraphOf(m, BIG.id) == big && GraphOf(m, LITTLE.id) == little
  {
    assert BIG.id.id[0] != LITTLE.id.id[0];
  }

  lemma ReportLeft(big: nat, little: nat)
    ensures var m := Report(big, little);
            && Remaining(BIG, m, 0, 0) == (if big < 3 * LAYER then 3 * LAYER - big else 0)
            && Remaining(LITTLE, m, 0, 0) == (if little < LAYER then LAYER - little else 0)
  {
    ReportGraphs(big, little);
    hide GraphOf, Find;
  }

  /** The GPUs with what is left on them. */
  function Left(big: nat, little: nat): seq<Device> {
    [BIG.(free := if big < 3 * LAYER then 3 * LAYER - big else 0),
     LITTLE.(free := if little < LAYER then LAYER - little else 0)]
  }

  lemma OneLibrary()
    ensures Keys(TWO_GPUS.gpus, LibraryOf) == ["CUDA"]
    ensures Filter(TWO_GPUS.gpus, LibraryOf, "CUDA") == TWO_GPUS.gpus
  {
    var gpus := TWO_GPUS.gpus;
    assert Keys([], LibraryOf) == [];
    hide Filter, Keys;
    FilterAll(gpus, LibraryOf, "CUDA");
    KeysNext(gpus, LibraryOf, 0);
    KeysNext(gpus, LibraryOf, 1);
    assert gpus[..0] == [] && gpus[..2] == gpus;
  }

  lemma LeftMeans(big: nat, little: nat)
    ensures var m := Report(big, little); WithRemaining(TWO_GPUS.gpus, m, 0, 0) == Left(big, little)
    ensures LastUsed(TWO_GPUS.gpus, Report(big, little)) == if little > 0 then 1 else 0
  {
    var gpus, m := TWO_GPUS.gpus, Report(big, little);
    ReportLeft(big, little);
    ReportGraphs(big, little);
    hide Remaining, GraphOf;
    LastUsedNext(gpus, m, 0);
    LastUsedNext(gpus, m, 1);
    assert gpus[..0] == [] && gpus[..2] == gpus;
  }

  /** What the only library holds is what is placed on the two GPUs, and what every layout has. */
  lemma CountedBy(big: nat, little: nat, requested: int, c: Creation)
    requires Creates(TWO_GPUS, Report(big, little), false, requested, 0, c)
    ensures var n := Placed([LAYER, LAYER, LAYER], Left(big, little), false, requested,
                            if little > 0 then 1 else 0, false);
            n <= Sum(c.layout) && (n > 0 ==> Sum(c.layout) == n)
  {
    assert Flatten([]) == [];
    hide Placed, Keys, Filter, Flatten, Made, LastUsed, WithRemaining, LayerSizes, Fewest, VerdictOn, NextRequest;
    OneLibrary();
    LeftMeans(big, little);
    ReportSizes(big, little);
    SumFlatten(c.layout);
    var libraries := ["CUDA"];
    assert LibraryCount(TWO_GPUS, Report(big, little), false, requested, 0, libraries[0]) <= |Flatten(c.layout)|;
  }

  // ---------- How many layers fit ----------

  ghost predicate AllLayers(sizes: seq<nat>) { forall i :: 0 <= i < |sizes| ==> sizes[i] == LAYER }

  lemma {:induction false} LayersSize(sizes: seq<nat>, a: int, b: int)
    requires AllLayers(sizes) && 0 <= a <= b <= |sizes|
    ensures Size(sizes, a, b) == (b - a) * LAYER
    decreases b - a
  {
    if a < b {
      LayersSize(sizes, a, b - 1);
    }
  }

  /** The blocks of the two GPUs, or of the first one. */
  lemma BlockBound(sizes: seq<nat>, gpus: seq<Device>, k: int)
    requires AllLayers(sizes) && 1 <= |gpus| <= 2 && CanPlace(sizes, gpus, k, 1.0)
    ensures k * LAYER <= gpus[0].free + if |gpus| == 2 then gpus[1].free else 0
  {
    hide Size, Space;
    var caps := Caps(gpus, 1.0);
    var cuts :| Fits(sizes, caps, 0, cuts) && cuts[0] == |sizes| - k;
    assert Block(sizes, caps, cuts, 0);
    LayersSize(sizes, cuts[0], cuts[1]);
    FullSpace(gpus[0]);
    if |gpus| == 2 {
      assert Block(sizes, caps, cuts, 1);
      LayersSize(sizes, cuts[1], cuts[2]);
      FullSpace(gpus[1]);
    }
  }

  /** The last k layers go on one of two GPUs. */
  lemma BlockPlaced(sizes: seq<nat>, gpus: seq<Device>, k: int, onFirst: bool, factor: real)
    requires AllLayers(sizes) && |gpus| == 2 && 0 <= k <= |sizes| && factor >= 1.0
    requires k * LAYER <= gpus[if onFirst then 0 else 1].free
    ensures CanPlace(sizes, gpus, k, factor)
  {
    hide Size, Space;
    var n, caps, g := |sizes|, Caps(gpus, factor), if onFirst then 0 else 1;
    var cuts := [n - k, if onFirst then n else n - k, n];
    FullSpace(gpus[g]);
    SpaceMonotone(gpus[g], 1.0, factor);
    LayersSize(sizes, n - k, n);
    LayersSize(sizes, n, n);
    LayersSize(sizes, n - k, n - k);
    assert Block(sizes, caps, cuts, 0);
    assert Block(sizes, caps, cuts, 1);
  }

  /** Discrete GPUs are all equally fast. */
  lemma MostOn(sizes: seq<nat>, gpus: seq<Device>)
    requires gpus != [] && forall d :: d in gpus ==> !d.integrated
    ensures MostPlaced(sizes, gpus, -1, 1.0, FitCount(sizes, gpus, -1, false))
  {
    hide FitCount, MostPlaced;
    FitIsMost(sizes, gpus, false, -1, false);
  }

  /** At most one layer goes on the first n GPUs if only the second has room, for one. */
  lemma NotAll(sizes: seq<nat>, n: int)
    requires AllLayers(sizes) && |sizes| >= 2 && 0 < n <= 2
    ensures FitCount(sizes, Left(3 * LAYER, 0)[..n], -1, false) <= 1
  {
    hide FitCount, CanPlace;
    var gpus := Left(3 * LAYER, 0)[..n];
    MostOn(sizes, gpus);
    BlockBound(sizes, gpus, FitCount(sizes, gpus, -1, false));
  }

  lemma PlacedOne()
    ensures Placed([LAYER, LAYER, LAYER], Left(3 * LAYER, 0), false, -1, 0, false) == 1
  {
    hide Placed, FitCount, CanPlace;
    var sizes, gpus := [LAYER, LAYER, LAYER], Left(3 * LAYER, 0);
    var rest := sizes[..2];
    PlacedMeans(sizes, gpus, false, -1, 0);
    forall n | 0 < n <= 2
      ensures FitCount(sizes, gpus[..n], -1, false) <= 1 && FitCount(rest, gpus[..n], -1, false) <= 1
    {
      NotAll(sizes, n);
      NotAll(rest, n);
    }
    assert gpus[..2] == gpus;
    MostOn(rest, gpus);
    BlockPlaced(rest, gpus, 1, false, 1.0);
  }

  lemma PlacedThree()
    ensures Placed([LAYER, LAYER, LAYER], Left(0, LAYER), false, -1, 1, false) == 3
  {
    hide Placed, FitCount, CanPlace;
    var sizes, gpus := [LAYER, LAYER, LAYER], Left(0, LAYER);
    PlacedMeans(sizes, gpus, false, -1, 1);
    MostOn(sizes, gpus);
    BlockPlaced(sizes, gpus, 3, true, 1.0);
    assert gpus[..2] == gpus;
    assert FitCount(sizes, gpus[..2], -1, false) == |sizes|;
  }

  lemma PlacedAsked()
    ensures Placed([LAYER, LAYER, LAYER], Left(0, LAYER), false, 1, 1, false) == 1
  {
    hide Placed, CanPlace;
    var sizes, gpus := [LAYER, LAYER, LAYER], Left(0, LAYER);
    var rest := sizes[..2];
    PlacedOnRequest(sizes, gpus, false, 1, 1);
    BlockPlaced(rest, gpus, 1, true, 1000.0);
    assert gpus[..2] == gpus;
    assert SomeMeet(rest, gpus, false, 1, 1);
  }

  // ---------- What createLayout makes ----------

  /** createLayout, for these reports of graphs. */
  ghost predicate CreatesFor(big: nat, little: nat, requested: int, c: Creation) {
    Creates(TWO_GPUS, Report(big, little), false, requested, 0, c)
  }

  /** The system can take what no GPU takes. */
  lemma Accepted(m: Memory, requested: int, c: Creation)
    requires Creates(TWO_GPUS, m, false, requested, 0, c) && m.inputWeights == m.cpu.graph == 0
    requires Total(LayerSizes(m)) <= 3 * LAYER
    ensures c.err == None && c.numGpu == requested
  {
    hide Made, Largest, SizeWhere, Total, LayerSizes;
    var sizes := LayerSizes(m);
    EachLayerOnce(sizes, c.layout, |sizes|);
    assert sizes[..|sizes|] == sizes;
  }

  lemma ReportAccepted(big: nat, little: nat, requested: int, c: Creation)
    requires CreatesFor(big, little, requested, c)
    ensures c.err == None && c.numGpu == requested
  {
    hide Creates;
    ReportSizes(big, little);
    var sizes: seq<nat> := [LAYER, LAYER, LAYER];
    assert sizes[..2][..1] == sizes[..1] && Total(sizes[..1]) == LAYER && Total(sizes[..2]) == 2 * LAYER;
    assert Total(sizes) == 3 * LAYER;
    Accepted(Report(big, little), requested, c);
  }

  lemma BlankAccepted(c: Creation)
    requires Creates(TWO_GPUS, Blank(3), false, -1, 0, c)
    ensures c.err == None && c.numGpu == -1 && Sum(c.layout) == 3
  {
    assert SortedByFree(TWO_GPUS.gpus);
    assert GoodAssignment(LayerSizes(Blank(3)), c.layout);
    hide Creates, GoodAssignment;
    TotalZeros(LayerSizes(Blank(3)));
    Accepted(Blank(3), -1, c);
    assert Largest(TWO_GPUS, Blank(3), false, -1, 0, Keys(TWO_GPUS.gpus, LibraryOf), c.layout) by { LargestOf(c); }
    FirstLayout(TWO_GPUS, 3, false, -1, c.layout);
    SumFlatten(c.layout);
  }

  lemma LargestOf(c: Creation)
    requires Creates(TWO_GPUS, Blank(3), false, -1, 0, c)
    ensures Largest(TWO_GPUS, Blank(3), false, -1, 0, Keys(TWO_GPUS.gpus, LibraryOf), c.layout)
  {
    hide Largest, Keys, Made;
  }

  /** The layers of an entry have a size. */
  lemma EntrySize(l: Layout, k: int)
    requires GoodAssignment([LAYER, LAYER, LAYER], l) && 0 <= k < |l| && l[k].layers != []
    ensures SizeOf([LAYER, LAYER, LAYER], l[k].layers) > 0
  {
    hide Flatten;
    var i := |l[k].layers| - 1;
    FlattenMember(l, k, i);
    assert 0 <= l[k].layers[i] < 3;
  }

  /** Layers only go to a GPU that has something left. */
  lemma OnlyWithRest(big: nat, little: nat, requested: int, c: Creation, k: int)
    requires CreatesFor(big, little, requested, c) && 0 <= k < |c.layout| && c.layout[k].layers != []
    ensures (c.layout[k].device == BIG.id && big < 3 * LAYER) || (c.layout[k].device == LITTLE.id && little < LAYER)
  {
    hide Remaining, SizeOf, Largest, GoodAssignment, VerdictOn, NextRequest, LayerSizes, NotOverCommitted, Flatten;
    hide Report, Keys, DistinctDevices;
    var m, e := Report(big, little), c.layout[k];
    ReportSizes(big, little);
    ReportLeft(big, little);
    EntrySize(c.layout, k);
    assert e in c.layout;
    var d :| d in TWO_GPUS.gpus && d.id == e.device && Remaining(d, m, 0, 0) > 0;
  }

  lemma {:induction false} SomeLayers(l: Layout) returns (k: int)
    requires Sum(l) > 0
    ensures 0 <= k < |l| && l[k].layers != []
  {
    if l[0].layers != [] {
      k := 0;
    } else {
      k := SomeLayers(l[1..]);
      k := k + 1;
    }
  }

  /** With the graph filling the big GPU, one layer goes to the little one; with the graph on the little one, all go to
      the big one, and also one if one is asked for; with graphs on both, none goes anywhere. */
  lemma Counted(one: Creation, three: Creation, other: Creation, none: Creation)
    requires CreatesFor(3 * LAYER, 0, -1, one) && CreatesFor(0, LAYER, -1, three)
    requires CreatesFor(0, LAYER, 1, other) && CreatesFor(3 * LAYER, LAYER, -1, none)
    ensures Sum(one.layout) == 1 && Sum(three.layout) == 3 && Sum(other.layout) == 1 && Sum(none.layout) == 0
    ensures one.layout != other.layout
  {
    hide Creates, Placed, Sum;
    PlacedOne();
    CountedBy(3 * LAYER, 0, -1, one);
    PlacedThree();
    CountedBy(0, LAYER, -1, three);
    PlacedAsked();
    CountedBy(0, LAYER, 1, other);
    if Sum(none.layout) > 0 {
      var k := SomeLayers(none.layout);
      OnlyWithRest(3 * LAYER, LAYER, -1, none, k);
    }
    var k := SomeLayers(one.layout);
    OnlyWithRest(3 * LAYER, 0, -1, one, k);
    assert BIG.id.id[0] != LITTLE.id.id[0];
    if one.layout == other.layout {
      OnlyWithRest(0, LAYER, 1, other, k);
    }
  }

  // ---------- The run ----------

  /** The whole model fits, but then one layer is proposed and fails, and then three are. */
  lemma FitFails(c: Setting, all: Creation, one: Creation, three: Creation) returns (st: State)
    requires c.launched && c.maker == CreateLayoutIn(TWO_GPUS, false)
    requires Creates(TWO_GPUS, Blank(3), false, -1, 0, all) && CreatesFor(3 * LAYER, 0, -1, one)
             && CreatesFor(0, LAYER, -1, three)
    requires Sum(all.layout) == 3 && Sum(one.layout) == 1 && Sum(three.layout) == 3
    requires all.err == one.err == three.err == None && all.numGpu == one.numGpu == three.numGpu == -1
    requires c.hash(one.layout) != c.hash(all.layout)
    ensures Reaches(c, Init(-1, Blank(3)), st) && st.op == FIT && st.layout == one.layout && st.numGpu == -1
            && st.tenths == 0
    ensures st.place == Probe(2) && st.memory == Report(0, LAYER)
    ensures st.log == [Exchange(FIT, all.layout, Reply(true, Report(3 * LAYER, 0)), Plain),
                       Exchange(FIT, one.layout, Reply(false, Report(0, LAYER)), Plain)]
  {
    hide Reaches, Sum, Creates, Report, Blank;
    var start := Init(-1, Blank(3));
    ReachesItself(c, start);
    st := Then(c, start, start, Make(all));
    st := Then(c, start, st, Answer(Reply(true, Report(3 * LAYER, 0))));
    st := Then(c, start, st, Make(one));
    st := Then(c, start, st, Answer(Reply(false, Report(0, LAYER))));
    st := Then(c, start, st, Make(three));
  }

  /** Two layers fail; then one on the big GPU can be allocated, but createLayout would place none. */
  lemma TrialsFail(c: Setting, st0: State, st1: State, two: Creation, other: Creation, none: Creation)
    returns (st: State)
    requires c.launched && c.maker == CreateLayoutIn(TWO_GPUS, false) && Reaches(c, st0, st1)
    requires st1.op == FIT && Sum(st1.layout) == 1 && st1.numGpu == -1 && st1.tenths == 0
    requires st1.place == Probe(2) && st1.memory == Report(0, LAYER)
    requires CreatesFor(0, LAYER, 2, two) && CreatesFor(0, LAYER, 1, other) && CreatesFor(3 * LAYER, LAYER, -1, none)
    requires Sum(other.layout) == 1 && Sum(none.layout) == 0
    requires two.err == other.err == none.err == None && none.numGpu == -1
    ensures Reaches(c, st0, st) && st.op == ALLOC && st.layout == st1.layout && st.place == Ask
    ensures st.log == st1.log + [Exchange(FIT, two.layout, Reply(false, Report(0, LAYER)), Trial(2, None)),
                                 Exchange(FIT, other.layout, Reply(true, Report(3 * LAYER, LAYER)), Trial(1, Some(0)))]
  {
    hide Reaches, Sum, Creates, Report;
    st := Then(c, st0, st1, Make(two));
    st := Then(c, st0, st, Answer(Reply(false, Report(0, LAYER))));
    st := Then(c, st0, st, Make(other));
    st := Then(c, st0, st, Answer(Reply(true, Report(3 * LAYER, LAYER))));
    st := Then(c, st0, st, Make(none));
  }

  /** With createLayout making the layouts, whichever of those it may make, and any hash function that tells the first
      two apart: fitting can be over, and allocation start with a layout that failed and never succeeded. */
  lemma MovesOnAfterFailure(hash: Layout -> Hash, all: Creation, one: Creation, three: Creation, two: Creation,
                            other: Creation, none: Creation) returns (st: State)
    requires Creates(TWO_GPUS, Blank(3), false, -1, 0, all) && CreatesFor(3 * LAYER, 0, -1, one)
    requires CreatesFor(0, LAYER, -1, three) && CreatesFor(0, LAYER, 2, two) && CreatesFor(0, LAYER, 1, other)
    requires CreatesFor(3 * LAYER, LAYER, -1, none) && hash(one.layout) != hash(all.layout)
    ensures Reaches(Setting(hash, true, CreateLayoutIn(TWO_GPUS, false)), Init(-1, Blank(3)), st)
    ensures st.place == Ask && st.op == ALLOC && st.layout == one.layout
    ensures |st.log| == 4 && Won(st.log[3])
            && st.log[1] == Exchange(FIT, st.layout, Reply(false, Report(0, LAYER)), Plain)
    ensures forall k :: 0 <= k < |st.log| && st.log[k].layout == st.layout ==> !Won(st.log[k])
  {
    hide Creates, Sum, Report, Reaches, Blank;
    var c := Setting(hash, true, CreateLayoutIn(TWO_GPUS, false));
    Counted(one, three, other, none);
    BlankAccepted(all);
    ReportAccepted(3 * LAYER, 0, -1, one);
    ReportAccepted(0, LAYER, -1, three);
    ReportAccepted(0, LAYER, 2, two);
    ReportAccepted(0, LAYER, 1, other);
    ReportAccepted(3 * LAYER, LAYER, -1, none);
    var mid := FitFails(c, all, one, three);
    st := TrialsFail(c, Init(-1, Blank(3)), mid, two, other, none);
  }

  method MakeLayout(m: Memory, requested: int) returns (c: Creation)
    ensures Creates(TWO_GPUS, m, false, requested, 0, c)
  {
    hide Made, Largest, VerdictOn, NextRequest, Keys;
    var err, l, numGpu := CreateLayout(TWO_GPUS, m, false, requested, 0);
    c := Creation(err, l, numGpu);
  }

  /** Such a run with the layouts that createLayout does make. */
  method RunAfterFailure(hash: Layout -> Hash) returns (all: Layout, one: Layout, ghost st: State)
    ensures Sum(all) == 3 && Sum(one) == 1
    ensures hash(one) != hash(all) ==>
              && Reaches(Setting(hash, true, CreateLayoutIn(TWO_GPUS, false)), Init(-1, Blank(3)), st)
              && st.place == Ask && st.op == ALLOC && st.layout == one
              && forall k :: 0 <= k < |st.log| && st.log[k].layout == one ==> !Won(st.log[k])
  {
    hide Creates, Sum, Report, Reaches, Blank;
    var c0 := MakeLayout(Blank(3), -1);
    var c1 := MakeLayout(Report(3 * LAYER, 0), -1);
    var c2 := MakeLayout(Report(0, LAYER), -1);
    var c3 := MakeLayout(Report(0, LAYER), 2);
    var c4 := MakeLayout(Report(0, LAYER), 1);
    var c5 := MakeLayout(Report(3 * LAYER, LAYER), -1);
    BlankAccepted(c0);
    Counted(c1, c2, c4, c5);
    all, one := c0.layout, c1.layout;
    if hash(one) != hash(all) {
      st := MovesOnAfterFailure(hash, c0, c1, c2, c3, c4, c5);
    } else {
      st := Init(-1, Blank(3));
    }
  }
}
