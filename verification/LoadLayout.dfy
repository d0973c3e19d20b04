/** Building a layout from what the runner reports (llm/server.go, buildLayout): no GPU is promised more memory than
    it has left, and as many layers are placed as the GPUs of any one library take. */
module LoadLayout {
  import opened GreedyFits
  import opened LayoutSearch

  /** The memory a model needs on one device: per layer, and for the compute graph. */
  datatype DeviceMemory = DeviceMemory(id: DeviceId, weights: seq<nat>, cache: seq<nat>, graph: nat)

  datatype BackendMemory = BackendMemory(inputWeights: nat, cpu: DeviceMemory, gpus: seq<DeviceMemory>)

  predicate WellShaped(m: BackendMemory) {
    && |m.cpu.cache| == |m.cpu.weights|
    && forall j :: 0 <= j < |m.gpus| ==> |m.gpus[j].weights| == |m.gpus[j].cache| == |m.cpu.weights|
  }

  const NO_DEVICE := DeviceMemory(DeviceId("", ""), [], [], 0)

  /** A report in which every device lists the same number of layers. */
  type Memory = m: BackendMemory | WellShaped(m) witness BackendMemory(0, NO_DEVICE, [])

  function Layers(m: Memory): nat { |m.cpu.weights| }

  // ---------- Sizes of layers ----------

  function Total(s: seq<nat>): nat { if s == [] then 0 else Total(s[..|s| - 1]) + s[|s| - 1] }

  /** What the first n GPUs hold of layer i. */
  function OnGpus(m: Memory, i: int, n: int): nat
    requires 0 <= i < Layers(m) && 0 <= n <= |m.gpus|
  {
    if n == 0 then 0 else OnGpus(m, i, n - 1) + m.gpus[n - 1].weights[i] + m.gpus[n - 1].cache[i]
  }

  function LayerSize(m: Memory, i: int): nat
    requires 0 <= i < Layers(m)
  {
    OnGpus(m, i, |m.gpus|) + m.cpu.weights[i] + m.cpu.cache[i]
  }

  function LayerSizes(m: Memory): (sizes: seq<nat>)
    ensures |sizes| == Layers(m) && forall i :: 0 <= i < |sizes| ==> sizes[i] == LayerSize(m, i)
  {
    seq(Layers(m), i requires 0 <= i < Layers(m) => LayerSize(m, i))
  }

  method SumLayers(m: Memory) returns (sizes: seq<nat>)
    ensures sizes == LayerSizes(m)
  {
    sizes := [];
    for i := 0 to |m.cpu.weights|
      invariant sizes == LayerSizes(m)[..i]
    {
      var size := 0;
      for j := 0 to |m.gpus|
        invariant size == OnGpus(m, i, j)
      {
        size := size + m.gpus[j].weights[i];
        size := size + m.gpus[j].cache[i];
      }
      size := size + m.cpu.weights[i];
      size := size + m.cpu.cache[i];
      sizes := sizes + [size];
    }
  }

  /** The per-layer memory of all devices together. */
  function DeviceTotals(gpus: seq<DeviceMemory>): nat {
    if gpus == [] then 0
    else DeviceTotals(gpus[..|gpus| - 1]) + Total(gpus[|gpus| - 1].weights) + Total(gpus[|gpus| - 1].cache)
  }

  lemma {:induction false} TotalAdds(a: seq<nat>, b: seq<nat>, c: seq<nat>, sum: seq<nat>)
    requires |a| == |b| == |c| == |sum| && forall i :: 0 <= i < |a| ==> sum[i] == a[i] + b[i] + c[i]
    ensures Total(sum) == Total(a) + Total(b) + Total(c)
  {
    if a != [] {
      var n := |a| - 1;
      TotalAdds(a[..n], b[..n], c[..n], sum[..n]);
    }
  }

  lemma {:induction false} TotalZeros(s: seq<nat>)
    requires forall i :: 0 <= i < |s| ==> s[i] == 0
    ensures Total(s) == 0
  {
    if s != [] {
      TotalZeros(s[..|s| - 1]);
    }
  }

  lemma {:induction false} OnGpusTotal(m: Memory, n: int)
    requires 0 <= n <= |m.gpus|
    ensures Total(seq(Layers(m), i requires 0 <= i < Layers(m) => OnGpus(m, i, n))) == DeviceTotals(m.gpus[..n])
  {
    var sum := seq(Layers(m), i requires 0 <= i < Layers(m) => OnGpus(m, i, n));
    if n == 0 {
      TotalZeros(sum);
    } else {
      OnGpusTotal(m, n - 1);
      var less := seq(Layers(m), i requires 0 <= i < Layers(m) => OnGpus(m, i, n - 1));
      assert m.gpus[..n][..n - 1] == m.gpus[..n - 1];
      TotalAdds(less, m.gpus[n - 1].weights, m.gpus[n - 1].cache, sum);
    }
  }

  /** The layer sizes account for all per-layer memory, wherever the runner reports it. */
  lemma LayerSizesConserve(m: Memory)
    ensures Total(LayerSizes(m)) == DeviceTotals(m.gpus) + Total(m.cpu.weights) + Total(m.cpu.cache)
  {
    OnGpusTotal(m, |m.gpus|);
    var sum := seq(Layers(m), i requires 0 <= i < Layers(m) => OnGpus(m, i, |m.gpus|));
    assert m.gpus[..|m.gpus|] == m.gpus;
    TotalAdds(sum, m.cpu.weights, m.cpu.cache, LayerSizes(m));
  }

  // ---------- The space left on each GPU ----------

  const MEBIBYTE := 1024 * 1024

  function MinimumMemory(d: Device): nat { if d.id.library == "Metal" then 512 * MEBIBYTE else 457 * MEBIBYTE }

  /** The first report about a device, or the number of reports. */
  function Find(gpus: seq<DeviceMemory>, id: DeviceId): (j: nat)
    ensures j <= |gpus| && (j < |gpus| ==> gpus[j].id == id) && forall k :: 0 <= k < j ==> gpus[k].id != id
  {
    if gpus == [] then 0 else if gpus[0].id == id then 0 else 1 + Find(gpus[1..], id)
  }

  function GraphOf(m: Memory, id: DeviceId): nat {
    var j := Find(m.gpus, id);
    if j < |m.gpus| then m.gpus[j].graph else 0
  }

  predicate Reported(m: Memory, id: DeviceId) { Find(m.gpus, id) < |m.gpus| }

  /** What is left for layers: the backoff, in tenths of the free memory, and fixed amounts are kept back. */
  function Remaining(d: Device, m: Memory, overhead: nat, tenths: nat): nat {
    var reserved := d.free * tenths / 10 + MinimumMemory(d) + overhead + GraphOf(m, d.id);
    if Reported(m, d.id) && d.free > reserved then d.free - reserved else 0
  }

  function WithRemaining(gpus: seq<Device>, m: Memory, overhead: nat, tenths: nat): (r: seq<Device>)
    ensures |r| == |gpus|
    ensures forall i :: 0 <= i < |r| ==> r[i] == gpus[i].(free := Remaining(gpus[i], m, overhead, tenths))
  {
    seq(|gpus|, i requires 0 <= i < |gpus| => gpus[i].(free := Remaining(gpus[i], m, overhead, tenths)))
  }

  /** The last GPU with a graph on it, or the first GPU. */
  function LastUsed(gpus: seq<Device>, m: Memory): nat {
    if gpus == [] then 0
    else if GraphOf(m, gpus[|gpus| - 1].id) != 0 then |gpus| - 1
    else LastUsed(gpus[..|gpus| - 1], m)
  }

  lemma {:induction false} LastUsedExact(gpus: seq<Device>, m: Memory)
    ensures var r := LastUsed(gpus, m); r == 0 || (r < |gpus| && GraphOf(m, gpus[r].id) != 0)
    ensures forall i :: LastUsed(gpus, m) < i < |gpus| ==> GraphOf(m, gpus[i].id) == 0
  {
    if gpus != [] {
      LastUsedExact(gpus[..|gpus| - 1], m);
    }
  }

  /** One step of Reserve: the loop over the reports, which stops at the first about this GPU. */
  method ReserveOne(d: Device, m: Memory, overhead: nat, tenths: nat) returns (d': Device, used: bool)
    ensures d' == d.(free := Remaining(d, m, overhead, tenths)) && used == (GraphOf(m, d.id) != 0)
    ensures (forall j :: 0 <= j < |m.gpus| ==> m.gpus[j].id != d.id) ==> d'.free == 0 && !used
    ensures forall j ::
              0 <= j < |m.gpus| && m.gpus[j].id == d.id && (forall k :: 0 <= k < j ==> m.gpus[k].id != d.id) ==>
              && used == (m.gpus[j].graph != 0)
              && (var kept := d.free * tenths / 10 + (if d.id.library == "Metal" then 512 else 457) * 1024 * 1024
                              + overhead + m.gpus[j].graph;
                  d'.free == if kept < d.free then d.free - kept else 0)
  {
    for j := 0 to |m.gpus|
      invariant forall k :: 0 <= k < j ==> m.gpus[k].id != d.id
    {
      if d.id == m.gpus[j].id {
        assert Find(m.gpus, d.id) == j;
        used := m.gpus[j].graph != 0;
        var reserved := d.free * tenths / 10 + MinimumMemory(d) + overhead + m.gpus[j].graph;
        d' := d.(free := if d.free > reserved then d.free - reserved else 0);
        return;
      }
    }
    return d.(free := 0), false;
  }

  method Reserve(gpus: seq<Device>, m: Memory, overhead: nat, tenths: nat) returns (gl: seq<Device>, lastUsed: nat)
    ensures gl == WithRemaining(gpus, m, overhead, tenths)
    ensures lastUsed == LastUsed(gpus, m)
  {
    hide Remaining, GraphOf, LastUsed;
    LastUsedNext(gpus, m, -1);
    ghost var done := WithRemaining(gpus, m, overhead, tenths);
    gl, lastUsed := gpus, 0;
    for i := 0 to |gpus|
      invariant lastUsed == LastUsed(gpus[..i], m)
      invariant |gl| == |gpus| && forall k :: 0 <= k < |gl| ==> gl[k] == if k < i then done[k] else gpus[k]
    {
      LastUsedNext(gpus, m, i);
      var d, used := ReserveOne(gl[i], m, overhead, tenths);
      gl := gl[i := d];
      if used {
        lastUsed := i;
      }
    }
    assert gpus[..|gpus|] == gpus;
  }

  lemma LastUsedNext(gpus: seq<Device>, m: Memory, i: int)
    requires -1 <= i < |gpus|
    ensures LastUsed([], m) == 0
    ensures i >= 0 ==> LastUsed(gpus[..i + 1], m) == if GraphOf(m, gpus[i].id) != 0 then i else LastUsed(gpus[..i], m)
  {
    if i >= 0 {
      assert gpus[..i + 1][..i] == gpus[..i];
    }
  }

  // ---------- buildLayout ----------

  /** What does not change while a model is loaded: the GPUs as sorted, and the settings. */
  datatype Env = Env(gpus: seq<Device>, system: SystemInfo, darwin: bool, overhead: nat, spread: bool)

  datatype SystemInfo = SystemInfo(total: nat, free: nat, swap: nat)

  function LibraryOf(d: Device): string { d.id.library }

  /** The entry's GPU has room for its layers besides everything kept back on it. */
  ghost predicate RoomFor(sizes: seq<nat>, e: GpuLayers, gpus: seq<Device>, m: Memory, overhead: nat, tenths: nat) {
    exists d :: d in gpus && d.id == e.device && Reported(m, d.id)
             && SizeOf(sizes, e.layers) + d.free * tenths / 10
                + (if d.id.library == "Metal" then 512 else 457) * 1024 * 1024
                + overhead + GraphOf(m, d.id) <= d.free
  }

  /** No GPU with layers of any size is over-committed. */
  ghost predicate NotOverCommitted(sizes: seq<nat>, l: Layout, gpus: seq<Device>, m: Memory, overhead: nat,
                                   tenths: nat) {
    forall e :: e in l && SizeOf(sizes, e.layers) > 0 ==> RoomFor(sizes, e, gpus, m, overhead, tenths)
  }

  /** Not even a forced request puts layers of any size on a GPU with nothing left. */
  ghost predicate SomethingLeft(sizes: seq<nat>, l: Layout, gpus: seq<Device>, m: Memory, overhead: nat, tenths: nat) {
    forall e :: e in l && SizeOf(sizes, e.layers) > 0 ==>
      exists d :: d in gpus && d.id == e.device && Remaining(d, m, overhead, tenths) > 0
  }

  /** What every layout satisfies. */
  ghost predicate Made(env: Env, m: Memory, requireFull: bool, requested: int, tenths: nat, l: Layout) {
    var sizes := LayerSizes(m);
    && GoodAssignment(sizes, l)
    && (requested >= 0 ==> |Flatten(l)| <= requested)
    && (DistinctIds(env.gpus) ==> DistinctDevices(l))
    && SomethingLeft(sizes, l, env.gpus, m, env.overhead, tenths)
    && (requested < 0 || requireFull ==> NotOverCommitted(sizes, l, env.gpus, m, env.overhead, tenths))
  }

  /** How many layers the GPUs of one library would hold. */
  function LibraryCount(env: Env, m: Memory, requireFull: bool, requested: int, tenths: nat, library: string): int {
    var gl := Filter(env.gpus, LibraryOf, library);
    Placed(LayerSizes(m), WithRemaining(gl, m, env.overhead, tenths), requireFull, requested, LastUsed(gl, m),
           env.spread)
  }

  ghost predicate LibraryFewest(env: Env, m: Memory, requested: int, tenths: nat, library: string, l: Layout) {
    var gl := Filter(env.gpus, LibraryOf, library);
    Fewest(LayerSizes(m), WithRemaining(gl, m, env.overhead, tenths), requested, LastUsed(gl, m), l)
  }

  /** The layout is that of the first library, in order of appearance, whose GPUs hold the most layers; without a
      request it uses as few of them as hold the whole model. */
  ghost predicate Largest(env: Env, m: Memory, requireFull: bool, requested: int, tenths: nat, libraries: seq<string>,
                          l: Layout) {
    && (forall k :: 0 <= k < |libraries| ==>
          LibraryCount(env, m, requireFull, requested, tenths, libraries[k]) <= |Flatten(l)|)
    && (l == []
        || exists k :: 0 <= k < |libraries| && OfLibrary(env, m, requireFull, requested, tenths, libraries, k, l))
  }

  ghost predicate OfLibrary(env: Env, m: Memory, requireFull: bool, requested: int, tenths: nat, libraries: seq<string>,
                            k: int, l: Layout)
    requires 0 <= k < |libraries|
  {
    && LibraryCount(env, m, requireFull, requested, tenths, libraries[k]) == |Flatten(l)|
    && (forall j :: 0 <= j < k ==> LibraryCount(env, m, requireFull, requested, tenths, libraries[j]) < |Flatten(l)|)
    && (requested < 0 && !env.spread ==> LibraryFewest(env, m, requested, tenths, libraries[k], l))
  }

  /** The GPUs of one library can take all layers. */
  ghost predicate LibraryTakesAll(env: Env, m: Memory, requested: int, tenths: nat, library: string) {
    var gl := Filter(env.gpus, LibraryOf, library);
    SomeTakeAll(LayerSizes(m), WithRemaining(gl, m, env.overhead, tenths), requested, LastUsed(gl, m), |gl|)
  }

  /** Without a request and without spreading, a library holds the whole model if and only if some of its first GPUs
      take it; and otherwise as many layers but the output layer as they take. */
  lemma LibraryMeans(env: Env, m: Memory, requireFull: bool, requested: int, tenths: nat, library: string)
    requires requested < 0 && !env.spread && Layers(m) > 0
    requires exists d :: d in env.gpus && LibraryOf(d) == library
    ensures var gl := WithRemaining(Filter(env.gpus, LibraryOf, library), m, env.overhead, tenths);
            var used := LastUsed(Filter(env.gpus, LibraryOf, library), m);
            var rest := LayerSizes(m)[..Layers(m) - 1];
            LibraryCount(env, m, requireFull, requested, tenths, library)
            == if LibraryTakesAll(env, m, requested, tenths, library) then Layers(m)
               else if SomeTakeAll(rest, gl, requested, used, |gl|) then |rest|
               else FitCount(rest, gl, requested, false)
  {
    hide Filter, Placed, FitCount, SomeTakeAll, LastUsed;
    var gl := Filter(env.gpus, LibraryOf, library);
    var d :| d in env.gpus && LibraryOf(d) == library;
    assert d in gl;
    LastUsedExact(gl, m);
    PlacedMeans(LayerSizes(m), WithRemaining(gl, m, env.overhead, tenths), requireFull, requested, LastUsed(gl, m));
  }

  lemma FullSpace(d: Device)
    ensures Space(d, 1.0) == d.free
  {
  }

  /** The GPU of an entry, with the space left on it. */
  lemma EntryOn(sizes: seq<nat>, l: Layout, gpus: seq<Device>, library: string, m: Memory, overhead: nat, tenths: nat,
                top: real, k: int) returns (d: Device)
    requires top >= 0.0 && AllFit(sizes, l, WithRemaining(Filter(gpus, LibraryOf, library), m, overhead, tenths), top)
    requires 0 <= k < |l|
    ensures d in gpus && d.id == l[k].device
    ensures SizeOf(sizes, l[k].layers) <= Space(d.(free := Remaining(d, m, overhead, tenths)), top)
  {
    hide Filter, SizeOf, Remaining, Space;
    var gl := Filter(gpus, LibraryOf, library);
    var left := WithRemaining(gl, m, overhead, tenths);
    assert EntryFits(sizes, l[k], left, top);
    var r :| r in left && r.id == l[k].device && SizeOf(sizes, l[k].layers) <= Space(r, top);
    var i :| 0 <= i < |left| && left[i] == r;
    d := gl[i];
  }

  lemma FitsIsHeld(sizes: seq<nat>, l: Layout, gpus: seq<Device>, library: string, m: Memory, overhead: nat,
                   tenths: nat)
    requires AllFit(sizes, l, WithRemaining(Filter(gpus, LibraryOf, library), m, overhead, tenths), 1.0)
    ensures NotOverCommitted(sizes, l, gpus, m, overhead, tenths)
  {
    hide Filter, SizeOf, Find, AllFit;
    forall e | e in l && SizeOf(sizes, e.layers) > 0 ensures RoomFor(sizes, e, gpus, m, overhead, tenths) {
      var k :| 0 <= k < |l| && l[k] == e;
      var d := EntryOn(sizes, l, gpus, library, m, overhead, tenths, 1.0, k);
      FullSpace(d.(free := Remaining(d, m, overhead, tenths)));
    }
  }

  lemma FitsWithRest(sizes: seq<nat>, l: Layout, gpus: seq<Device>, library: string, m: Memory, overhead: nat,
                     tenths: nat, top: real)
    requires top >= 0.0 && AllFit(sizes, l, WithRemaining(Filter(gpus, LibraryOf, library), m, overhead, tenths), top)
    ensures SomethingLeft(sizes, l, gpus, m, overhead, tenths)
  {
    hide Filter, SizeOf, Remaining, AllFit, Space;
    forall e | e in l && SizeOf(sizes, e.layers) > 0
      ensures exists d :: d in gpus && d.id == e.device && Remaining(d, m, overhead, tenths) > 0
    {
      var k :| 0 <= k < |l| && l[k] == e;
      var d := EntryOn(sizes, l, gpus, library, m, overhead, tenths, top, k);
      SpaceNeedsFree(d.(free := Remaining(d, m, overhead, tenths)), top);
    }
  }

  lemma SpaceNeedsFree(d: Device, factor: real)
    requires factor >= 0.0
    ensures d.free == 0 ==> Space(d, factor) == 0
  {
  }

  lemma RemainingDistinct(gpus: seq<Device>, library: string, m: Memory, overhead: nat, tenths: nat)
    requires DistinctIds(gpus)
    ensures DistinctIds(WithRemaining(Filter(gpus, LibraryOf, library), m, overhead, tenths))
  {
    hide Filter;
    FilterDistinct(gpus, LibraryOf, library);
  }

  lemma NothingMade(env: Env, m: Memory, requireFull: bool, requested: int, tenths: nat)
    ensures Made(env, m, requireFull, requested, tenths, []) && Flatten([]) == []
    ensures Largest(env, m, requireFull, requested, tenths, [], [])
  {
    var sizes := LayerSizes(m);
    if sizes != [] {
      assert Range(|sizes| - 1, |sizes| - 1) == [];
    }
  }

  method BuildLayout(env: Env, m: Memory, requireFull: bool, requested: int, tenths: nat)
    returns (l: Layout, sizes: seq<nat>)
    ensures sizes == LayerSizes(m)
    ensures Made(env, m, requireFull, requested, tenths, l)
    ensures Largest(env, m, requireFull, requested, tenths, Keys(env.gpus, LibraryOf), l)
  {
    hide Filter, Flatten, SizeOf, Sum, WithRemaining, LastUsed, AllFit, GoodAssignment, Fewest, NotOverCommitted;
    hide Placed, Keys, Made, Largest;
    sizes := SumLayers(m);
    l := [];
    NothingMade(env, m, requireFull, requested, tenths);
    var groups := GroupBy(env.gpus, LibraryOf);
    ghost var libraries := Keys(env.gpus, LibraryOf);
    for g := 0 to |groups|
      invariant Made(env, m, requireFull, requested, tenths, l)
      invariant Largest(env, m, requireFull, requested, tenths, libraries[..g], l)
    {
      assert groups[g] == Filter(env.gpus, LibraryOf, libraries[g]);
      var gl, lastUsed := Reserve(groups[g], m, env.overhead, tenths);
      var best := AssignLayers(sizes, gl, requireFull, requested, lastUsed, env.spread);
      MadeOf(env, m, requireFull, requested, tenths, libraries[g], best);
      SumFlatten(best);
      SumFlatten(l);
      assert libraries[..g + 1] == libraries[..g] + [libraries[g]];
      LargestNext(env, m, requireFull, requested, tenths, libraries[..g], libraries[g], l, best);
      if Sum(best) > Sum(l) {
        l := best;
      }
    }
    assert libraries[..|groups|] == libraries;
  }

  lemma LargestNext(env: Env, m: Memory, requireFull: bool, requested: int, tenths: nat, libraries: seq<string>,
                    library: string, l: Layout, best: Layout)
    requires Largest(env, m, requireFull, requested, tenths, libraries, l)
    requires |Flatten(best)| == LibraryCount(env, m, requireFull, requested, tenths, library)
    requires requested < 0 && !env.spread ==> LibraryFewest(env, m, requested, tenths, library, best)
    ensures Largest(env, m, requireFull, requested, tenths, libraries + [library],
                    if |Flatten(best)| > |Flatten(l)| then best else l)
  {
    hide Flatten, LibraryCount, LibraryFewest;
    var next := libraries + [library];
    if |Flatten(best)| > |Flatten(l)| {
      assert OfLibrary(env, m, requireFull, requested, tenths, next, |libraries|, best);
    } else if l != [] {
      var k :| 0 <= k < |libraries| && OfLibrary(env, m, requireFull, requested, tenths, libraries, k, l);
      assert OfLibrary(env, m, requireFull, requested, tenths, next, k, l);
    }
  }

  lemma MadeOf(env: Env, m: Memory, requireFull: bool, requested: int, tenths: nat, library: string, l: Layout)
    requires GoodAssignment(LayerSizes(m), l) && (requested >= 0 ==> |Flatten(l)| <= requested)
    requires var gl := WithRemaining(Filter(env.gpus, LibraryOf, library), m, env.overhead, tenths);
             AllFit(LayerSizes(m), l, gl, Top(requested, !requireFull)) && (DistinctIds(gl) ==> DistinctDevices(l))
    ensures Made(env, m, requireFull, requested, tenths, l)
    ensures |Flatten(l)| <= Layers(m) && (|Flatten(l)| == Layers(m) <==> Flatten(l) == Range(0, Layers(m)))
  {
    hide Filter, Flatten, AllFit, SomethingLeft, NotOverCommitted;
    MadeAll(LayerSizes(m), l);
    FitsWithRest(LayerSizes(m), l, env.gpus, library, m, env.overhead, tenths, Top(requested, !requireFull));
    if requested < 0 || requireFull {
      FitsIsHeld(LayerSizes(m), l, env.gpus, library, m, env.overhead, tenths);
    }
    if DistinctIds(env.gpus) {
      RemainingDistinct(env.gpus, library, m, env.overhead, tenths);
    }
  }

  /** An assignment is of all layers exactly if it is as long. */
  lemma MadeAll(sizes: seq<nat>, l: Layout)
    requires GoodAssignment(sizes, l)
    ensures |Flatten(l)| <= |sizes| && (|Flatten(l)| == |sizes| <==> Flatten(l) == Range(0, |sizes|))
  {
  }

  /** Without a request and without spreading, all layers are placed if and only if the GPUs of some library take
      them. */
  lemma TakesAllIfPossible(env: Env, m: Memory, requireFull: bool, requested: int, tenths: nat, l: Layout)
    requires requested < 0 && !env.spread && Layers(m) > 0 && GoodAssignment(LayerSizes(m), l)
    requires Largest(env, m, requireFull, requested, tenths, Keys(env.gpus, LibraryOf), l)
    ensures Flatten(l) == Range(0, Layers(m)) <==>
            exists d :: d in env.gpus && LibraryTakesAll(env, m, requested, tenths, LibraryOf(d))
  {
    hide Flatten, LibraryTakesAll, LibraryCount, LibraryFewest, FitCount, Filter, WithRemaining, SomeTakeAll, LastUsed;
    MadeAll(LayerSizes(m), l);
    var libraries := Keys(env.gpus, LibraryOf);
    forall d | d in env.gpus
      ensures LibraryTakesAll(env, m, requested, tenths, LibraryOf(d)) ==> |Flatten(l)| == Layers(m)
    {
      LibraryMeans(env, m, requireFull, requested, tenths, LibraryOf(d));
      assert LibraryOf(d) in libraries;
    }
    if |Flatten(l)| == Layers(m) {
      NothingMade(env, m, requireFull, requested, tenths);
      var k :| 0 <= k < |libraries| && OfLibrary(env, m, requireFull, requested, tenths, libraries, k, l);
      var d := SomeWithKey(env.gpus, LibraryOf, libraries[k]);
      LibraryMeans(env, m, requireFull, requested, tenths, libraries[k]);
    }
  }

  lemma {:induction false} SomeWithKey<K>(gpus: seq<Device>, key: Device -> K, k: K) returns (d: Device)
    requires k in Keys(gpus, key)
    ensures d in gpus && key(d) == k
  {
    var n := |gpus| - 1;
    if k in Keys(gpus[..n], key) {
      d := SomeWithKey(gpus[..n], key, k);
    } else {
      d := gpus[n];
    }
  }
}
