/** The limits a layout is held to (llm/server.go, verifyLayout and createLayout), and the first layout of all. */
module LoadLimits {
  import opened Options
  import opened GreedyFits
  import opened LayoutSearch
  import opened LoadLayout

  // ---------- verifyLayout ----------

  datatype Refusal = RequiresFull | RequiresMoreSystemMemory | ExceedsSystemMemory

  /** The graphs of the GPUs in a layout. */
  function Graphs(m: Memory, l: Layout): nat {
    if l == [] then 0 else Graphs(m, l[..|l| - 1]) + GraphOf(m, l[|l| - 1].device)
  }

  predicate Offloaded(l: Layout, i: int) { exists k :: 0 <= k < |l| && i in l[k].layers }

  /** The size of the first n layers that are placed, or that are not. */
  function SizeWhere(sizes: seq<nat>, l: Layout, placed: bool, n: int): nat
    requires 0 <= n <= |sizes|
  {
    if n == 0 then 0 else SizeWhere(sizes, l, placed, n - 1) + if Offloaded(l, n - 1) == placed then sizes[n - 1] else 0
  }

  method GraphsOf(m: Memory, l: Layout) returns (vram: nat)
    ensures vram == Graphs(m, l)
  {
    vram := 0;
    for k := 0 to |l|
      invariant vram == Graphs(m, l[..k])
    {
      assert l[..k + 1][..k] == l[..k];
      ghost var before := vram;
      for j := 0 to |m.gpus|
        invariant vram == before && forall i :: 0 <= i < j ==> m.gpus[i].id != l[k].device
      {
        if l[k].device == m.gpus[j].id {
          assert Find(m.gpus, l[k].device) == j;
          vram := vram + m.gpus[j].graph;
          break;
        }
      }
    }
    assert l[..|l|] == l;
  }

  method IsOffloaded(l: Layout, i: int) returns (r: bool)
    ensures r == Offloaded(l, i)
  {
    for k := 0 to |l|
      invariant forall k' :: 0 <= k' < k ==> i !in l[k'].layers
    {
      for n := 0 to |l[k].layers|
        invariant forall n' :: 0 <= n' < n ==> l[k].layers[n'] != i
      {
        if i == l[k].layers[n] {
          return true;
        }
      }
    }
    return false;
  }

  /** The CPU and VRAM totals of verifyLayout. */
  method Totals(m: Memory, l: Layout, sizes: seq<nat>) returns (cpu: nat, vram: nat)
    ensures vram == Graphs(m, l) + SizeWhere(sizes, l, true, |sizes|)
    ensures cpu == m.inputWeights + m.cpu.graph + SizeWhere(sizes, l, false, |sizes|)
  {
    cpu := m.inputWeights + m.cpu.graph;
    vram := GraphsOf(m, l);
    for i := 0 to |sizes|
      invariant vram == Graphs(m, l) + SizeWhere(sizes, l, true, i)
      invariant cpu == m.inputWeights + m.cpu.graph + SizeWhere(sizes, l, false, i)
    {
      var placed := IsOffloaded(l, i);
      if placed {
        vram := vram + sizes[i];
      } else {
        cpu := cpu + sizes[i];
      }
    }
  }

  /** Every layer is in exactly one of the two totals. */
  lemma {:induction false} EachLayerOnce(sizes: seq<nat>, l: Layout, n: int)
    requires 0 <= n <= |sizes|
    ensures SizeWhere(sizes, l, true, n) + SizeWhere(sizes, l, false, n) == Total(sizes[..n])
  {
    if n > 0 {
      EachLayerOnce(sizes, l, n - 1);
      assert sizes[..n][..n - 1] == sizes[..n - 1];
    }
  }

  lemma {:induction false} OffloadedFlatten(l: Layout, i: int)
    ensures Offloaded(l, i) <==> i in Flatten(l)
  {
    if l != [] {
      OffloadedFlatten(l[1..], i);
      assert forall k :: 1 <= k < |l| ==> l[k] == l[1..][k - 1];
      assert Offloaded(l, i) <==> i in l[0].layers || Offloaded(l[1..], i);
    }
  }

  /** The GPUs' blocks add up to the layers that are placed. */
  lemma {:induction false} BlockSizes(sizes: seq<nat>, l: Layout, s: int, e: int, n: int)
    requires 0 <= s <= e <= |sizes| && Flatten(l) == Range(s, e) && 0 <= n <= |sizes|
    ensures SizeWhere(sizes, l, true, n)
            == if n <= s then 0 else if n <= e then Size(sizes, s, n) else Size(sizes, s, e)
  {
    if n > 0 {
      BlockSizes(sizes, l, s, e, n - 1);
      OffloadedFlatten(l, n - 1);
      if s <= n - 1 < e {
        assert Range(s, e)[n - 1 - s] == n - 1;
      }
    }
  }

  /** For a layout as createLayout makes it, VRAM is the graphs plus the offloaded suffix, and both totals
      together are all the memory the runner reported for these devices. */
  lemma TotalsConserve(m: Memory, l: Layout, cpu: nat, vram: nat)
    requires GoodAssignment(LayerSizes(m), l)
    requires vram == Graphs(m, l) + SizeWhere(LayerSizes(m), l, true, Layers(m))
    requires cpu == m.inputWeights + m.cpu.graph + SizeWhere(LayerSizes(m), l, false, Layers(m))
    ensures exists s, e ::
              0 <= s <= e <= Layers(m) && Flatten(l) == Range(s, e)
              && vram == Graphs(m, l) + Size(LayerSizes(m), s, e)
    ensures cpu + vram == m.inputWeights + m.cpu.graph + Graphs(m, l)
                          + DeviceTotals(m.gpus) + Total(m.cpu.weights) + Total(m.cpu.cache)
  {
    hide Flatten, SizeWhere, Total;
    var sizes := LayerSizes(m);
    EachLayerOnce(sizes, l, |sizes|);
    assert sizes[..|sizes|] == sizes;
    LayerSizesConserve(m);
    var s, e :| 0 <= s <= e <= |sizes| && Flatten(l) == Range(s, e);
    BlockSizes(sizes, l, s, e, |sizes|);
  }

  /** Why a layout is refused, if it is. */
  function Verdict(env: Env, requireFull: bool, requested: int, offloaded: int, layers: int,
                   cpu: nat): Option<Refusal> {
    if requireFull && env.gpus != [] && offloaded < layers && (requested < 0 || offloaded < requested)
    then Some(RequiresFull)
    else if requireFull && cpu > env.system.free then Some(RequiresMoreSystemMemory)
    else if !env.darwin && cpu > env.system.free + env.system.swap then Some(ExceedsSystemMemory)
    else None
  }

  /** verifyLayout. On darwin a layout above the total memory stops later offloading, but it is this method's
      own copy of the layout that is emptied: the caller goes on with the one it passed. */
  method VerifyLayout(env: Env, m: Memory, requireFull: bool, requested: int, l: Layout, sizes: seq<nat>)
    returns (err: Option<Refusal>, requested': int)
    requires sizes == LayerSizes(m) && GoodAssignment(sizes, l)
    ensures var cpu := m.inputWeights + m.cpu.graph + SizeWhere(sizes, l, false, |sizes|);
            err == Verdict(env, requireFull, requested, |Flatten(l)|, |sizes|, cpu)
    ensures var vram := Graphs(m, l) + SizeWhere(sizes, l, true, |sizes|);
            requested' == if err == None && env.darwin && vram > env.system.total then 0 else requested
  {
    requested' := requested;
    var cpu, vram := Totals(m, l, sizes);
    SumFlatten(l);
    if requireFull {
      if env.gpus != [] && Sum(l) < |sizes| && (requested < 0 || Sum(l) < requested) {
        return Some(RequiresFull), requested;
      }
      if cpu > env.system.free {
        return Some(RequiresMoreSystemMemory), requested;
      }
    }
    if !env.darwin {
      if cpu > env.system.free + env.system.swap {
        return Some(ExceedsSystemMemory), requested;
      }
    } else if vram > env.system.total {
      requested' := 0;
    }
    err := None;
  }

  // ---------- createLayout ----------

  /** Nothing known yet: every layer has size zero. */
  function Blank(layers: nat): (m: Memory)
    ensures Layers(m) == layers && forall i :: 0 <= i < layers ==> LayerSizes(m)[i] == 0
  {
    var zeros := seq(layers, i => 0);
    BackendMemory(0, DeviceMemory(DeviceId("", ""), zeros, zeros, 0), [])
  }

  /** Whether a layout for the reported memory is refused. */
  function VerdictOn(env: Env, m: Memory, requireFull: bool, requested: int, l: Layout): Option<Refusal> {
    var cpu := m.inputWeights + m.cpu.graph + SizeWhere(LayerSizes(m), l, false, Layers(m));
    Verdict(env, requireFull, requested, |Flatten(l)|, Layers(m), cpu)
  }

  /** The VRAM total of a layout. */
  function Vram(m: Memory, l: Layout): nat { Graphs(m, l) + SizeWhere(LayerSizes(m), l, true, Layers(m)) }

  /** What createLayout leaves as the number of layers to offload: on darwin none from now on, if this layout is not
      refused but needs more than the total memory. */
  function NextRequest(env: Env, m: Memory, requireFull: bool, requested: int, l: Layout): int {
    if VerdictOn(env, m, requireFull, requested, l) == None && env.darwin && Vram(m, l) > env.system.total then 0
    else requested
  }

  method CreateLayout(env: Env, m: Memory, requireFull: bool, requested: int, tenths: nat)
    returns (err: Option<Refusal>, l: Layout, requested': int)
    ensures Made(env, m, requireFull, requested, tenths, l)
    ensures Largest(env, m, requireFull, requested, tenths, Keys(env.gpus, LibraryOf), l)
    ensures err == VerdictOn(env, m, requireFull, requested, l)
    ensures requested' == NextRequest(env, m, requireFull, requested, l)
  {
    hide Flatten, GoodAssignment, Largest, Keys, NotOverCommitted, SizeWhere, Graphs, Find;
    var sizes;
    l, sizes := BuildLayout(env, m, requireFull, requested, tenths);
    err, requested' := VerifyLayout(env, m, requireFull, requested, l, sizes);
  }

  /** With nothing to offload, layouts are empty. */
  lemma NothingRequested(env: Env, m: Memory, requireFull: bool, tenths: nat, l: Layout)
    requires Made(env, m, requireFull, 0, tenths, l)
    ensures Flatten(l) == []
  {
  }

  // ---------- The first layout ----------

  predicate Less(a: Device, b: Device) {
    (a.integrated && !b.integrated) || (a.integrated == b.integrated && a.free < b.free)
  }

  /** In the reverse of the free-memory order. */
  predicate SortedByFree(gpus: seq<Device>) { forall i :: 0 < i < |gpus| ==> !Less(gpus[i - 1], gpus[i]) }

  lemma {:induction false} FirstIsLargest(gpus: seq<Device>, i: int)
    requires SortedByFree(gpus) && 0 <= i < |gpus|
    ensures !Less(gpus[0], gpus[i])
  {
    if i > 0 {
      FirstIsLargest(gpus, i - 1);
    }
  }

  lemma {:induction false} ZeroSize(sizes: seq<nat>, n: int)
    requires 0 <= n <= |sizes| && forall i :: 0 <= i < |sizes| ==> sizes[i] == 0
    ensures Size(sizes, 0, n) == 0
  {
    if n > 0 {
      ZeroSize(sizes, n - 1);
    }
  }

  lemma OneGroup(d: Device)
    ensures PerformanceGroups([d]) == [[d]]
  {
    assert [d][..0] == [];
    assert Filter([d], IsIntegrated, d.integrated) == [d] && Filter([d], IsIntegrated, !d.integrated) == [];
  }

  /** One GPU takes what fits in its free memory. */
  lemma OneGpuTakes(sizes: seq<nat>, d: Device, requested: int)
    requires requested < 0 && Size(sizes, 0, |sizes|) <= d.free
    ensures FitCount(sizes, [d], requested, false) == |sizes|
  {
    hide PerformanceGroups, Filter;
    OneGroup(d);
    var caps, cuts := Caps([d], 1.0), [0, |sizes|];
    FullSpace(d);
    assert Block(sizes, caps, cuts, 0);
    GreedyOptimal(sizes, caps, 0, cuts);
    assert CountAt(sizes, [d], 1.0, requested) == |sizes|;
    assert sizes[..|sizes|] == sizes && [[d]][..0] == [];
    hide CountAt;
    assert GroupsCount(sizes, [], requested, 1.0) == 0;
    assert GroupsCount(sizes, [[d]], requested, 1.0) == CountAt(sizes, [d], 1.0, requested - 0);
  }

  lemma {:induction false} FilterFirst(gpus: seq<Device>)
    requires gpus != []
    ensures var gl := Filter(gpus, LibraryOf, LibraryOf(gpus[0])); gl != [] && gl[0] == gpus[0]
  {
    if |gpus| > 1 {
      FilterFirst(gpus[..|gpus| - 1]);
    }
  }

  /** When the first GPU of the first library can take everything, everything goes there. */
  lemma AllOnFirst(env: Env, m: Memory, requireFull: bool, requested: int, tenths: nat, l: Layout)
    requires env.gpus != [] && requested < 0 && !env.spread && Layers(m) > 0 && GoodAssignment(LayerSizes(m), l)
    requires Largest(env, m, requireFull, requested, tenths, Keys(env.gpus, LibraryOf), l)
    requires forall id :: GraphOf(m, id) == 0
    requires Size(LayerSizes(m), 0, Layers(m)) <= Remaining(env.gpus[0], m, env.overhead, tenths)
    ensures Flatten(l) == Range(0, Layers(m))
    ensures forall e :: e in l ==> e.device == env.gpus[0].id
  {
    hide Filter, Flatten, FitCount, SizeOf, Size, Keys, Remaining, LibraryCount, GraphOf, LastUsed;
    var libraries := Keys(env.gpus, LibraryOf);
    var gl := Filter(env.gpus, LibraryOf, libraries[0]);
    var left := WithRemaining(gl, m, env.overhead, tenths);
    FilterFirst(env.gpus);
    NoneUsed(gl, m);
    assert left[..1] == [left[0]];
    OneGpuTakes(LayerSizes(m), left[0], requested);
    assert LibraryTakesAll(env, m, requested, tenths, libraries[0]);
    assert env.gpus[0] in env.gpus && LibraryOf(env.gpus[0]) == libraries[0];
    LibraryMeans(env, m, requireFull, requested, tenths, libraries[0]);
    MadeAll(LayerSizes(m), l);
    NothingMade(env, m, requireFull, requested, tenths);
    var k :| 0 <= k < |libraries| && OfLibrary(env, m, requireFull, requested, tenths, libraries, k, l);
    assert k == 0;
    assert AllFit(LayerSizes(m), l, left[..1], 1.0);
    forall e | e in l ensures e.device == env.gpus[0].id {
      var i :| 0 <= i < |l| && l[i] == e;
      assert EntryFits(LayerSizes(m), l[i], left[..1], 1.0);
    }
  }

  /** With nothing known, the whole model goes to the GPU with the most free memory, a discrete one if any. */
  lemma FirstLayout(env: Env, layers: nat, requireFull: bool, requested: int, l: Layout)
    requires env.gpus != [] && SortedByFree(env.gpus) && layers > 0 && requested < 0 && !env.spread
    requires Largest(env, Blank(layers), requireFull, requested, 0, Keys(env.gpus, LibraryOf), l)
    requires GoodAssignment(LayerSizes(Blank(layers)), l)
    ensures Flatten(l) == Range(0, layers)
    ensures forall e :: e in l ==> e.device == env.gpus[0].id
    ensures forall d :: d in env.gpus ==>
              && (env.gpus[0].integrated ==> d.integrated)
              && (d.integrated == env.gpus[0].integrated ==> d.free <= env.gpus[0].free)
  {
    hide Flatten, Largest, Keys;
    ZeroSize(LayerSizes(Blank(layers)), layers);
    AllOnFirst(env, Blank(layers), requireFull, requested, 0, l);
    forall d | d in env.gpus
      ensures env.gpus[0].integrated ==> d.integrated
      ensures d.integrated == env.gpus[0].integrated ==> d.free <= env.gpus[0].free
    {
      var i :| 0 <= i < |env.gpus| && env.gpus[i] == d;
      FirstIsLargest(env.gpus, i);
    }
  }

  lemma {:induction false} NoneUsed(gpus: seq<Device>, m: Memory)
    requires forall id :: GraphOf(m, id) == 0
    ensures LastUsed(gpus, m) == 0
  {
    if gpus != [] {
      NoneUsed(gpus[..|gpus| - 1], m);
    }
  }

  // ---------- A layout above the total memory on darwin ----------

  const METAL := Device(DeviceId("0", "Metal"), true, 2048 * MEBIBYTE, 2048 * MEBIBYTE)

  /** A machine with less memory than its GPU says is free. */
  const SMALL_MAC := Env([METAL], SystemInfo(1024 * MEBIBYTE, 1024 * MEBIBYTE, 0), true, 0, false)

  const BIG_LAYER: Memory :=
    BackendMemory(0, DeviceMemory(DeviceId("", ""), [0], [0], 0), [DeviceMemory(METAL.id, [1200 * MEBIBYTE], [0], 0)])

  /** createLayout does not refuse a layout above the total memory, and does not empty it: it only leaves a request
      for no layers behind. */
  lemma AboveTotalMemory(err: Option<Refusal>, l: Layout, requested': int)
    requires GoodAssignment(LayerSizes(BIG_LAYER), l)
    requires Largest(SMALL_MAC, BIG_LAYER, false, -1, 0, Keys(SMALL_MAC.gpus, LibraryOf), l)
    requires err == VerdictOn(SMALL_MAC, BIG_LAYER, false, -1, l)
    requires requested' == NextRequest(SMALL_MAC, BIG_LAYER, false, -1, l)
    ensures err == None && Flatten(l) == [0] && Vram(BIG_LAYER, l) > SMALL_MAC.system.total && requested' == 0
  {
    hide Largest, Keys;
    var m := BIG_LAYER;
    assert OnGpus(m, 0, 1) == 1200 * MEBIBYTE && LayerSizes(m) == [1200 * MEBIBYTE];
    assert Find(m.gpus, METAL.id) == 0;
    assert Remaining(METAL, m, 0, 0) == 1536 * MEBIBYTE;
    assert Size(LayerSizes(m), 0, 1) == 1200 * MEBIBYTE;
    NoGraphs(m);
    AllOnFirst(SMALL_MAC, m, false, -1, 0, l);
    BlockSizes(LayerSizes(m), l, 0, 1, 1);
    EachLayerOnce(LayerSizes(m), l, 1);
  }

  lemma NoGraphs(m: Memory)
    requires forall j :: 0 <= j < |m.gpus| ==> m.gpus[j].graph == 0
    ensures forall id :: GraphOf(m, id) == 0
  {
  }
}
