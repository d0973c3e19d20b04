/** Packing layers onto the GPUs of one group (llm/server.go, greedyFit): the greedy packing places as many
    layers as any packing in the same order can. */
module GreedyFits {

  datatype DeviceId = DeviceId(id: string, library: string)

  /** The fields of a device that layout decisions read. */
  datatype Device = Device(id: DeviceId, integrated: bool, free: nat, total: nat)

  /** The layers one GPU gets, and the list over all GPUs. */
  datatype GpuLayers = GpuLayers(device: DeviceId, layers: seq<int>)
  type Layout = seq<GpuLayers>

  function Sum(l: Layout): nat {
    if l == [] then 0 else |l[0].layers| + Sum(l[1..])
  }

  /** All layers of a layout, GPU after GPU. */
  function Flatten(l: Layout): seq<int> {
    if l == [] then [] else l[0].layers + Flatten(l[1..])
  }

  /** The loop of GPULayersList.Sum. */
  method SumOf(l: Layout) returns (sum: nat)
    ensures sum == Sum(l) && sum == |Flatten(l)|
  {
    sum := 0;
    for i := 0 to |l|
      invariant sum + Sum(l[i..]) == Sum(l)
    {
      assert l[i..][1..] == l[i + 1..];
      sum := sum + |l[i].layers|;
    }
    SumFlatten(l);
  }

  lemma {:induction false} SumFlatten(l: Layout)
    ensures Sum(l) == |Flatten(l)|
  {
    if l != [] {
      SumFlatten(l[1..]);
    }
  }

  lemma {:induction false} FlattenAppend(a: Layout, b: Layout)
    ensures Flatten(a + b) == Flatten(a) + Flatten(b)
  {
    if a == [] {
      assert a + b == b;
    } else {
      assert (a + b)[1..] == a[1..] + b;
      FlattenAppend(a[1..], b);
    }
  }

  /** The indices from a up to b. */
  function Range(a: int, b: int): (r: seq<int>)
    requires a <= b
    ensures |r| == b - a && forall i :: 0 <= i < |r| ==> r[i] == a + i
  {
    seq(b - a, i => a + i)
  }

  lemma RangeJoin(a: int, b: int, c: int)
    requires a <= b <= c
    ensures Range(a, b) + Range(b, c) == Range(a, c)
  {
  }

  // ---------- Blocks of layers ----------

  /** The size of layers a up to b. */
  function Size(sizes: seq<nat>, a: int, b: int): nat
    requires 0 <= a <= b <= |sizes|
    decreases b - a
  {
    if a == b then 0 else Size(sizes, a, b - 1) + sizes[b - 1]
  }

  lemma {:induction false} SizeShrinks(sizes: seq<nat>, a: int, a': int, b': int, b: int)
    requires 0 <= a <= a' <= b' <= b <= |sizes|
    ensures Size(sizes, a', b') <= Size(sizes, a, b)
    decreases b - a
  {
    if b' < b {
      SizeShrinks(sizes, a, a', b', b - 1);
    } else if a' < b {
      SizeShrinks(sizes, a, a', b - 1, b - 1);
    }
  }

  /** How far down from layer n one GPU's space reaches, but not below lo. */
  function Fill(sizes: seq<nat>, n: int, free: int, lo: int): (r: int)
    requires 0 <= lo <= n <= |sizes| && 0 <= free
    ensures lo <= r <= n && Size(sizes, r, n) <= free
    decreases n
  {
    if n > lo && sizes[n - 1] <= free then Fill(sizes, n - 1, free - sizes[n - 1], lo) else n
  }

  /** A block that fits, ending no lower, is filled at least as far down. */
  lemma {:induction false} FillReaches(sizes: seq<nat>, n: int, free: int, lo: int, a: int, b: int)
    requires 0 <= lo <= n <= |sizes| && 0 <= free && lo <= a <= b <= |sizes| && n <= b
    requires Size(sizes, a, b) <= free
    ensures Fill(sizes, n, free, lo) <= a
    decreases n
  {
    if n > a {
      SizeShrinks(sizes, a, a, n, b);
      FillReaches(sizes, n - 1, free - sizes[n - 1], lo, a, n - 1);
    }
  }

  /** Where GPU g's block starts when GPUs g.. have been filled from the last layer down. */
  function CutAt(sizes: seq<nat>, caps: seq<nat>, lo: int, g: int): (r: int)
    requires 0 <= lo <= |sizes| && 0 <= g <= |caps|
    ensures lo <= r <= |sizes|
    decreases |caps| - g
  {
    if g == |caps| then |sizes| else Fill(sizes, CutAt(sizes, caps, lo, g + 1), caps[g], lo)
  }

  /** cuts is an in-order assignment of one block of layers per GPU within the capacities, not below lo. */
  ghost predicate Fits(sizes: seq<nat>, caps: seq<nat>, lo: int, cuts: seq<int>) {
    && |cuts| == |caps| + 1 && cuts[|caps|] == |sizes|
    && (forall g :: 0 <= g < |cuts| ==> 0 <= lo <= cuts[g] <= |sizes|)
    && (forall g :: 0 <= g < |caps| ==> Block(sizes, caps, cuts, g))
  }

  ghost predicate Block(sizes: seq<nat>, caps: seq<nat>, cuts: seq<int>, g: int)
    requires 0 <= g < |caps| && |cuts| == |caps| + 1
  {
    0 <= cuts[g] <= cuts[g + 1] <= |sizes| && Size(sizes, cuts[g], cuts[g + 1]) <= caps[g]
  }

  ghost function GreedyCuts(sizes: seq<nat>, caps: seq<nat>, lo: int): (cuts: seq<int>)
    requires 0 <= lo <= |sizes|
    ensures Fits(sizes, caps, lo, cuts)
    ensures forall g :: 0 <= g < |cuts| ==> cuts[g] == CutAt(sizes, caps, lo, g)
  {
    seq(|caps| + 1, g requires 0 <= g <= |caps| => CutAt(sizes, caps, lo, g))
  }

  /** Greedy stays ahead: no assignment reaches lower with any set of the last GPUs. */
  lemma {:induction false} GreedyAhead(sizes: seq<nat>, caps: seq<nat>, lo: int, cuts: seq<int>, g: int)
    requires 0 <= lo <= |sizes| && Fits(sizes, caps, lo, cuts) && 0 <= g <= |caps|
    ensures CutAt(sizes, caps, lo, g) <= cuts[g]
    decreases |caps| - g
  {
    if g < |caps| {
      GreedyAhead(sizes, caps, lo, cuts, g + 1);
      assert Block(sizes, caps, cuts, g);
      FillReaches(sizes, CutAt(sizes, caps, lo, g + 1), caps[g], lo, cuts[g], cuts[g + 1]);
    }
  }

  /** The number of layers placed. */
  function Count(sizes: seq<nat>, caps: seq<nat>, lo: int): int
    requires 0 <= lo <= |sizes|
  {
    |sizes| - CutAt(sizes, caps, lo, 0)
  }

  /** No in-order, one-block-per-GPU assignment places more layers than greedy. */
  lemma GreedyOptimal(sizes: seq<nat>, caps: seq<nat>, lo: int, cuts: seq<int>)
    requires 0 <= lo <= |sizes| && Fits(sizes, caps, lo, cuts)
    ensures |sizes| - cuts[0] <= Count(sizes, caps, lo)
  {
    GreedyAhead(sizes, caps, lo, cuts, 0);
  }

  /** More space never places fewer layers. */
  lemma CountMonotone(sizes: seq<nat>, caps: seq<nat>, caps': seq<nat>, lo: int)
    requires 0 <= lo <= |sizes| && |caps| == |caps'| && forall g :: 0 <= g < |caps| ==> caps[g] <= caps'[g]
    ensures Count(sizes, caps, lo) <= Count(sizes, caps', lo)
  {
    var cuts := GreedyCuts(sizes, caps, lo);
    forall g | 0 <= g < |caps'| ensures Block(sizes, caps', cuts, g) {
      assert Block(sizes, caps, cuts, g);
    }
    GreedyOptimal(sizes, caps', lo, cuts);
  }

  // ---------- greedyFit ----------

  /** The space a GPU offers at a capacity factor. */
  function Space(d: Device, capacity: real): nat
    requires capacity >= 0.0
  {
    (d.free as real * capacity).Floor
  }

  function Caps(gpus: seq<Device>, capacity: real): (caps: seq<nat>)
    requires capacity >= 0.0
    ensures |caps| == |gpus| && forall g :: 0 <= g < |gpus| ==> caps[g] == Space(gpus[g], capacity)
  {
    seq(|gpus|, g requires 0 <= g < |gpus| => Space(gpus[g], capacity))
  }

  /** The lowest layer a request allows. */
  function LowestLayer(n: int, requested: int): (lo: int)
    requires n >= 0
    ensures 0 <= lo <= n
  {
    if requested < 0 then 0 else if requested >= n then 0 else n - requested
  }

  /** The blocks of GPUs d.. */
  function Blocks(sizes: seq<nat>, gpus: seq<Device>, caps: seq<nat>, lo: int, d: int): (l: Layout)
    requires 0 <= lo <= |sizes| && |caps| == |gpus| && 0 <= d <= |gpus|
    decreases |gpus| - d
  {
    if d == |gpus| then []
    else [BlockOf(sizes, gpus, caps, lo, d)] + Blocks(sizes, gpus, caps, lo, d + 1)
  }

  function BlockOf(sizes: seq<nat>, gpus: seq<Device>, caps: seq<nat>, lo: int, g: int): GpuLayers
    requires 0 <= lo <= |sizes| && |caps| == |gpus| && 0 <= g < |gpus|
  {
    GpuLayers(gpus[g].id, Range(CutAt(sizes, caps, lo, g), CutAt(sizes, caps, lo, g + 1)))
  }

  lemma {:induction false} BlocksFlatten(sizes: seq<nat>, gpus: seq<Device>, caps: seq<nat>, lo: int, d: int)
    requires 0 <= lo <= |sizes| && |caps| == |gpus| && 0 <= d <= |gpus|
    ensures Flatten(Blocks(sizes, gpus, caps, lo, d)) == Range(CutAt(sizes, caps, lo, d), |sizes|)
    decreases |gpus| - d
  {
    if d < |gpus| {
      BlocksFlatten(sizes, gpus, caps, lo, d + 1);
      var l := Blocks(sizes, gpus, caps, lo, d);
      assert l[1..] == Blocks(sizes, gpus, caps, lo, d + 1);
      RangeJoin(CutAt(sizes, caps, lo, d), CutAt(sizes, caps, lo, d + 1), |sizes|);
    }
  }

  lemma {:induction false} NothingBelow(sizes: seq<nat>, caps: seq<nat>, lo: int, d: int)
    requires 0 <= lo <= |sizes| && 0 <= d <= |caps| && CutAt(sizes, caps, lo, d) == lo
    ensures CutAt(sizes, caps, lo, 0) == lo
  {
    if d > 0 {
      NothingBelow(sizes, caps, lo, d - 1);
    }
  }

  /** The state of greedyFit: GPU d is being filled and holds layers n up to the start of GPU d+1's block. */
  ghost predicate Filling(sizes: seq<nat>, gpus: seq<Device>, caps: seq<nat>, lo: int, l: Layout, d: int, n: int,
                          free: int) {
    && 0 <= lo <= n <= |sizes| && |caps| == |gpus| && 0 <= d < |gpus| && 0 <= free
    && n <= CutAt(sizes, caps, lo, d + 1)
    && l == [GpuLayers(gpus[d].id, Range(n, CutAt(sizes, caps, lo, d + 1)))] + Blocks(sizes, gpus, caps, lo, d + 1)
    && Fill(sizes, n, free, lo) == CutAt(sizes, caps, lo, d)
  }

  lemma FillingStart(sizes: seq<nat>, gpus: seq<Device>, caps: seq<nat>, lo: int, d: int)
    requires 0 <= lo <= |sizes| && |caps| == |gpus| && 0 <= d < |gpus|
    ensures Filling(sizes, gpus, caps, lo, [GpuLayers(gpus[d].id, [])] + Blocks(sizes, gpus, caps, lo, d + 1), d,
                    CutAt(sizes, caps, lo, d + 1), caps[d])
  {
    var n := CutAt(sizes, caps, lo, d + 1);
    assert Range(n, n) == [];
  }

  lemma FillingFirst(sizes: seq<nat>, gpus: seq<Device>, caps: seq<nat>, lo: int)
    requires 0 <= lo <= |sizes| && |caps| == |gpus| && gpus != []
    ensures var d := |gpus| - 1; Filling(sizes, gpus, caps, lo, [GpuLayers(gpus[d].id, [])], d, |sizes|, caps[d])
  {
    var d := |gpus| - 1;
    FillingStart(sizes, gpus, caps, lo, d);
    assert [GpuLayers(gpus[d].id, [])] + [] == [GpuLayers(gpus[d].id, [])];
  }

  lemma BlocksSum(sizes: seq<nat>, gpus: seq<Device>, caps: seq<nat>, lo: int, d: int)
    requires 0 <= lo <= |sizes| && |caps| == |gpus| && 0 <= d <= |gpus|
    requires CutAt(sizes, caps, lo, d) == CutAt(sizes, caps, lo, 0)
    ensures Sum(Blocks(sizes, gpus, caps, lo, d)) == Count(sizes, caps, lo)
  {
    BlocksFlatten(sizes, gpus, caps, lo, d);
    SumFlatten(Blocks(sizes, gpus, caps, lo, d));
  }

  lemma FillingTake(sizes: seq<nat>, gpus: seq<Device>, caps: seq<nat>, lo: int, l: Layout, d: int, n: int, free: int)
    requires Filling(sizes, gpus, caps, lo, l, d, n, free) && lo < n && sizes[n - 1] <= free
    ensures Filling(sizes, gpus, caps, lo, [GpuLayers(l[0].device, [n - 1] + l[0].layers)] + l[1..], d, n - 1,
                    free - sizes[n - 1])
  {
    var c := CutAt(sizes, caps, lo, d + 1);
    assert [n - 1] + Range(n, c) == Range(n - 1, c);
    assert l[1..] == Blocks(sizes, gpus, caps, lo, d + 1);
  }

  /** When GPU d takes no more, its block is complete. */
  lemma FillingDone(sizes: seq<nat>, gpus: seq<Device>, caps: seq<nat>, lo: int, l: Layout, d: int, n: int, free: int)
    requires Filling(sizes, gpus, caps, lo, l, d, n, free) && (n == lo || sizes[n - 1] > free)
    ensures n == CutAt(sizes, caps, lo, d) && l == Blocks(sizes, gpus, caps, lo, d)
  {
  }

  /** Assign layers from the last one down, moving to the previous GPU as each runs out of space. */
  method GreedyFit(sizes: seq<nat>, gpus: seq<Device>, capacity: real, requested: int) returns (l: Layout, ghost d: int)
    requires gpus != [] && capacity >= 0.0
    ensures 0 <= d < |gpus|
    ensures var caps, lo := Caps(gpus, capacity), LowestLayer(|sizes|, requested);
            l == Blocks(sizes, gpus, caps, lo, d) && CutAt(sizes, caps, lo, d) == CutAt(sizes, caps, lo, 0)
    ensures Sum(l) == Count(sizes, Caps(gpus, capacity), LowestLayer(|sizes|, requested))
  {
    hide Blocks, Fill, Sum, CutAt;
    ghost var caps, lo := Caps(gpus, capacity), LowestLayer(|sizes|, requested);
    var device := |gpus| - 1;
    l := [GpuLayers(gpus[device].id, [])];
    var free := Space(gpus[device], capacity);
    FillingFirst(sizes, gpus, caps, lo);
    var i := |sizes| - 1;
    while i >= 0
      invariant -1 <= i < |sizes|
      invariant Filling(sizes, gpus, caps, lo, l, device, i + 1, free)
    {
      if requested >= 0 && |sizes| - 1 - i >= requested {
        break;
      }
      while sizes[i] > free
        invariant -1 < i < |sizes| && lo < i + 1
        invariant Filling(sizes, gpus, caps, lo, l, device, i + 1, free)
        decreases device
      {
        FillingDone(sizes, gpus, caps, lo, l, device, i + 1, free);
        device := device - 1;
        if device < 0 {
          BlocksSum(sizes, gpus, caps, lo, 0);
          return l, 0;
        }
        l := [GpuLayers(gpus[device].id, [])] + l;
        free := Space(gpus[device], capacity);
        FillingStart(sizes, gpus, caps, lo, device);
      }
      FillingTake(sizes, gpus, caps, lo, l, device, i + 1, free);
      l := [GpuLayers(l[0].device, [i] + l[0].layers)] + l[1..];
      free := free - sizes[i];
      i := i - 1;
    }
    assert i + 1 == lo;
    FillingDone(sizes, gpus, caps, lo, l, device, i + 1, free);
    NothingBelow(sizes, caps, lo, device);
    BlocksSum(sizes, gpus, caps, lo, device);
    d := device;
  }
}
