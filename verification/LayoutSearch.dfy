/** Choosing a layout of layers over all GPUs (llm/server.go, ml/device.go): groups of GPUs, the search for the
    smallest sufficient capacity factor, and the choice of how many GPUs to use. */
module LayoutSearch {
  import opened GreedyFits

  // ---------- Grouping devices ----------

  function Filter<K(==)>(l: seq<Device>, key: Device -> K, k: K): (r: seq<Device>)
    ensures forall d :: d in r <==> d in l && key(d) == k
  {
    if l == [] then []
    else Filter(l[..|l| - 1], key, k) + if key(l[|l| - 1]) == k then [l[|l| - 1]] else []
  }

  /** The keys of the devices, in order of first appearance. */
  function Keys<K(==)>(l: seq<Device>, key: Device -> K): (keys: seq<K>)
    ensures forall i, j :: 0 <= i < j < |keys| ==> keys[i] != keys[j]
    ensures forall d :: d in l ==> key(d) in keys
    ensures if l == [] then keys == [] else keys != [] && keys[0] == key(l[0])
  {
    if l == [] then []
    else
      var n := |l| - 1;
      var keys := Keys(l[..n], key);
      if key(l[n]) in keys then keys else keys + [key(l[n])]
  }

  lemma KeysNext<K>(l: seq<Device>, key: Device -> K, n: int)
    requires 0 <= n < |l|
    ensures var keys := Keys(l[..n], key);
            Keys(l[..n + 1], key) == if key(l[n]) in keys then keys else keys + [key(l[n])]
  {
    assert l[..n + 1][..n] == l[..n];
  }

  /** The groups are the devices of each key in order, the keys in order of first appearance. */
  ghost predicate Grouped<K>(l: seq<Device>, key: Device -> K, keys: seq<K>, groups: seq<seq<Device>>) {
    && keys == Keys(l, key) && |keys| == |groups|
    && (forall i :: 0 <= i < |keys| ==> groups[i] != [] && groups[i] == Filter(l, key, keys[i]))
  }

  lemma FilterSnoc<K>(l: seq<Device>, key: Device -> K, n: int, k: K)
    requires 0 <= n < |l|
    ensures Filter(l[..n + 1], key, k) == Filter(l[..n], key, k) + if key(l[n]) == k then [l[n]] else []
  {
    assert l[..n + 1][..n] == l[..n];
  }

  lemma FilterNone<K>(l: seq<Device>, key: Device -> K, k: K, keys: seq<K>)
    requires k !in keys && forall d :: d in l ==> key(d) in keys
    ensures Filter(l, key, k) == []
  {
    if l != [] {
      assert l[|l| - 1] in l;
      FilterNone(l[..|l| - 1], key, k, keys);
    }
  }

  lemma GroupJoins<K>(l: seq<Device>, n: int, key: Device -> K, keys: seq<K>, groups: seq<seq<Device>>, i: int)
    requires 0 <= n < |l| && Grouped(l[..n], key, keys, groups) && 0 <= i < |keys| && keys[i] == key(l[n])
    ensures Grouped(l[..n + 1], key, keys, groups[i := groups[i] + [l[n]]])
  {
    hide Filter, Keys;
    KeysNext(l, key, n);
    var groups' := groups[i := groups[i] + [l[n]]];
    forall j | 0 <= j < |keys| ensures groups'[j] == Filter(l[..n + 1], key, keys[j]) {
      FilterSnoc(l, key, n, keys[j]);
    }
  }

  lemma GroupStarts<K>(l: seq<Device>, n: int, key: Device -> K, keys: seq<K>, groups: seq<seq<Device>>)
    requires 0 <= n < |l| && Grouped(l[..n], key, keys, groups) && key(l[n]) !in keys
    ensures Grouped(l[..n + 1], key, keys + [key(l[n])], groups + [[l[n]]])
  {
    hide Filter, Keys;
    KeysNext(l, key, n);
    var keys', groups' := keys + [key(l[n])], groups + [[l[n]]];
    forall j | 0 <= j < |keys'| ensures groups'[j] == Filter(l[..n + 1], key, keys'[j]) {
      FilterSnoc(l, key, n, keys'[j]);
      FilterNone(l[..n], key, key(l[n]), keys);
    }
  }

  /** The loop of ByPerformance and of ByLibrary, which differ in the key. */
  method GroupBy<K(==)>(l: seq<Device>, key: Device -> K) returns (groups: seq<seq<Device>>)
    ensures Grouped(l, key, Keys(l, key), groups)
  {
    hide Filter, Keys;
    groups := [];
    var keys: seq<K> := [];
    assert Keys(l[..0], key) == [];
    for n := 0 to |l|
      invariant Grouped(l[..n], key, keys, groups)
    {
      var i := 0;
      while i < |keys| && keys[i] != key(l[n])
        invariant 0 <= i <= |keys|
        invariant forall j :: 0 <= j < i ==> keys[j] != key(l[n])
      {
        i := i + 1;
      }
      if i < |keys| {
        GroupJoins(l, n, key, keys, groups, i);
        groups := groups[i := groups[i] + [l[n]]];
      } else {
        GroupStarts(l, n, key, keys, groups);
        keys, groups := keys + [key(l[n])], groups + [[l[n]]];
      }
    }
    assert l[..|l|] == l;
  }

  // ---------- Sizes of the blocks of a layout ----------

  function SizeOf(sizes: seq<nat>, layers: seq<int>): nat {
    if layers == [] then 0
    else SizeOf(sizes, layers[..|layers| - 1])
         + if 0 <= layers[|layers| - 1] < |sizes| then sizes[layers[|layers| - 1]] else 0
  }

  lemma {:induction false} SizeOfRange(sizes: seq<nat>, a: int, b: int)
    requires 0 <= a <= b <= |sizes|
    ensures SizeOf(sizes, Range(a, b)) == Size(sizes, a, b)
    decreases b - a
  {
    if a < b {
      assert Range(a, b)[..b - a - 1] == Range(a, b - 1);
      SizeOfRange(sizes, a, b - 1);
    }
  }

  /** The entry goes to one of the GPUs and fits in its space at the given factor. */
  ghost predicate EntryFits(sizes: seq<nat>, e: GpuLayers, gpus: seq<Device>, factor: real)
    requires factor >= 0.0
  {
    exists d :: d in gpus && d.id == e.device && SizeOf(sizes, e.layers) <= Space(d, factor)
  }

  ghost predicate AllFit(sizes: seq<nat>, l: Layout, gpus: seq<Device>, factor: real)
    requires factor >= 0.0
  {
    forall k :: 0 <= k < |l| ==> EntryFits(sizes, l[k], gpus, factor)
  }

  lemma SpaceMonotone(d: Device, c: real, c': real)
    requires 0.0 <= c <= c'
    ensures Space(d, c) <= Space(d, c')
  {
    var f := d.free as real;
    assert f * (c' - c) >= 0.0;
    assert f * c <= f * c';
  }

  lemma {:induction false} BlocksFit(sizes: seq<nat>, gpus: seq<Device>, c: real, factor: real, lo: int, d: int)
    requires 0 <= lo <= |sizes| && 0.0 <= c <= factor && 0 <= d <= |gpus|
    ensures AllFit(sizes, Blocks(sizes, gpus, Caps(gpus, c), lo, d), gpus, factor)
    decreases |gpus| - d
  {
    if d < |gpus| {
      BlocksFit(sizes, gpus, c, factor, lo, d + 1);
      var caps := Caps(gpus, c);
      var a, b := CutAt(sizes, caps, lo, d), CutAt(sizes, caps, lo, d + 1);
      SizeOfRange(sizes, a, b);
      SpaceMonotone(gpus[d], c, factor);
      assert gpus[d] in gpus && EntryFits(sizes, BlockOf(sizes, gpus, caps, lo, d), gpus, factor);
    }
  }

  // ---------- The binary search for one group ----------

  /** How many layers the group takes at a factor. */
  function CountAt(sizes: seq<nat>, gpus: seq<Device>, c: real, requested: int): int
    requires c >= 0.0
  {
    Count(sizes, Caps(gpus, c), LowestLayer(|sizes|, requested))
  }

  lemma CountAtMonotone(sizes: seq<nat>, gpus: seq<Device>, c: real, c': real, requested: int)
    requires 0.0 <= c <= c'
    ensures CountAt(sizes, gpus, c, requested) <= CountAt(sizes, gpus, c', requested)
  {
    forall g | 0 <= g < |gpus| ensures Caps(gpus, c)[g] <= Caps(gpus, c')[g] {
      SpaceMonotone(gpus[g], c, c');
    }
    CountMonotone(sizes, Caps(gpus, c), Caps(gpus, c'), LowestLayer(|sizes|, requested));
  }

  const PRECISION := 0.000001

  function Pow2(n: nat): real { if n == 0 then 1.0 else 2.0 * Pow2(n - 1) }

  lemma EnoughHalvings()
    ensures PRECISION * Pow2(30) >= 1000.0
  {
    assert Pow2(10) == 1024.0 by { assert Pow2(5) == 32.0; }
    assert Pow2(20) == 1048576.0 by { assert Pow2(15) == 32768.0; }
    assert Pow2(30) == 1073741824.0 by { assert Pow2(25) == 33554432.0; }
  }

  /** The layout is the greedy one at factor c, seen from its first used GPU. */
  ghost predicate GreedyAt(sizes: seq<nat>, gpus: seq<Device>, c: real, requested: int, l: Layout)
    requires c >= 0.0
  {
    var caps, lo := Caps(gpus, c), LowestLayer(|sizes|, requested);
    exists d :: 0 <= d < |gpus| && l == Blocks(sizes, gpus, caps, lo, d)
      && CutAt(sizes, caps, lo, d) == CutAt(sizes, caps, lo, 0)
  }

  /** The greedy layout at a factor within the precision of the smallest that places as many layers as the largest. */
  ghost predicate NearSmallest(sizes: seq<nat>, gpus: seq<Device>, top: real, requested: int, l: Layout)
    requires top >= 0.0
  {
    exists c {:trigger GreedyAt(sizes, gpus, c, requested, l)} ::
      0.0 <= c <= top && GreedyAt(sizes, gpus, c, requested, l) && Sum(l) == CountAt(sizes, gpus, top, requested)
      && forall c' :: 0.0 <= c' <= top && CountAt(sizes, gpus, c', requested) == Sum(l) ==> c' >= c - 0.000001
  }

  /** Keeps the count of the largest factor and ends within the precision of the smallest factor with that count. */
  method SearchFactor(sizes: seq<nat>, gpus: seq<Device>, top: real, requested: int)
    returns (best: Layout, ghost c: real)
    requires gpus != [] && 0.0 <= top <= 1000.0
    ensures 0.0 <= c <= top && GreedyAt(sizes, gpus, c, requested, best)
    ensures Sum(best) == CountAt(sizes, gpus, top, requested)
    ensures Sum(best) == CountAt(sizes, gpus, c, requested)
    ensures forall c' :: 0.0 <= c' <= top && CountAt(sizes, gpus, c', requested) == Sum(best) ==> c' >= c - 0.000001
    ensures NearSmallest(sizes, gpus, top, requested, best)
  {
    hide Count;
    var high, low := top, 0.0;
    ghost var d;
    best, d := GreedyFit(sizes, gpus, high, requested);
    var most := Sum(best);
    ghost var steps: nat := 30;
    EnoughHalvings();
    while high - low > PRECISION
      invariant 0.0 <= low <= high <= top
      invariant high - low <= PRECISION * Pow2(steps)
      invariant GreedyAt(sizes, gpus, high, requested, best) && Sum(best) == most
      invariant CountAt(sizes, gpus, high, requested) == most == CountAt(sizes, gpus, top, requested)
      invariant low > 0.0 ==> CountAt(sizes, gpus, low, requested) != most
      decreases steps
    {
      assert steps > 0 && PRECISION * Pow2(steps) == 2.0 * (PRECISION * Pow2(steps - 1));
      var mid := (low + high) / 2.0;
      var l;
      l, d := GreedyFit(sizes, gpus, mid, requested);
      if Sum(l) == most {
        high, best := mid, l;
      } else {
        low := mid;
      }
      steps := steps - 1;
    }
    c := high;
    forall c' | 0.0 <= c' <= top && CountAt(sizes, gpus, c', requested) == most ensures c' >= c - PRECISION {
      if c' <= low && low > 0.0 {
        CountAtMonotone(sizes, gpus, c', low, requested);
        CountAtMonotone(sizes, gpus, low, top, requested);
      }
    }
  }

  // ---------- findBestFit ----------

  predicate IsIntegrated(d: Device) { d.integrated }

  /** The GPUs as fast as the first one, then the others. */
  function PerformanceGroups(gpus: seq<Device>): seq<seq<Device>> {
    if gpus == [] then []
    else
      var fast := Filter(gpus, IsIntegrated, gpus[0].integrated);
      var slow := Filter(gpus, IsIntegrated, !gpus[0].integrated);
      if slow == [] then [fast] else [fast, slow]
  }

  lemma TwoEqual(keys: seq<bool>)
    requires |keys| > 2
    ensures exists i, j :: 0 <= i < j < |keys| && keys[i] == keys[j]
  {
    assert keys[0] == keys[1] || keys[1] == keys[2] || keys[0] == keys[2];
  }

  lemma GroupedByPerformance(gpus: seq<Device>, keys: seq<bool>, groups: seq<seq<Device>>)
    requires Grouped(gpus, IsIntegrated, keys, groups)
    ensures groups == PerformanceGroups(gpus)
  {
    hide Filter, Keys;
    if gpus != [] {
      if |keys| > 2 {
        TwoEqual(keys);
      }
      var slow := Filter(gpus, IsIntegrated, !keys[0]);
      assert IsIntegrated(gpus[0]) == keys[0] && groups[0] == Filter(gpus, IsIntegrated, keys[0]);
      if |keys| == 1 {
        FilterNone(gpus, IsIntegrated, !keys[0], keys);
        assert groups == [groups[0]];
      } else {
        assert keys[0] != keys[1] && groups[1] == slow && groups == [groups[0], slow];
      }
    }
  }

  /** How many layers the groups take, each the most it can of those the groups before it left. */
  function GroupsCount(sizes: seq<nat>, groups: seq<seq<Device>>, requested: int, top: real): (n: int)
    requires top >= 0.0
    ensures 0 <= n <= |sizes|
  {
    if groups == [] then 0
    else
      var k := |groups| - 1;
      var before := GroupsCount(sizes, groups[..k], requested, top);
      before + CountAt(sizes[..|sizes| - before], groups[k], top, requested - before)
  }

  function FitCount(sizes: seq<nat>, gpus: seq<Device>, requested: int, force: bool): (n: int)
    ensures 0 <= n <= |sizes|
  {
    GroupsCount(sizes, PerformanceGroups(gpus), requested, Top(requested, force))
  }

  /** The layers of the layout are exactly those from some layer up to n, in ascending order. */
  ghost predicate Suffix(l: Layout, n: int) {
    exists s :: 0 <= s <= n && Flatten(l) == Range(s, n)
  }

  lemma AllFitAppend(sizes: seq<nat>, a: Layout, b: Layout, gpus: seq<Device>, factor: real)
    requires factor >= 0.0 && AllFit(sizes, a, gpus, factor) && AllFit(sizes, b, gpus, factor)
    ensures AllFit(sizes, a + b, gpus, factor)
  {
  }

  /** A layout of the first layers of a model fits the whole model the same way. */
  lemma {:induction false} SizeOfPrefix(sizes: seq<nat>, n: int, layers: seq<int>)
    requires 0 <= n <= |sizes| && forall k :: 0 <= k < |layers| ==> 0 <= layers[k] < n
    ensures SizeOf(sizes[..n], layers) == SizeOf(sizes, layers)
  {
    if layers != [] {
      SizeOfPrefix(sizes, n, layers[..|layers| - 1]);
    }
  }

  lemma {:induction false} FlattenMember(l: Layout, k: int, i: int)
    requires 0 <= k < |l| && 0 <= i < |l[k].layers|
    ensures l[k].layers[i] in Flatten(l)
  {
    if k > 0 {
      FlattenMember(l[1..], k - 1, i);
    } else {
      assert Flatten(l)[i] == l[0].layers[i];
    }
  }

  lemma AllFitPrefix(sizes: seq<nat>, n: int, l: Layout, gpus: seq<Device>, factor: real)
    requires 0 <= n <= |sizes| && factor >= 0.0 && AllFit(sizes[..n], l, gpus, factor) && Suffix(l, n)
    ensures AllFit(sizes, l, gpus, factor)
  {
    forall k | 0 <= k < |l| ensures EntryFits(sizes, l[k], gpus, factor) {
      forall i | 0 <= i < |l[k].layers| ensures 0 <= l[k].layers[i] < n {
        FlattenMember(l, k, i);
      }
      SizeOfPrefix(sizes, n, l[k].layers);
      assert EntryFits(sizes[..n], l[k], gpus, factor);
    }
  }

  lemma AllFitMore(sizes: seq<nat>, l: Layout, some: seq<Device>, gpus: seq<Device>, c: real, factor: real)
    requires 0.0 <= c <= factor && AllFit(sizes, l, some, c) && forall d :: d in some ==> d in gpus
    ensures AllFit(sizes, l, gpus, factor)
  {
    forall k | 0 <= k < |l| ensures EntryFits(sizes, l[k], gpus, factor) {
      assert EntryFits(sizes, l[k], some, c);
      var d :| d in some && d.id == l[k].device && SizeOf(sizes, l[k].layers) <= Space(d, c);
      SpaceMonotone(d, c, factor);
    }
  }

  lemma GreedyAtFits(sizes: seq<nat>, gpus: seq<Device>, c: real, top: real, requested: int, l: Layout)
    requires 0.0 <= c <= top && GreedyAt(sizes, gpus, c, requested, l)
    ensures AllFit(sizes, l, gpus, top)
    ensures Sum(l) <= |sizes| && Flatten(l) == Range(|sizes| - Sum(l), |sizes|)
    ensures requested >= 0 ==> Sum(l) <= requested
  {
    hide Flatten, Sum, Blocks, CutAt, SizeOf;
    var caps, lo := Caps(gpus, c), LowestLayer(|sizes|, requested);
    var d :| 0 <= d < |gpus| && l == Blocks(sizes, gpus, caps, lo, d)
      && CutAt(sizes, caps, lo, d) == CutAt(sizes, caps, lo, 0);
    BlocksFit(sizes, gpus, c, top, lo, d);
    BlocksFlatten(sizes, gpus, caps, lo, d);
    SumFlatten(l);
  }

  /** The largest capacity factor: almost unlimited when a request must be met. */
  function Top(requested: int, force: bool): real { if requested >= 0 && force then 1000.0 else 1.0 }

  /** What findBestFit promises: one contiguous suffix of the layers, each listed once in ascending order, no
      more than requested, every block within its GPU's space. */
  ghost predicate GoodFit(sizes: seq<nat>, gpus: seq<Device>, requested: int, force: bool, l: Layout) {
    && Flatten(l) == Range(|sizes| - |Flatten(l)|, |sizes|) && |Flatten(l)| <= |sizes|
    && (requested >= 0 ==> |Flatten(l)| <= requested)
    && AllFit(sizes, l, gpus, Top(requested, force))
  }

  lemma FitMore(sizes: seq<nat>, gpus: seq<Device>, requested: int, force: bool, l: Layout, n: int, group: seq<Device>,
                best: Layout, c: real)
    requires GoodFit(sizes, gpus, requested, force, l) && n == |sizes| - |Flatten(l)|
    requires forall d :: d in group ==> d in gpus
    requires 0.0 <= c <= Top(requested, force) && GreedyAt(sizes[..n], group, c, requested - |Flatten(l)|, best)
    ensures GoodFit(sizes, gpus, requested, force, best + l)
    ensures |Flatten(best + l)| == Sum(best) + |Flatten(l)|
  {
    hide Flatten, Sum, SizeOf, CutAt, Blocks;
    GreedyAtFits(sizes[..n], group, c, c, requested - |Flatten(l)|, best);
    SumFlatten(best);
    FlattenAppend(best, l);
    RangeJoin(n - Sum(best), n, |sizes|);
    assert 0 <= n - Sum(best) <= n && Flatten(best) == Range(n - Sum(best), n);
    AllFitPrefix(sizes, n, best, group, c);
    AllFitMore(sizes, best, group, gpus, c, Top(requested, force));
    AllFitAppend(sizes, best, l, gpus, Top(requested, force));
  }

  lemma NothingFits(sizes: seq<nat>, gpus: seq<Device>, requested: int, force: bool)
    ensures Flatten([]) == [] && GoodFit(sizes, gpus, requested, force, [])
  {
  }

  // ---------- No device is listed twice ----------

  ghost predicate DistinctIds(gpus: seq<Device>) {
    forall i, j :: 0 <= i < j < |gpus| ==> gpus[i].id != gpus[j].id
  }

  ghost predicate DistinctDevices(l: Layout) {
    forall i, j :: 0 <= i < j < |l| ==> l[i].device != l[j].device
  }

  /** The device is a GPU with key k. */
  ghost predicate HasKey<K>(device: DeviceId, gpus: seq<Device>, key: Device -> K, k: K) {
    exists d :: d in gpus && d.id == device && key(d) == k
  }

  /** Every entry goes to a GPU with one of the keys. */
  ghost predicate Uses<K>(l: Layout, gpus: seq<Device>, key: Device -> K, keys: seq<K>) {
    forall e :: e in l ==> exists k :: k in keys && HasKey(e.device, gpus, key, k)
  }

  lemma OneKey<K>(device: DeviceId, gpus: seq<Device>, key: Device -> K, k: K, k': K)
    requires DistinctIds(gpus) && HasKey(device, gpus, key, k) && HasKey(device, gpus, key, k')
    ensures k == k'
  {
    var d :| d in gpus && d.id == device && key(d) == k;
    var d' :| d' in gpus && d'.id == device && key(d') == k';
    var m, m' :| 0 <= m < |gpus| && 0 <= m' < |gpus| && gpus[m] == d && gpus[m'] == d';
  }

  lemma {:induction false} FilterDistinct<K>(gpus: seq<Device>, key: Device -> K, k: K)
    requires DistinctIds(gpus)
    ensures DistinctIds(Filter(gpus, key, k))
  {
    if gpus != [] {
      var n := |gpus| - 1;
      FilterDistinct(gpus[..n], key, k);
      assert gpus[n].id !in set d | d in gpus[..n] :: d.id;
      assert forall d :: d in Filter(gpus[..n], key, k) ==> d in gpus[..n];
    }
  }

  lemma {:induction false} BlocksDistinct(sizes: seq<nat>, gpus: seq<Device>, caps: seq<nat>, lo: int, d: int)
    requires 0 <= lo <= |sizes| && |caps| == |gpus| && 0 <= d <= |gpus| && DistinctIds(gpus)
    ensures var l := Blocks(sizes, gpus, caps, lo, d);
            |l| == |gpus| - d && DistinctDevices(l) && forall k :: 0 <= k < |l| ==> l[k].device == gpus[d + k].id
  {
    hide Blocks;
    var l := Blocks(sizes, gpus, caps, lo, d);
    BlocksLength(sizes, gpus, caps, lo, d);
    forall k | 0 <= k < |l| ensures l[k].device == gpus[d + k].id {
      BlocksAt(sizes, gpus, caps, lo, d, k);
    }
  }

  lemma {:induction false} BlocksLength(sizes: seq<nat>, gpus: seq<Device>, caps: seq<nat>, lo: int, d: int)
    requires 0 <= lo <= |sizes| && |caps| == |gpus| && 0 <= d <= |gpus|
    ensures |Blocks(sizes, gpus, caps, lo, d)| == |gpus| - d
    decreases |gpus| - d
  {
    hide CutAt, BlockOf;
    if d < |gpus| {
      BlocksLength(sizes, gpus, caps, lo, d + 1);
    }
  }

  lemma {:induction false} BlocksAt(sizes: seq<nat>, gpus: seq<Device>, caps: seq<nat>, lo: int, d: int, k: int)
    requires 0 <= lo <= |sizes| && |caps| == |gpus| && 0 <= d <= |gpus| && 0 <= k < |gpus| - d
    ensures |Blocks(sizes, gpus, caps, lo, d)| == |gpus| - d
            && Blocks(sizes, gpus, caps, lo, d)[k].device == gpus[d + k].id
    decreases |gpus| - d
  {
    BlocksLength(sizes, gpus, caps, lo, d);
    var rest := Blocks(sizes, gpus, caps, lo, d + 1);
    assert Blocks(sizes, gpus, caps, lo, d) == [BlockOf(sizes, gpus, caps, lo, d)] + rest;
    hide Blocks;
    if k > 0 {
      BlocksAt(sizes, gpus, caps, lo, d + 1, k - 1);
    }
  }

  lemma DistinctMore<K>(sizes: seq<nat>, gpus: seq<Device>, key: Device -> K, keys: seq<K>, k: K, l: Layout, c: real,
                        requested: int, best: Layout)
    requires DistinctIds(gpus) && DistinctDevices(l) && Uses(l, gpus, key, keys) && k !in keys
    requires c >= 0.0 && GreedyAt(sizes, Filter(gpus, key, k), c, requested, best)
    ensures DistinctDevices(best + l) && Uses(best + l, gpus, key, keys + [k])
  {
    hide Filter, Blocks, CutAt;
    var group := Filter(gpus, key, k);
    FilterDistinct(gpus, key, k);
    var caps, lo := Caps(group, c), LowestLayer(|sizes|, requested);
    var first :| 0 <= first < |group| && best == Blocks(sizes, group, caps, lo, first);
    BlocksDistinct(sizes, group, caps, lo, first);
    forall e | e in best ensures HasKey(e.device, gpus, key, k) {
      var i :| 0 <= i < |best| && best[i] == e;
      assert group[first + i] in group;
    }
    forall i, j | 0 <= i < |best| && 0 <= j < |l| ensures best[i].device != l[j].device {
      assert best[i] in best && l[j] in l;
      var k' :| k' in keys && HasKey(l[j].device, gpus, key, k');
      if best[i].device == l[j].device {
        OneKey(best[i].device, gpus, key, k, k');
      }
    }
    UsesMore(gpus, key, keys, k, l, best);
  }

  lemma UsesMore<K>(gpus: seq<Device>, key: Device -> K, keys: seq<K>, k: K, l: Layout, best: Layout)
    requires Uses(l, gpus, key, keys) && forall e :: e in best ==> HasKey(e.device, gpus, key, k)
    ensures Uses(best + l, gpus, key, keys + [k])
  {
    forall e | e in best + l ensures exists k' :: k' in keys + [k] && HasKey(e.device, gpus, key, k') {
      if e in best {
        assert k in keys + [k];
      } else {
        assert e in l;
        var k' :| k' in keys && HasKey(e.device, gpus, key, k');
        assert k' in keys + [k];
      }
    }
  }

  /** Each group in turn, of the layers the groups before it left, has the layout SearchFactor promises. */
  ghost predicate Balanced(sizes: seq<nat>, groups: seq<seq<Device>>, requested: int, top: real, l: Layout)
    requires top >= 0.0
    decreases |groups|
  {
    if groups == [] then l == []
    else
      var k := |groups| - 1;
      exists best, front :: l == best + front && GroupAdds(sizes, groups[k], requested, top, best, front)
                         && Balanced(sizes, groups[..k], requested, top, front)
  }

  ghost predicate GroupAdds(sizes: seq<nat>, group: seq<Device>, requested: int, top: real, best: Layout, front: Layout)
    requires top >= 0.0
  {
    var placed := |Flatten(front)|;
    placed <= |sizes| && NearSmallest(sizes[..|sizes| - placed], group, top, requested - placed, best)
  }

  method FindBestFit(sizes: seq<nat>, gpus: seq<Device>, requested: int, force: bool) returns (l: Layout)
    ensures GoodFit(sizes, gpus, requested, force, l)
    ensures |Flatten(l)| == FitCount(sizes, gpus, requested, force)
    ensures DistinctIds(gpus) ==> DistinctDevices(l)
    ensures Balanced(sizes, PerformanceGroups(gpus), requested, Top(requested, force), l)
  {
    hide Flatten, Sum, SizeOf, GreedyAt, CountAt, Filter, Keys, NearSmallest, Uses, DistinctIds, DistinctDevices;
    hide AllFit, Balanced;
    l := [];
    NothingUsed(gpus, sizes, requested, Top(requested, force));
    NothingFits(sizes, gpus, requested, force);
    var groups := GroupBy(gpus, IsIntegrated);
    ghost var keys := Keys(gpus, IsIntegrated);
    GroupedByPerformance(gpus, keys, groups);
    var n, left := |sizes|, requested;
    for g := 0 to |groups|
      invariant GoodFit(sizes, gpus, requested, force, l)
      invariant n == |sizes| - |Flatten(l)| && left == requested - |Flatten(l)|
      invariant |Flatten(l)| == GroupsCount(sizes, groups[..g], requested, Top(requested, force))
      invariant DistinctIds(gpus) ==> DistinctDevices(l) && Uses(l, gpus, IsIntegrated, keys[..g])
      invariant Balanced(sizes, groups[..g], requested, Top(requested, force), l)
    {
      var best;
      ghost var c;
      best, c := SearchFactor(sizes[..n], groups[g], Top(left, force), left);
      assert Top(left, force) == Top(requested, force);
      FitMore(sizes, gpus, requested, force, l, n, groups[g], best, c);
      if DistinctIds(gpus) {
        assert keys[..g + 1] == keys[..g] + [keys[g]];
        DistinctMore(sizes[..n], gpus, IsIntegrated, keys[..g], keys[g], l, c, left, best);
      }
      assert groups[..g + 1][..g] == groups[..g];
      BalancedNext(sizes, groups, g, requested, Top(requested, force), l, best);
      n, left := n - Sum(best), left - Sum(best);
      l := best + l;
    }
    assert groups[..|groups|] == groups;
  }

  lemma NothingUsed(gpus: seq<Device>, sizes: seq<nat>, requested: int, top: real)
    requires top >= 0.0
    ensures DistinctDevices([]) && Uses([], gpus, IsIntegrated, []) && Balanced(sizes, [], requested, top, [])
  {
  }

  lemma BalancedNext(sizes: seq<nat>, groups: seq<seq<Device>>, g: int, requested: int, top: real, front: Layout,
                     best: Layout)
    requires top >= 0.0 && 0 <= g < |groups| && Balanced(sizes, groups[..g], requested, top, front)
    requires GroupAdds(sizes, groups[g], requested, top, best, front)
    ensures Balanced(sizes, groups[..g + 1], requested, top, best + front)
  {
    hide GroupAdds;
    assert groups[..g + 1][..g] == groups[..g];
  }

  // ---------- assignLayers ----------

  /** How many layers a round places that tries the first i + 1 GPUs, then one more, until the request is met. */
  function RoundCount(sizes: seq<nat>, gpus: seq<Device>, requireFull: bool, requested: int, i: int): int
    requires 0 <= i
    decreases |gpus| - i
  {
    if i >= |gpus| then 0
    else
      var c := FitCount(sizes, gpus[..i + 1], requested, i == |gpus| - 1 && !requireFull);
      if c == |sizes| || c == requested || i == |gpus| - 1 then c
      else RoundCount(sizes, gpus, requireFull, requested, i + 1)
  }

  function AtMostAll(sizes: seq<nat>, requested: int): int { if |sizes| < requested then |sizes| else requested }

  /** How many layers one round places. */
  function PlacedInRound(sizes: seq<nat>, gpus: seq<Device>, requireFull: bool, requested: int, lastUsed: int,
                         spread: bool): int
    requires 0 <= lastUsed
  {
    if spread then FitCount(sizes, gpus, AtMostAll(sizes, requested), !requireFull)
    else RoundCount(sizes, gpus, requireFull, AtMostAll(sizes, requested), lastUsed)
  }

  /** How many layers are placed in both rounds: all of them, or as many as go without the output layer. */
  function Placed(sizes: seq<nat>, gpus0: seq<Device>, requireFull: bool, requested: int, lastUsed: int,
                  spread: bool): int
    requires 0 <= lastUsed
  {
    var gpus := if requested >= 0 || spread then Evened(gpus0) else gpus0;
    var c := PlacedInRound(sizes, gpus, requireFull, requested, lastUsed, spread);
    if c == |sizes| || sizes == [] then c
    else PlacedInRound(sizes[..|sizes| - 1], gpus, requireFull, AtMostAll(sizes, requested), lastUsed, spread)
  }

  /** Discard the preference for discrete GPUs. */
  function Evened(gpus: seq<Device>): (r: seq<Device>)
    ensures |r| == |gpus| && forall i :: 0 <= i < |r| ==> r[i] == gpus[i].(integrated := false)
  {
    seq(|gpus|, i requires 0 <= i < |gpus| => gpus[i].(integrated := false))
  }

  /** Either every layer is offloaded, or a suffix of the layers without the output layer. */
  ghost predicate GoodAssignment(sizes: seq<nat>, l: Layout) {
    Flatten(l) == Range(0, |sizes|) || (sizes != [] && Suffix(l, |sizes| - 1))
  }

  lemma SameSpace(d: Device, d': Device, factor: real)
    requires factor >= 0.0 && d.free == d'.free
    ensures Space(d, factor) == Space(d', factor)
  {
  }

  lemma EvenedFits(sizes: seq<nat>, l: Layout, gpus: seq<Device>, n: int, factor: real)
    requires factor >= 0.0 && 0 <= n <= |gpus| && AllFit(sizes, l, Evened(gpus)[..n], factor)
    ensures AllFit(sizes, l, gpus, factor)
  {
    hide SizeOf, Space;
    forall k | 0 <= k < |l| ensures EntryFits(sizes, l[k], gpus, factor) {
      assert EntryFits(sizes, l[k], Evened(gpus)[..n], factor);
      var d :| d in Evened(gpus)[..n] && d.id == l[k].device && SizeOf(sizes, l[k].layers) <= Space(d, factor);
      var i :| 0 <= i < n && Evened(gpus)[i] == d;
      SameSpace(gpus[i], d, factor);
      assert gpus[i] in gpus;
    }
  }

  lemma FirstFits(sizes: seq<nat>, l: Layout, gpus: seq<Device>, n: int, factor: real)
    requires factor >= 0.0 && 0 <= n <= |gpus| && AllFit(sizes, l, gpus[..n], factor)
    ensures AllFit(sizes, l, gpus, factor)
  {
    AllFitMore(sizes, l, gpus[..n], gpus, factor, factor);
  }

  /** Without a request the number of layers does not depend on forcing. */
  lemma FitCountForce(sizes: seq<nat>, gpus: seq<Device>, requested: int, force: bool)
    requires requested < 0
    ensures FitCount(sizes, gpus, requested, force) == FitCount(sizes, gpus, requested, false)
  {
  }

  /** The first n GPUs, for some n with from < n <= to, take all layers. */
  ghost predicate SomeTakeAll(sizes: seq<nat>, gpus: seq<Device>, requested: int, from: int, to: int)
    requires 0 <= from
  {
    exists n :: from < n <= to && n <= |gpus| && FitCount(sizes, gpus[..n], requested, false) == |sizes|
  }

  /** The layout uses no GPU beyond any first n, with lastUsed < n, that take all layers. */
  ghost predicate Fewest(sizes: seq<nat>, gpus: seq<Device>, requested: int, lastUsed: int, l: Layout)
    requires 0 <= lastUsed
  {
    forall n {:trigger gpus[..n]} ::
      lastUsed < n <= |gpus| && FitCount(sizes, gpus[..n], requested, false) == |sizes| ==>
        AllFit(sizes, l, gpus[..n], 1.0)
  }

  lemma FewestSoFar(sizes: seq<nat>, gpus: seq<Device>, requested: int, lastUsed: int, i: int, l: Layout)
    requires 0 <= lastUsed <= i < |gpus| && !SomeTakeAll(sizes, gpus, requested, lastUsed, i)
    requires AllFit(sizes, l, gpus[..i + 1], 1.0)
    ensures Fewest(sizes, gpus, requested, lastUsed, l)
  {
    hide FitCount, SizeOf;
    forall n {:trigger gpus[..n]} | lastUsed < n <= |gpus| && FitCount(sizes, gpus[..n], requested, false) == |sizes|
      ensures AllFit(sizes, l, gpus[..n], 1.0)
    {
      assert n > i;
      assert forall d :: d in gpus[..i + 1] ==> d in gpus[..n];
      AllFitMore(sizes, l, gpus[..i + 1], gpus[..n], 1.0, 1.0);
    }
  }

  /** What every layout of a round satisfies. */
  ghost predicate GoodRound(sizes: seq<nat>, gpus: seq<Device>, requireFull: bool, requested: int, l: Layout) {
    && |Flatten(l)| <= |sizes| && Flatten(l) == Range(|sizes| - |Flatten(l)|, |sizes|)
    && AllFit(sizes, l, gpus, Top(requested, !requireFull))
    && (requested >= 0 ==> |Flatten(l)| <= requested)
    && (DistinctIds(gpus) ==> DistinctDevices(l))
  }

  lemma NothingRound(sizes: seq<nat>, gpus: seq<Device>, requireFull: bool, requested: int)
    ensures Flatten([]) == [] && GoodRound(sizes, gpus, requireFull, requested, [])
  {
    NothingFits(sizes, gpus, requested, !requireFull);
  }

  /** The first i + 1 GPUs; only with the last one may a request be forced. */
  method TryFirst(sizes: seq<nat>, gpus: seq<Device>, requireFull: bool, requested: int, i: int) returns (l: Layout)
    requires 0 <= i < |gpus|
    ensures GoodRound(sizes, gpus, requireFull, requested, l)
    ensures |Flatten(l)| == FitCount(sizes, gpus[..i + 1], AtMostAll(sizes, requested), i == |gpus| - 1 && !requireFull)
    ensures requested < 0 ==> AllFit(sizes, l, gpus[..i + 1], 1.0)
  {
    hide Flatten, SizeOf, FitCount, AllFit, Balanced;
    var force := i == |gpus| - 1 && !requireFull;
    var most := AtMostAll(sizes, requested);
    l := FindBestFit(sizes, gpus[..i + 1], most, force);
    FirstFits(sizes, l, gpus, i + 1, Top(most, force));
    AllFitMore(sizes, l, gpus, gpus, Top(most, force), Top(requested, !requireFull));
  }

  /** One round: as few GPUs as it takes, from those in use on; or all at once when spreading. */
  method AssignRound(sizes: seq<nat>, gpus: seq<Device>, requireFull: bool, requested: int, lastUsed: int, spread: bool)
    returns (l: Layout)
    requires 0 <= lastUsed
    ensures GoodRound(sizes, gpus, requireFull, requested, l)
    ensures |Flatten(l)| == PlacedInRound(sizes, gpus, requireFull, requested, lastUsed, spread)
    ensures requested < 0 && !spread ==> Fewest(sizes, gpus, requested, lastUsed, l)
  {
    hide Flatten, FitCount, AllFit, GoodRound, Fewest, SomeTakeAll;
    var most := AtMostAll(sizes, requested);
    if spread {
      l := FindBestFit(sizes, gpus, most, !requireFull);
      SpreadRound(sizes, gpus, requireFull, requested, l);
      return;
    }
    l := [];
    NothingRound(sizes, gpus, requireFull, requested);
    NoneYet(sizes, gpus, requested, lastUsed);
    var i := lastUsed;
    while i < |gpus|
      invariant lastUsed <= i && GoodRound(sizes, gpus, requireFull, requested, l)
      invariant RoundCount(sizes, gpus, requireFull, most, lastUsed)
                == if i < |gpus| || i == lastUsed then RoundCount(sizes, gpus, requireFull, most, i) else |Flatten(l)|
      invariant i == lastUsed ==> l == []
      invariant requested < 0 ==> !SomeTakeAll(sizes, gpus, requested, lastUsed, i)
    {
      l := TryFirst(sizes, gpus, requireFull, requested, i);
      SumFlatten(l);
      if requested < 0 {
        TakesAllNext(sizes, gpus, requested, lastUsed, i, i == |gpus| - 1 && !requireFull);
      }
      if Sum(l) == |sizes| || Sum(l) == most {
        if requested < 0 {
          FewestSoFar(sizes, gpus, requested, lastUsed, i, l);
        }
        return;
      }
      i := i + 1;
    }
    if requested < 0 {
      FewestVacuous(sizes, gpus, requested, lastUsed, i, l);
    }
  }

  lemma SpreadRound(sizes: seq<nat>, gpus: seq<Device>, requireFull: bool, requested: int, l: Layout)
    requires GoodFit(sizes, gpus, AtMostAll(sizes, requested), !requireFull, l)
             && (DistinctIds(gpus) ==> DistinctDevices(l))
    ensures GoodRound(sizes, gpus, requireFull, requested, l)
  {
    hide Flatten, AllFit;
  }

  lemma NoneYet(sizes: seq<nat>, gpus: seq<Device>, requested: int, lastUsed: int)
    requires 0 <= lastUsed
    ensures !SomeTakeAll(sizes, gpus, requested, lastUsed, lastUsed)
  {
  }

  lemma TakesAllNext(sizes: seq<nat>, gpus: seq<Device>, requested: int, lastUsed: int, i: int, force: bool)
    requires requested < 0 && 0 <= lastUsed <= i < |gpus|
    ensures SomeTakeAll(sizes, gpus, requested, lastUsed, i + 1) <==>
            SomeTakeAll(sizes, gpus, requested, lastUsed, i)
              || FitCount(sizes, gpus[..i + 1], requested, force) == |sizes|
  {
    FitCountForce(sizes, gpus[..i + 1], requested, force);
    hide FitCount;
    if SomeTakeAll(sizes, gpus, requested, lastUsed, i + 1) {
      var n :| lastUsed < n <= i + 1 && n <= |gpus| && FitCount(sizes, gpus[..n], requested, false) == |sizes|;
    }
  }

  lemma FewestVacuous(sizes: seq<nat>, gpus: seq<Device>, requested: int, lastUsed: int, i: int, l: Layout)
    requires 0 <= lastUsed <= i && |gpus| <= i && !SomeTakeAll(sizes, gpus, requested, lastUsed, i)
    ensures Fewest(sizes, gpus, requested, lastUsed, l)
  {
    hide FitCount, AllFit;
  }

  /** Without a request, a round places everything if and only if some first GPUs from those in use on take it, and
      otherwise as much as all GPUs take. */
  lemma {:induction false} RoundMeans(sizes: seq<nat>, gpus: seq<Device>, requireFull: bool, requested: int, i: int)
    requires requested < 0 && 0 <= i < |gpus|
    ensures RoundCount(sizes, gpus, requireFull, requested, i)
            == if SomeTakeAll(sizes, gpus, requested, i, |gpus|) then |sizes|
               else FitCount(sizes, gpus, requested, false)
    decreases |gpus| - i
  {
    hide FitCount;
    NoneYet(sizes, gpus, requested, i);
    TakesAllNext(sizes, gpus, requested, i, i, i == |gpus| - 1 && !requireFull);
    FitCountForce(sizes, gpus[..i + 1], requested, i == |gpus| - 1 && !requireFull);
    if i == |gpus| - 1 {
      assert gpus[..i + 1] == gpus;
    } else {
      RoundMeans(sizes, gpus, requireFull, requested, i + 1);
      TakesAllLater(sizes, gpus, requested, i);
    }
  }

  lemma TakesAllLater(sizes: seq<nat>, gpus: seq<Device>, requested: int, i: int)
    requires requested < 0 && 0 <= i < |gpus|
    ensures SomeTakeAll(sizes, gpus, requested, i, |gpus|) <==>
            FitCount(sizes, gpus[..i + 1], requested, false) == |sizes|
              || SomeTakeAll(sizes, gpus, requested, i + 1, |gpus|)
  {
    hide FitCount;
    if SomeTakeAll(sizes, gpus, requested, i, |gpus|) {
      var n :| i < n <= |gpus| && FitCount(sizes, gpus[..n], requested, false) == |sizes|;
      assert n == i + 1 || i + 1 < n;
    }
  }

  /** Without a request and without spreading: all layers if and only if some first GPUs take them; otherwise all but
      the output layer if some first GPUs take those; otherwise as many of those as all GPUs take. */
  lemma PlacedMeans(sizes: seq<nat>, gpus: seq<Device>, requireFull: bool, requested: int, lastUsed: int)
    requires requested < 0 && 0 <= lastUsed < |gpus| && sizes != []
    ensures var rest := sizes[..|sizes| - 1];
            Placed(sizes, gpus, requireFull, requested, lastUsed, false)
            == if SomeTakeAll(sizes, gpus, requested, lastUsed, |gpus|) then |sizes|
               else if SomeTakeAll(rest, gpus, requested, lastUsed, |gpus|) then |rest|
               else FitCount(rest, gpus, requested, false)
  {
    hide FitCount, RoundCount;
    RoundMeans(sizes, gpus, requireFull, requested, lastUsed);
    RoundMeans(sizes[..|sizes| - 1], gpus, requireFull, requested, lastUsed);
    if !SomeTakeAll(sizes, gpus, requested, lastUsed, |gpus|) {
      NotAllAtOnce(sizes, gpus, requested, lastUsed);
    }
  }

  lemma NotAllAtOnce(sizes: seq<nat>, gpus: seq<Device>, requested: int, lastUsed: int)
    requires requested < 0 && 0 <= lastUsed < |gpus| && !SomeTakeAll(sizes, gpus, requested, lastUsed, |gpus|)
    ensures FitCount(sizes, gpus, requested, false) != |sizes|
  {
    hide FitCount;
    assert gpus[..|gpus|] == gpus;
  }

  /** assignLayers: first with the output layer, then without it. */
  method AssignLayers(sizes: seq<nat>, gpus0: seq<Device>, requireFull: bool, requested: int, lastUsed: int,
                      spread: bool)
    returns (l: Layout)
    requires 0 <= lastUsed
    ensures GoodAssignment(sizes, l)
    ensures AllFit(sizes, l, gpus0, Top(requested, !requireFull))
    ensures |Flatten(l)| == Placed(sizes, gpus0, requireFull, requested, lastUsed, spread)
    ensures requested >= 0 ==> |Flatten(l)| <= requested
    ensures DistinctIds(gpus0) ==> DistinctDevices(l)
    ensures requested < 0 && !spread ==> Fewest(sizes, gpus0, requested, lastUsed, l)
  {
    hide Flatten, SizeOf, FitCount, Sum, AllFit, RoundCount;
    var gpus := gpus0;
    if requested >= 0 || spread {
      gpus := Evened(gpus0);
    }
    l := AssignRound(sizes, gpus, requireFull, requested, lastUsed, spread);
    BackToGiven(sizes, l, gpus0, gpus, Top(requested, !requireFull));
    SumFlatten(l);
    if Sum(l) == |sizes| {
      return;
    }
    var n := |sizes| - 1;
    l := AssignRound(sizes[..n], gpus, requireFull, AtMostAll(sizes, requested), lastUsed, spread);
    assert Suffix(l, n);
    AllFitPrefix(sizes, n, l, gpus, Top(requested, !requireFull));
    BackToGiven(sizes, l, gpus0, gpus, Top(requested, !requireFull));
    if requested < 0 && !spread {
      NotAllFewest(sizes, gpus, requireFull, requested, lastUsed, l);
    }
  }

  lemma NotAllFewest(sizes: seq<nat>, gpus: seq<Device>, requireFull: bool, requested: int, lastUsed: int, l: Layout)
    requires requested < 0 && 0 <= lastUsed && RoundCount(sizes, gpus, requireFull, requested, lastUsed) != |sizes|
    ensures Fewest(sizes, gpus, requested, lastUsed, l)
  {
    hide FitCount, AllFit, RoundCount;
    if lastUsed < |gpus| {
      RoundMeans(sizes, gpus, requireFull, requested, lastUsed);
      FewestVacuous(sizes, gpus, requested, lastUsed, |gpus|, l);
    }
  }

  lemma BackToGiven(sizes: seq<nat>, l: Layout, gpus0: seq<Device>, gpus: seq<Device>, factor: real)
    requires factor >= 0.0 && AllFit(sizes, l, gpus, factor) && (gpus == gpus0 || gpus == Evened(gpus0))
    ensures AllFit(sizes, l, gpus0, factor)
  {
    if gpus == Evened(gpus0) {
      assert Evened(gpus0)[..|gpus0|] == Evened(gpus0);
      EvenedFits(sizes, l, gpus0, |gpus0|, factor);
    }
  }
}
