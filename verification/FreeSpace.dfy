/** Free memory as the scheduler sees it (server/sched.go, updateFreeSpace; llm/server.go, VRAMByGPU): a new
    layout, everything kept back and all loaded runners together fit on every GPU. */
module FreeSpace {
  import opened GreedyFits
  import opened LayoutSearch
  import opened LoadLayout

  /** A loaded runner: its server is gone, has no memory report yet, or has one. */
  datatype Runner = Gone | Unsized | Sized(mem: Memory)

  function DeviceSize(m: DeviceMemory): nat { Total(m.weights) + Total(m.cache) + m.graph }

  function UsedBy(r: Runner, id: DeviceId): nat {
    match r
    case Sized(m) => var j := Find(m.gpus, id); if j < |m.gpus| then DeviceSize(m.gpus[j]) else 0
    case _ => 0
  }

  method SumMemory(s: seq<nat>) returns (sum: nat)
    ensures sum == Total(s)
  {
    sum := 0;
    for i := 0 to |s|
      invariant sum == Total(s[..i])
    {
      assert s[..i + 1][..i] == s[..i];
      sum := sum + s[i];
    }
    assert s[..|s|] == s;
  }

  /** VRAMByGPU: the weights, the cache and the graph of the first report about the device. */
  method VramByGpu(r: Runner, id: DeviceId) returns (vram: nat)
    ensures vram == UsedBy(r, id)
  {
    if r.Gone? || r.Unsized? {
      return 0;
    }
    for j := 0 to |r.mem.gpus|
      invariant forall k :: 0 <= k < j ==> r.mem.gpus[k].id != id
    {
      var g := r.mem.gpus[j];
      if g.id == id {
        assert Find(r.mem.gpus, id) == j;
        var weights := SumMemory(g.weights);
        var cache := SumMemory(g.cache);
        return weights + cache + g.graph;
      }
    }
    return 0;
  }

  /** What a runner uses on all devices it reports is all the memory it reports for them. */
  lemma {:induction false} UseConserved(m: Memory, n: nat)
    requires n <= |m.gpus| && forall i, j :: 0 <= i < j < |m.gpus| ==> m.gpus[i].id != m.gpus[j].id
    ensures UseOfFirst(m, n) == DeviceTotals(m.gpus[..n]) + GraphsOfFirst(m, n)
  {
    if n > 0 {
      UseConserved(m, n - 1);
      assert m.gpus[..n][..n - 1] == m.gpus[..n - 1];
      assert Find(m.gpus, m.gpus[n - 1].id) == n - 1;
    }
  }

  function UseOfFirst(m: Memory, n: nat): nat
    requires n <= |m.gpus|
  {
    if n == 0 then 0 else UseOfFirst(m, n - 1) + UsedBy(Sized(m), m.gpus[n - 1].id)
  }

  function GraphsOfFirst(m: Memory, n: nat): nat
    requires n <= |m.gpus|
  {
    if n == 0 then 0 else GraphsOfFirst(m, n - 1) + m.gpus[n - 1].graph
  }

  /** The predicted use of a device by all runners. */
  function Predicted(runners: seq<Runner>, id: DeviceId): nat {
    if runners == [] then 0 else Predicted(runners[..|runners| - 1], id) + UsedBy(runners[|runners| - 1], id)
  }

  function Listed(gpus: seq<Device>, id: DeviceId): nat {
    if gpus == [] then 0 else Listed(gpus[..|gpus| - 1], id) + if gpus[|gpus| - 1].id == id then 1 else 0
  }

  /** What one runner adds to the charge. */
  function Shares(gpus: seq<Device>, r: Runner, id: DeviceId): nat { Listed(gpus, id) * UsedBy(r, id) }

  lemma SharesNext(gpus: seq<Device>, r: Runner, id: DeviceId, i: int)
    requires 0 <= i < |gpus|
    ensures Shares(gpus[..i + 1], r, id) == Shares(gpus[..i], r, id) + if id == gpus[i].id then UsedBy(r, id) else 0
  {
    hide UsedBy;
    assert gpus[..i + 1][..i] == gpus[..i];
  }

  /** What is charged to a device: a device listed twice is charged twice. */
  function Charged(gpus: seq<Device>, runners: seq<Runner>, id: DeviceId): nat {
    if runners == [] then 0
    else Charged(gpus, runners[..|runners| - 1], id) + Shares(gpus, runners[|runners| - 1], id)
  }

  predicate AnyLive(runners: seq<Runner>) { exists r :: r in runners && r != Gone }

  function FreeAfter(d: Device, gpus: seq<Device>, runners: seq<Runner>): nat {
    var p := Charged(gpus, runners, d.id);
    if !AnyLive(runners) then d.free
    else if p > d.total then 0
    else if d.total - p < d.free then d.total - p
    else d.free
  }

  function Lookup(charges: map<DeviceId, nat>, id: DeviceId): nat { if id in charges then charges[id] else 0 }

  /** Add one runner's use to the charges. */
  method Charge(gpus: seq<Device>, r: Runner, charges0: map<DeviceId, nat>) returns (charges: map<DeviceId, nat>)
    ensures charges.Keys == charges0.Keys + set d | d in gpus :: d.id
    ensures forall id :: Lookup(charges, id) == Lookup(charges0, id) + Shares(gpus, r, id)
  {
    charges := charges0;
    assert forall id :: Shares([], r, id) == 0;
    hide Shares;
    for i := 0 to |gpus|
      invariant charges.Keys == charges0.Keys + set d | d in gpus[..i] :: d.id
      invariant forall id :: Lookup(charges, id) == Lookup(charges0, id) + Shares(gpus[..i], r, id)
    {
      hide UsedBy, Listed;
      assert gpus[..i + 1] == gpus[..i] + [gpus[i]];
      forall id
        ensures Shares(gpus[..i + 1], r, id) == Shares(gpus[..i], r, id) + if id == gpus[i].id then UsedBy(r, id) else 0
      {
        SharesNext(gpus, r, id, i);
      }
      var used := VramByGpu(r, gpus[i].id);
      charges := charges[gpus[i].id := Lookup(charges, gpus[i].id) + used];
    }
    assert gpus[..|gpus|] == gpus;
  }

  method ChargeAll(gpus: seq<Device>, runners: seq<Runner>) returns (charges: map<DeviceId, nat>)
    ensures charges.Keys == if AnyLive(runners) then set d | d in gpus :: d.id else {}
    ensures forall id :: Lookup(charges, id) == Charged(gpus, runners, id)
  {
    hide Shares, UsedBy;
    charges := map[];
    for k := 0 to |runners|
      invariant charges.Keys == if AnyLive(runners[..k]) then set d | d in gpus :: d.id else {}
      invariant forall id :: Lookup(charges, id) == Charged(gpus, runners[..k], id)
    {
      assert runners[..k + 1][..k] == runners[..k] && runners[..k + 1] == runners[..k] + [runners[k]];
      LiveMore(runners[..k], runners[k]);
      NothingGone(gpus);
      if runners[k] != Gone {
        charges := Charge(gpus, runners[k], charges);
      }
    }
    assert runners[..|runners|] == runners;
  }

  lemma LiveMore(runners: seq<Runner>, r: Runner)
    ensures AnyLive(runners + [r]) <==> AnyLive(runners) || r != Gone
  {
    assert r in runners + [r];
    assert forall x :: x in runners ==> x in runners + [r];
  }

  lemma NothingGone(gpus: seq<Device>)
    ensures forall id :: Shares(gpus, Gone, id) == 0
  {
  }

  method UpdateFreeSpace(gpus: seq<Device>, runners: seq<Runner>) returns (r: seq<Device>)
    ensures |r| == |gpus|
    ensures forall i :: 0 <= i < |r| ==> r[i] == gpus[i].(free := FreeAfter(gpus[i], gpus, runners))
  {
    r := gpus;
    if |gpus| == 0 {
      return;
    }
    var charges := ChargeAll(gpus, runners);
    for i := 0 to |gpus|
      invariant |r| == |gpus|
      invariant forall k :: 0 <= k < |r| ==>
                r[k] == if k < i then gpus[k].(free := FreeAfter(gpus[k], gpus, runners)) else gpus[k]
    {
      assert gpus[i].id in (set d | d in gpus :: d.id);
      if r[i].id in charges {
        var p := charges[r[i].id];
        assert p == Lookup(charges, r[i].id);
        if p > r[i].total {
          r := r[i := r[i].(free := 0)];
        } else if r[i].total - p < r[i].free {
          r := r[i := r[i].(free := r[i].total - p)];
        }
      }
    }
  }

  // ---------- The promise ----------

  lemma {:induction false} ChargedEnough(gpus: seq<Device>, runners: seq<Runner>, id: DeviceId)
    requires Listed(gpus, id) >= 1
    ensures Charged(gpus, runners, id) >= Predicted(runners, id)
    ensures Listed(gpus, id) == 1 ==> Charged(gpus, runners, id) == Predicted(runners, id)
  {
    hide Listed, UsedBy, Shares;
    if runners != [] {
      var k := |runners| - 1;
      ChargedEnough(gpus, runners[..k], id);
      SharesEnough(gpus, runners[k], id);
    }
  }

  lemma SharesEnough(gpus: seq<Device>, r: Runner, id: DeviceId)
    requires Listed(gpus, id) >= 1
    ensures Shares(gpus, r, id) >= UsedBy(r, id)
    ensures Listed(gpus, id) == 1 ==> Shares(gpus, r, id) == UsedBy(r, id)
  {
    hide Listed, UsedBy;
    assert (Listed(gpus, id) - 1) * UsedBy(r, id) >= 0;
  }

  lemma {:induction false} ListedOnce(gpus: seq<Device>, i: int)
    requires 0 <= i < |gpus|
    ensures Listed(gpus, gpus[i].id) >= 1
  {
    if i < |gpus| - 1 {
      ListedOnce(gpus[..|gpus| - 1], i);
    }
  }

  lemma {:induction false} NoneRunning(runners: seq<Runner>, id: DeviceId)
    requires !AnyLive(runners)
    ensures Predicted(runners, id) == 0
  {
    if runners != [] {
      var k := |runners| - 1;
      LiveMore(runners[..k], runners[k]);
      assert runners[..k] + [runners[k]] == runners;
      NoneRunning(runners[..k], id);
    }
  }

  /** Memory left free is not claimed by a runner, and no more than what was reported. */
  lemma FreeIsFree(gpus: seq<Device>, runners: seq<Runner>, i: int)
    requires 0 <= i < |gpus|
    ensures var d := gpus[i]; var free := FreeAfter(d, gpus, runners);
            free <= d.free && (free > 0 && AnyLive(runners) ==> free + Predicted(runners, d.id) <= d.total)
  {
    ListedOnce(gpus, i);
    ChargedEnough(gpus, runners, gpus[i].id);
  }

  /** Exactly: the smaller of what was reported and what the predictions leave of the total, if any runner is live. */
  lemma FreeExact(gpus: seq<Device>, runners: seq<Runner>, i: int)
    requires 0 <= i < |gpus| && DistinctIds(gpus)
    ensures var d := gpus[i];
            var left := if Predicted(runners, d.id) < d.total then d.total - Predicted(runners, d.id) else 0;
            FreeAfter(d, gpus, runners) == if !AnyLive(runners) || d.free <= left then d.free else left
  {
    ListedExactly(gpus, i);
    ChargedEnough(gpus, runners, gpus[i].id);
  }

  lemma {:induction false} ListedExactly(gpus: seq<Device>, i: int)
    requires 0 <= i < |gpus| && DistinctIds(gpus)
    ensures Listed(gpus, gpus[i].id) == 1
  {
    var n := |gpus| - 1;
    if i < n {
      ListedExactly(gpus[..n], i);
    } else {
      NotListed(gpus[..n], gpus[n].id);
    }
  }

  lemma {:induction false} NotListed(gpus: seq<Device>, id: DeviceId)
    requires forall i :: 0 <= i < |gpus| ==> gpus[i].id != id
    ensures Listed(gpus, id) == 0
  {
    if gpus != [] {
      NotListed(gpus[..|gpus| - 1], id);
    }
  }

  /** For every GPU given layers of any size in an unforced layout: the layers, the graph, the minimum, the
      overhead and the backoff fit in what the GPU reports free; and together with the predicted use of
      all loaded runners on it they fit in its total memory. */
  lemma WithinTotal(gpus: seq<Device>, runners: seq<Runner>, updated: seq<Device>, sorted: seq<Device>,
                    m: Memory, overhead: nat, tenths: nat, sizes: seq<nat>, l: Layout, e: GpuLayers)
    requires |updated| == |gpus| && multiset(sorted) == multiset(updated)
    requires forall i :: 0 <= i < |gpus| ==> updated[i] == gpus[i].(free := FreeAfter(gpus[i], gpus, runners))
    requires NotOverCommitted(sizes, l, sorted, m, overhead, tenths)
    requires e in l && SizeOf(sizes, e.layers) > 0
    ensures exists i ::
              0 <= i < |gpus| && gpus[i].id == e.device
              && HasRoomFor(gpus[i], updated[i], runners, m, overhead, tenths, SizeOf(sizes, e.layers))
  {
    hide FreeAfter, SizeOf;
    assert RoomFor(sizes, e, sorted, m, overhead, tenths);
    var d :| d in sorted && d.id == e.device
      && SizeOf(sizes, e.layers) + d.free * tenths / 10 + (if d.id.library == "Metal" then 512 else 457) * 1024 * 1024
         + overhead + GraphOf(m, d.id) <= d.free;
    assert d in multiset(sorted) && d in updated;
    var i :| 0 <= i < |updated| && updated[i] == d;
    FreeIsFree(gpus, runners, i);
    if !AnyLive(runners) {
      NoneRunning(runners, d.id);
    }
    assert HasRoomFor(gpus[i], updated[i], runners, m, overhead, tenths, SizeOf(sizes, e.layers));
  }

  ghost predicate HasRoomFor(d: Device, updated: Device, runners: seq<Runner>, m: Memory, overhead: nat, tenths: nat,
                             size: nat) {
    var needed := size + updated.free * tenths / 10 + (if d.id.library == "Metal" then 512 else 457) * 1024 * 1024
                  + overhead + GraphOf(m, d.id);
    && needed <= d.free
    && (AnyLive(runners) || d.free <= d.total ==> needed + Predicted(runners, d.id) <= d.total)
  }
}
