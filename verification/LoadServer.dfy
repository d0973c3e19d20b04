/** The server that loads a model (llm/server.go, ollamaServer.Load): its loops run the machine of LoadSearch with what
    createLayout makes, and end whatever the runner answers and however layouts are hashed. */
module LoadServer {
  import opened Options
  import opened GreedyFits
  import opened LayoutSearch
  import opened LoadLayout
  import opened LoadLimits
  import opened LoadSearch
  import opened Sets

  /** The layouts of this hash still to be tried. */
  ghost function Untried(past: set<Hash>, h: Hash): nat {
    AtMost(past + {h}, HASHES);
    HASHES - |past + {h}|
  }

  lemma TriedOne(past: set<Hash>, h: Hash, next: Hash)
    requires next !in past + {h}
    ensures Untried(past + {h}, next) < Untried(past, h)
  {
    AtMost(past + {h} + {next}, HASHES);
  }

  /** uniqueDeviceIDs. */
  method UniqueDeviceIds(l: Layout) returns (devices: seq<DeviceId>)
    ensures forall i, j :: 0 <= i < j < |devices| ==> devices[i] != devices[j]
    ensures forall id :: id in devices <==> exists k :: 0 <= k < |l| && l[k].device == id
  {
    devices := [];
    for n := 0 to |l|
      invariant forall i, j :: 0 <= i < j < |devices| ==> devices[i] != devices[j]
      invariant forall id :: id in devices <==> exists k :: 0 <= k < n && l[k].device == id
    {
      var isNew := true;
      for i := 0 to |devices|
        invariant isNew && forall j :: 0 <= j < i ==> devices[j] != l[n].device
      {
        if l[n].device == devices[i] {
          isNew := false;
          break;
        }
      }
      if isNew {
        devices := devices + [l[n].device];
      }
    }
  }

  class OllamaServer {
    const env: Env
    const layers: nat
    const hash: Layout -> Hash
    const replies: nat -> Reply
    var numGpu: int
    var mem: Option<Memory>
    var log: seq<Exchange>
    var closed: bool

    constructor (env: Env, layers: nat, hash: Layout -> Hash, replies: nat -> Reply, numGpu: int)
      ensures this.env == env && this.layers == layers && this.hash == hash && this.replies == replies
      ensures this.numGpu == numGpu && mem == None && log == [] && !closed
    {
      this.env, this.layers, this.hash, this.replies, this.numGpu := env, layers, hash, replies, numGpu;
      mem, log, closed := None, [], false;
    }

    /** The memory information at hand: none before the first answer. */
    function Memory0(): Memory
      reads this`mem
    {
      if mem == None then Blank(layers) else mem.value
    }

    ghost function Setup(requireFull: bool, launched: bool): Setting {
      Setting(hash, launched, CreateLayoutIn(env, requireFull))
    }

    ghost function At(op: int, l: Layout, tenths: nat, past: set<Hash>, place: Place): State
      reads this`numGpu, this`mem, this`log
    {
      State(op, l, tenths, past, numGpu, Memory0(), log, place)
    }

    /** The log has the runner's answers, in order. */
    ghost predicate Heard()
      reads this`log
    {
      forall k :: 0 <= k < |log| ==> log[k].reply == replies(k)
    }

    method Create(m: Memory, requireFull: bool, tenths: nat) returns (c: Creation)
      modifies this`numGpu
      ensures Creates(env, m, requireFull, old(numGpu), tenths, c) && numGpu == c.numGpu
    {
      hide Made, Largest, VerdictOn, NextRequest, Keys;
      var err, l;
      err, l, numGpu := CreateLayout(env, m, requireFull, numGpu, tenths);
      c := Creation(err, l, numGpu);
    }

    method InitModel(op: int, l: Layout, kind: Kind) returns (reply: Reply)
      modifies this`log
      ensures reply == replies(|old(log)|) && log == old(log) + [Exchange(op, l, reply, kind)]
    {
      reply := replies(|log|);
      log := log + [Exchange(op, l, reply, kind)];
    }

    /** The same, with the log still in order. */
    method Request(op: int, l: Layout, kind: Kind) returns (reply: Reply)
      requires Heard()
      modifies this`log
      ensures Heard() && log == old(log) + [Exchange(op, l, reply, kind)]
    {
      reply := InitModel(op, l, kind);
    }

    /** The runner could allocate a trial: keep it if createLayout would place as many layers. */
    method CheckOne(ghost s: Setting, ghost st0: State, requireFull: bool, op: int, tenths: nat, l: Layout,
                    ghost past: set<Hash>, i: int, probe: Layout, reply: Reply)
      returns (error: Option<Error>, found: Option<Layout>, ghost st: State)
      requires s.maker == CreateLayoutIn(env, requireFull) && s.hash == hash && mem.Some? && Heard() && reply.Reply?
               && reply.success
      requires log != [] && log[|log| - 1] == Exchange(op, probe, reply, Trial(i, None))
      requires Reaches(s, st0, At(op, l, tenths, past, Check(i, probe)))
      modifies this`numGpu, this`log
      ensures Reaches(s, st0, st) && Heard()
      ensures error.Some? ==> st.place == Ended(Failed(error.value)) && st.log == log
      ensures error == None && found.Some? ==> st == At(op + 1, found.value, tenths, {}, Ask)
      ensures error == None && found == None ==> st == NextProbe(At(op, l, tenths, past, Ask), true, i)
      ensures error == None ==> Rechecked(old(log), log, op, i, found)
    {
      hide Reaches, Creates, Sum, Blank;
      st := At(op, l, tenths, past, Check(i, probe));
      var check := Create(reply.memory, requireFull, tenths);
      st := Then(s, st0, st, Make(check));
      error, found := None, None;
      if check.err.Some? {
        error := Some(Refused(check.err.value));
        return;
      }
      log := log[|log| - 1 := Exchange(op, probe, reply, Trial(i, Some(Sum(check.layout))))];
      if Sum(probe) <= Sum(check.layout) {
        found := Some(probe);
      }
    }

    /** One pass of exploration: a trial of i layers is sent, and its layout is kept exactly if the trial is
        confirmed. */
    method ProbeOne(ghost s: Setting, ghost st0: State, requireFull: bool, op: int, tenths: nat, l: Layout,
                    ghost past: set<Hash>, i: int)
      returns (error: Option<Error>, found: Option<Layout>, ok: bool, ghost st: State)
      requires s.maker == CreateLayoutIn(env, requireFull) && s.hash == hash && mem.Some? && Heard()
      requires Reaches(s, st0, At(op, l, tenths, past, Probe(i)))
      modifies this`numGpu, this`log
      ensures Reaches(s, st0, st) && Heard()
      ensures error.Some? ==> st.place == Ended(Failed(error.value)) && st.log == log
      ensures error == None && found.Some? ==> st == At(op + 1, found.value, tenths, {}, Ask)
      ensures error == None && found == None ==> st == NextProbe(At(op, l, tenths, past, Ask), ok, i)
      ensures error == None ==> OneTrial(old(log), log, op, i, ok, found)
    {
      hide Reaches, Creates, Sum, Blank, Rechecked, OneTrial;
      st := At(op, l, tenths, past, Probe(i));
      numGpu := i;
      var c := Create(mem.value, requireFull, tenths);
      numGpu := -1;
      st := Then(s, st0, st, Make(c));
      error, found, ok := None, None, false;
      if c.err.Some? {
        error := Some(Refused(c.err.value));
        return;
      }
      var reply := InitModel(op, c.layout, Trial(i, None));
      st := Then(s, st0, st, Answer(reply));
      if reply.NoReply? {
        error := Some(NotAnswered);
        return;
      }
      ok := reply.success;
      ghost var x := Exchange(op, c.layout, reply, Trial(i, None));
      if ok {
        error, found, st := CheckOne(s, st0, requireFull, op, tenths, l, past, i, c.layout, reply);
        if error == None {
          CheckedTrial(old(log), x, log, op, i, found);
        }
      } else {
        LostTrial(old(log), x, op, i);
      }
    }

    /** Try the numbers of layers between those of two layouts that alternate, one by one from the top, until a trial
        is confirmed or the layers of l have been tried. */
    method Explore(ghost s: Setting, ghost st0: State, requireFull: bool, op: int, tenths: nat, l: Layout,
                   ghost past: set<Hash>, most: int)
      returns (error: Option<Error>, found: Option<Layout>, ok: bool, ghost st: State)
      requires s.maker == CreateLayoutIn(env, requireFull) && s.hash == hash && mem.Some? && most > Sum(l) && Heard()
      requires Reaches(s, st0, At(op, l, tenths, past, Probe(most - 1)))
      modifies this`numGpu, this`log
      ensures Reaches(s, st0, st) && Heard()
      ensures error.Some? ==> st.place == Ended(Failed(error.value)) && st.log == log
      ensures error == None && found.Some? ==> st == At(op + 1, found.value, tenths, {}, Ask)
      ensures error == None && found == None ==> st == Decide(At(op, l, tenths, past, Ask), ok)
      ensures error == None ==>
                && Descends(old(log), log, op, most - 1) && log != [] && found == KeptOf(log[|log| - 1])
                && ok == Won(log[|log| - 1]) && (found == None ==> |log| - |old(log)| == most - Sum(l))
    {
      hide Reaches, Sum, Descends, OneTrial, KeptOf;
      DescendsFirst(log, op, most - 1);
      var i := most - 1;
      while true
        invariant i >= Sum(l) && Heard() && Reaches(s, st0, At(op, l, tenths, past, Probe(i)))
        invariant Descends(old(log), log, op, most - 1) && |log| - |old(log)| == most - 1 - i
        invariant log != old(log) ==> KeptOf(log[|log| - 1]) == None
        decreases i
      {
        ghost var before := log;
        error, found, ok, st := ProbeOne(s, st0, requireFull, op, tenths, l, past, i);
        if error == None {
          DescendsOn(old(log), before, log, op, most - 1, ok, found);
        }
        if error.Some? || found.Some? || i - 1 < Sum(l) {
          return;
        }
        i := i - 1;
      }
    }

    /** The innermost loop: after an answer, either another layout is to be tried, or the operation is done with a
        layout (the record of past layouts being cleared if exploration found it), or there is an error. */
    method Settle(ghost s: Setting, ghost st0: State, requireFull: bool, op: int, l: Layout, past: set<Hash>, ok0: bool,
                  tenths0: nat)
      returns (error: Option<Error>, again: bool, l': Layout, clear: bool, tenths: nat, ghost st: State)
      requires s.maker == CreateLayoutIn(env, requireFull) && s.hash == hash && mem.Some? && tenths0 <= 11 && Heard()
      requires Reaches(s, st0, At(op, l, tenths0, past, LoadSearch.Settle(ok0)))
      modifies this`numGpu, this`log
      ensures Reaches(s, st0, st) && tenths <= 11 && Heard()
      ensures error.Some? ==> st.place == Ended(Failed(error.value)) && st.log == log
      ensures error == None && again ==> st == At(op, l', tenths, past, Ask) && hash(l') !in past && Sum(l') <= Sum(l)
      ensures error == None && !again ==>
              st == At(op + 1, l', tenths, if clear then {} else past, Ask) && (!clear ==> l' == l)
    {
      hide Reaches, Sum, Creates, Descends, KeptOf, Blank;
      var ok := ok0;
      error, again, l', clear, tenths := None, false, l, false, tenths0;
      while true
        invariant tenths <= 11 && Heard() && error == None && !again && l' == l && !clear
        invariant Reaches(s, st0, At(op, l, tenths, past, LoadSearch.Settle(ok)))
        decreases 11 - tenths
      {
        st := At(op, l, tenths, past, LoadSearch.Settle(ok));
        var c := Create(mem.value, requireFull, tenths);
        st := Then(s, st0, st, Make(c));
        if c.err.Some? {
          error := Some(Refused(c.err.value));
          return;
        }
        if hash(c.layout) !in past && Sum(c.layout) <= Sum(l) {
          again, l' := true, c.layout;
          return;
        }
        if numGpu < 0 && Sum(c.layout) - Sum(l) > 1 {
          var found;
          error, found, ok, st := Explore(s, st0, requireFull, op, tenths, l, past, Sum(c.layout));
          if error.Some? {
            return;
          }
          if found.Some? {
            l', clear := found.value, true;
            return;
          }
        }
        if ok {
          return;
        }
        if numGpu >= 0 {
          error := Some(CannotAllocateRequested);
          return;
        }
        if tenths > 10 {
          error := Some(CannotAllocate);
          return;
        }
        tenths := tenths + 1;
      }
    }

    /** The fit and alloc operations: returns the layout to commit, or an error. */
    method Search(ghost s: Setting, ghost st0: State, requireFull: bool, first: Layout)
      returns (error: Option<Error>, l: Layout, ghost st: State)
      requires s.maker == CreateLayoutIn(env, requireFull) && s.hash == hash
               && Reaches(s, st0, At(FIT, first, 0, {}, Ask)) && Heard()
      modifies this`numGpu, this`log, this`mem
      ensures Reaches(s, st0, st) && Heard()
      ensures error.Some? ==> st.place == Ended(Failed(error.value)) && st.log == log
      ensures error == None ==> st.op == COMMIT && st == At(COMMIT, l, st.tenths, st.past, Ask)
    {
      hide Reaches, Untried, Sum, Blank, Heard;
      var past: set<Hash>, tenths: nat := {}, 0;
      l := first;
      var op := FIT;
      label nextOperation:
      while op < COMMIT
        invariant FIT <= op <= COMMIT && tenths <= 11 && Heard()
        invariant Reaches(s, st0, At(op, l, tenths, past, Ask))
        decreases COMMIT - op
      {
        while true
          invariant tenths <= 11 && Heard()
          invariant Reaches(s, st0, At(op, l, tenths, past, Ask))
          decreases Untried(past, hash(l))
        {
          st := At(op, l, tenths, past, Ask);
          var reply := Request(op, l, Plain);
          st := Then(s, st0, st, Answer(reply));
          if reply.NoReply? {
            return Some(NotAnswered), l, st;
          }
          ghost var before, tried := past, hash(l);
          past := past + {hash(l)};
          mem := Some(reply.memory);
          var again, clear;
          error, again, l, clear, tenths, st := Settle(s, st0, requireFull, op, l, past, reply.success, tenths);
          if error.Some? {
            return;
          }
          if !again {
            past := if clear then {} else past;
            op := op + 1;
            continue nextOperation;
          }
          TriedOne(before, tried, hash(l));
        }
      }
      error, st := None, At(op, l, tenths, past, Ask);
    }

    /** All but the closing request of a load that fails. */
    method LoadOpen(requireFull: bool, launched: bool) returns (error: Option<Error>, l: Layout, ghost st: State)
      modifies this`numGpu, this`log, this`mem
      ensures Reaches(Setup(requireFull, launched), Init(old(numGpu), old(Memory0())), st) && st.log == log && Heard()
      ensures st.place == Ended(if error == None then Loaded else Failed(error.value))
      ensures error == None ==> st.layout == l && mem == Some(st.memory)
    {
      hide Reaches, Creates, Sum, Blank;
      ghost var s, st0 := Setup(requireFull, launched), Init(numGpu, Memory0());
      log := [];
      st := At(FIT, [], 0, {}, First);
      ReachesItself(s, st);
      var c := Create(Memory0(), requireFull, 0);
      l := c.layout;
      st := Then(s, st0, st, Make(c));
      if c.err.Some? {
        return Some(Refused(c.err.value)), l, st;
      }
      if !launched {
        return Some(NotLaunched), l, st;
      }
      error, l, st := Search(s, st0, requireFull, l);
      if error.Some? {
        return;
      }
      var reply := InitModel(COMMIT, l, Plain);
      st := Then(s, st0, st, Answer(reply));
      if reply.NoReply? {
        return Some(NotAnswered), l, st;
      }
      mem := Some(reply.memory);
      if !reply.success {
        return Some(CannotCommit), l, st;
      }
    }

    /** Load: a run of the machine from the start to its end; a load that fails closes the model. */
    method Load(requireFull: bool, launched: bool)
      returns (error: Option<Error>, devices: seq<DeviceId>, ghost st: State)
      modifies this
      ensures Reaches(Setup(requireFull, launched), Init(old(numGpu), old(Memory0())), st) && st.log == log && Heard()
      ensures st.place == Ended(if error == None then Loaded else Failed(error.value)) && closed == error.Some?
      ensures error == None ==>
                && mem == Some(st.memory)
                && (forall i, j :: 0 <= i < j < |devices| ==> devices[i] != devices[j])
                && (forall id :: id in devices <==> exists k :: 0 <= k < |st.layout| && st.layout[k].device == id)
    {
      hide Reaches;
      devices, closed := [], false;
      var l;
      error, l, st := LoadOpen(requireFull, launched);
      if error.Some? {
        closed := true;
      } else {
        devices := UniqueDeviceIds(l);
      }
    }
  }
}
