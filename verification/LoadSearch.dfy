/** Loading a model (llm/server.go, ollamaServer.Load): trying layouts against what the runner answers, first to
    fit, then to allocate, and at last to commit. The steps are those of a machine driven by what createLayout makes
    and what the runner answers; here, what holds in every run of it. */
module LoadSearch {
  import opened Options
  import opened GreedyFits
  import opened LayoutSearch
  import opened LoadLayout
  import opened LoadLimits
  import opened Sets

  const FIT := 0
  const ALLOC := 1
  const COMMIT := 2
  const CLOSE := 3

  const HASHES := 0x1_0000_0000_0000_0000

  type Hash = x: int | 0 <= x < HASHES

  /** The runner's answer: none, or whether the layout could be allocated and what it needs. */
  datatype Reply = NoReply | Reply(success: bool, memory: Memory)

  /** A trial of exploration: how many layers were asked for, and, once the runner could allocate them, how many
      createLayout would place by itself. */
  datatype Kind = Plain | Trial(layers: int, check: Option<int>)

  datatype Exchange = Exchange(op: int, layout: Layout, reply: Reply, kind: Kind)

  /** What createLayout returned, and the number of layers to offload it left. */
  datatype Creation = Creation(err: Option<Refusal>, layout: Layout, numGpu: int)

  datatype Error =
    | Refused(why: Refusal)
    | NotLaunched
    | NotAnswered
    | CannotAllocate
    | CannotAllocateRequested
    | CannotCommit

  datatype Outcome = Loaded | Failed(error: Error)

  // ---------- The machine ----------

  /** Where Load is; ok is whether the last answer was a success, i the number of layers being explored. */
  datatype Place =
    | First
    | Ask
    | Settle(ok: bool)
    | Probe(i: int)
    | AskProbe(i: int, probe: Layout)
    | Check(i: int, probe: Layout)
    | Ended(outcome: Outcome)

  datatype State = State(op: int, layout: Layout, tenths: nat, past: set<Hash>, numGpu: int, memory: Memory,
                         log: seq<Exchange>, place: Place)

  datatype Event = Make(made: Creation) | Answer(reply: Reply)

  function Init(numGpu: int, memory: Memory): State { State(FIT, [], 0, {}, numGpu, memory, [], First) }

  function Fail(st: State, error: Error): State { st.(place := Ended(Failed(error))) }

  function Send(st: State, l: Layout, reply: Reply, kind: Kind): State {
    st.(log := st.log + [Exchange(st.op, l, reply, kind)])
  }

  /** The end of the innermost loop's body. */
  function Decide(st: State, ok: bool): State {
    if ok then st.(op := st.op + 1, place := Ask)
    else if st.numGpu >= 0 then Fail(st, CannotAllocateRequested)
    else if st.tenths > 10 then Fail(st, CannotAllocate)
    else st.(tenths := st.tenths + 1, place := Settle(false))
  }

  function NextProbe(st: State, ok: bool, i: int): State {
    if i - 1 >= Sum(st.layout) then st.(place := Probe(i - 1)) else Decide(st, ok)
  }

  predicate Enabled(st: State, e: Event) {
    match st.place
    case First | Settle(_) | Probe(_) => e.Make?
    case Check(_, _) => e.Make? && st.log != []
    case Ask | AskProbe(_, _) => e.Answer?
    case Ended(_) => false
  }

  function Step(hash: Layout -> Hash, launched: bool, st: State, e: Event): State
    requires Enabled(st, e)
  {
    match st.place
    case First =>
      if e.made.err.Some? then Fail(st, Refused(e.made.err.value))
      else if !launched then Fail(st, NotLaunched)
      else st.(layout := e.made.layout, numGpu := e.made.numGpu, place := Ask)
    case Ask => AfterAnswer(hash, st, e.reply)
    case Settle(ok) => AfterSettle(hash, st.(numGpu := e.made.numGpu), ok, e.made)
    case Probe(i) =>
      if e.made.err.Some? then Fail(st.(numGpu := -1), Refused(e.made.err.value))
      else st.(numGpu := -1, place := AskProbe(i, e.made.layout))
    case AskProbe(i, probe) => AfterProbe(Send(st, probe, e.reply, Trial(i, None)), i, probe, e.reply)
    case Check(i, probe) => AfterCheck(st.(numGpu := e.made.numGpu), i, probe, e.made)
  }

  function AfterAnswer(hash: Layout -> Hash, st0: State, reply: Reply): State {
    var st := Send(st0, st0.layout, reply, Plain);
    if reply.NoReply? then Fail(st, NotAnswered)
    else if st.op < COMMIT then
      st.(past := st.past + {hash(st.layout)}, memory := reply.memory, place := Settle(reply.success))
    else if reply.success then st.(memory := reply.memory, place := Ended(Loaded))
    else Fail(st.(memory := reply.memory), CannotCommit)
  }

  function AfterSettle(hash: Layout -> Hash, st: State, ok: bool, made: Creation): State {
    if made.err.Some? then Fail(st, Refused(made.err.value))
    else if hash(made.layout) !in st.past && Sum(made.layout) <= Sum(st.layout)
    then st.(layout := made.layout, place := Ask)
    else if st.numGpu < 0 && Sum(made.layout) - Sum(st.layout) > 1 then st.(place := Probe(Sum(made.layout) - 1))
    else Decide(st, ok)
  }

  function AfterProbe(st: State, i: int, probe: Layout, reply: Reply): State {
    if reply.NoReply? then Fail(st, NotAnswered)
    else if reply.success then st.(place := Check(i, probe))
    else NextProbe(st, false, i)
  }

  function AfterCheck(st0: State, i: int, probe: Layout, made: Creation): State
    requires st0.log != []
  {
    if made.err.Some? then Fail(st0, Refused(made.err.value))
    else
      var n := |st0.log| - 1;
      var st := st0.(log := st0.log[n := st0.log[n].(kind := Trial(i, Some(Sum(made.layout))))]);
      if Sum(probe) <= Sum(made.layout) then st.(layout := probe, past := {}, op := st.op + 1, place := Ask)
      else NextProbe(st, true, i)
  }

  /** What may make the layouts: anything, or createLayout in the given environment. */
  datatype Maker = Anything | CreateLayoutIn(env: Env, requireFull: bool)

  datatype Setting = Setting(hash: Layout -> Hash, launched: bool, maker: Maker)

  /** createLayout may return c for these arguments. */
  ghost predicate Creates(env: Env, m: Memory, requireFull: bool, requested: int, tenths: nat, c: Creation) {
    && Made(env, m, requireFull, requested, tenths, c.layout)
    && Largest(env, m, requireFull, requested, tenths, Keys(env.gpus, LibraryOf), c.layout)
    && c.err == VerdictOn(env, m, requireFull, requested, c.layout)
    && c.numGpu == NextRequest(env, m, requireFull, requested, c.layout)
  }

  /** The memory information and the number of layers that the next layout is made for. */
  function MemoryFor(st: State): Memory {
    if st.place.Check? && st.log != [] && st.log[|st.log| - 1].reply.Reply? then st.log[|st.log| - 1].reply.memory
    else st.memory
  }

  function RequestFor(st: State): int { if st.place.Probe? then st.place.i else st.numGpu }

  ghost predicate Allowed(c: Setting, st: State, e: Event) {
    && Enabled(st, e)
    && (c.maker.CreateLayoutIn? && e.Make? ==>
          Creates(c.maker.env, MemoryFor(st), c.maker.requireFull, RequestFor(st), st.tenths, e.made))
  }

  ghost predicate Run(c: Setting, st: State, events: seq<Event>, st': State)
    decreases |events|
  {
    if events == [] then st == st'
    else
      var n := |events| - 1;
      exists mid :: Run(c, st, events[..n], mid) && Allowed(c, mid, events[n])
        && Step(c.hash, c.launched, mid, events[n]) == st'
  }

  ghost predicate Reaches(c: Setting, st: State, st': State) { exists events :: Run(c, st, events, st') }

  lemma ReachesItself(c: Setting, st: State)
    ensures Reaches(c, st, st)
  {
    assert Run(c, st, [], st);
  }

  lemma Then(c: Setting, st0: State, st: State, e: Event) returns (st': State)
    requires Reaches(c, st0, st) && Allowed(c, st, e)
    ensures st' == Step(c.hash, c.launched, st, e) && Reaches(c, st0, st')
  {
    hide Step, Creates;
    st' := Step(c.hash, c.launched, st, e);
    var events :| Run(c, st0, events, st);
    var more := events + [e];
    assert more[..|events|] == events;
    assert Run(c, st0, more, st');
  }

  // ---------- Which layout goes on ----------

  predicate Won(x: Exchange) { x.reply.Reply? && x.reply.success }

  /** The runner could allocate the trial, but createLayout would place fewer layers. */
  predicate Overruled(x: Exchange) { x.kind.Trial? && x.kind.check.Some? && x.kind.check.value < Sum(x.layout) }

  /** The runner could allocate the trial, and createLayout would place as many layers. */
  predicate Confirmed(x: Exchange) {
    Won(x) && x.kind.Trial? && x.kind.check.Some? && Sum(x.layout) <= x.kind.check.value
  }

  predicate IsTrial(x: Exchange, op: int, i: int) { x.op == op && x.kind.Trial? && x.kind.layers == i }

  /** The layout that exploration keeps after a trial. */
  function KeptOf(x: Exchange): Option<Layout> { if Confirmed(x) then Some(x.layout) else None }

  /** The last request is all that may differ: a trial of i layers, with what createLayout would place. */
  ghost predicate Rechecked(was: seq<Exchange>, now: seq<Exchange>, op: int, i: int, found: Option<Layout>) {
    && was != [] && |now| == |was| && now[..|was| - 1] == was[..|was| - 1]
    && var x, y := was[|was| - 1], now[|was| - 1];
       IsTrial(y, op, i) && y.layout == x.layout && y.reply == x.reply && found == KeptOf(y)
  }

  /** One more request: a trial of i layers. */
  ghost predicate OneTrial(was: seq<Exchange>, now: seq<Exchange>, op: int, i: int, ok: bool, found: Option<Layout>) {
    && |now| == |was| + 1 && now[..|was|] == was
    && var x := now[|was|]; IsTrial(x, op, i) && ok == Won(x) && found == KeptOf(x)
  }

  lemma LostTrial(was: seq<Exchange>, x: Exchange, op: int, i: int)
    requires IsTrial(x, op, i) && !Won(x)
    ensures OneTrial(was, was + [x], op, i, false, None)
  {
  }

  lemma CheckedTrial(was: seq<Exchange>, x: Exchange, now: seq<Exchange>, op: int, i: int, found: Option<Layout>)
    requires Won(x) && Rechecked(was + [x], now, op, i, found)
    ensures OneTrial(was, now, op, i, true, found)
  {
    assert (was + [x])[..|was|] == was;
  }

  /** More requests: trials of top layers and then of one less each time, none of them confirmed before the last. */
  ghost predicate Descends(was: seq<Exchange>, now: seq<Exchange>, op: int, top: int) {
    && |was| <= |now| && now[..|was|] == was
    && (forall k :: |was| <= k < |now| ==> IsTrial(now[k], op, top + |was| - k))
    && (forall k :: |was| <= k < |now| - 1 ==> !Confirmed(now[k]))
  }

  lemma DescendsFirst(log: seq<Exchange>, op: int, top: int)
    ensures Descends(log, log, op, top)
  {
  }

  lemma DescendsOn(was: seq<Exchange>, now: seq<Exchange>, next: seq<Exchange>, op: int, top: int, ok: bool,
                   found: Option<Layout>)
    requires Descends(was, now, op, top) && (now != was ==> KeptOf(now[|now| - 1]) == None)
    requires OneTrial(now, next, op, top + |was| - |now|, ok, found)
    ensures Descends(was, next, op, top) && |next| == |now| + 1 && KeptOf(next[|now|]) == found
            && ok == Won(next[|now|])
  {
    assert forall k :: 0 <= k < |now| ==> next[k] == next[..|now|][k];
    assert next[..|was|] == now[..|was|];
    assert now == was <==> |now| == |was|;
  }

  /** The last request up to the k-th that exploration did not send, or -1. */
  function LastPlain(log: seq<Exchange>, k: int): (r: int)
    requires k < |log|
    ensures -1 <= r && (r >= 0 ==> r <= k && log[r].kind.Plain?)
    ensures forall j :: r < j <= k && 0 <= j ==> log[j].kind.Trial?
    decreases k
  {
    if k < 0 then -1 else if log[k].kind.Plain? then k else LastPlain(log, k - 1)
  }

  /** The request whose layout the next operation starts with, when the k-th was the last of an operation. */
  function Source(log: seq<Exchange>, k: int): int
    requires 0 <= k < |log|
  {
    if Overruled(log[k]) then LastPlain(log, k) else k
  }

  /** After the k-th request the operation moves on to layout l: the runner could allocate the k-th; l is its layout,
      or, if createLayout overruled it as the last trial of an exploration, the layout of the last request
      before the exploration, in the same operation. */
  ghost predicate HandsOn(log: seq<Exchange>, k: int, l: Layout)
    requires 0 <= k < |log|
  {
    && Won(log[k]) && (log[k].kind.Trial? ==> log[k].kind.check.Some?)
    && 0 <= Source(log, k) && log[Source(log, k)].op == log[k].op && log[Source(log, k)].layout == l
    && (Overruled(log[k]) ==> log[k].kind.layers == Sum(l))
  }

  /** The operation of the next request is that of the k-th, or the one after it. */
  ghost predicate Follows(log: seq<Exchange>, k: int, op: int, l: Layout)
    requires 0 <= k < |log|
  {
    op == log[k].op || (op == log[k].op + 1 && HandsOn(log, k, l))
  }

  ghost predicate Orderly(log: seq<Exchange>) {
    && (forall k :: 0 <= k < |log| ==> FIT <= log[k].op <= COMMIT)
    && (log != [] ==> log[0].op == FIT)
    && (forall k {:trigger FollowsAt(log, k)} :: 0 <= k < |log| - 1 ==> FollowsAt(log, k))
  }

  ghost predicate FollowsAt(log: seq<Exchange>, k: int)
    requires 0 <= k < |log| - 1
  {
    Follows(log, k, log[k + 1].op, log[k + 1].layout)
  }

  // ---------- The invariant ----------

  function LastOf(st: State): Exchange
    requires st.log != []
  {
    st.log[|st.log| - 1]
  }

  /** The layout at hand was sent in this operation, and only trials since. */
  ghost predicate Own(st: State) {
    && st.log != [] && FIT <= st.op < COMMIT && LastOf(st).op == st.op
    && var own := LastPlain(st.log, |st.log| - 1);
       own >= 0 && st.log[own].op == st.op && st.log[own].layout == st.layout
  }

  /** What an error says did happen. */
  ghost predicate Explains(log: seq<Exchange>, launched: bool, error: Error) {
    match error
    case Refused(_) => true
    case NotLaunched => !launched
    case NotAnswered => log != [] && log[|log| - 1].reply.NoReply?
    case CannotAllocate | CannotAllocateRequested => log != [] && log[|log| - 1].op < COMMIT && !Won(log[|log| - 1])
    case CannotCommit => log != [] && log[|log| - 1].op == COMMIT && !Won(log[|log| - 1])
  }

  ghost predicate InPlace(launched: bool, st: State) {
    match st.place
    case First => st.log == [] && st.op == FIT
    case Ask => if st.log == [] then st.op == FIT else Follows(st.log, |st.log| - 1, st.op, st.layout)
    case Settle(ok) => Own(st) && ok == Won(LastOf(st)) && (ok ==> LastOf(st).kind.Plain?)
    case Probe(i) => Own(st) && Sum(st.layout) <= i
    case AskProbe(i, _) => Own(st) && Sum(st.layout) <= i
    case Check(i, probe) =>
      Own(st) && Sum(st.layout) <= i && LastOf(st).kind == Trial(i, None) && LastOf(st).layout == probe
        && Won(LastOf(st))
    case Ended(Loaded) =>
      && st.log != [] && LastOf(st).op == COMMIT && Won(LastOf(st)) && LastOf(st).kind.Plain?
      && LastOf(st).layout == st.layout && LastOf(st).reply.memory == st.memory
    case Ended(Failed(error)) => Explains(st.log, launched, error)
  }

  ghost predicate Inv(launched: bool, st: State) {
    FIT <= st.op <= COMMIT && st.tenths <= 11 && Orderly(st.log) && InPlace(launched, st)
  }

  lemma SendOrderly(log: seq<Exchange>, x: Exchange)
    requires Orderly(log) && FIT <= x.op <= COMMIT
    requires if log == [] then x.op == FIT else Follows(log, |log| - 1, x.op, x.layout)
    ensures Orderly(log + [x])
  {
    var log' := log + [x];
    forall k {:trigger FollowsAt(log', k)} | 0 <= k < |log'| - 1 ensures FollowsAt(log', k) {
      FollowsSame(log, log', k, log'[k + 1].op, log'[k + 1].layout);
      if k < |log| - 1 {
        assert FollowsAt(log, k);
      }
    }
  }

  /** The last request is all that changes. */
  lemma ReplaceOrderly(log: seq<Exchange>, kind: Kind)
    requires Orderly(log) && log != []
    ensures var n := |log| - 1; Orderly(log[n := log[n].(kind := kind)])
  {
    var n := |log| - 1;
    var log' := log[n := log[n].(kind := kind)];
    forall k {:trigger FollowsAt(log', k)} | 0 <= k < |log'| - 1 ensures FollowsAt(log', k) {
      FollowsSame(log, log', k, log'[k + 1].op, log'[k + 1].layout);
      assert FollowsAt(log, k);
    }
  }

  lemma FollowsSame(log: seq<Exchange>, log': seq<Exchange>, k: int, op: int, l: Layout)
    requires 0 <= k < |log| && |log| <= |log'| && forall j :: 0 <= j <= k ==> log'[j] == log[j]
    ensures Follows(log', k, op, l) <==> Follows(log, k, op, l)
  {
    LastPlainSame(log, log', k);
  }

  lemma {:induction false} LastPlainSame(log: seq<Exchange>, log': seq<Exchange>, k: int)
    requires k < |log| <= |log'| && forall j :: 0 <= j <= k ==> log'[j] == log[j]
    ensures LastPlain(log', k) == LastPlain(log, k)
    decreases k
  {
    if k >= 0 {
      LastPlainSame(log, log', k - 1);
    }
  }

  /** A trial leaves the layout at hand where it was. */
  lemma OwnStays(st: State, st': State)
    requires Own(st) && st'.op == st.op && st'.layout == st.layout
    requires |st'.log| >= |st.log| && (forall j :: 0 <= j < |st.log| - 1 ==> st'.log[j] == st.log[j])
    requires if |st'.log| == |st.log| then LastOf(st').op == st.op && LastOf(st').kind.Trial? && LastOf(st).kind.Trial?
             else
               && |st'.log| == |st.log| + 1 && st'.log[|st.log| - 1] == LastOf(st)
               && LastOf(st').op == st.op && LastOf(st').kind.Trial?
    ensures Own(st')
  {
    var n := |st.log| - 1;
    if |st'.log| == |st.log| {
      LastPlainSame(st.log, st'.log, n - 1);
    } else {
      LastPlainSame(st.log, st'.log, n);
    }
  }

  lemma AnswerKeeps(c: Setting, st: State, reply: Reply)
    requires Inv(c.launched, st) && st.place.Ask?
    ensures Inv(c.launched, AfterAnswer(c.hash, st, reply))
  {
    hide Orderly, Follows;
    SendOrderly(st.log, Exchange(st.op, st.layout, reply, Plain));
  }

  lemma DecideKeeps(launched: bool, st: State, ok: bool)
    requires FIT <= st.op < COMMIT && st.tenths <= 11 && Orderly(st.log) && Own(st)
    requires ok == Won(LastOf(st)) && (ok ==> HandsOn(st.log, |st.log| - 1, st.layout))
    ensures Inv(launched, Decide(st, ok))
  {
    hide Orderly, HandsOn;
  }

  lemma SettleKeeps(c: Setting, st: State, ok: bool, made: Creation)
    requires Inv(c.launched, st) && st.place == Settle(ok)
    ensures Inv(c.launched, AfterSettle(c.hash, st.(numGpu := made.numGpu), ok, made))
  {
    hide Orderly, Sum;
    var st' := st.(numGpu := made.numGpu);
    DecideKeeps(c.launched, st', ok);
  }

  /** A trial that failed or was overruled. */
  lemma NextProbeKeeps(launched: bool, st: State, ok: bool, i: int)
    requires FIT <= st.op < COMMIT && st.tenths <= 11 && Orderly(st.log) && Own(st) && Sum(st.layout) <= i
    requires LastOf(st).kind.Trial? && LastOf(st).kind.layers == i && ok == Won(LastOf(st))
             && (ok ==> Overruled(LastOf(st)))
    ensures Inv(launched, NextProbe(st, ok, i))
  {
    hide Orderly, Sum;
    if i - 1 < Sum(st.layout) {
      DecideKeeps(launched, st, ok);
    }
  }

  lemma ProbeKeeps(c: Setting, st: State, i: int, probe: Layout, reply: Reply)
    requires Inv(c.launched, st) && st.place == AskProbe(i, probe)
    ensures Inv(c.launched, AfterProbe(Send(st, probe, reply, Trial(i, None)), i, probe, reply))
  {
    hide Orderly, Sum, Follows, HandsOn;
    var st' := Send(st, probe, reply, Trial(i, None));
    SameOperation(st.log, |st.log| - 1, st.op, probe);
    SendOrderly(st.log, LastOf(st'));
    OwnStays(st, st');
    if reply.Reply? && !reply.success {
      NextProbeKeeps(c.launched, st', false, i);
    }
  }

  lemma SameOperation(log: seq<Exchange>, k: int, op: int, l: Layout)
    requires 0 <= k < |log| && op == log[k].op
    ensures Follows(log, k, op, l)
  {
  }

  lemma CheckKeeps(c: Setting, st: State, i: int, probe: Layout, made: Creation)
    requires Inv(c.launched, st) && st.place == Check(i, probe)
    ensures Inv(c.launched, AfterCheck(st.(numGpu := made.numGpu), i, probe, made))
  {
    hide Orderly, Sum;
    if made.err.None? {
      var n := |st.log| - 1;
      var kind := Trial(i, Some(Sum(made.layout)));
      var st' := st.(numGpu := made.numGpu, log := st.log[n := st.log[n].(kind := kind)]);
      ReplaceOrderly(st.log, kind);
      OwnStays(st, st');
      if Sum(probe) > Sum(made.layout) {
        NextProbeKeeps(c.launched, st', true, i);
      }
    }
  }

  lemma StepKeeps(c: Setting, st: State, e: Event)
    requires Inv(c.launched, st) && Enabled(st, e)
    ensures Inv(c.launched, Step(c.hash, c.launched, st, e))
  {
    hide AfterAnswer, AfterSettle, AfterProbe, AfterCheck, Orderly, Follows;
    match st.place
    case Ask => AnswerKeeps(c, st, e.reply);
    case Settle(ok) => SettleKeeps(c, st, ok, e.made);
    case AskProbe(i, probe) => ProbeKeeps(c, st, i, probe, e.reply);
    case Check(i, probe) => CheckKeeps(c, st, i, probe, e.made);
    case First => NothingSent();
    case _ =>
  }

  lemma NothingSent()
    ensures Orderly([])
  {
  }

  lemma {:induction false} RunKeeps(c: Setting, st: State, events: seq<Event>, st': State)
    requires Inv(c.launched, st) && Run(c, st, events, st')
    ensures Inv(c.launched, st')
    decreases |events|
  {
    hide Inv, Step, Creates;
    if events != [] {
      var n := |events| - 1;
      var mid :| Run(c, st, events[..n], mid) && Allowed(c, mid, events[n])
        && Step(c.hash, c.launched, mid, events[n]) == st';
      RunKeeps(c, st, events[..n], mid);
      StepKeeps(c, mid, events[n]);
    }
  }

  // ---------- What holds in every run ----------

  lemma InitHolds(launched: bool, numGpu: int, m: Memory)
    ensures Inv(launched, Init(numGpu, m))
  {
  }

  /** When the operation moves on after the k-th request, the runner could allocate the k-th, and the layout that goes
      on was sent in the operation just left. It is the one last answered, unless that was the last trial of an
      exploration, succeeded, and createLayout would place fewer layers; then, and only then, it is the layout
      sent before the exploration, whatever its own answer was. */
  lemma MovesOn(c: Setting, numGpu: int, m: Memory, events: seq<Event>, st: State, k: int)
    requires Run(c, Init(numGpu, m), events, st) && 0 <= k < |st.log| - 1 && st.log[k + 1].op != st.log[k].op
    ensures st.log[k + 1].op == st.log[k].op + 1 && Won(st.log[k])
    ensures var j := Source(st.log, k);
            && 0 <= j <= k && st.log[j].op == st.log[k].op && st.log[j].layout == st.log[k + 1].layout
            && (j < k ==> st.log[j].kind.Plain?)
            && (j < k <==>
                  && st.log[k].kind.Trial? && st.log[k].kind.check.Some?
                  && st.log[k].kind.check.value < Sum(st.log[k].layout))
            && (j < k ==> st.log[k].kind.layers == Sum(st.log[j].layout))
            && (j < k ==> forall i :: j < i <= k ==> st.log[i].kind.Trial?)
  {
    hide Sum;
    InitHolds(c.launched, numGpu, m);
    RunKeeps(c, Init(numGpu, m), events, st);
    assert FollowsAt(st.log, k);
  }

  /** An operation other than the first was reached through a success of the one before it. */
  lemma {:induction false} ReachedBySuccess(log: seq<Exchange>, n: int)
    requires Orderly(log) && 0 <= n < |log| && log[n].op > FIT
    ensures exists k :: 0 <= k < n && log[k].op == log[n].op - 1 && log[k + 1].op == log[n].op && Won(log[k])
  {
    hide HandsOn, LastPlain;
    assert FollowsAt(log, n - 1) by {
      assert n > 0;
    }
    if log[n - 1].op == log[n].op {
      ReachedBySuccess(log, n - 1);
    } else {
      HandsOnWins(log, n - 1, log[n].layout);
    }
  }

  lemma HandsOnWins(log: seq<Exchange>, k: int, l: Layout)
    requires 0 <= k < |log| && HandsOn(log, k, l)
    ensures Won(log[k])
  {
  }

  /** A load that ends well has committed its layout, after allocating and after fitting. */
  lemma LoadedMeans(c: Setting, numGpu: int, m: Memory, events: seq<Event>, st: State)
    requires Run(c, Init(numGpu, m), events, st) && st.place == Ended(Loaded)
    ensures var n := |st.log| - 1;
            && n >= 0 && st.log[n].op == COMMIT && Won(st.log[n]) && st.log[n].layout == st.layout
            && exists i, j ::
                 && 0 <= i < j < n && st.log[i].op == FIT && Won(st.log[i])
                 && st.log[j].op == ALLOC && Won(st.log[j])
  {
    hide Orderly;
    InitHolds(c.launched, numGpu, m);
    RunKeeps(c, Init(numGpu, m), events, st);
    ReachedBySuccess(st.log, |st.log| - 1);
    var j :| 0 <= j < |st.log| - 1 && st.log[j].op == ALLOC && Won(st.log[j]);
    ReachedBySuccess(st.log, j);
  }

  // ---------- Backing off ----------

  /** Some layout was made with this backoff, after an answer that was not a trial's. */
  ghost predicate MadeWith(c: Setting, st0: State, events: seq<Event>, tenths: int) {
    exists k :: 0 <= k < |events| && MadeAt(c, st0, events, k, tenths)
  }

  ghost predicate MadeAt(c: Setting, st0: State, events: seq<Event>, k: int, tenths: int)
    requires 0 <= k < |events|
  {
    events[k].Make? && exists mid :: Run(c, st0, events[..k], mid) && mid.place.Settle? && mid.tenths == tenths
  }

  /** No backoff was skipped. */
  ghost predicate BackedOff(c: Setting, st0: State, events: seq<Event>, st: State) {
    && (forall t :: 0 <= t < st.tenths ==> MadeWith(c, st0, events, t))
    && (st.place.Probe? || st.place.AskProbe? || st.place.Check? ==> MadeWith(c, st0, events, st.tenths))
    && (st.place == Ended(Failed(CannotAllocate)) ==>
        st.numGpu < 0 && st.tenths > 10 && MadeWith(c, st0, events, st.tenths))
    && (st.place == Ended(Failed(CannotAllocateRequested)) ==> st.numGpu >= 0)
  }

  lemma MadeBefore(c: Setting, st0: State, events: seq<Event>, tenths: int)
    requires events != [] && MadeWith(c, st0, events[..|events| - 1], tenths)
    ensures MadeWith(c, st0, events, tenths)
  {
    hide Run;
    var n := |events| - 1;
    var k :| 0 <= k < n && MadeAt(c, st0, events[..n], k, tenths);
    assert events[..n][..k] == events[..k];
    assert MadeAt(c, st0, events, k, tenths);
  }

  /** What a step may do to the backoff. */
  lemma StepBacksOff(hash: Layout -> Hash, launched: bool, st: State, e: Event)
    requires Enabled(st, e)
    ensures var st' := Step(hash, launched, st, e);
            var exploring := st.place.Probe? || st.place.AskProbe? || st.place.Check?;
            && (st'.tenths == st.tenths || (st'.tenths == st.tenths + 1 && (exploring || st.place.Settle?)))
            && (st'.place.Probe? || st'.place.AskProbe? || st'.place.Check? ==>
                  st'.tenths == st.tenths && (exploring || st.place.Settle?))
            && (st'.place == Ended(Failed(CannotAllocate)) ==>
                  st'.numGpu < 0 && st'.tenths == st.tenths > 10 && (exploring || st.place.Settle?))
            && (st'.place == Ended(Failed(CannotAllocateRequested)) ==> st'.numGpu >= 0)
  {
    hide Sum;
  }

  lemma {:induction false} BacksOff(c: Setting, numGpu: int, m: Memory, events: seq<Event>, st: State)
    requires Run(c, Init(numGpu, m), events, st)
    ensures BackedOff(c, Init(numGpu, m), events, st)
    decreases |events|
  {
    hide Step, Creates, MadeWith;
    if events != [] {
      var n, st0 := |events| - 1, Init(numGpu, m);
      var mid :| Run(c, st0, events[..n], mid) && Allowed(c, mid, events[n])
        && Step(c.hash, c.launched, mid, events[n]) == st;
      BacksOff(c, numGpu, m, events[..n], mid);
      StepBacksOff(c.hash, c.launched, mid, events[n]);
      forall t | MadeWith(c, st0, events[..n], t) ensures MadeWith(c, st0, events, t) {
        MadeBefore(c, st0, events, t);
      }
      if mid.place.Settle? {
        MadeNow(c, st0, events, mid);
      }
    }
  }

  lemma MadeNow(c: Setting, st0: State, events: seq<Event>, mid: State)
    requires events != [] && Run(c, st0, events[..|events| - 1], mid) && mid.place.Settle?
             && Enabled(mid, events[|events| - 1])
    ensures MadeWith(c, st0, events, mid.tenths)
  {
    hide Run;
    assert MadeAt(c, st0, events, |events| - 1, mid.tenths);
  }

  /** A load gives up only without a request, and after layouts were made with every backoff from none to eleven
      tenths. */
  lemma GivesUpLast(c: Setting, numGpu: int, m: Memory, events: seq<Event>, st: State)
    requires Run(c, Init(numGpu, m), events, st) && st.place == Ended(Failed(CannotAllocate))
    ensures st.numGpu < 0 && st.tenths == 11
    ensures forall t :: 0 <= t <= 11 ==> MadeWith(c, Init(numGpu, m), events, t)
  {
    hide Run, MadeWith;
    InitHolds(c.launched, numGpu, m);
    RunKeeps(c, Init(numGpu, m), events, st);
    BacksOff(c, numGpu, m, events, st);
  }

  // ---------- With a requested number of layers ----------

  ghost predicate Straight(st: State) {
    && st.numGpu >= 0 && (forall k :: 0 <= k < |st.log| ==> st.log[k].kind.Plain?)
    && (st.place.First? || st.place.Ask? || st.place.Settle? || st.place.Ended?)
  }

  lemma {:induction false} NoExploration(c: Setting, st: State, events: seq<Event>, st': State)
    requires c.maker.CreateLayoutIn? && Straight(st) && Run(c, st, events, st')
    ensures Straight(st')
    decreases |events|
  {
    hide Step, Creates, Straight;
    if events != [] {
      var n := |events| - 1;
      var mid :| Run(c, st, events[..n], mid) && Allowed(c, mid, events[n])
        && Step(c.hash, c.launched, mid, events[n]) == st';
      NoExploration(c, st, events[..n], mid);
      StraightOn(c, mid, events[n]);
    }
  }

  lemma StraightOn(c: Setting, st: State, e: Event)
    requires c.maker.CreateLayoutIn? && Straight(st) && Allowed(c, st, e)
    ensures Straight(Step(c.hash, c.launched, st, e))
  {
    hide Sum, Made, Largest, VerdictOn, Vram;
  }

  // ---------- Every layout sent was made of what was known ----------

  /** The memory information is the first one, or from the answer to a request before the n-th. */
  ghost predicate Known(m0: Memory, log: seq<Exchange>, n: int, m: Memory) {
    m == m0 || exists k :: 0 <= k < n && k < |log| && log[k].reply.Reply? && log[k].reply.memory == m
  }

  /** createLayout made this of information known by then. */
  ghost predicate MadeOfKnown(maker: Maker, m0: Memory, log: seq<Exchange>, n: int, c: Creation)
    requires maker.CreateLayoutIn?
  {
    exists m, requested, tenths {:trigger Creates(maker.env, m, maker.requireFull, requested, tenths, c)} ::
      Known(m0, log, n, m) && 0 <= tenths <= 11 && Creates(maker.env, m, maker.requireFull, requested, tenths, c)
  }

  /** createLayout made this layout of information known by then, and did not refuse it. */
  ghost predicate Justified(maker: Maker, m0: Memory, log: seq<Exchange>, n: int, l: Layout)
    requires maker.CreateLayoutIn?
  {
    exists c: Creation :: c.err == None && c.layout == l && MadeOfKnown(maker, m0, log, n, c)
  }

  /** createLayout refused a layout made of information known by then. */
  ghost predicate RefusedOne(maker: Maker, m0: Memory, log: seq<Exchange>, why: Refusal)
    requires maker.CreateLayoutIn?
  {
    exists c: Creation :: c.err == Some(why) && MadeOfKnown(maker, m0, log, |log|, c)
  }

  /** The layouts at hand are justified. */
  ghost predicate Founded(maker: Maker, m0: Memory, st: State)
    requires maker.CreateLayoutIn?
  {
    && Known(m0, st.log, |st.log|, st.memory)
    && (forall k :: 0 <= k < |st.log| ==> Justified(maker, m0, st.log, k, st.log[k].layout))
    && (!st.place.First? && !st.place.Ended? ==> Justified(maker, m0, st.log, |st.log|, st.layout))
    && (st.place.AskProbe? || st.place.Check? ==> Justified(maker, m0, st.log, |st.log|, st.place.probe))
    && (forall why :: st.place == Ended(Failed(Refused(why))) ==> RefusedOne(maker, m0, st.log, why))
  }

  /** Later requests, and noting the outcome of a trial, take nothing away from what is known. */
  ghost predicate Extends(log: seq<Exchange>, log': seq<Exchange>) {
    |log| <= |log'| && forall k :: 0 <= k < |log| ==> log'[k].reply == log[k].reply && log'[k].layout == log[k].layout
  }

  lemma JustifiedLater(maker: Maker, m0: Memory, log: seq<Exchange>, log': seq<Exchange>, n: int, n': int, l: Layout)
    requires maker.CreateLayoutIn? && Extends(log, log') && n <= n' && n <= |log| && Justified(maker, m0, log, n, l)
    ensures Justified(maker, m0, log', n', l)
  {
    hide Creates;
    var c: Creation :| c.err == None && c.layout == l && MadeOfKnown(maker, m0, log, n, c);
    var m, requested, tenths :|
      Known(m0, log, n, m) && 0 <= tenths <= 11 && Creates(maker.env, m, maker.requireFull, requested, tenths, c);
    assert Known(m0, log', n', m);
    assert MadeOfKnown(maker, m0, log', n', c);
  }

  /** What is left of Founded when the log grows. */
  lemma FoundedLater(maker: Maker, m0: Memory, st: State, log': seq<Exchange>)
    requires maker.CreateLayoutIn? && Founded(maker, m0, st) && Extends(st.log, log')
    ensures forall k :: 0 <= k < |st.log| ==> Justified(maker, m0, log', k, log'[k].layout)
    ensures !st.place.First? && !st.place.Ended? ==>
              Justified(maker, m0, log', |log'|, st.layout) && Justified(maker, m0, log', |st.log|, st.layout)
    ensures st.place.AskProbe? || st.place.Check? ==>
              Justified(maker, m0, log', |log'|, st.place.probe) && Justified(maker, m0, log', |st.log|, st.place.probe)
    ensures Known(m0, log', |log'|, st.memory)
  {
    hide Justified;
    forall k | 0 <= k < |st.log| ensures Justified(maker, m0, log', k, log'[k].layout) {
      JustifiedLater(maker, m0, st.log, log', k, k, st.log[k].layout);
    }
    var n := |st.log|;
    if !st.place.First? && !st.place.Ended? {
      JustifiedLater(maker, m0, st.log, log', n, |log'|, st.layout);
      JustifiedLater(maker, m0, st.log, log', n, n, st.layout);
    }
    if st.place.AskProbe? || st.place.Check? {
      JustifiedLater(maker, m0, st.log, log', n, |log'|, st.place.probe);
      JustifiedLater(maker, m0, st.log, log', n, n, st.place.probe);
    }
  }

  lemma MakeFounds(c: Setting, m0: Memory, st: State, e: Event)
    requires c.maker.CreateLayoutIn? && Inv(c.launched, st) && Founded(c.maker, m0, st) && Allowed(c, st, e) && e.Make?
    ensures MadeOfKnown(c.maker, m0, st.log, |st.log|, e.made)
    ensures e.made.err == None ==> Justified(c.maker, m0, st.log, |st.log|, e.made.layout)
    ensures e.made.err.Some? ==> RefusedOne(c.maker, m0, st.log, e.made.err.value)
  {
    hide Creates, Orderly, Own, Follows;
    assert Known(m0, st.log, |st.log|, MemoryFor(st));
  }

  lemma AnswerFounded(c: Setting, m0: Memory, st: State, e: Event)
    requires c.maker.CreateLayoutIn? && Founded(c.maker, m0, st) && Enabled(st, e) && e.Answer?
    ensures Founded(c.maker, m0, Step(c.hash, c.launched, st, e))
  {
    hide Justified, RefusedOne, Sum;
    var st' := Step(c.hash, c.launched, st, e);
    var n := |st.log|;
    assert Extends(st.log, st'.log) && |st'.log| == n + 1 && st'.log[n].reply == e.reply;
    FoundedLater(c.maker, m0, st, st'.log);
    assert e.reply.Reply? ==> Known(m0, st'.log, n + 1, e.reply.memory);
    assert Justified(c.maker, m0, st'.log, n, st'.log[n].layout);
  }

  /** Making a layout changes which layouts are at hand, and at most what the last request was for. */
  ghost predicate Hands(st: State, st': State, made: Creation) {
    && Extends(st.log, st'.log) && |st'.log| == |st.log| && st'.memory == st.memory && !st'.place.First?
    && !st'.place.Check?
    && (!st'.place.Ended? ==>
          || (st'.layout == made.layout && made.err == None)
          || (st'.layout == st.layout && !st.place.First? && !st.place.Ended?)
          || (st.place.Check? && st'.layout == st.place.probe))
    && (st'.place.AskProbe? ==> made.err == None && st'.place.probe == made.layout)
    && (st'.place.Ended? && st'.place.outcome.Failed? && st'.place.outcome.error.Refused? ==>
          made.err == Some(st'.place.outcome.error.why) && st'.log == st.log)
  }

  lemma MakeHands(c: Setting, st: State, e: Event)
    requires Enabled(st, e) && e.Make?
    ensures Hands(st, Step(c.hash, c.launched, st, e), e.made)
  {
    hide Sum;
  }

  lemma HandFounded(maker: Maker, m0: Memory, st: State, st': State, made: Creation)
    requires maker.CreateLayoutIn? && Founded(maker, m0, st) && Hands(st, st', made)
    requires made.err == None ==> Justified(maker, m0, st.log, |st.log|, made.layout)
    requires made.err.Some? ==> RefusedOne(maker, m0, st.log, made.err.value)
    ensures Founded(maker, m0, st')
  {
    hide Justified, RefusedOne;
    FoundedLater(maker, m0, st, st'.log);
    if made.err == None {
      JustifiedLater(maker, m0, st.log, st'.log, |st.log|, |st.log|, made.layout);
    }
  }

  lemma MakeFounded(c: Setting, m0: Memory, st: State, e: Event)
    requires c.maker.CreateLayoutIn? && Inv(c.launched, st) && Founded(c.maker, m0, st) && Allowed(c, st, e) && e.Make?
    ensures Founded(c.maker, m0, Step(c.hash, c.launched, st, e))
  {
    hide Creates, Inv, Justified, RefusedOne, Founded, Step, Hands;
    MakeFounds(c, m0, st, e);
    MakeHands(c, st, e);
    HandFounded(c.maker, m0, st, Step(c.hash, c.launched, st, e), e.made);
  }

  /** In every run with createLayout, every layout sent was made of information known by then and was not refused. */
  lemma {:induction false} RunFounded(c: Setting, numGpu: int, m0: Memory, events: seq<Event>, st: State)
    requires c.maker.CreateLayoutIn? && Run(c, Init(numGpu, m0), events, st)
    ensures Founded(c.maker, m0, st)
    decreases |events|
  {
    hide Step, Creates, Founded, Inv;
    if events == [] {
      InitFounded(c.maker, numGpu, m0);
    } else {
      var n := |events| - 1;
      var mid :| Run(c, Init(numGpu, m0), events[..n], mid) && Allowed(c, mid, events[n])
        && Step(c.hash, c.launched, mid, events[n]) == st;
      InitHolds(c.launched, numGpu, m0);
      RunKeeps(c, Init(numGpu, m0), events[..n], mid);
      RunFounded(c, numGpu, m0, events[..n], mid);
      if events[n].Make? {
        MakeFounded(c, m0, mid, events[n]);
      } else {
        AnswerFounded(c, m0, mid, events[n]);
      }
    }
  }

  lemma InitFounded(maker: Maker, numGpu: int, m0: Memory)
    requires maker.CreateLayoutIn?
    ensures Founded(maker, m0, Init(numGpu, m0))
  {
  }
}
