/** The set of loaded runners as the scheduler's goroutines change it (server/sched.go), one step per section
    under a lock: the pending loop, the completed loop, and whatever makes runners expire. */
module Scheduler {
  import opened Options

  /** A runner, as far as unloading looks at it. */
  datatype Runner = Runner(path: string, pid: int)

  /** Where the pending loop is, and the model it is working on. */
  datatype Place =
    | Idle
    | Look(path: string)
    | Seen(path: string, found: bool, count: nat)
    | Fetch(path: string, count: nat)
    | Call(path: string, full: bool)
    | Loading(path: string, full: bool)
    | Insert(path: string, runner: Runner)
    | Evict(path: string)
    | Expire(path: string)
    | Wait(path: string)
    | Panicked
    | Stopped

  /** maxRunners is zero until it is set; loading is the model path of the server being loaded. */
  datatype State = State(maxRunners: nat, loaded: map<string, Runner>, loading: Option<string>, place: Place)

  datatype Event =
    | Receive(path: string)
    | Snapshot
    | Use
    | Reload
    | AtLimit
    | Prepare(gpus: nat)
    | MetadataFails
    | MetadataRead
    | NewServer(ok: bool)
    | LoadNeedsRoom
    | LoadFails
    | LoadSucceeds(pid: int)
    | Publish
    | FindRunner
    | SendExpired
    | Unloaded
    | Stop
    | ExpiredEvent(runner: Runner)

  const DEFAULT_PER_GPU := 3

  function Limit(s: State, gpus: nat): nat {
    if s.maxRunners > 0 then s.maxRunners else DEFAULT_PER_GPU * if gpus > 1 then gpus else 1
  }

  predicate ReachedLimit(s: State, count: nat) { s.maxRunners > 0 && count >= s.maxRunners }

  /** The pending loop can take the step, or the completed loop can receive the runner. */
  predicate Enabled(s: State, e: Event) {
    match e
    case Receive(path) => s.place == Idle
    case Snapshot => s.place.Look?
    case Use | Reload => s.place.Seen? && s.place.found
    case AtLimit => s.place.Seen? && !s.place.found && ReachedLimit(s, s.place.count)
    case Prepare(_) => s.place.Seen? && !s.place.found && !ReachedLimit(s, s.place.count)
    case MetadataFails | MetadataRead => s.place.Fetch?
    case NewServer(_) => s.place.Call?
    case LoadNeedsRoom | LoadFails | LoadSucceeds(_) => s.place.Loading?
    case Publish => s.place.Insert?
    case FindRunner => s.place.Evict?
    case SendExpired => s.place.Expire?
    case Unloaded => s.place.Wait?
    case Stop => s.place.Idle? || s.place.Wait?
    case ExpiredEvent(_) => true
  }

  function Step(s: State, e: Event): State
    requires Enabled(s, e)
  {
    match e
    case Receive(path) => s.(place := Look(path))
    case Snapshot => s.(place := Seen(s.place.path, s.place.path in s.loaded, |s.loaded|))
    case Use => s.(place := Idle)
    case Reload => s.(place := Expire(s.place.path))
    case AtLimit => s.(place := Evict(s.place.path))
    case Prepare(gpus) => s.(maxRunners := Limit(s, gpus), place := Fetch(s.place.path, s.place.count))
    case MetadataFails => s.(place := Idle)
    case MetadataRead => s.(place := Call(s.place.path, s.place.count > 0))
    case NewServer(ok) =>
      if s.loading.Some?
      then s.(place := if s.loading.value != s.place.path then Panicked else Loading(s.place.path, s.place.full))
      else if ok then s.(loading := Some(s.place.path), place := Loading(s.place.path, s.place.full))
      else s.(place := Idle)
    case LoadNeedsRoom =>
      if s.place.full then s.(place := Evict(s.place.path)) else s.(loading := None, place := Idle)
    case LoadFails => s.(loading := None, place := Idle)
    case LoadSucceeds(pid) => s.(place := Insert(s.place.path, Runner(s.place.path, pid)))
    case Publish => s.(loaded := s.loaded[s.place.path := s.place.runner], loading := None, place := Idle)
    case FindRunner => s.(place := if |s.loaded| == 0 then Look(s.place.path) else Expire(s.place.path))
    case SendExpired => s.(place := Wait(s.place.path))
    case Unloaded => s.(place := Look(s.place.path))
    case Stop => s.(place := Stopped)
    case ExpiredEvent(runner) => s.(loaded := AfterExpired(s.loaded, runner))
  }

  /** The completed loop: a duplicate event and an orphaned runner leave the set alone. */
  function AfterExpired(loaded: map<string, Runner>, runner: Runner): map<string, Runner> {
    if runner.path !in loaded then loaded
    else if runner.pid != loaded[runner.path].pid then loaded
    else loaded - {runner.path}
  }

  // ---------- The invariant ----------

  /** The model the pending loop is working on. */
  function Working(place: Place): Option<string> {
    match place
    case Idle | Panicked | Stopped => None
    case _ => Some(place.path)
  }

  /** What the pending loop has found out stays true while others only remove runners. */
  ghost predicate Knows(s: State) {
    match s.place
    case Seen(path, found, count) =>
      |s.loaded| <= count && (s.maxRunners == 0 ==> count == 0)
        && (if found then s.loading != Some(path) else path !in s.loaded)
    case Fetch(path, count) => |s.loaded| <= count && count < s.maxRunners && path !in s.loaded
    case Call(path, full) => |s.loaded| < s.maxRunners && path !in s.loaded && (!full ==> |s.loaded| == 0)
    case Loading(path, full) =>
      |s.loaded| < s.maxRunners && path !in s.loaded && (!full ==> |s.loaded| == 0) && s.loading == Some(path)
    case Insert(path, runner) =>
      |s.loaded| < s.maxRunners && path !in s.loaded && s.loading == Some(path) && runner.path == path
    case _ => true
  }

  ghost predicate Inv(s: State) {
    && |s.loaded| <= s.maxRunners
    && (forall path :: path in s.loaded ==> s.loaded[path].path == path)
    && (s.loading.Some? ==> s.loading.value !in s.loaded)
    && Knows(s)
  }

  function Init(maxRunners: nat): State { State(maxRunners, map[], None, Idle) }

  lemma Removed(loaded: map<string, Runner>, path: string)
    requires path in loaded
    ensures |loaded - {path}| < |loaded|
  {
    assert loaded == (loaded - {path})[path := loaded[path]];
  }

  lemma StepKeeps(s: State, e: Event)
    requires Inv(s) && Enabled(s, e)
    ensures Inv(Step(s, e))
  {
    if e.ExpiredEvent? {
      ExpiredKeeps(s, e.runner);
    }
  }

  lemma ExpiredKeeps(s: State, runner: Runner)
    requires Inv(s)
    ensures Inv(s.(loaded := AfterExpired(s.loaded, runner)))
  {
    if AfterExpired(s.loaded, runner) != s.loaded {
      Removed(s.loaded, runner.path);
    }
  }

  ghost predicate Run(s: State, events: seq<Event>, s': State)
    decreases |events|
  {
    if events == [] then s == s'
    else Enabled(s, events[0]) && Run(Step(s, events[0]), events[1..], s')
  }

  lemma {:induction false} RunKeeps(s: State, events: seq<Event>, s': State)
    requires Inv(s) && Run(s, events, s')
    ensures Inv(s')
    decreases |events|
  {
    if events != [] {
      StepKeeps(s, events[0]);
      RunKeeps(Step(s, events[0]), events[1..], s');
    }
  }

  /** In every interleaving, the limit holds once it is set and nothing is loaded before; and publishing a runner
      never finds an older one under its path. */
  lemma NeverTooMany(maxRunners: nat, events: seq<Event>, s: State)
    requires Run(Init(maxRunners), events, s)
    ensures |s.loaded| <= s.maxRunners
    ensures Enabled(s, Publish) ==>
            s.place.path !in s.loaded && |Step(s, Publish).loaded| == |s.loaded| + 1 <= s.maxRunners
    ensures s.place.Loading? && !s.place.full ==> s.loaded == map[]
  {
    RunKeeps(Init(maxRunners), events, s);
  }

  /** The limit never changes once it is set. */
  lemma {:induction false} LimitStays(s: State, events: seq<Event>, s': State)
    requires Run(s, events, s') && s.maxRunners > 0
    ensures s'.maxRunners == s.maxRunners
    decreases |events|
  {
    if events != [] {
      LimitStays(Step(s, events[0]), events[1..], s');
    }
  }

  /** An expired runner goes exactly if it is the one loaded under its path. */
  lemma ExpiredExact(s: State, runner: Runner)
    ensures var s' := Step(s, ExpiredEvent(runner));
            && s' == s.(loaded := s'.loaded)
            && (runner.path in s.loaded && s.loaded[runner.path].pid == runner.pid ==>
                  s'.loaded == s.loaded - {runner.path})
            && (runner.path !in s.loaded || s.loaded[runner.path].pid != runner.pid ==> s'.loaded == s.loaded)
  {
  }

  // ---------- The load after an eviction ----------

  /** A server is being loaded only for the model being worked on. */
  ghost predicate Tidy(s: State) {
    s.place != Panicked && (s.loading.Some? ==> Working(s.place) == s.loading || s.place == Stopped)
  }

  /** The model's metadata cannot be read again when the load is retried after an eviction. */
  predicate Abandons(s: State, e: Event) { e == MetadataFails && s.loading.Some? }

  ghost predicate NeverAbandons(s: State, events: seq<Event>)
    decreases |events|
  {
    events == [] || (Enabled(s, events[0]) && !Abandons(s, events[0]) && NeverAbandons(Step(s, events[0]), events[1..]))
  }

  lemma StepTidy(s: State, e: Event)
    requires Inv(s) && Tidy(s) && Enabled(s, e)
    ensures Tidy(Step(s, e)) <==> !Abandons(s, e)
  {
  }

  /** Unless a retried load is abandoned, no other model is ever attempted in its place. */
  lemma {:induction false} NeverPanics(s: State, events: seq<Event>, s': State)
    requires Inv(s) && Tidy(s) && Run(s, events, s') && NeverAbandons(s, events)
    ensures Tidy(s')
    decreases |events|
  {
    if events != [] {
      StepKeeps(s, events[0]);
      StepTidy(s, events[0]);
      NeverPanics(Step(s, events[0]), events[1..], s');
    }
  }

  ghost predicate Reaches(s: State, s': State) { exists events :: Run(s, events, s') }

  lemma {:induction false} RunSnoc(s: State, events: seq<Event>, s': State, e: Event)
    requires Run(s, events, s') && Enabled(s', e)
    ensures Run(s, events + [e], Step(s', e))
    decreases |events|
  {
    if events == [] {
      assert [e][1..] == [];
      assert Run(Step(s, e), [], Step(s, e));
      assert events + [e] == [e];
    } else {
      assert (events + [e])[1..] == events[1..] + [e];
      RunSnoc(Step(s, events[0]), events[1..], s', e);
    }
  }

  lemma Then(s0: State, s: State, e: Event) returns (s': State)
    requires Reaches(s0, s) && Enabled(s, e)
    ensures s' == Step(s, e) && Reaches(s0, s')
  {
    s' := Step(s, e);
    var events :| Run(s0, events, s);
    RunSnoc(s0, events, s, e);
  }

  lemma ReachesItself(s: State)
    ensures Reaches(s, s)
  {
    assert Run(s, [], s);
  }

  /** Once one is abandoned, the load of any other model that comes next panics. */
  lemma AbandonedPanics(s0: State, s: State, path: string, gpus: nat)
    requires Reaches(s0, s) && Inv(s) && Tidy(s) && Enabled(s, MetadataFails) && Abandons(s, MetadataFails)
    requires path != s.place.path && path !in s.loaded
    ensures Reaches(s0, s.(place := Panicked))
  {
    hide Reaches;
    var a := Then(s0, s, MetadataFails);
    var b := Then(s0, a, Receive(path));
    var c := Then(s0, b, Snapshot);
    var d := Then(s0, c, Prepare(gpus));
    var e := Then(s0, d, MetadataRead);
    var f := Then(s0, e, NewServer(true));
  }

  /** A model that is not loaded can be loaded where there is room, and sets the limit if there is none: three for each
      GPU. */
  lemma CanLoad(s0: State, st: State, path: string, gpus: nat, pid: int) returns (s: State)
    requires Reaches(s0, st) && st.place.Look? && st.place.path == path && path !in st.loaded
    requires st.loading == None && (st.maxRunners == 0 || |st.loaded| < st.maxRunners)
    ensures Reaches(s0, s) && s == State(if st.maxRunners > 0 then st.maxRunners else if gpus <= 1 then 3 else 3 * gpus,
                                         st.loaded[path := Runner(path, pid)], None, Idle)
  {
    hide Reaches;
    s := Then(s0, st, Snapshot);
    s := Then(s0, s, Prepare(gpus));
    s := Then(s0, s, MetadataRead);
    s := Then(s0, s, NewServer(true));
    s := Then(s0, s, LoadSucceeds(pid));
    s := Then(s0, s, Publish);
  }

  /** A load is required to fit in full exactly if other runners were there when it was decided; then it makes room for
      itself when it does not fit, and otherwise it is given up. */
  lemma RoomDemanded(s0: State, st: State, path: string, gpus: nat) returns (s: State)
    requires Reaches(s0, st) && st.place.Look? && st.place.path == path && path !in st.loaded
    requires st.loading == None && (st.maxRunners == 0 || |st.loaded| < st.maxRunners)
    ensures Reaches(s0, s) && s.place == Loading(path, st.loaded != map[]) && s.loaded == st.loaded
    ensures Step(s, LoadNeedsRoom).place == if st.loaded != map[] then Evict(path) else Idle
    ensures Step(s, LoadNeedsRoom).loading == if st.loaded != map[] then Some(path) else None
  {
    hide Reaches;
    assert |st.loaded| == 0 <==> st.loaded == map[];
    s := Then(s0, st, Snapshot);
    s := Then(s0, s, Prepare(gpus));
    s := Then(s0, s, MetadataRead);
    s := Then(s0, s, NewServer(true));
  }

  /** And where the limit is reached it can be loaded in place of any runner that expires, and of no other. */
  lemma CanReplace(s0: State, st: State, path: string, gone: string, pid: int) returns (s: State)
    requires Reaches(s0, st) && Inv(st) && st.place == Idle && st.loading == None && path !in st.loaded
    requires gone in st.loaded && |st.loaded| == st.maxRunners
    ensures Reaches(s0, s)
    ensures s == State(st.maxRunners, (st.loaded - {gone})[path := Runner(path, pid)], None, Idle)
  {
    hide Reaches;
    Removed(st.loaded, gone);
    s := Then(s0, st, Receive(path));
    s := Then(s0, s, Snapshot);
    s := Then(s0, s, AtLimit);
    s := Then(s0, s, FindRunner);
    s := Then(s0, s, SendExpired);
    s := Then(s0, s, ExpiredEvent(st.loaded[gone]));
    s := Then(s0, s, Unloaded);
    s := CanLoad(s0, s, path, 1, pid);
  }

  /** A model that is loaded is used at once, and nothing changes. */
  lemma CanUse(s0: State, st: State, path: string)
    requires Reaches(s0, st) && st.place == Idle && path in st.loaded
    ensures exists s :: Reaches(s0, s) && Enabled(s, Use) && Step(s, Use) == st && s.place.path == path
  {
    hide Reaches;
    var s := Then(s0, st, Receive(path));
    s := Then(s0, s, Snapshot);
  }

  /** A model is loaded from the start. */
  lemma FirstLoad(path: string, pid: int) returns (s: State)
    ensures Reaches(Init(2), s) && s == State(2, map[path := Runner(path, pid)], None, Idle)
  {
    ReachesItself(Init(2));
    hide Reaches;
    s := Then(Init(2), Init(2), Receive(path));
    s := CanLoad(Init(2), s, path, 1, pid);
  }

  /** A second model needs the room of the first. */
  lemma SecondNeedsRoom(first: string, second: string) returns (s: State)
    requires first != second
    ensures Reaches(Init(2), s) && s == State(2, map[first := Runner(first, 1)], Some(second), Expire(second))
  {
    s := FirstLoad(first, 1);
    hide Reaches;
    s := Then(Init(2), s, Receive(second));
    s := Then(Init(2), s, Snapshot);
    s := Then(Init(2), s, Prepare(1));
    s := Then(Init(2), s, MetadataRead);
    s := Then(Init(2), s, NewServer(true));
    s := Then(Init(2), s, LoadNeedsRoom);
    s := Then(Init(2), s, FindRunner);
  }

  /** A second model needs the room of the first, and by the time it has it, its metadata can no longer be read. */
  lemma PanicReachable(first: string, second: string, third: string)
    requires first != second && second != third
    ensures exists s :: Reaches(Init(2), s) && s.place == Panicked
  {
    var s := SecondNeedsRoom(first, second);
    hide Reaches;
    s := Then(Init(2), s, SendExpired);
    s := Then(Init(2), s, ExpiredEvent(Runner(first, 1)));
    assert s == State(2, map[], Some(second), Wait(second));
    s := Then(Init(2), s, Unloaded);
    s := Then(Init(2), s, Snapshot);
    s := Then(Init(2), s, Prepare(1));
    assert s == State(2, map[], Some(second), Fetch(second, 0));
    AbandonedPanics(Init(2), s, third, 1);
    assert s.(place := Panicked).place == Panicked;
  }
}
