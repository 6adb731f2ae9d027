/** The supervisor of the detection workers, as steps between two awaits of its event loop. */
module Reconciliation {
  import opened Wrappers

  datatype Zone = Zone(id: int, mode: string, classesJson: string, pointsJson: string, updatedAt: string)

  datatype Detection = Detection(enabled: bool, sampleFps: real, confidence: real, backend: string)

  datatype Camera = Camera(id: int, enabled: int, streamUri: string, settings: Option<Detection>, zones: seq<Zone>)

  datatype Fingerprint = Fingerprint(streamUri: string, sampleFps: real, confidence: real, backend: string, zones: seq<Zone>)

  type Wants = map<int, Fingerprint>

  /** An enabled camera with a stream and with detection turned on. */
  predicate Qualifies(c: Camera) {
    c.enabled == 1 && c.streamUri != "" && c.settings.Some? && c.settings.value.enabled
  }

  function Print(c: Camera): Fingerprint
    requires Qualifies(c)
  {
    Fingerprint(c.streamUri, c.settings.value.sampleFps, c.settings.value.confidence, c.settings.value.backend, c.zones)
  }

  ghost predicate DistinctIds(cameras: seq<Camera>) {
    forall i, j :: 0 <= i < j < |cameras| ==> cameras[i].id != cameras[j].id
  }

  /** The cameras that should have a worker, with the configuration it should run. */
  method Wanted(cameras: seq<Camera>) returns (wanted: Wants)
    requires DistinctIds(cameras)
    ensures forall c :: c in wanted <==> (exists i ::
      0 <= i < |cameras| && cameras[i].id == c && cameras[i].enabled == 1 && cameras[i].streamUri != ""
      && cameras[i].settings.Some? && cameras[i].settings.value.enabled)
    ensures forall i :: 0 <= i < |cameras| && cameras[i].id in wanted ==>
      var camera, want := cameras[i], wanted[cameras[i].id];
      && camera.settings.Some? && want.streamUri == camera.streamUri && want.sampleFps == camera.settings.value.sampleFps
      && want.confidence == camera.settings.value.confidence && want.backend == camera.settings.value.backend
      && want.zones == camera.zones
  {
    wanted := map[];
    for n := 0 to |cameras|
      invariant forall c :: c in wanted <==> exists i :: 0 <= i < n && cameras[i].id == c && Qualifies(cameras[i])
      invariant forall i :: 0 <= i < n && Qualifies(cameras[i]) ==>
        cameras[i].id in wanted && wanted[cameras[i].id] == Print(cameras[i])
    {
      var camera := cameras[n];
      if camera.enabled != 1 || camera.streamUri == "" { continue; }
      if camera.settings.None? || !camera.settings.value.enabled { continue; }
      wanted := wanted[camera.id := Print(camera)];
    }
  }

  // ----- the steps -----

  datatype Worker = Worker(fingerprint: Fingerprint, task: nat)

  /** Where the supervisor stands: asleep after a pass for `wanted`; going through its workers, `todo` still
      to check; waiting for the task of a camera it cancelled; creating, `todo` still to look at; waiting
      for all tasks on the way out; gone. */
  datatype Phase =
    | Idle(wanted: Wants)
    | Checking(wanted: Wants, todo: set<int>)
    | Awaiting(wanted: Wants, todo: set<int>, camera: int)
    | Creating(wanted: Wants, todo: set<int>)
    | Stopping
    | Stopped

  /** `owner[t]` is the camera that task t was created for, `live` the tasks that have not ended. */
  datatype State = State(workers: map<int, Worker>, live: set<nat>, owner: seq<int>, phase: Phase)

  const AT_START := State(map[], {}, [], Idle(map[]))

  datatype Step =
    | Begin(wanted: Wants)
    | Check(camera: int)
    | Resume
    | TurnToCreate
    | Create(camera: int)
    | Sleep
    | Ends(task: nat)
    | Stop
    | Leave

  /** Other tasks run only while the supervisor waits. */
  predicate Waits(p: Phase) { p.Idle? || p.Awaiting? || p.Stopping? }

  predicate Enabled(s: State, x: Step) {
    match x
    case Begin(_) => s.phase.Idle?
    case Check(c) => s.phase.Checking? && c in s.phase.todo && c in s.workers
    case Resume => s.phase.Awaiting? && s.phase.camera in s.workers && s.workers[s.phase.camera].task !in s.live
    case TurnToCreate => s.phase.Checking? && s.phase.todo == {}
    case Create(c) => s.phase.Creating? && c in s.phase.todo && c in s.phase.wanted
    case Sleep => s.phase.Creating? && s.phase.todo == {}
    case Ends(t) => Waits(s.phase) && t in s.live
    case Stop => s.phase.Idle? || s.phase.Awaiting?
    case Leave => s.phase.Stopping? && forall c :: c in s.workers ==> s.workers[c].task !in s.live
  }

  /** The task of a worker has ended, or its camera is wanted otherwise or not at all. */
  predicate Outdated(s: State, wanted: Wants, c: int)
    requires c in s.workers
  {
    s.workers[c].task !in s.live || c !in wanted || wanted[c] != s.workers[c].fingerprint
  }

  function Created(s: State, c: int, fingerprint: Fingerprint): State {
    s.(workers := s.workers[c := Worker(fingerprint, |s.owner|)], live := s.live + {|s.owner|}, owner := s.owner + [c])
  }

  function Apply(s: State, x: Step): State
    requires Enabled(s, x)
  {
    match x
    case Begin(wanted) => s.(phase := Checking(wanted, s.workers.Keys))
    case Check(c) =>
      var p := s.phase;
      s.(phase := if Outdated(s, p.wanted, c) then Awaiting(p.wanted, p.todo - {c}, c) else Checking(p.wanted, p.todo - {c}))
    case Resume => s.(workers := s.workers - {s.phase.camera}, phase := Checking(s.phase.wanted, s.phase.todo))
    case TurnToCreate => s.(phase := Creating(s.phase.wanted, s.phase.wanted.Keys))
    case Create(c) =>
      var p := s.phase;
      (if c in s.workers then s else Created(s, c, p.wanted[c])).(phase := Creating(p.wanted, p.todo - {c}))
    case Sleep => s.(phase := Idle(s.phase.wanted))
    case Ends(t) => s.(live := s.live - {t})
    case Stop => s.(phase := Stopping)
    case Leave => s.(phase := Stopped)
  }

  function Follow(s: State, steps: seq<Step>): Option<State>
    decreases |steps|
  {
    if steps == [] then Some(s)
    else
      match Follow(s, steps[..|steps| - 1])
      case None => None
      case Some(m) => if Enabled(m, steps[|steps| - 1]) then Some(Apply(m, steps[|steps| - 1])) else None
  }

  lemma {:induction false} FollowSnoc(s: State, steps: seq<Step>, x: Step)
    requires Follow(s, steps).Some? && Enabled(Follow(s, steps).value, x)
    ensures Follow(s, steps + [x]) == Some(Apply(Follow(s, steps).value, x))
  {
    assert (steps + [x])[..|steps|] == steps;
  }

  lemma Member<T>(s: set<T>) returns (x: T)
    requires s != {}
    ensures x in s
  {
    x :| x in s;
  }

  // ----- what every step keeps -----

  /** Each worker runs a task of its camera, and each live task is the one registered for its camera. */
  ghost predicate OneEach(s: State) {
    && (forall c :: c in s.workers ==> s.workers[c].task < |s.owner| && s.owner[s.workers[c].task] == c)
    && (forall t :: t in s.live ==> t < |s.owner| && s.owner[t] in s.workers && s.workers[s.owner[t]].task == t)
  }

  predicate Agrees(s: State, wanted: Wants, c: int) {
    c in s.workers && c in wanted && wanted[c] == s.workers[c].fingerprint
  }

  /** The workers are those wanted, no more, no less. */
  ghost predicate Matches(s: State, wanted: Wants) {
    s.workers.Keys == wanted.Keys && forall c :: c in wanted ==> wanted[c] == s.workers[c].fingerprint
  }

  ghost predicate PhaseInv(s: State) {
    match s.phase
    case Idle(wanted) => Matches(s, wanted)
    case Checking(wanted, todo) => todo <= s.workers.Keys && forall c :: c in s.workers && c !in todo ==> Agrees(s, wanted, c)
    case Awaiting(wanted, todo, camera) =>
      && todo <= s.workers.Keys && camera in s.workers && camera !in todo
      && forall c :: c in s.workers && c !in todo && c != camera ==> Agrees(s, wanted, c)
    case Creating(wanted, todo) =>
      && todo <= wanted.Keys && wanted.Keys - todo <= s.workers.Keys
      && forall c :: c in s.workers ==> Agrees(s, wanted, c)
    case Stopping => true
    case Stopped => s.live == {}
  }

  lemma EachKept(s: State, x: Step)
    requires OneEach(s) && Enabled(s, x)
    ensures OneEach(Apply(s, x))
  {
    if x.Create? && x.camera !in s.workers {
      var s' := Apply(s, x);
      forall t | t in s'.live ensures t < |s'.owner| && s'.owner[t] in s'.workers && s'.workers[s'.owner[t]].task == t {
        if t < |s.owner| { assert t in s.live; }
      }
    }
  }

  lemma PhaseKept(s: State, x: Step)
    requires OneEach(s) && PhaseInv(s) && Enabled(s, x)
    ensures PhaseInv(Apply(s, x))
  {
    if x.Sleep? {
      SleepMatches(s);
    } else if x.Leave? {
      NoneLeft(s);
    }
  }

  lemma SleepMatches(s: State)
    requires PhaseInv(s) && Enabled(s, Sleep)
    ensures Matches(s, s.phase.wanted)
  {
    var wanted := s.phase.wanted;
    forall c ensures c in s.workers.Keys <==> c in wanted.Keys {
      if c in s.workers { assert Agrees(s, wanted, c); }
      if c in wanted { assert c in wanted.Keys - s.phase.todo; }
    }
    forall c | c in wanted ensures wanted[c] == s.workers[c].fingerprint {
      assert Agrees(s, wanted, c);
    }
  }

  lemma NoneLeft(s: State)
    requires OneEach(s) && Enabled(s, Leave)
    ensures s.live == {}
  {
    if s.live != {} {
      var t := Member(s.live);
      var c := Serves(s, t);
      assert false;
    }
  }

  lemma Serves(s: State, t: nat) returns (c: int)
    requires OneEach(s) && t in s.live
    ensures c in s.workers && s.workers[c].task == t
  {
    c := s.owner[t];
  }

  lemma TasksBelow(s: State)
    requires OneEach(s)
    ensures forall c :: c in s.workers ==> s.workers[c].task < |s.owner|
  {
  }

  lemma AtRest(s: State)
    requires PhaseInv(s)
    ensures s.phase.Idle? ==> Matches(s, s.phase.wanted)
    ensures s.phase.Stopped? ==> s.live == {}
  {
  }

  lemma {:induction false} StandsStill(s: State)
    ensures Follow(s, []) == Some(s)
  {
  }

  lemma {:induction false} RunKept(s: State, steps: seq<Step>)
    requires OneEach(s) && PhaseInv(s) && Follow(s, steps).Some?
    ensures OneEach(Follow(s, steps).value) && PhaseInv(Follow(s, steps).value)
  {
    if steps != [] {
      RunKept(s, steps[..|steps| - 1]);
      var m := Follow(s, steps[..|steps| - 1]).value;
      EachKept(m, steps[|steps| - 1]);
      PhaseKept(m, steps[|steps| - 1]);
    }
  }

  /** Main result: in every reachable state two live tasks never serve the same camera, a live task is the
      registered one of its camera, between passes the workers are exactly those wanted by the last pass,
      and once the supervisor is gone no task is left. */
  lemma {:induction false} RunSafe(steps: seq<Step>)
    requires Follow(AT_START, steps).Some?
    ensures var s := Follow(AT_START, steps).value;
      && (forall t, u :: t in s.live && u in s.live ==> t < |s.owner| && u < |s.owner| && (s.owner[t] == s.owner[u] ==> t == u))
      && (forall t :: t in s.live ==> s.owner[t] in s.workers && s.workers[s.owner[t]].task == t)
      && (s.phase.Idle? ==> Matches(s, s.phase.wanted))
      && (s.phase.Stopped? ==> s.live == {})
  {
    RunKept(AT_START, steps);
  }

  // ----- a pass that has nothing to do -----

  ghost predicate AllLive(s: State) { forall c :: c in s.workers ==> s.workers[c].task in s.live }

  ghost predicate Quiet(s: State, from: State) {
    && s.workers == from.workers && s.owner == from.owner && !s.phase.Awaiting?
    && from.phase.Idle?
    && (s.phase.Checking? || s.phase.Creating? ==> s.phase.wanted == from.phase.wanted && s.live == from.live)
  }

  /** Main result: when the wants are unchanged and no task has ended, the pass cancels nothing and creates
      nothing, whatever happens until the next pass begins. */
  lemma {:induction false} QuietPass(from: State, steps: seq<Step>)
    requires from.phase.Idle? && Matches(from, from.phase.wanted) && AllLive(from)
    requires Follow(from, [Begin(from.phase.wanted)] + steps).Some? && forall i :: 0 <= i < |steps| ==> !steps[i].Begin?
    ensures Quiet(Follow(from, [Begin(from.phase.wanted)] + steps).value, from)
  {
    var b := Begin(from.phase.wanted);
    var all := [b] + steps;
    if steps == [] {
      assert all[..0] == [] && all == [b];
      FollowSnoc(from, [], b);
      assert [] + [b] == [b];
    } else {
      var n := |steps| - 1;
      assert all[..|all| - 1] == [b] + steps[..n];
      QuietPass(from, steps[..n]);
      QuietStep(from, Follow(from, [b] + steps[..n]).value, steps[n]);
    }
  }

  lemma QuietStep(from: State, s: State, x: Step)
    requires from.phase.Idle? && Matches(from, from.phase.wanted) && AllLive(from)
    requires Quiet(s, from) && Enabled(s, x) && !x.Begin?
    ensures Quiet(Apply(s, x), from)
  {
    match x
    case Check(c) => assert !Outdated(s, s.phase.wanted, c);
    case Create(c) => assert c in s.workers;
    case _ =>
  }
}

/** The supervisor's table of workers, updated in place. */
module DetectionSupervisors {
  import opened Wrappers
  import opened Reconciliation

  class DetectionSupervisor {
    var workers: map<int, Worker>
    var live: set<nat>
    var next: nat
    /** The same as a state of the step machine. */
    ghost var state: State

    ghost predicate Valid()
      reads this
    {
      && OneEach(state) && PhaseInv(state)
      && workers == state.workers && live == state.live && next == |state.owner|
    }

    constructor ()
      ensures Valid() && state == AT_START
    {
      workers, live, next, state := map[], {}, 0, AT_START;
    }

    /** One step, taken by the machine. */
    ghost method Take(x: Step, from: State, done: seq<Step>) returns (steps: seq<Step>)
      requires OneEach(state) && PhaseInv(state) && Enabled(state, x) && Follow(from, done) == Some(state)
      modifies `state
      ensures OneEach(state) && PhaseInv(state) && state == Apply(old(state), x)
      ensures Follow(from, steps) == Some(state)
    {
      EachKept(state, x);
      PhaseKept(state, x);
      FollowSnoc(from, done, x);
      state := Apply(state, x);
      steps := done + [x];
    }

    /** Waits for a task to end; others may end meanwhile. */
    method Gather(task: nat, ghost from: State, ghost done: seq<Step>) returns (ghost steps: seq<Step>)
      requires Valid() && Waits(state.phase) && Follow(from, done) == Some(state)
      modifies `live, `state
      ensures Valid() && Follow(from, steps) == Some(state)
      ensures state == old(state).(live := live) && live <= old(live) && task !in live
    {
      hide OneEach, PhaseInv, Follow;
      steps := done;
      var ending: set<nat> :| ending <= live && (task in live ==> task in ending);
      while ending != {}
        invariant Valid() && Follow(from, steps) == Some(state)
        invariant state == old(state).(live := live) && live <= old(live) && ending <= live
        invariant task in live ==> task in ending
        decreases |ending|
      {
        var t :| t in ending;
        steps := Take(Ends(t), from, steps);
        live, ending := live - {t}, ending - {t};
      }
    }

    /** Looks at one worker: it stays, or it is cancelled, waited for and dropped. */
    method CheckOne(c: int, wanted: Wants, ghost todo: set<int>, ghost from: State, ghost done: seq<Step>)
      returns (kept: bool, ghost steps: seq<Step>)
      requires Valid() && state.phase == Checking(wanted, todo) && c in todo && c in workers && Follow(from, done) == Some(state)
      modifies `workers, `live, `state
      ensures Valid() && state.phase == Checking(wanted, todo - {c}) && Follow(from, steps) == Some(state)
      ensures state.owner == old(state).owner && live <= old(live)
      ensures kept <==> old(workers)[c].task in old(live) && c in wanted && wanted[c] == old(workers)[c].fingerprint
      ensures kept ==> workers == old(workers) && live == old(live)
      ensures !kept ==> workers == old(workers) - {c} && old(workers)[c].task !in live
    {
      hide OneEach, PhaseInv, Follow;
      steps := Take(Check(c), from, done);
      var worker := workers[c];
      kept := worker.task in live && c in wanted && wanted[c] == worker.fingerprint;
      if !kept {
        steps := Gather(worker.task, from, steps);
        steps := Take(Resume, from, steps);
        workers := workers - {c};
      }
    }

    /** The task of the camera's worker runs and is the one to have. */
    static predicate Current(workers: map<int, Worker>, live: set<nat>, wanted: Wants, c: int) {
      c in workers && workers[c].task in live && c in wanted && wanted[c] == workers[c].fingerprint
    }

    /** The first half of a pass: workers that are outdated when their turn comes are dropped. */
    method DropOutdated(wanted: Wants, ghost from: State, ghost done: seq<Step>) returns (ghost steps: seq<Step>)
      requires Valid() && state.phase == Checking(wanted, workers.Keys) && Follow(from, done) == Some(state)
      modifies `workers, `live, `state
      ensures Valid() && state.phase == Checking(wanted, {}) && Follow(from, steps) == Some(state)
      ensures state.owner == old(state).owner && live <= old(live) && workers.Keys <= old(workers).Keys
      ensures forall c :: c in workers ==>
        workers[c] == old(workers)[c] && Current(old(workers), old(live), wanted, c)
      ensures forall c :: c in old(workers) && c !in workers ==> old(workers)[c].task !in live
      ensures (forall c :: c in old(workers) ==> Current(old(workers), old(live), wanted, c)) ==>
        workers == old(workers) && live == old(live)
    {
      hide OneEach, PhaseInv, Follow, Enabled, Apply;
      var todo := workers.Keys;
      steps := done;
      while todo != {}
        invariant Valid() && state.phase == Checking(wanted, todo) && Follow(from, steps) == Some(state)
        invariant state.owner == old(state).owner && live <= old(live) && todo <= workers.Keys <= old(workers).Keys
        invariant forall c :: c in workers ==> workers[c] == old(workers)[c]
        invariant forall c :: c in workers && c !in todo ==> !Outdated(old(state), wanted, c)
        invariant forall c :: c in old(workers) && c !in workers ==> old(workers)[c].task !in live
        invariant (forall c :: c in old(workers) ==> !Outdated(old(state), wanted, c)) ==> workers == old(workers) && live == old(live)
        decreases |todo|
      {
        ghost var _ := Member(todo);
        var c :| c in todo;
        ghost var before := state;
        var kept;
        kept, steps := CheckOne(c, wanted, todo, from, steps);
        todo := todo - {c};
        assert !Outdated(before, wanted, c) ==> !Outdated(old(state), wanted, c);
      }
    }

    /** Looks at one wanted camera. */
    method CreateOne(c: int, wanted: Wants, ghost todo: set<int>, ghost from: State, ghost done: seq<Step>) returns (ghost steps: seq<Step>)
      requires Valid() && state.phase == Creating(wanted, todo) && c in todo && c in wanted && Follow(from, done) == Some(state)
      modifies `workers, `live, `next, `state
      ensures Valid() && state.phase == Creating(wanted, todo - {c}) && Follow(from, steps) == Some(state)
      ensures c in old(workers) ==> workers == old(workers) && live == old(live) && next == old(next)
      ensures c !in old(workers) ==>
        && workers == old(workers)[c := Worker(wanted[c], old(next))]
        && live == old(live) + {old(next)} && next == old(next) + 1
    {
      hide OneEach, PhaseInv, Follow;
      steps := Take(Create(c), from, done);
      if c !in workers {
        workers, live, next := workers[c := Worker(wanted[c], next)], live + {next}, next + 1;
      }
    }

    /** The second half: a task is created for every wanted camera that has no worker. */
    method CreateMissing(wanted: Wants, ghost from: State, ghost done: seq<Step>) returns (ghost steps: seq<Step>)
      requires Valid() && state.phase == Creating(wanted, wanted.Keys) && Follow(from, done) == Some(state)
      modifies `workers, `live, `next, `state
      ensures Valid() && state.phase == Creating(wanted, {}) && Follow(from, steps) == Some(state)
      ensures forall c :: c in old(workers) ==> c in workers && workers[c] == old(workers)[c]
      ensures forall c :: c in workers && c !in old(workers) ==> workers[c].task >= old(next) && workers[c].task in live
      ensures forall t :: t < old(next) && t in live ==> t in old(live)
      ensures wanted.Keys <= old(workers).Keys ==> workers == old(workers) && live == old(live) && next == old(next)
    {
      hide OneEach, PhaseInv, Follow, Enabled, Apply;
      var todo := wanted.Keys;
      steps := done;
      while todo != {}
        invariant Valid() && state.phase == Creating(wanted, todo) && Follow(from, steps) == Some(state)
        invariant todo <= wanted.Keys && next >= old(next)
        invariant forall c :: c in old(workers) ==> c in workers && workers[c] == old(workers)[c]
        invariant forall c :: c in workers && c !in old(workers) ==> workers[c].task >= old(next) && workers[c].task in live
        invariant forall t :: t < old(next) && t in live ==> t in old(live)
        invariant wanted.Keys <= old(workers).Keys ==> workers == old(workers) && live == old(live) && next == old(next)
        decreases |todo|
      {
        ghost var _ := Member(todo);
        var c :| c in todo;
        steps := CreateOne(c, wanted, todo, from, steps);
        todo := todo - {c};
      }
    }

    /** One pass of the reconcile loop. A worker that was outdated when the pass began gets a new task; one
        that was not keeps its task unless that task ended while the pass waited for others; and a pass
        that finds nothing outdated and nothing missing changes nothing. */
    method Pass(wanted: Wants) returns (ghost steps: seq<Step>)
      requires Valid() && state.phase.Idle?
      modifies this
      ensures Valid() && state.phase == Idle(wanted) && Follow(old(state), steps) == Some(state)
      ensures workers.Keys == wanted.Keys && forall c :: c in wanted ==> workers[c].fingerprint == wanted[c]
      ensures forall c :: c in workers ==>
        || (c in old(workers) && workers[c] == old(workers)[c] && Current(old(workers), old(live), wanted, c))
        || (workers[c].task >= old(next) && workers[c].task in live)
      ensures forall c :: c in old(workers) && Current(old(workers), old(live), wanted, c) ==>
        workers[c] == old(workers)[c] || old(workers)[c].task !in live
      ensures old(workers).Keys == wanted.Keys && (forall c :: c in old(workers) ==> Current(old(workers), old(live), wanted, c)) ==>
        workers == old(workers) && live == old(live) && next == old(next)
    {
      hide OneEach, PhaseInv, Follow, Outdated, Current;
      ghost var from := state;
      TasksBelow(from);
      StandsStill(from);
      steps := Take(Begin(wanted), from, []);
      steps := DropOutdated(wanted, from, steps);
      steps := Take(TurnToCreate, from, steps);
      steps := CreateMissing(wanted, from, steps);
      steps := Take(Sleep, from, steps);
      AtRest(state);
    }

    /** The way out: every task is cancelled and waited for. */
    method Shutdown() returns (ghost steps: seq<Step>)
      requires Valid() && Enabled(state, Stop)
      modifies this
      ensures Valid() && state.phase == Stopped && live == {} && Follow(old(state), steps) == Some(state)
    {
      hide OneEach, PhaseInv, Follow;
      ghost var from := state;
      StandsStill(from);
      steps := Take(Stop, from, []);
      var todo := workers.Keys;
      while todo != {}
        invariant Valid() && state.phase == Stopping && Follow(from, steps) == Some(state) && workers == old(workers)
        invariant todo <= workers.Keys && forall c :: c in workers && c !in todo ==> workers[c].task !in live
        decreases |todo|
      {
        ghost var _ := Member(todo);
        var c :| c in todo;
        todo := todo - {c};
        steps := Gather(workers[c].task, from, steps);
      }
      steps := Take(Leave, from, steps);
      AtRest(state);
    }
  }
}
