/** Event recordings as an interleaving of atomic steps: handling a trigger, one poll of a recording
    body, the end of a job. Times are microseconds. */
module EventRecording {
  import opened Wrappers

  const SECOND := 1_000_000

  /** A camera and a detection key. */
  datatype Key = Key(camera: int, detection: string)

  /** The camera's settings as stored; 0 stands for "not set". */
  datatype Settings = Settings(duration: int, post: int, cooldown: int)

  function Clamp(low: int, high: int, x: int): int { if x > high then high else if x < low then low else x }

  function Duration(s: Settings): int { SECOND * Clamp(5, 3600, if s.duration == 0 then 30 else s.duration) }

  function Post(s: Settings): int { SECOND * Clamp(0, 600, if s.post == 0 then 10 else s.post) }

  function Cooldown(s: Settings): int { SECOND * if s.cooldown < 0 then 0 else s.cooldown }

  /** A job with the recording it shares with the manager. `settings` are those it started under,
      `checked` is the clock reading its cooldown test used, and `deadlines` lists, oldest first, the
      post-roll ends asked for by the triggers handled before the body stopped. */
  datatype Job = Job(
    key: Key, settings: Settings, startedAt: int, checked: int, minUntil: int, activeUntil: int,
    finished: bool, stoppedAt: Option<int>, deadlines: seq<int>)

  datatype Manager = Manager(active: map<Key, nat>, lastStarted: map<Key, int>, jobs: seq<Job>)

  const NO_JOBS := Manager(map[], map[], [])

  /** `Trigger` reads the clock twice: for the recording, then for the cooldown. */
  datatype Step =
    | Trigger(key: Key, now: int, check: int, settings: Settings, storage: bool)
    | Poll(job: nat, now: int)
    | Finish(job: nat)

  function Extended(j: Job, until: int): Job {
    if j.stoppedAt.None? then j.(activeUntil := until, deadlines := j.deadlines + [until]) else j.(activeUntil := until)
  }

  predicate InCooldown(m: Manager, key: Key, settings: Settings, check: int) {
    key in m.lastStarted && check < m.lastStarted[key] + Cooldown(settings)
  }

  function NewJob(key: Key, now: int, check: int, s: Settings): Job {
    Job(key, s, now, check, now + Duration(s), now + Post(s), false, None, [now + Post(s)])
  }

  function Started(m: Manager, key: Key, now: int, check: int, s: Settings): Manager {
    Manager(m.active[key := |m.jobs|], m.lastStarted[key := now], m.jobs + [NewJob(key, now, check, s)])
  }

  predicate InRange(m: Manager) { forall k :: k in m.active ==> m.active[k] < |m.jobs| }

  function Handle(m: Manager, key: Key, now: int, check: int, settings: Settings, storage: bool): Manager
    requires InRange(m)
  {
    if key in m.active then
      var j := m.active[key];
      m.(jobs := m.jobs[j := Extended(m.jobs[j], now + Post(settings))])
    else if InCooldown(m, key, settings, check) || !storage then m
    else Started(m, key, now, check, settings)
  }

  function Polled(j: Job, now: int): Job {
    if now < j.minUntil || now < j.activeUntil then j else j.(stoppedAt := Some(now))
  }

  /** A job that is over leaves the table of active recordings. */
  function Ended(m: Manager, j: nat): Manager
    requires j < |m.jobs|
  {
    Manager(m.active - {m.jobs[j].key}, m.lastStarted, m.jobs[j := m.jobs[j].(finished := true)])
  }

  /** A body polls while it runs; a job ends once, after its body stopped or by an error. */
  predicate Enabled(m: Manager, s: Step) {
    match s
    case Trigger(_, _, _, _, _) => true
    case Poll(j, now) => j < |m.jobs| && !m.jobs[j].finished && m.jobs[j].stoppedAt.None?
    case Finish(j) => j < |m.jobs| && !m.jobs[j].finished
  }

  function Apply(m: Manager, s: Step): Manager
    requires Enabled(m, s) && InRange(m)
  {
    match s
    case Trigger(key, now, check, settings, storage) => Handle(m, key, now, check, settings, storage)
    case Poll(j, now) => m.(jobs := m.jobs[j := Polled(m.jobs[j], now)])
    case Finish(j) => Ended(m, j)
  }

  // ----- what every step keeps -----

  /** Active entries and unfinished jobs are the same thing. */
  ghost predicate OneInFlight(m: Manager) {
    && InRange(m)
    && (forall k :: k in m.active ==> m.jobs[m.active[k]].key == k && !m.jobs[m.active[k]].finished)
    && (forall j :: 0 <= j < |m.jobs| && !m.jobs[j].finished ==> m.jobs[j].key in m.active && m.active[m.jobs[j].key] == j)
  }

  /** i is the last job of its key before j. */
  ghost predicate Previous(jobs: seq<Job>, i: int, j: int) {
    && 0 <= i < j <= |jobs|
    && forall h :: i < h < j ==> jobs[h].key != jobs[i].key
  }

  ghost predicate Remembered(m: Manager) {
    && (forall j :: 0 <= j < |m.jobs| ==> m.jobs[j].key in m.lastStarted)
    && (forall i :: Previous(m.jobs, i, |m.jobs|) ==> m.lastStarted[m.jobs[i].key] == m.jobs[i].startedAt)
  }

  /** Successive jobs of a key: the first is over, and the second passed the cooldown test. */
  ghost predicate Spaced(jobs: seq<Job>) {
    forall i, j :: Previous(jobs, i, j) && j < |jobs| && jobs[j].key == jobs[i].key ==>
      jobs[i].finished && jobs[i].startedAt + Cooldown(jobs[j].settings) <= jobs[j].checked
  }

  ghost predicate Timed(j: Job) {
    && j.minUntil == j.startedAt + Duration(j.settings)
    && j.deadlines != []
    && (j.stoppedAt.None? ==> j.activeUntil == j.deadlines[|j.deadlines| - 1])
    && (j.stoppedAt.Some? ==> j.stoppedAt.value >= j.minUntil && j.stoppedAt.value >= j.deadlines[|j.deadlines| - 1])
  }

  ghost predicate AllTimed(jobs: seq<Job>) { forall j :: 0 <= j < |jobs| ==> Timed(jobs[j]) }

  ghost predicate Sound(m: Manager) { OneInFlight(m) && Remembered(m) && Spaced(m.jobs) && AllTimed(m.jobs) }

  /** x is the same start as j. */
  ghost predicate SameStart(j: Job, x: Job) {
    x.key == j.key && x.settings == j.settings && x.startedAt == j.startedAt && x.checked == j.checked
  }

  lemma StartsKept(m: Manager, i: nat, x: Job)
    requires Remembered(m) && Spaced(m.jobs) && i < |m.jobs| && SameStart(m.jobs[i], x) && (m.jobs[i].finished ==> x.finished)
    ensures Remembered(m.(jobs := m.jobs[i := x])) && Spaced(m.jobs[i := x])
  {
    hide Cooldown;
    var jobs := m.jobs[i := x];
    forall a, b | Previous(jobs, a, b) ensures Previous(m.jobs, a, b) {
      assert forall h :: 0 <= h < |jobs| ==> m.jobs[h].key == jobs[h].key;
    }
  }

  /** A running job may be replaced by one of the same start. */
  lemma Replaced(m: Manager, i: nat, x: Job)
    requires Sound(m) && i < |m.jobs| && SameStart(m.jobs[i], x) && x.finished == m.jobs[i].finished && Timed(x)
    ensures Sound(m.(jobs := m.jobs[i := x]))
  {
    hide Timed, Spaced, Remembered;
    StartsKept(m, i, x);
  }

  lemma EndInFlight(m: Manager, i: nat)
    requires OneInFlight(m) && i < |m.jobs| && !m.jobs[i].finished
    ensures OneInFlight(Ended(m, i))
  {
    var m', key := Ended(m, i), m.jobs[i].key;
    assert m.active[key] == i;
    forall k | k in m'.active ensures m'.jobs[m'.active[k]].key == k && !m'.jobs[m'.active[k]].finished {
      assert k in m.active && k != key;
      assert m.active[k] != i;
    }
    forall j | 0 <= j < |m'.jobs| && !m'.jobs[j].finished
      ensures m'.jobs[j].key in m'.active && m'.active[m'.jobs[j].key] == j
    {
      assert j != i && m'.jobs[j] == m.jobs[j];
    }
  }

  lemma EndSound(m: Manager, i: nat)
    requires Sound(m) && i < |m.jobs| && !m.jobs[i].finished
    ensures Sound(Ended(m, i))
  {
    hide Spaced, OneInFlight, Previous;
    EndInFlight(m, i);
    StartsKept(m, i, m.jobs[i].(finished := true));
  }

  lemma PreviousKept(jobs: seq<Job>, x: Job, i: int, j: int)
    requires j <= |jobs| && Previous(jobs + [x], i, j)
    ensures Previous(jobs, i, j)
  {
    assert forall h :: 0 <= h < |jobs| ==> (jobs + [x])[h] == jobs[h];
  }

  lemma StartRemembered(m: Manager, key: Key, now: int, x: Job)
    requires Remembered(m) && x.key == key && x.startedAt == now
    ensures Remembered(Manager(m.active[key := |m.jobs|], m.lastStarted[key := now], m.jobs + [x]))
  {
    var jobs, n := m.jobs + [x], |m.jobs|;
    forall i | Previous(jobs, i, n + 1)
      ensures jobs[i].key in m.lastStarted[key := now] && m.lastStarted[key := now][jobs[i].key] == jobs[i].startedAt
    {
      if i < n {
        assert jobs[n].key != jobs[i].key;
        PreviousKept(m.jobs, x, i, n) by { assert Previous(jobs, i, n); }
      }
    }
  }

  lemma StartSpaced(m: Manager, x: Job)
    requires OneInFlight(m) && Remembered(m) && Spaced(m.jobs) && x.key !in m.active
    requires !InCooldown(m, x.key, x.settings, x.checked)
    ensures Spaced(m.jobs + [x])
  {
    hide Cooldown;
    var jobs, n := m.jobs + [x], |m.jobs|;
    forall i, j | Previous(jobs, i, j) && j < |jobs| && jobs[j].key == jobs[i].key
      ensures jobs[i].finished && jobs[i].startedAt + Cooldown(jobs[j].settings) <= jobs[j].checked
    {
      PreviousKept(m.jobs, x, i, j);
      if j == n { assert m.jobs[i].key !in m.active; }
    }
  }

  lemma StartInFlight(m: Manager, key: Key, now: int, check: int, s: Settings)
    requires OneInFlight(m) && key !in m.active
    ensures OneInFlight(Started(m, key, now, check, s))
  {
    hide Post, Duration;
    var m', n := Started(m, key, now, check, s), |m.jobs|;
    forall j | 0 <= j < |m'.jobs| && !m'.jobs[j].finished
      ensures m'.jobs[j].key in m'.active && m'.active[m'.jobs[j].key] == j
    {
      if j < n { assert m'.jobs[j] == m.jobs[j] && m.jobs[j].key in m.active; }
    }
  }

  lemma StartSound(m: Manager, key: Key, now: int, check: int, s: Settings)
    requires Sound(m) && key !in m.active && !InCooldown(m, key, s, check)
    ensures Sound(Started(m, key, now, check, s))
  {
    hide Cooldown, Post, Duration, Previous, InCooldown;
    StartInFlight(m, key, now, check, s);
    StartRemembered(m, key, now, NewJob(key, now, check, s));
    StartSpaced(m, NewJob(key, now, check, s));
    hide OneInFlight, Spaced;
  }

  lemma ExtendSound(m: Manager, j: nat, until: int)
    requires Sound(m) && j < |m.jobs|
    ensures Sound(m.(jobs := m.jobs[j := Extended(m.jobs[j], until)]))
  {
    hide Remembered, Spaced, OneInFlight;
    var x := Extended(m.jobs[j], until);
    assert Timed(x) by { assert Timed(m.jobs[j]); }
    Replaced(m, j, x) by { hide Timed; }
  }

  lemma HandleSound(m: Manager, key: Key, now: int, check: int, settings: Settings, storage: bool)
    requires Sound(m)
    ensures Sound(Handle(m, key, now, check, settings, storage))
  {
    hide Cooldown, Post, Duration, Remembered, Spaced, Timed;
    if key in m.active {
      ExtendSound(m, m.active[key], now + Post(settings));
    } else if !InCooldown(m, key, settings, check) {
      StartSound(m, key, now, check, settings);
    }
  }

  lemma ApplySound(m: Manager, s: Step)
    requires Sound(m) && Enabled(m, s)
    ensures Sound(Apply(m, s))
  {
    hide Cooldown, Post, Duration, Remembered, Spaced, Handle, Ended;
    match s
    case Trigger(key, now, check, settings, storage) => HandleSound(m, key, now, check, settings, storage);
    case Poll(j, now) =>
      assert Timed(m.jobs[j]);
      Replaced(m, j, Polled(m.jobs[j], now));
    case Finish(j) => EndSound(m, j);
  }

  // ----- runs -----

  /** The managers reached along a sequence of enabled steps. */
  function Reach(steps: seq<Step>): Option<Manager> {
    if steps == [] then Some(NO_JOBS)
    else
      match Reach(steps[..|steps| - 1])
      case None => None
      case Some(m) =>
        if InRange(m) && Enabled(m, steps[|steps| - 1])
        then Some(Apply(m, steps[|steps| - 1])) else None
  }

  /** Main result: in every reachable state at most one job per camera and key is in flight, and it is
      the active one; a job starts only after the previous one of its key is over and its cooldown has
      passed; a body stops no earlier than its duration and the last post-roll asked of it. */
  lemma {:induction false} RunSound(steps: seq<Step>)
    requires Reach(steps).Some?
    ensures Sound(Reach(steps).value)
  {
    if steps != [] {
      RunSound(steps[..|steps| - 1]);
      ApplySound(Reach(steps[..|steps| - 1]).value, steps[|steps| - 1]);
    }
  }

  /** In every reachable state at most one job per camera and key is in flight. */
  lemma {:induction false} OneJobPerKey(steps: seq<Step>, i: nat, j: nat)
    requires Reach(steps).Some? && i < |Reach(steps).value.jobs| && j < |Reach(steps).value.jobs|
    requires var jobs := Reach(steps).value.jobs; jobs[i].key == jobs[j].key && !jobs[i].finished && !jobs[j].finished
    ensures i == j
  {
    RunSound(steps);
    var m := Reach(steps).value;
    assert m.active[m.jobs[i].key] == i;
  }

  /** The recording and the cooldown test of every trigger read the same time. */
  ghost predicate OneReading(steps: seq<Step>) {
    forall n :: 0 <= n < |steps| && steps[n].Trigger? ==> steps[n].now == steps[n].check
  }

  lemma {:induction false} CheckedAtStart(steps: seq<Step>)
    requires Reach(steps).Some? && OneReading(steps)
    ensures forall j :: 0 <= j < |Reach(steps).value.jobs| ==> Reach(steps).value.jobs[j].checked == Reach(steps).value.jobs[j].startedAt
  {
    if steps != [] {
      var n := |steps| - 1;
      CheckedAtStart(steps[..n]);
      assert steps[n].Trigger? ==> steps[n].now == steps[n].check;
    }
  }

  /** Main result: with one clock reading per trigger, a job starts only after the job of its key before it
      is over, and no sooner than its cooldown after that job's start. */
  lemma {:induction false} StartsApart(steps: seq<Step>, i: nat, j: nat)
    requires Reach(steps).Some? && OneReading(steps)
    requires var jobs := Reach(steps).value.jobs; Previous(jobs, i, j) && j < |jobs| && jobs[i].key == jobs[j].key
    ensures var jobs := Reach(steps).value.jobs;
      jobs[i].finished && jobs[i].startedAt + Cooldown(jobs[j].settings) <= jobs[j].startedAt
  {
    RunSound(steps);
    CheckedAtStart(steps);
  }

  // ----- how long a body runs -----

  function Until(s: Step): int
    requires s.Trigger?
  {
    s.now + Post(s.settings)
  }

  ghost predicate Rising(s: seq<int>) { forall i, j :: 0 <= i <= j < |s| ==> s[i] <= s[j] }

  /** For each key, a later trigger never asks for an earlier end: so it is when the clock does not go back
      and the post-roll setting is constant. */
  ghost predicate Steady(steps: seq<Step>) {
    forall i, j :: 0 <= i <= j < |steps| && steps[i].Trigger? && steps[j].Trigger? && steps[i].key == steps[j].key ==>
      Until(steps[i]) <= Until(steps[j])
  }

  /** A trigger of the key asked for this end. */
  ghost predicate Asked(steps: seq<Step>, key: Key, until: int) {
    exists n :: 0 <= n < |steps| && steps[n].Trigger? && steps[n].key == key && until == Until(steps[n])
  }

  ghost predicate JobRising(steps: seq<Step>, j: Job) {
    Rising(j.deadlines) && forall d :: d in j.deadlines ==> Asked(steps, j.key, d)
  }

  lemma AskedKept(steps: seq<Step>, s: Step, j: Job)
    requires JobRising(steps, j)
    ensures JobRising(steps + [s], j)
  {
    hide Post, Rising;
    forall d | d in j.deadlines ensures Asked(steps + [s], j.key, d) {
      var n :| 0 <= n < |steps| && steps[n].Trigger? && steps[n].key == j.key && d == Until(steps[n]);
      assert (steps + [s])[n] == steps[n];
    }
  }

  lemma ExtendedRises(steps: seq<Step>, s: Step, j: Job)
    requires JobRising(steps, j) && Steady(steps + [s]) && s.Trigger? && s.key == j.key
    ensures JobRising(steps + [s], Extended(j, Until(s)))
  {
    hide Post;
    var until, more, x := Until(s), steps + [s], Extended(j, Until(s));
    AskedKept(steps, s, j);
    forall d | d in j.deadlines ensures d <= until {
      var n :| 0 <= n < |steps| && steps[n].Trigger? && steps[n].key == j.key && d == Until(steps[n]);
      assert more[n] == steps[n] && more[|steps|] == s;
    }
    assert Asked(more, j.key, until) by { assert more[|steps|] == s; }
    RisingSnoc(j.deadlines, until);
    assert forall d :: d in x.deadlines ==> d in j.deadlines || d == until;
  }

  lemma RisingSnoc(s: seq<int>, x: int)
    requires Rising(s) && forall y :: y in s ==> y <= x
    ensures Rising(s + [x])
  {
    forall i, j | 0 <= i <= j < |s + [x]| ensures (s + [x])[i] <= (s + [x])[j] {
      if i < |s| { assert s[i] in s; }
    }
  }

  lemma {:induction false} DeadlinesRise(steps: seq<Step>)
    requires Reach(steps).Some? && Steady(steps)
    ensures forall j :: 0 <= j < |Reach(steps).value.jobs| ==> JobRising(steps, Reach(steps).value.jobs[j])
  {
    hide JobRising, Post, Cooldown, Duration;
    if steps != [] {
      var n := |steps| - 1;
      var before, s := steps[..n], steps[n];
      assert steps == before + [s];
      DeadlinesRise(before);
      RunSound(before);
      var m := Reach(before).value;
      forall j | 0 <= j < |Reach(steps).value.jobs| ensures JobRising(steps, Reach(steps).value.jobs[j]) {
        DeadlineStep(before, s, m, j);
      }
    }
  }

  lemma DeadlineStep(before: seq<Step>, s: Step, m: Manager, j: nat)
    requires Sound(m) && Enabled(m, s) && Steady(before + [s]) && j < |Apply(m, s).jobs|
    requires j < |m.jobs| ==> JobRising(before, m.jobs[j])
    ensures JobRising(before + [s], Apply(m, s).jobs[j])
  {
    hide Post, Cooldown, Duration, Steady, Remembered, Spaced, Timed;
    if j == |m.jobs| {
      assert (before + [s])[|before|] == s;
      assert Asked(before + [s], s.key, Until(s));
    } else {
      hide Rising, Asked;
      AskedKept(before, s, m.jobs[j]);
      if s.Trigger? && s.key in m.active && m.active[s.key] == j { ExtendedRises(before, s, m.jobs[j]); }
    }
  }

  /** With steady deadlines a body stops no earlier than its duration and no earlier than each end asked
      of it. */
  lemma {:induction false} BodyLongEnough(steps: seq<Step>, j: nat)
    requires Reach(steps).Some? && Steady(steps) && j < |Reach(steps).value.jobs|
    ensures var job := Reach(steps).value.jobs[j];
      job.stoppedAt.Some? ==>
        && job.stoppedAt.value >= job.startedAt + Duration(job.settings)
        && forall d :: d in job.deadlines ==> d <= job.stoppedAt.value
  {
    hide Reach;
    RunSound(steps);
    DeadlinesRise(steps);
    var job := Reach(steps).value.jobs[j];
    assert Timed(job) && JobRising(steps, job);
  }

  lemma {:induction false} DeadlinesKept(steps: seq<Step>, n: nat, j: nat)
    requires n <= |steps| && Reach(steps).Some?
    ensures Reach(steps[..n]).Some? && |Reach(steps[..n]).value.jobs| <= |Reach(steps).value.jobs|
    ensures j < |Reach(steps[..n]).value.jobs| ==>
      Reach(steps[..n]).value.jobs[j].deadlines <= Reach(steps).value.jobs[j].deadlines
  {
    hide Post, Cooldown, Duration;
    if n < |steps| {
      var before := steps[..|steps| - 1];
      DeadlinesKept(before, n, j);
      assert before[..n] == steps[..n];
    } else {
      assert steps[..n] == steps;
    }
  }

  /** Main result: if a trigger's key has a recording whose body still runs right after the trigger is
      handled, that body stops no earlier than the trigger plus the post-roll. */
  lemma {:induction false} TriggerRespected(steps: seq<Step>, n: nat, j: nat)
    requires Reach(steps).Some? && Steady(steps) && n < |steps| && steps[n].Trigger?
    requires Reach(steps[..n + 1]).Some?
    requires var jobs := Reach(steps[..n + 1]).value.jobs;
      j < |jobs| && jobs[j].key == steps[n].key && !jobs[j].finished && jobs[j].stoppedAt.None?
    ensures j < |Reach(steps).value.jobs|
    ensures var job := Reach(steps).value.jobs[j];
      job.stoppedAt.Some? ==> job.stoppedAt.value >= steps[n].now + Post(steps[n].settings)
  {
    hide Post, Cooldown, Duration, Reach, Steady;
    var upTo := steps[..n + 1];
    DeadlinesKept(steps, n + 1, j);
    assert upTo[|upTo| - 1] == steps[n];
    Heeded(upTo, j);
    BodyLongEnough(steps, j);
    var until, first, last := Until(steps[n]), Reach(upTo).value.jobs[j].deadlines, Reach(steps).value.jobs[j].deadlines;
    assert until in last by { assert first <= last; }
  }

  lemma {:induction false} Heeded(steps: seq<Step>, j: nat)
    requires Reach(steps).Some? && steps != [] && steps[|steps| - 1].Trigger? && j < |Reach(steps).value.jobs|
    requires var x := Reach(steps).value.jobs[j]; x.key == steps[|steps| - 1].key && !x.finished && x.stoppedAt.None?
    ensures Until(steps[|steps| - 1]) in Reach(steps).value.jobs[j].deadlines
  {
    hide Post, Cooldown, Duration, Remembered, Spaced, Timed;
    var s, before := steps[|steps| - 1], steps[..|steps| - 1];
    RunSound(before);
    var x := Reach(steps).value.jobs[j];
    assert x == Apply(Reach(before).value, s).jobs[j];
    assert x.deadlines[|x.deadlines| - 1] == Until(s);
  }

  // ----- without steady deadlines -----

  ghost predicate Running(m: Manager, j: nat) { j < |m.jobs| && !m.jobs[j].finished && m.jobs[j].stoppedAt.None? }

  ghost predicate NoTrigger(steps: seq<Step>, key: Key) {
    forall i :: 0 <= i < |steps| ==> !(steps[i].Trigger? && steps[i].key == key)
  }

  ghost predicate StopsAfter(m: Manager, j: nat, ends: seq<int>) {
    j < |m.jobs| && (m.jobs[j].stoppedAt.Some? ==> forall d :: d in ends ==> d <= m.jobs[j].stoppedAt.value)
  }

  /** Whatever follows, up to the next trigger of its key, job j does not stop before these ends. */
  ghost predicate Safe(before: seq<Step>, j: nat, ends: seq<int>)
    requires Reach(before).Some? && Running(Reach(before).value, j)
  {
    var key := Reach(before).value.jobs[j].key;
    forall steps :: NoTrigger(steps, key) && Reach(before + steps).Some? ==> StopsAfter(Reach(before + steps).value, j, ends)
  }

  /** An end that the recording object still covers. */
  ghost predicate Covers(j: Job, d: int) { d <= j.minUntil || d <= j.activeUntil }

  /** x is what becomes of the running job w while its key is not triggered. */
  ghost predicate Unmoved(w: Job, x: Job) {
    && x.key == w.key && x.minUntil == w.minUntil
    && (x.stoppedAt.None? ==> x.activeUntil == w.activeUntil && x.deadlines == w.deadlines)
    && (x.stoppedAt.Some? ==> x.stoppedAt.value >= w.minUntil && x.stoppedAt.value >= w.activeUntil)
  }

  lemma UnmovedStep(m: Manager, s: Step, j: nat, w: Job)
    requires Sound(m) && Enabled(m, s) && !(s.Trigger? && s.key == w.key) && j < |m.jobs| && Unmoved(w, m.jobs[j])
    ensures j < |Apply(m, s).jobs| && Unmoved(w, Apply(m, s).jobs[j])
  {
    hide Post, Cooldown, Duration, Remembered, Spaced, Timed;
  }

  lemma {:induction false} UnmovedRun(before: seq<Step>, steps: seq<Step>, j: nat)
    requires Reach(before).Some? && Running(Reach(before).value, j)
    requires NoTrigger(steps, Reach(before).value.jobs[j].key) && Reach(before + steps).Some?
    ensures j < |Reach(before + steps).value.jobs|
    ensures Unmoved(Reach(before).value.jobs[j], Reach(before + steps).value.jobs[j])
    decreases |steps|
  {
    hide Post, Cooldown, Duration, Sound, Apply, Enabled;
    if steps == [] {
      assert before + steps == before;
    } else {
      var n := |steps| - 1;
      var all := before + steps;
      assert all[..|all| - 1] == before + steps[..n] && all[|all| - 1] == steps[n];
      UnmovedRun(before, steps[..n], j);
      RunSound(before + steps[..n]);
      UnmovedStep(Reach(before + steps[..n]).value, steps[n], j, Reach(before).value.jobs[j]);
    }
  }

  /** Main result: in every reachable state, what a running job respects until its key is triggered again is
      exactly what its recording object covers. */
  lemma {:induction false} SafeExactly(before: seq<Step>, j: nat, ends: seq<int>)
    requires Reach(before).Some? && Running(Reach(before).value, j)
    ensures Safe(before, j, ends) <==> forall d :: d in ends ==> Covers(Reach(before).value.jobs[j], d)
  {
    hide Reach, Unmoved;
    var m := Reach(before).value;
    var job := m.jobs[j];
    if forall d :: d in ends ==> Covers(job, d) {
      forall steps | NoTrigger(steps, job.key) && Reach(before + steps).Some?
        ensures StopsAfter(Reach(before + steps).value, j, ends)
      {
        UnmovedRun(before, steps, j);
        UnmovedStops(job, Reach(before + steps).value.jobs[j]);
      }
    } else {
      PollNow(before, j, ends);
    }
  }

  lemma UnmovedStops(w: Job, x: Job)
    requires Unmoved(w, x)
    ensures x.stoppedAt.Some? ==> x.stoppedAt.value >= w.minUntil && x.stoppedAt.value >= w.activeUntil
  {
  }

  /** The next poll may come as soon as the object allows it. */
  lemma {:induction false} PollNow(before: seq<Step>, j: nat, ends: seq<int>)
    requires Reach(before).Some? && Running(Reach(before).value, j)
    requires exists d :: d in ends && !Covers(Reach(before).value.jobs[j], d)
    ensures !Safe(before, j, ends)
  {
    hide Reach;
    var m := Reach(before).value;
    var job := m.jobs[j];
    var end := if job.minUntil > job.activeUntil then job.minUntil else job.activeUntil;
    var steps := [Poll(j, end)];
    assert InRange(m) by { RunSound(before); }
    ReachSnoc(before, Poll(j, end), m);
    assert NoTrigger(steps, job.key);
    assert !StopsAfter(Reach(before + steps).value, j, ends);
  }

  /** What handling a trigger on a running job does to it. */
  lemma {:induction false} TriggerMoves(before: seq<Step>, s: Step, j: nat)
    requires Reach(before).Some? && Running(Reach(before).value, j) && s.Trigger? && s.key == Reach(before).value.jobs[j].key
    ensures Reach(before + [s]).Some? && Running(Reach(before + [s]).value, j)
    ensures var w, x := Reach(before).value.jobs[j], Reach(before + [s]).value.jobs[j];
      && x.key == w.key && x.minUntil == w.minUntil && x.activeUntil == Until(s) && x.deadlines == w.deadlines + [Until(s)]
  {
    hide Reach, Post, Cooldown, Duration, Remembered, Spaced, Timed;
    RunSound(before);
    ReachSnoc(before, s, Reach(before).value);
  }

  /** Main result: a trigger handled on a running job leaves the ends asked of it before safe exactly if it asks
      for an end no earlier than each of them that lies beyond the duration. */
  lemma {:induction false} TriggerSafeExactly(before: seq<Step>, s: Step, j: nat)
    requires Reach(before).Some? && Running(Reach(before).value, j) && s.Trigger? && s.key == Reach(before).value.jobs[j].key
    ensures Reach(before + [s]).Some? && Running(Reach(before + [s]).value, j)
    ensures var job := Reach(before).value.jobs[j];
      Safe(before + [s], j, job.deadlines) <==>
        forall d :: d in job.deadlines && d > job.minUntil ==> s.now + Post(s.settings) >= d
  {
    hide Reach, Safe;
    TriggerMoves(before, s, j);
    SafeExactly(before + [s], j, Reach(before).value.jobs[j].deadlines);
  }

  /** The guard, in terms of the object the manager holds: the end it has now lies within the duration, or the
      trigger does not ask for less. */
  predicate Lengthens(j: Job, s: Step)
    requires s.Trigger?
  {
    j.activeUntil <= j.minUntil || j.activeUntil <= s.now + Post(s.settings)
  }

  ghost predicate AllCovered(j: Job) { forall d :: d in j.deadlines ==> Covers(j, d) }

  /** Every trigger of the run that meets a running job passes the guard. */
  ghost predicate Guarded(steps: seq<Step>) {
    forall n: nat, j: nat :: n < |steps| && MeetsRunning(steps, n, j) ==> Lengthens(Reach(steps[..n]).value.jobs[j], steps[n])
  }

  ghost predicate MeetsRunning(steps: seq<Step>, n: nat, j: nat)
    requires n < |steps|
  {
    && Reach(steps[..n]).Some? && Running(Reach(steps[..n]).value, j)
    && steps[n].Trigger? && steps[n].key == Reach(steps[..n]).value.jobs[j].key
  }

  /** At every moment of the run each running job is safe for all the ends asked of it so far. */
  ghost predicate AlwaysSafe(steps: seq<Step>) {
    forall n: nat, j: nat :: n <= |steps| && SomeRunning(steps, n, j) ==>
      Safe(steps[..n], j, Reach(steps[..n]).value.jobs[j].deadlines)
  }

  ghost predicate SomeRunning(steps: seq<Step>, n: nat, j: nat)
    requires n <= |steps|
  {
    Reach(steps[..n]).Some? && Running(Reach(steps[..n]).value, j)
  }

  lemma GuardKeeps(w: Job, x: Job, s: Step)
    requires s.Trigger? && AllCovered(w) && w.activeUntil in w.deadlines
    requires x.minUntil == w.minUntil && x.activeUntil == Until(s) && x.deadlines == w.deadlines + [Until(s)]
    ensures AllCovered(x) <==> Lengthens(w, s)
  {
    hide Post;
    if AllCovered(x) { assert w.activeUntil in x.deadlines; }
  }

  /** A running job after a step is new, untouched, or met by the trigger of its key. */
  lemma {:induction false} RunningBefore(before: seq<Step>, s: Step, j: nat)
    requires Reach(before + [s]).Some? && Running(Reach(before + [s]).value, j)
    ensures Reach(before).Some?
    ensures var m, x := Reach(before).value, Reach(before + [s]).value.jobs[j];
      if j < |m.jobs| then Running(m, j) && m.jobs[j].key == x.key && (!(s.Trigger? && s.key == x.key) ==> x == m.jobs[j])
      else AllCovered(x)
  {
    hide Post, Cooldown, Duration, Remembered, Spaced, Timed, Reach;
    ReachLast(before, s);
    RunSound(before);
  }

  lemma {:induction false} ReachLast(before: seq<Step>, s: Step)
    requires Reach(before + [s]).Some?
    ensures Reach(before).Some? && InRange(Reach(before).value) && Enabled(Reach(before).value, s)
    ensures Reach(before + [s]).value == Apply(Reach(before).value, s)
  {
    assert (before + [s])[..|before|] == before;
  }

  lemma {:induction false} GuardedCovers(steps: seq<Step>, n: nat, j: nat)
    requires Guarded(steps) && n <= |steps| && SomeRunning(steps, n, j)
    ensures AllCovered(Reach(steps[..n]).value.jobs[j])
    decreases n
  {
    hide Reach, AllCovered;
    if n == 0 {
      assert Reach(steps[..0]) == Some(NO_JOBS) by { NothingReached(steps); }
    } else {
      var before, s := steps[..n - 1], steps[n - 1];
      assert steps[..n] == before + [s];
      RunningBefore(before, s, j);
      var m := Reach(before).value;
      if j < |m.jobs| {
        GuardedCovers(steps, n - 1, j);
        if s.Trigger? && s.key == m.jobs[j].key {
          assert MeetsRunning(steps, n - 1, j);
          TriggerMoves(before, s, j);
          LastEnd(before, j);
          GuardKeeps(m.jobs[j], Reach(steps[..n]).value.jobs[j], s);
        }
      }
    }
  }

  lemma {:induction false} NothingReached(steps: seq<Step>)
    ensures Reach(steps[..0]) == Some(NO_JOBS)
  {
  }

  /** The end a running recording object holds is the last one asked of it. */
  lemma {:induction false} LastEnd(before: seq<Step>, j: nat)
    requires Reach(before).Some? && Running(Reach(before).value, j)
    ensures Reach(before).value.jobs[j].activeUntil in Reach(before).value.jobs[j].deadlines
  {
    hide Reach;
    RunSound(before);
    assert Timed(Reach(before).value.jobs[j]);
  }

  /** Main result: a run keeps every running job safe, at every moment and for all the ends asked of it,
      exactly if each of its triggers that meets a running job passes the guard. */
  lemma {:induction false} GuardExactly(steps: seq<Step>)
    requires Reach(steps).Some?
    ensures AlwaysSafe(steps) <==> Guarded(steps)
  {
    hide Reach, Safe, AllCovered;
    if Guarded(steps) {
      forall n: nat, j: nat | n <= |steps| && SomeRunning(steps, n, j)
        ensures Safe(steps[..n], j, Reach(steps[..n]).value.jobs[j].deadlines)
      {
        GuardedCovers(steps, n, j);
        CoveredIsSafe(steps[..n], j);
      }
    }
    if AlwaysSafe(steps) {
      forall n: nat, j: nat | n < |steps| && MeetsRunning(steps, n, j) ensures Lengthens(Reach(steps[..n]).value.jobs[j], steps[n]) {
        var before, s := steps[..n], steps[n];
        assert steps[..n + 1] == before + [s];
        TriggerMoves(before, s, j);
        assert SomeRunning(steps, n, j) && SomeRunning(steps, n + 1, j);
        CoveredIsSafe(before, j);
        CoveredIsSafe(before + [s], j);
        LastEnd(before, j);
        GuardKeeps(Reach(before).value.jobs[j], Reach(before + [s]).value.jobs[j], s);
      }
    }
  }

  /** In a guarded run every body that stopped respected its duration and all the ends asked of it. */
  lemma {:induction false} GuardedStops(steps: seq<Step>, n: nat, j: nat)
    requires Guarded(steps) && n <= |steps| && Reach(steps[..n]).Some? && j < |Reach(steps[..n]).value.jobs|
    ensures StopsAfter(Reach(steps[..n]).value, j, Reach(steps[..n]).value.jobs[j].deadlines)
    decreases n
  {
    hide Reach, StopsAfter;
    if n == 0 {
      assert Reach(steps[..0]) == Some(NO_JOBS) by { NothingReached(steps); }
    } else {
      var before, s := steps[..n - 1], steps[n - 1];
      assert steps[..n] == before + [s];
      ReachLast(before, s);
      var m := Reach(before).value;
      if j < |m.jobs| {
        GuardedStops(steps, n - 1, j);
        if Running(m, j) {
          assert SomeRunning(steps, n - 1, j);
          GuardedCovers(steps, n - 1, j);
        }
      }
      StopStep(m, s, j);
    }
  }

  lemma StopStep(m: Manager, s: Step, j: nat)
    requires InRange(m) && Enabled(m, s) && j < |Apply(m, s).jobs|
    requires j < |m.jobs| ==> StopsAfter(m, j, m.jobs[j].deadlines) && (Running(m, j) ==> AllCovered(m.jobs[j]))
    ensures StopsAfter(Apply(m, s), j, Apply(m, s).jobs[j].deadlines)
  {
    hide Post, Cooldown, Duration;
  }

  lemma {:induction false} CoveredIsSafe(before: seq<Step>, j: nat)
    requires Reach(before).Some? && Running(Reach(before).value, j)
    ensures Safe(before, j, Reach(before).value.jobs[j].deadlines) <==> AllCovered(Reach(before).value.jobs[j])
  {
    hide Reach, Safe, Covers;
    SafeExactly(before, j, Reach(before).value.jobs[j].deadlines);
  }

  /** It can happen: the post-roll setting is lowered between two triggers, and the second one cuts short
      the end the first one asked for. */
  lemma LoweredPostCuts()
    ensures var k := Key(1, "motion");
      var steps := [Trigger(k, 0, 0, Settings(5, 600, 0), true), Trigger(k, SECOND, SECOND, Settings(5, 1, 0), true), Poll(0, 5 * SECOND)];
      && Reach(steps).Some? && |Reach(steps).value.jobs| == 1
      && Reach(steps).value.jobs[0].stoppedAt == Some(5 * SECOND)
      && 600 * SECOND in Reach(steps).value.jobs[0].deadlines
  {
    var k := Key(1, "motion");
    var s0, s1, s2 := Trigger(k, 0, 0, Settings(5, 600, 0), true), Trigger(k, SECOND, SECOND, Settings(5, 1, 0), true), Poll(0, 5 * SECOND);
    var steps := [s0, s1, s2];
    var j0 := NewJob(k, 0, 0, Settings(5, 600, 0));
    var m0 := Manager(map[k := 0], map[k := 0], [j0]);
    ReachSnoc([], s0, NO_JOBS);
    assert [] + [s0] == [s0];
    assert Handle(NO_JOBS, k, 0, 0, Settings(5, 600, 0), true) == m0;
    ReachSnoc([s0], s1, m0);
    var j1 := Extended(j0, 2 * SECOND);
    var m1 := m0.(jobs := [j1]);
    assert [s0] + [s1] == [s0, s1];
    assert Handle(m0, k, SECOND, SECOND, Settings(5, 1, 0), true) == m1 by { assert m0.jobs[0 := j1] == [j1]; }
    ReachSnoc([s0, s1], s2, m1);
    assert steps == [s0, s1] + [s2];
    assert j1.deadlines[0] == 600 * SECOND;
  }

  lemma {:induction false} ReachSnoc(steps: seq<Step>, s: Step, m: Manager)
    requires Reach(steps) == Some(m) && InRange(m) && Enabled(m, s)
    ensures Reach(steps + [s]) == Some(Apply(m, s))
  {
    assert (steps + [s])[..|steps|] == steps;
  }
}
