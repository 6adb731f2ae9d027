/** When a trigger starts a recording and when a body stops, in terms of the jobs alone. */
module RecordingStarts {
  import opened Wrappers
  import opened EventRecording

  /** The settings in microseconds: 5 seconds to an hour, 0 to 10 minutes, at least 0. */
  lemma SettingsExact(s: Settings)
    ensures var d := if s.duration == 0 then 30 else s.duration;
      5_000_000 <= Duration(s) <= 3_600_000_000 && (5 <= d <= 3600 ==> Duration(s) == d * 1_000_000)
      && (d < 5 ==> Duration(s) == 5_000_000) && (d > 3600 ==> Duration(s) == 3_600_000_000)
    ensures var p := if s.post == 0 then 10 else s.post;
      0 <= Post(s) <= 600_000_000 && (0 <= p <= 600 ==> Post(s) == p * 1_000_000)
      && (p < 0 ==> Post(s) == 0) && (p > 600 ==> Post(s) == 600_000_000)
    ensures Cooldown(s) >= 0 && (s.cooldown >= 0 ==> Cooldown(s) == s.cooldown * 1_000_000) && (s.cooldown < 0 ==> Cooldown(s) == 0)
  {
  }

  /** i is the last job of the key. */
  ghost predicate LastOf(jobs: seq<Job>, key: Key, i: int) {
    0 <= i < |jobs| && jobs[i].key == key && forall h :: i < h < |jobs| ==> jobs[h].key != key
  }

  predicate AllOver(jobs: seq<Job>, key: Key) {
    forall j :: 0 <= j < |jobs| && jobs[j].key == key ==> jobs[j].finished
  }

  /** A cooldown counted from this start has passed. */
  predicate Cooled(startedAt: int, settings: Settings, check: int) {
    startedAt + 1_000_000 * (if settings.cooldown > 0 then settings.cooldown else 0) <= check
  }

  /** What a trigger asks for: a storage target, every job of its key over, and the last of them started long enough
      ago. */
  ghost predicate Starts(jobs: seq<Job>, s: Step)
    requires s.Trigger?
  {
    s.storage && AllOver(jobs, s.key) && forall i :: LastOf(jobs, s.key, i) ==> Cooled(jobs[i].startedAt, s.settings, s.check)
  }

  /** The job a trigger starts. */
  ghost predicate StartedBy(x: Job, s: Step)
    requires s.Trigger?
  {
    && x.key == s.key && x.settings == s.settings && x.startedAt == s.now && x.checked == s.check
    && x.minUntil == s.now + Duration(s.settings) && x.activeUntil == s.now + Post(s.settings)
    && x.deadlines == [s.now + Post(s.settings)] && !x.finished && x.stoppedAt.None?
  }

  /** The only thing a trigger does to an unfinished job of its key: it asks for another end. */
  ghost predicate AskedAgain(w: Job, x: Job, end: int) {
    x == w.(activeUntil := end, deadlines := if w.stoppedAt.None? then w.deadlines + [end] else w.deadlines)
  }

  lemma {:induction false} LastExists(jobs: seq<Job>, j: nat)
    requires j < |jobs|
    ensures exists i :: LastOf(jobs, jobs[j].key, i)
    decreases |jobs| - j
  {
    if h :| j < h < |jobs| && jobs[h].key == jobs[j].key { LastExists(jobs, h); } else { assert LastOf(jobs, jobs[j].key, j); }
  }

  /** Only keys of jobs are remembered. */
  lemma {:induction false} StartedHasJob(steps: seq<Step>, key: Key)
    requires Reach(steps).Some?
    ensures key in Reach(steps).value.lastStarted ==>
      exists j :: 0 <= j < |Reach(steps).value.jobs| && Reach(steps).value.jobs[j].key == key
  {
    hide Post, Cooldown, Duration, InCooldown, Reach;
    if steps == [] {
      assert Reach(steps) == Some(NO_JOBS) by { NothingReached(steps); assert steps[..0] == steps; }
    } else {
      var before, s := steps[..|steps| - 1], steps[|steps| - 1];
      assert steps == before + [s];
      ReachLast(before, s);
      StartedHasJob(before, key);
      var jobs, after := Reach(before).value.jobs, Reach(steps).value.jobs;
      if key in Reach(before).value.lastStarted {
        var j :| 0 <= j < |jobs| && jobs[j].key == key;
        assert after[j].key == key;
      } else if key in Reach(steps).value.lastStarted {
        assert after[|jobs|].key == key;
      }
    }
  }

  /** The tables of a reachable manager, read off its jobs. */
  lemma {:induction false} TablesAre(steps: seq<Step>, key: Key)
    requires Reach(steps).Some?
    ensures Sound(Reach(steps).value)
    ensures var m := Reach(steps).value;
      && (key !in m.active <==> AllOver(m.jobs, key))
      && (key in m.lastStarted <==> exists i :: LastOf(m.jobs, key, i))
      && forall i :: LastOf(m.jobs, key, i) ==> key in m.lastStarted && m.lastStarted[key] == m.jobs[i].startedAt
  {
    hide Reach, Spaced, AllTimed;
    RunSound(steps);
    var m := Reach(steps).value;
    forall i | LastOf(m.jobs, key, i) ensures key in m.lastStarted && m.lastStarted[key] == m.jobs[i].startedAt {
      assert Previous(m.jobs, i, |m.jobs|);
    }
    if key in m.lastStarted {
      StartedHasJob(steps, key);
      var j :| 0 <= j < |m.jobs| && m.jobs[j].key == key;
      LastExists(m.jobs, j);
    }
  }

  lemma Extends(m: Manager, s: Step)
    requires OneInFlight(m) && s.Trigger? && s.key in m.active
    ensures var jobs, after := m.jobs, Apply(m, s).jobs; |after| == |jobs| && forall j :: 0 <= j < |jobs| ==>
      if jobs[j].key == s.key && !jobs[j].finished then AskedAgain(jobs[j], after[j], s.now + Post(s.settings))
      else after[j] == jobs[j]
  {
    hide Post, Duration, Cooldown;
  }

  lemma StartsOrNot(m: Manager, s: Step)
    requires InRange(m) && s.Trigger? && s.key !in m.active
    ensures var jobs, after := m.jobs, Apply(m, s).jobs;
      if s.storage && !InCooldown(m, s.key, s.settings, s.check)
      then |after| == |jobs| + 1 && after[..|jobs|] == jobs && StartedBy(after[|jobs|], s) else after == jobs
  {
    hide Post, Duration, Cooldown, InCooldown;
  }

  /** Main result: over every run, a trigger starts exactly one job of its key and time if what it asks for is there,
      moves the end of the unfinished job of its key if there is one, and changes no job otherwise. */
  lemma {:induction false} TriggerExactly(steps: seq<Step>, s: Step)
    requires Reach(steps).Some? && s.Trigger?
    ensures Reach(steps + [s]).Some?
    ensures var jobs, after := Reach(steps).value.jobs, Reach(steps + [s]).value.jobs;
      if Starts(jobs, s) then |after| == |jobs| + 1 && after[..|jobs|] == jobs && StartedBy(after[|jobs|], s)
      else |after| == |jobs| && forall j :: 0 <= j < |jobs| ==>
        if jobs[j].key == s.key && !jobs[j].finished then AskedAgain(jobs[j], after[j], s.now + Post(s.settings))
        else after[j] == jobs[j]
  {
    hide Reach, Post, Duration, Remembered, Spaced, AllTimed, Apply, StartedBy, AskedAgain, Cooled, InCooldown, LastOf;
    TablesAre(steps, s.key);
    var m := Reach(steps).value;
    ReachSnoc(steps, s, m);
    if s.key in m.active {
      Extends(m, s);
    } else {
      StartsOrNot(m, s);
      if i :| LastOf(m.jobs, s.key, i) {
        forall h | LastOf(m.jobs, s.key, h) ensures h == i { OneLast(m.jobs, s.key, h, i); }
        LastIn(m.jobs, s.key, i);
        CooledIs(m, s, i);
      } else {
        NoCooldown(m, s);
      }
    }
  }

  lemma LastIn(jobs: seq<Job>, key: Key, i: int)
    requires LastOf(jobs, key, i)
    ensures 0 <= i < |jobs|
  {
  }

  lemma NoCooldown(m: Manager, s: Step)
    requires s.Trigger? && s.key !in m.lastStarted
    ensures !InCooldown(m, s.key, s.settings, s.check)
  {
  }

  lemma CooledIs(m: Manager, s: Step, i: nat)
    requires s.Trigger? && i < |m.jobs| && s.key in m.lastStarted && m.lastStarted[s.key] == m.jobs[i].startedAt
    ensures Cooled(m.jobs[i].startedAt, s.settings, s.check) <==> !InCooldown(m, s.key, s.settings, s.check)
  {
  }

  lemma OneLast(jobs: seq<Job>, key: Key, h: int, i: int)
    requires LastOf(jobs, key, h) && LastOf(jobs, key, i)
    ensures h == i
  {
  }

  // ----- only the last start counts -----

  /** No job of the key started later than its last one. */
  ghost predicate LastIsLatest(jobs: seq<Job>, key: Key) {
    forall i, j :: LastOf(jobs, key, i) && 0 <= j < |jobs| && jobs[j].key == key ==> jobs[j].startedAt <= jobs[i].startedAt
  }

  predicate AllCooled(jobs: seq<Job>, key: Key, settings: Settings, check: int) {
    forall j :: 0 <= j < |jobs| && jobs[j].key == key ==> Cooled(jobs[j].startedAt, settings, check)
  }

  /** A trigger that starts a job comes after the cooldown of every job of its key, not only the last one, for all
      triggers there may be, exactly if no job of the key started later than the last one. */
  lemma {:induction false} EveryStartCounts(jobs: seq<Job>, key: Key)
    requires AllOver(jobs, key)
    ensures LastIsLatest(jobs, key) <==>
      forall s: Step :: s.Trigger? && s.key == key && Starts(jobs, s) ==> AllCooled(jobs, key, s.settings, s.check)
  {
    if LastIsLatest(jobs, key) {
      forall s: Step, j | s.Trigger? && s.key == key && Starts(jobs, s) && 0 <= j < |jobs| && jobs[j].key == key
        ensures Cooled(jobs[j].startedAt, s.settings, s.check)
      {
        LastExists(jobs, j);
      }
    } else {
      var i, j :| LastOf(jobs, key, i) && 0 <= j < |jobs| && jobs[j].key == key && jobs[j].startedAt > jobs[i].startedAt;
      var at := jobs[i].startedAt;
      var s := Trigger(key, at, at, Settings(0, 0, 0), true);
      forall h | LastOf(jobs, key, h) ensures h == i { OneLast(jobs, key, h, i); }
      assert Starts(jobs, s);
      assert !Cooled(jobs[j].startedAt, s.settings, s.check);
    }
  }

  /** The recordings of each key read a clock that does not go back. */
  ghost predicate Forward(steps: seq<Step>) {
    forall i, j :: 0 <= i <= j < |steps| && steps[i].Trigger? && steps[j].Trigger? && steps[i].key == steps[j].key ==>
      steps[i].now <= steps[j].now
  }

  ghost predicate StartedIn(steps: seq<Step>, j: Job) {
    exists n :: 0 <= n < |steps| && steps[n].Trigger? && steps[n].key == j.key && steps[n].now == j.startedAt
  }

  lemma StartedLater(steps: seq<Step>, s: Step, j: Job)
    requires StartedIn(steps, j)
    ensures StartedIn(steps + [s], j)
  {
    var n :| 0 <= n < |steps| && steps[n].Trigger? && steps[n].key == j.key && steps[n].now == j.startedAt;
    assert (steps + [s])[n] == steps[n];
  }

  ghost predicate StartsRise(jobs: seq<Job>) {
    forall i, j :: 0 <= i <= j < |jobs| && jobs[i].key == jobs[j].key ==> jobs[i].startedAt <= jobs[j].startedAt
  }

  /** So it is when the clock does not go back. */
  lemma {:induction false} ForwardStarts(steps: seq<Step>)
    requires Reach(steps).Some? && Forward(steps)
    ensures StartsRise(Reach(steps).value.jobs)
    ensures forall j :: 0 <= j < |Reach(steps).value.jobs| ==> StartedIn(steps, Reach(steps).value.jobs[j])
  {
    hide Post, Cooldown, Duration, Reach, InCooldown, StartedIn;
    if steps == [] {
      assert Reach(steps) == Some(NO_JOBS) by { NothingReached(steps); assert steps[..0] == steps; }
    } else {
      var before, s := steps[..|steps| - 1], steps[|steps| - 1];
      assert steps == before + [s];
      ReachLast(before, s);
      ForwardStarts(before);
      ForwardStep(before, s);
    }
  }

  lemma {:induction false} ForwardStep(before: seq<Step>, s: Step)
    requires Reach(before + [s]).Some? && Forward(before + [s]) && Reach(before).Some? && StartsRise(Reach(before).value.jobs)
    requires forall j :: 0 <= j < |Reach(before).value.jobs| ==> StartedIn(before, Reach(before).value.jobs[j])
    ensures StartsRise(Reach(before + [s]).value.jobs)
    ensures forall j :: 0 <= j < |Reach(before + [s]).value.jobs| ==> StartedIn(before + [s], Reach(before + [s]).value.jobs[j])
  {
    hide Post, Cooldown, Duration, Reach, InCooldown, StartedIn, Forward;
    ReachLast(before, s);
    var jobs, after := Reach(before).value.jobs, Reach(before + [s]).value.jobs;
    assert |jobs| <= |after| <= |jobs| + 1;
    assert forall j :: 0 <= j < |jobs| ==> after[j].key == jobs[j].key && after[j].startedAt == jobs[j].startedAt;
    forall j | 0 <= j < |after| ensures StartedIn(before + [s], after[j]) {
      if j < |jobs| { SameStartIn(before, jobs[j], after[j]); StartedLater(before, s, after[j]); } else { JustStarted(before, s, after[j]); }
    }
    forall i | 0 <= i < |jobs| && |after| > |jobs| && jobs[i].key == s.key ensures jobs[i].startedAt <= s.now {
      NotEarlier(before, s, jobs[i]);
    }
  }

  lemma SameStartIn(steps: seq<Step>, w: Job, x: Job)
    requires StartedIn(steps, w) && x.key == w.key && x.startedAt == w.startedAt
    ensures StartedIn(steps, x)
  {
  }

  lemma JustStarted(before: seq<Step>, s: Step, x: Job)
    requires s.Trigger? && x.key == s.key && x.startedAt == s.now
    ensures StartedIn(before + [s], x)
  {
    assert (before + [s])[|before|] == s;
  }

  lemma NotEarlier(before: seq<Step>, s: Step, w: Job)
    requires StartedIn(before, w) && Forward(before + [s]) && s.Trigger? && s.key == w.key
    ensures w.startedAt <= s.now
  {
    var n :| 0 <= n < |before| && before[n].Trigger? && before[n].key == w.key && before[n].now == w.startedAt;
    assert (before + [s])[n] == before[n] && (before + [s])[|before|] == s;
  }

  /** Main result: if the clock does not go back, a trigger adds a job exactly if a storage target is found, no job
      of its key is unfinished, and for every earlier job of its key the cooldown has passed. */
  lemma {:induction false} TriggerStarts(steps: seq<Step>, s: Step)
    requires Reach(steps).Some? && s.Trigger? && Forward(steps)
    ensures Reach(steps + [s]).Some?
    ensures var jobs := Reach(steps).value.jobs;
      |Reach(steps + [s]).value.jobs| > |jobs| <==>
        && s.storage
        && forall j :: 0 <= j < |jobs| && jobs[j].key == s.key ==>
          jobs[j].finished && jobs[j].startedAt + 1_000_000 * (if s.settings.cooldown > 0 then s.settings.cooldown else 0) <= s.check
  {
    hide Reach, StartedIn;
    TriggerExactly(steps, s);
    ForwardStarts(steps);
    var jobs := Reach(steps).value.jobs;
    if AllOver(jobs, s.key) && Starts(jobs, s) { EveryStartCounts(jobs, s.key); }
  }

  const K := Key(1, "motion")
  const FREE := Settings(0, 0, 0)
  const TURNED_BACK := [Trigger(K, 9 * SECOND, 9 * SECOND, FREE, true), Finish(0), Trigger(K, 0, 9 * SECOND, FREE, true), Finish(1)]

  lemma {:induction false} TurnedBack()
    ensures Reach(TURNED_BACK) == Some(Manager(map[], map[K := 0],
      [NewJob(K, 9 * SECOND, 9 * SECOND, FREE).(finished := true), NewJob(K, 0, 9 * SECOND, FREE).(finished := true)]))
  {
    hide NewJob, Reach;
    var s := TURNED_BACK;
    var j0, j1 := NewJob(K, 9 * SECOND, 9 * SECOND, FREE), NewJob(K, 0, 9 * SECOND, FREE);
    NewJobOf(9 * SECOND);
    NewJobOf(0);
    var m0 := Manager(map[K := 0], map[K := 9 * SECOND], [j0]);
    var m1 := Manager(map[], map[K := 9 * SECOND], [j0.(finished := true)]);
    var m2 := Manager(map[K := 1], map[K := 0], [j0.(finished := true), j1]);
    assert Reach([]) == Some(NO_JOBS) by { NothingReached([]); assert s[..0] == []; }
    ReachSnoc([], s[0], NO_JOBS);
    assert [] + [s[0]] == [s[0]] && Apply(NO_JOBS, s[0]) == m0;
    ReachSnoc([s[0]], s[1], m0);
    assert [s[0]] + [s[1]] == [s[0], s[1]] && Apply(m0, s[1]) == m1;
    ReachSnoc([s[0], s[1]], s[2], m1);
    assert [s[0], s[1]] + [s[2]] == [s[0], s[1], s[2]] && Apply(m1, s[2]) == m2;
    ReachSnoc([s[0], s[1], s[2]], s[3], m2);
    assert [s[0], s[1], s[2]] + [s[3]] == s;
    assert Apply(m2, s[3]) == Manager(map[], map[K := 0], [j0.(finished := true), j1.(finished := true)]);
  }

  lemma NewJobOf(now: int)
    ensures var j := NewJob(K, now, 9 * SECOND, FREE); j.key == K && j.startedAt == now && !j.finished
  {
  }

  /** When it does go back, between the two readings of one trigger, a later trigger may start a job within the
      cooldown of an earlier one. */
  lemma {:induction false} ClockBack()
    ensures Reach(TURNED_BACK).Some?
    ensures var s, jobs := Trigger(K, 5 * SECOND, 5 * SECOND, Settings(0, 0, 5), true), Reach(TURNED_BACK).value.jobs;
      Starts(jobs, s) && !LastIsLatest(jobs, K) && !AllCooled(jobs, K, s.settings, s.check)
  {
    hide NewJob, Reach;
    TurnedBack();
    NewJobOf(9 * SECOND);
    NewJobOf(0);
    var jobs := Reach(TURNED_BACK).value.jobs;
    assert LastOf(jobs, K, 1) && jobs[0].startedAt > jobs[1].startedAt;
  }

  // ----- when a body stops and a job ends -----

  /** Main result: over every run, a poll of a running body stops it exactly if the duration of its settings has
      passed since its start and so has the last end asked of it; no other job changes. */
  lemma {:induction false} PollExactly(steps: seq<Step>, j: nat, now: int)
    requires Reach(steps).Some? && Running(Reach(steps).value, j)
    ensures Reach(steps + [Poll(j, now)]).Some?
    ensures var jobs, after := Reach(steps).value.jobs, Reach(steps + [Poll(j, now)]).value.jobs;
      && jobs[j].deadlines != [] && |after| == |jobs|
      && after[j] == jobs[j].(stoppedAt :=
        if now >= jobs[j].startedAt + Duration(jobs[j].settings) && now >= jobs[j].deadlines[|jobs[j].deadlines| - 1] then Some(now) else None)
      && forall i :: 0 <= i < |jobs| && i != j ==> after[i] == jobs[i]
  {
    hide Reach, Post, Duration, Remembered, Spaced;
    RunSound(steps);
    ReachSnoc(steps, Poll(j, now), Reach(steps).value);
    assert Timed(Reach(steps).value.jobs[j]);
  }

  /** The end of a job finishes it and changes no other job. */
  lemma {:induction false} FinishExactly(steps: seq<Step>, j: nat)
    requires Reach(steps).Some? && j < |Reach(steps).value.jobs| && !Reach(steps).value.jobs[j].finished
    ensures Reach(steps + [Finish(j)]).Some?
    ensures var jobs := Reach(steps).value.jobs; Reach(steps + [Finish(j)]).value.jobs == jobs[j := jobs[j].(finished := true)]
  {
    hide Reach;
    RunSound(steps);
    ReachSnoc(steps, Finish(j), Reach(steps).value);
  }
}
