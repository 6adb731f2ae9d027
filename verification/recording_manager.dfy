/** The recording manager: tables of recording objects that the jobs share with it, updated in place. */
module RecordingManagers {
  import opened Wrappers
  import opened EventRecording

  class ActiveRecording {
    const startedAt: int
    const minUntil: int
    var activeUntil: int
    /** The place of its job among all jobs. */
    ghost const job: nat

    constructor (startedAt: int, minUntil: int, activeUntil: int, ghost job: nat)
      ensures this.job == job
      ensures this.startedAt == startedAt && this.minUntil == minUntil && this.activeUntil == activeUntil
    {
      this.startedAt, this.minUntil, this.activeUntil, this.job := startedAt, minUntil, activeUntil, job;
    }
  }

  /** An active event of one call: the clock readings its handling makes and whether storage is found. */
  datatype Event = Event(detection: string, now: int, check: int, storage: bool)

  lemma HandleInRange(m: Manager, key: Key, now: int, check: int, settings: Settings, storage: bool)
    requires InRange(m)
    ensures InRange(Handle(m, key, now, check, settings, storage))
    ensures |Handle(m, key, now, check, settings, storage).jobs| >= |m.jobs|
  {
  }

  /** The triggers of one call, in order. */
  function HandleAll(m: Manager, camera: int, settings: Settings, events: seq<Event>): (r: Manager)
    requires InRange(m)
    ensures InRange(r) && |r.jobs| >= |m.jobs|
    decreases |events|
  {
    if events == [] then m
    else
      var e := events[0];
      HandleInRange(m, Key(camera, e.detection), e.now, e.check, settings, e.storage);
      HandleAll(Handle(m, Key(camera, e.detection), e.now, e.check, settings, e.storage), camera, settings, events[1..])
  }

  function TriggersOf(camera: int, settings: Settings, events: seq<Event>): (r: seq<Step>)
    ensures |r| == |events|
  {
    seq(|events|, i requires 0 <= i < |events| =>
      Trigger(Key(camera, events[i].detection), events[i].now, events[i].check, settings, events[i].storage))
  }

  /** One call is a run of triggers, one for each of its events, so every law of runs holds across calls. */
  lemma {:induction false} CallIsRun(steps: seq<Step>, camera: int, settings: Settings, events: seq<Event>)
    requires Reach(steps).Some?
    ensures InRange(Reach(steps).value)
    ensures Reach(steps + TriggersOf(camera, settings, events)) == Some(HandleAll(Reach(steps).value, camera, settings, events))
    decreases |events|
  {
    hide Reach, Handle, Sound;
    RunSound(steps);
    RecordingManager.InRangeOf(Reach(steps).value);
    var triggers := TriggersOf(camera, settings, events);
    if events == [] {
      assert steps + triggers == steps;
    } else {
      ReachSnoc(steps, triggers[0], Reach(steps).value);
      CallIsRun(steps + [triggers[0]], camera, settings, events[1..]);
      assert steps + triggers == (steps + [triggers[0]]) + TriggersOf(camera, settings, events[1..]);
    }
  }

  class RecordingManager {
    var active: map<Key, ActiveRecording>
    var lastStarted: map<Key, int>
    /** The manager as a value, and the recording object of each of its jobs. */
    ghost var model: Manager
    ghost var refs: seq<ActiveRecording>

    ghost predicate Valid()
      reads this, refs
    {
      && Sound(model)
      && |refs| == |model.jobs|
      && (forall j :: 0 <= j < |refs| ==> refs[j].job == j && Mirrors(refs[j], model.jobs[j]))
      && active.Keys == model.active.Keys
      && (forall k :: k in active ==> active[k] == refs[model.active[k]])
      && lastStarted == model.lastStarted
    }

    static ghost predicate Mirrors(r: ActiveRecording, j: Job)
      reads r
    {
      r.startedAt == j.startedAt && r.minUntil == j.minUntil && r.activeUntil == j.activeUntil
    }

    constructor ()
      ensures Valid() && model == NO_JOBS && refs == []
    {
      active, lastStarted, model, refs := map[], map[], NO_JOBS, [];
    }

    /** A trigger whose key already records moves the end of that recording. */
    method Extend(key: Key, until: int)
      requires Valid() && key in active
      modifies this, refs
      ensures Valid() && InRange(old(model)) && refs == old(refs)
      ensures var j := old(model).active[key]; model == old(model).(jobs := old(model).jobs[j := Extended(old(model).jobs[j], until)])
    {
      hide Sound, InRange;
      InRangeOf(model);
      assert InRange(model);
      ghost var j := model.active[key];
      ExtendSound(model, j, until);
      ghost var jobs := model.jobs;
      model := model.(jobs := jobs[j := Extended(jobs[j], until)]);
      var recording := active[key];
      recording.activeUntil := until;
      assert refs == old(refs) && refs[j] == recording;
      assert forall i :: 0 <= i < |refs| && i != j ==> refs[i] != recording;
      assert forall i :: 0 <= i < |refs| && i != j ==> model.jobs[i] == jobs[i] && Mirrors(refs[i], jobs[i]);
    }

    /** A new recording enters both tables. */
    method Start(key: Key, now: int, check: int, settings: Settings)
      requires Valid() && key !in active && !InCooldown(model, key, settings, check)
      modifies this
      ensures Valid() && model == Started(old(model), key, now, check, settings)
      ensures old(refs) <= refs && forall j :: |old(refs)| <= j < |refs| ==> fresh(refs[j])
    {
      hide Post, Duration, Cooldown, Sound, InRange, InCooldown, NewJob;
      InRangeOf(model);
      StartSound(model, key, now, check, settings);
      ghost var jobs := model.jobs;
      var recording := new ActiveRecording(now, now + Duration(settings), now + Post(settings), |jobs|);
      model := Started(model, key, now, check, settings);
      active := active[key := recording];
      lastStarted := lastStarted[key := now];
      refs := refs + [recording];
      assert Mirrors(recording, NewJob(key, now, check, settings)) by { NewJobTimes(key, now, check, settings); }
      assert forall i :: 0 <= i < |jobs| ==> refs[i] == old(refs)[i] && model.jobs[i] == jobs[i] && Mirrors(refs[i], jobs[i]);
    }

    static lemma NewJobTimes(key: Key, now: int, check: int, settings: Settings)
      ensures var j := NewJob(key, now, check, settings);
        j.startedAt == now && j.minUntil == now + Duration(settings) && j.activeUntil == now + Post(settings)
    {
    }

    /** One active event of a call. */
    method HandleEvent(key: Key, now: int, check: int, settings: Settings, storage: bool) returns (started: bool)
      requires Valid()
      modifies this, refs
      ensures Valid() && InRange(old(model)) && model == Handle(old(model), key, now, check, settings, storage)
      ensures started <==> |model.jobs| > |old(model).jobs|
      ensures old(refs) <= refs && forall j :: |old(refs)| <= j < |refs| ==> fresh(refs[j])
    {
      hide Sound, Post, Duration, Cooldown;
      InRangeOf(model);
      if key in active {
        Extend(key, now + Post(settings));
        return false;
      }
      if key in lastStarted && check < lastStarted[key] + Cooldown(settings) {
        return false;
      }
      if !storage {
        return false;
      }
      Start(key, now, check, settings);
      started := true;
    }

    static lemma InRangeOf(m: Manager)
      requires Sound(m)
      ensures InRange(m)
    {
    }

    /** A camera with recording off or without a stream starts nothing; otherwise the active events are
        handled in order. The result says whether a job started. */
    method MaybeStart(camera: int, recordingEnabled: int, hasStream: bool, settings: Settings, events: seq<Event>)
      returns (startedAny: bool)
      requires Valid()
      modifies this, refs
      ensures Valid() && InRange(old(model))
      ensures model ==
        if recordingEnabled != 1 || !hasStream then old(model) else HandleAll(old(model), camera, settings, events)
      ensures startedAny <==> |model.jobs| > |old(model).jobs|
      ensures old(refs) <= refs && forall j :: |old(refs)| <= j < |refs| ==> fresh(refs[j])
    {
      hide Sound, Handle;
      InRangeOf(model);
      startedAny := false;
      if recordingEnabled != 1 || !hasStream {
        return;
      }
      ghost var rest := events;
      for i := 0 to |events|
        invariant Valid() && InRange(model) && rest == events[i..]
        invariant HandleAll(model, camera, settings, rest) == HandleAll(old(model), camera, settings, events)
        invariant |model.jobs| >= |old(model).jobs| && (startedAny <==> |model.jobs| > |old(model).jobs|)
        invariant old(refs) <= refs && forall j :: |old(refs)| <= j < |refs| ==> fresh(refs[j])
      {
        var e := events[i];
        HandleInRange(model, Key(camera, e.detection), e.now, e.check, settings, e.storage);
        var started := HandleEvent(Key(camera, e.detection), e.now, e.check, settings, e.storage);
        if started {
          startedAny := true;
        }
        rest := rest[1..];
      }
    }

    /** One turn of a body's loop: the end it reads is the one the manager may have moved meanwhile. */
    method PollBody(recording: ActiveRecording, now: int, ghost j: nat) returns (stop: bool)
      requires Valid() && j < |refs| && refs[j] == recording && Enabled(model, Poll(j, now))
      modifies `model
      ensures Valid() && InRange(old(model)) && model == Apply(old(model), Poll(j, now))
      ensures stop <==> model.jobs[j].stoppedAt == Some(now)
    {
      hide Sound;
      InRangeOf(model);
      ApplySound(model, Poll(j, now));
      model := Apply(model, Poll(j, now));
      var until := if recording.activeUntil > recording.minUntil then recording.activeUntil else recording.minUntil;
      stop := !(now < until);
    }

    /** The end of a job, after its body stopped or by an error. */
    method FinishJob(key: Key, ghost j: nat)
      requires Valid() && Enabled(model, Finish(j)) && model.jobs[j].key == key
      modifies this
      ensures Valid() && InRange(old(model)) && model == Apply(old(model), Finish(j)) && refs == old(refs)
      ensures active == old(active) - {key}
    {
      hide Sound, Handle;
      InRangeOf(model);
      ApplySound(model, Finish(j));
      ghost var before := model;
      model := Apply(model, Finish(j));
      assert forall i :: 0 <= i < |refs| ==> Mirrors(refs[i], before.jobs[i]);
      active := active - {key};
    }
  }
}
