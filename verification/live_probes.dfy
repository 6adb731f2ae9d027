/** When a stop mark stands and which readers probe the connection, in terms of the steps of a run. */
module LiveProbes {
  import opened Wrappers
  import opened Live

  /** Step n stops the running process of the key. */
  ghost predicate StopsRunning(steps: seq<Step>, key: string, n: int) {
    && 0 <= n < |steps| && steps[n] == Stop(key) && Run(steps[..n]).Some?
    && var s := Run(steps[..n]).value;
      key in s.processes && s.processes[key] < |s.readers| && s.readers[s.processes[key]].alive
  }

  /** Step n launches the key, or a reader of the key asks there whether it was stopped. */
  ghost predicate Unmarks(steps: seq<Step>, key: string, n: int) {
    && 0 <= n < |steps|
    && match steps[n]
       case Launch(k, _, _) => k == key
       case Judge(r, _, _) => Run(steps[..n]).Some? && Serves(Run(steps[..n]).value, key, r)
       case _ => false
  }

  /** The key was stopped while running, and since then neither launched nor asked about. */
  ghost predicate MarkedAt(steps: seq<Step>, key: string, n: int) {
    StopsRunning(steps, key, n) && forall i :: n < i < |steps| ==> !Unmarks(steps, key, i)
  }

  lemma {:induction false} RunLast(before: seq<Step>, x: Step)
    requires Run(before + [x]).Some?
    ensures Run(before).Some? && Enabled(Run(before).value, x) && Run(before + [x]).value == Apply(Run(before).value, x)
  {
    assert (before + [x])[..|before|] == before;
  }

  /** What a step does to the mark of a key. */
  lemma MarkStep(s: State, x: Step, key: string)
    requires Enabled(s, x)
    ensures key in Apply(s, x).stopping <==>
      match x
      case Launch(k, _, _) => k != key && key in s.stopping
      case Stop(k) => key in s.stopping || (k == key && key in s.processes && s.readers[s.processes[key]].alive)
      case Judge(r, _, _) => s.readers[r].key != key && key in s.stopping
      case _ => key in s.stopping
  {
    hide Noted, Current;
  }

  lemma {:induction false} EarlierSame(before: seq<Step>, x: Step, key: string, n: int)
    requires n < |before|
    ensures StopsRunning(before + [x], key, n) <==> StopsRunning(before, key, n)
    ensures Unmarks(before + [x], key, n) <==> Unmarks(before, key, n)
  {
    hide Run;
    if n >= 0 { assert (before + [x])[..n] == before[..n]; }
  }

  /** Main result: over every run, a key is marked exactly if a running process of it was stopped and since then the
      key was neither launched nor asked about by a reader of it. */
  lemma {:induction false} MarkedExactly(steps: seq<Step>, key: string)
    requires Run(steps).Some?
    ensures key in Run(steps).value.stopping <==> exists n :: MarkedAt(steps, key, n)
  {
    hide StopsRunning, Unmarks, Run;
    if steps == [] {
      NothingRun();
      forall n ensures !StopsRunning(steps, key, n) { NoStep(key, n); }
    } else {
      var last := |steps| - 1;
      var before, x := steps[..last], steps[last];
      assert steps == before + [x];
      RunLast(before, x);
      MarkedExactly(before, key);
      MarkStep(Run(before).value, x, key);
      LastStep(before, x, key);
      forall n ensures n < last ==> (StopsRunning(steps, key, n) <==> StopsRunning(before, key, n)) {
        if n < last { EarlierSame(before, x, key, n); }
      }
      forall n ensures n < last ==> (Unmarks(steps, key, n) <==> Unmarks(before, key, n)) {
        if n < last { EarlierSame(before, x, key, n); }
      }
      forall n | StopsRunning(steps, key, n) ensures n < |steps| { WithinRun(steps, key, n); }
      if StopsRunning(steps, key, last) { assert MarkedAt(steps, key, last); }
      if n :| MarkedAt(before, key, n) {
        WithinRun(before, key, n);
        if !Unmarks(steps, key, last) { assert MarkedAt(steps, key, n); }
      }
      if n :| MarkedAt(steps, key, n) {
        if n < last { assert MarkedAt(before, key, n); }
      }
    }
  }

  lemma NoStep(key: string, n: int)
    ensures !StopsRunning([], key, n)
  {
  }

  lemma WithinRun(steps: seq<Step>, key: string, n: int)
    requires StopsRunning(steps, key, n)
    ensures 0 <= n < |steps|
  {
  }

  lemma {:induction false} LastStep(before: seq<Step>, x: Step, key: string)
    requires Run(before).Some? && Enabled(Run(before).value, x)
    ensures var s, n := Run(before).value, |before|;
      && (StopsRunning(before + [x], key, n) <==> x == Stop(key) && key in s.processes && s.readers[s.processes[key]].alive)
      && (Unmarks(before + [x], key, n) <==> (x.Launch? && x.key == key) || (x.Judge? && s.readers[x.reader].key == key))
  {
    hide Run;
    assert (before + [x])[..|before|] == before;
  }

  // ----- who asks -----

  /** Where a step brings a reader. */
  function PhaseAfter(s: State, x: Step, r: nat): Phase
    requires r < |s.readers|
  {
    match x
    case Exit(q, code, _) =>
      if q != r then s.readers[r].phase
      else if code != 0 && Current(s, s.readers[r].key, s.readers[r].generation) then Judging else Done
    case Judge(q, hasUri, hasPlaylist) =>
      if q != r then s.readers[r].phase
      else if s.readers[r].key !in s.stopping && hasUri && !hasPlaylist then Probing else Done
    case Diagnose(q, _) => if q != r then s.readers[r].phase else Done
    case _ => s.readers[r].phase
  }

  lemma StopPhase(s: State, key: string, r: nat)
    requires (key in s.processes ==> s.processes[key] < |s.readers|) && r < |Stopped(s, key).readers|
    ensures r < |s.readers| && Stopped(s, key).readers[r].phase == s.readers[r].phase
  {
  }

  lemma LaunchPhase(s: State, x: Step, r: nat)
    requires Enabled(s, x) && x.Launch? && r < |Apply(s, x).readers|
    ensures Apply(s, x).readers[r].phase == if r < |s.readers| then s.readers[r].phase else Reading
  {
    hide Stopped;
    StopKeeps(s, x.key);
    if r < |s.readers| { StopPhase(s, x.key, r); }
  }

  lemma StepPhase(s: State, x: Step, r: nat)
    requires Enabled(s, x) && r < |Apply(s, x).readers|
    ensures Apply(s, x).readers[r].phase == if r < |s.readers| then PhaseAfter(s, x, r) else Reading
  {
    hide Noted, Current, Stopped, Launched, Appended;
    match x
    case Launch(_, _, _) => LaunchPhase(s, x, r);
    case Stop(key) => StopPhase(s, key, r);
    case Line(q, m, _) => AppendKeeps(s, s.readers[q].key, s.readers[q].generation, m);
    case Exit(q, _, m) => AppendKeeps(s, s.readers[q].key, s.readers[q].generation, m);
    case Diagnose(q, m) => AppendKeeps(s, s.readers[q].key, s.readers[q].generation, m);
    case _ =>
  }

  /** At step n the process of reader r has failed, and no later launch of its key has begun. */
  ghost predicate Fails(steps: seq<Step>, r: int, n: int) {
    && 0 <= n < |steps| && steps[n].Exit? && steps[n].reader == r && steps[n].code != 0
    && Run(steps[..n]).Some? && 0 <= r < |Run(steps[..n]).value.readers|
    && Latest(steps[..n], Run(steps[..n]).value.readers[r].key) == Some(r)
  }

  ghost predicate Asks(x: Step, r: int) { x.Judge? && x.reader == r }

  ghost predicate JudgesSince(steps: seq<Step>, r: int, n: int) {
    Fails(steps, r, n) && forall i :: n < i < |steps| ==> !Asks(steps[i], r)
  }

  lemma JudgeStep(s: State, x: Step, r: nat)
    requires Enabled(s, x) && r < |Apply(s, x).readers|
    ensures Apply(s, x).readers[r].phase.Judging? <==>
      if x.Exit? && x.reader == r then x.code != 0 && Current(s, s.readers[r].key, s.readers[r].generation)
      else r < |s.readers| && s.readers[r].phase.Judging? && !Asks(x, r)
  {
    StepPhase(s, x, r);
    hide Apply, Current;
  }

  lemma {:induction false} EarlierFails(before: seq<Step>, x: Step, r: int, n: int)
    requires n < |before|
    ensures Fails(before + [x], r, n) <==> Fails(before, r, n)
  {
    hide Run, Latest;
    if n >= 0 { assert (before + [x])[..n] == before[..n]; }
  }

  lemma {:induction false} LastFails(before: seq<Step>, x: Step, r: nat)
    requires Run(before).Some? && Enabled(Run(before).value, x)
    ensures var s := Run(before).value;
      Fails(before + [x], r, |before|) <==>
        x.Exit? && x.reader == r && x.code != 0 && Current(s, s.readers[r].key, s.readers[r].generation)
  {
    hide Run, Latest;
    assert (before + [x])[..|before|] == before;
    if x.Exit? && x.reader == r {
      RunKept(before, Run(before).value.readers[r].key);
      hide LogKept, NoneLeaks;
    }
  }

  lemma FailsWithin(steps: seq<Step>, r: int, n: int)
    requires Fails(steps, r, n)
    ensures 0 <= n < |steps|
  {
  }

  lemma {:induction false} FailedServes(before: seq<Step>, x: Step, r: nat, n: int)
    requires Run(before + [x]).Some? && Fails(before, r, n)
    ensures Run(before).Some? && r < |Run(before).value.readers|
  {
    hide Run, Latest, Apply, Enabled;
    RunLast(before, x);
    RunGrows(before, n);
  }

  /** Over every run, a reader stands between its exit message and its question exactly from the failed end of its
      process, if no later launch of the key had begun by then, until it asks. */
  lemma {:induction false} JudgesExactly(steps: seq<Step>, r: nat)
    requires Run(steps).Some? && r < |Run(steps).value.readers|
    ensures Run(steps).value.readers[r].phase.Judging? <==> exists n :: JudgesSince(steps, r, n)
  {
    hide Fails, Run;
    if steps == [] {
      NothingRun();
    } else {
      var last := |steps| - 1;
      var before, x := steps[..last], steps[last];
      assert steps == before + [x];
      RunLast(before, x);
      var s := Run(before).value;
      if r < |s.readers| { JudgesExactly(before, r); }
      JudgeStep(s, x, r);
      LastFails(before, x, r);
      forall n ensures n < last ==> (Fails(steps, r, n) <==> Fails(before, r, n)) {
        if n < last { EarlierFails(before, x, r, n); }
      }
      if Fails(steps, r, last) { assert JudgesSince(steps, r, last); }
      if n :| JudgesSince(before, r, n) {
        FailsWithin(before, r, n);
        FailedServes(before, x, r, n);
        if !Asks(x, r) { assert JudgesSince(steps, r, n); }
      }
      if n :| JudgesSince(steps, r, n) {
        FailsWithin(steps, r, n);
        if n < last { assert JudgesSince(before, r, n); }
      }
    }
  }

  // ----- who probes -----

  /** At step n reader r asks whether its key was stopped, and goes on to probe: no mark stands, there is an address
      to probe, and the stream never produced a playlist. */
  ghost predicate GoesOn(steps: seq<Step>, r: int, n: int) {
    && 0 <= n < |steps| && steps[n].Judge? && steps[n].reader == r && steps[n].hasUri && !steps[n].hasPlaylist
    && Run(steps[..n]).Some? && 0 <= r < |Run(steps[..n]).value.readers|
    && forall i :: !MarkedAt(steps[..n], Run(steps[..n]).value.readers[r].key, i)
  }

  ghost predicate Reports(x: Step, r: int) { x.Diagnose? && x.reader == r }

  /** Since step n reader r has been probing. */
  ghost predicate ProbesSince(steps: seq<Step>, r: int, n: int) {
    GoesOn(steps, r, n) && forall i :: n < i < |steps| ==> !Reports(steps[i], r)
  }

  /** What a step does to the phase of a reader. */
  lemma ProbeStep(s: State, x: Step, r: nat)
    requires Enabled(s, x) && r < |Apply(s, x).readers|
    ensures Apply(s, x).readers[r].phase.Probing? <==>
      if x.Judge? && x.reader == r then s.readers[r].key !in s.stopping && x.hasUri && !x.hasPlaylist
      else r < |s.readers| && s.readers[r].phase.Probing? && !Reports(x, r)
  {
    StepPhase(s, x, r);
    hide Apply, Current;
  }

  lemma {:induction false} EarlierGoesOn(before: seq<Step>, x: Step, r: int, n: int)
    requires n < |before|
    ensures GoesOn(before + [x], r, n) <==> GoesOn(before, r, n)
  {
    hide Run, MarkedAt;
    if n >= 0 { assert (before + [x])[..n] == before[..n]; }
  }

  lemma {:induction false} LastGoesOn(before: seq<Step>, x: Step, r: nat)
    requires Run(before).Some? && Enabled(Run(before).value, x)
    ensures var s := Run(before).value;
      GoesOn(before + [x], r, |before|) <==>
        x.Judge? && x.reader == r && x.hasUri && !x.hasPlaylist && s.readers[r].key !in s.stopping
  {
    hide Run, MarkedAt;
    assert (before + [x])[..|before|] == before;
    if x.Judge? && x.reader == r { MarkedExactly(before, Run(before).value.readers[r].key); }
  }

  lemma GoesWithin(steps: seq<Step>, r: int, n: int)
    requires GoesOn(steps, r, n)
    ensures 0 <= n < |steps|
  {
  }

  /** A reader that went on is one of the readers of the run. */
  lemma {:induction false} WentOnServes(before: seq<Step>, x: Step, r: nat, n: int)
    requires Run(before + [x]).Some? && GoesOn(before, r, n)
    ensures Run(before).Some? && r < |Run(before).value.readers|
  {
    hide Run, MarkedAt, Apply, Enabled;
    RunLast(before, x);
    RunGrows(before, n);
  }

  lemma {:induction false} RunGrows(steps: seq<Step>, n: nat)
    requires n <= |steps| && Run(steps).Some?
    ensures Run(steps[..n]).Some? && |Run(steps[..n]).value.readers| <= |Run(steps).value.readers|
  {
    hide Run, Apply, Enabled;
    if n < |steps| {
      var before, x := steps[..|steps| - 1], steps[|steps| - 1];
      assert steps == before + [x] && before[..n] == steps[..n];
      RunLast(before, x);
      RunGrows(before, n);
      StepCount(Run(before).value, x);
    } else {
      assert steps[..n] == steps;
    }
  }

  /** Main result: over every run, a reader probes the connection exactly from the moment it asked whether its key was
      stopped and no mark stood, with an address and no playlist, until it reports. */
  lemma {:induction false} ProbesExactly(steps: seq<Step>, r: nat)
    requires Run(steps).Some? && r < |Run(steps).value.readers|
    ensures Run(steps).value.readers[r].phase.Probing? <==> exists n :: ProbesSince(steps, r, n)
  {
    hide GoesOn, Run;
    if steps == [] {
      NothingRun();
    } else {
      var last := |steps| - 1;
      var before, x := steps[..last], steps[last];
      assert steps == before + [x];
      RunLast(before, x);
      var s := Run(before).value;
      if r < |s.readers| { ProbesExactly(before, r); }
      ProbeStep(s, x, r);
      LastGoesOn(before, x, r);
      forall n ensures n < last ==> (GoesOn(steps, r, n) <==> GoesOn(before, r, n)) {
        if n < last { EarlierGoesOn(before, x, r, n); }
      }
      if GoesOn(steps, r, last) { assert ProbesSince(steps, r, last); }
      if n :| ProbesSince(before, r, n) {
        GoesWithin(before, r, n);
        WentOnServes(before, x, r, n);
        if !Reports(x, r) { assert ProbesSince(steps, r, n); }
      }
      if n :| ProbesSince(steps, r, n) {
        GoesWithin(steps, r, n);
        if n < last { assert ProbesSince(before, r, n); }
      }
    }
  }
}
