/** Live streams: launches, stops and notes, interleaved with any number of reader threads. One append
    of a message is one step. */
module Live {
  import opened Wrappers

  const KEPT := 20

  /** Reading lines; past the exit message; probing the connection; over. */
  datatype Phase = Reading | Judging | Probing | Done

  /** A process with the thread that reads its errors, and the generation that thread captured. */
  datatype Reader = Reader(key: string, generation: nat, alive: bool, terminated: bool, phase: Phase)

  /** `processes` maps a key to the place of its process among all readers. */
  datatype State = State(
    processes: map<string, nat>, messages: map<string, seq<string>>, stopping: set<string>,
    generation: map<string, nat>, readers: seq<Reader>)

  const QUIET := State(map[], map[], {}, map[], [])

  datatype Step =
    | Launch(key: string, start: string, spawned: bool)
    | Stop(key: string)
    | Note(key: string, message: string)
    | Dies(reader: nat)
    | Line(reader: nat, message: string, nonfatal: bool)
    | Exit(reader: nat, code: int, message: string)
    | Judge(reader: nat, hasUri: bool, hasPlaylist: bool)
    | Diagnose(reader: nat, diagnosis: string)

  function LastKept(s: seq<string>): seq<string> { if |s| > KEPT then s[|s| - KEPT..] else s }

  function Noted(messages: map<string, seq<string>>, key: string, message: string): map<string, seq<string>> {
    messages[key := LastKept((if key in messages then messages[key] else []) + [message])]
  }

  predicate Current(s: State, key: string, generation: nat) { key in s.generation && s.generation[key] == generation }

  function Appended(s: State, key: string, generation: nat, message: string): State {
    if Current(s, key, generation) then s.(messages := Noted(s.messages, key, message)) else s
  }

  /** The process of a key is forgotten; if it runs it is told to end, and the key is marked. */
  function Stopped(s: State, key: string): State
    requires key in s.processes ==> s.processes[key] < |s.readers|
  {
    if key !in s.processes then s
    else
      var p := s.processes[key];
      if s.readers[p].alive then
        s.(processes := s.processes - {key}, stopping := s.stopping + {key}, readers := s.readers[p := s.readers[p].(terminated := true)])
      else s.(processes := s.processes - {key})
  }

  /** The next generation begins with its start line. */
  function Opened(s: State, key: string, start: string): State {
    var g := (if key in s.generation then s.generation[key] else 0) + 1;
    s.(stopping := s.stopping - {key}, generation := s.generation[key := g], messages := s.messages[key := [start]])
  }

  function WithProcess(s: State, key: string): State
    requires key in s.generation
  {
    s.(processes := s.processes[key := |s.readers|],
       readers := s.readers + [Reader(key, s.generation[key], true, false, Reading)])
  }

  /** A launch stops what ran before; its own process may fail to start. */
  function Launched(s: State, key: string, start: string, spawned: bool): State
    requires key in s.processes ==> s.processes[key] < |s.readers|
  {
    var t := Opened(Stopped(s, key), key, start);
    if spawned then WithProcess(t, key) else t
  }

  function Moved(s: State, r: nat, phase: Phase): State
    requires r < |s.readers|
  {
    s.(readers := s.readers[r := s.readers[r].(phase := phase)])
  }

  predicate Enabled(s: State, x: Step) {
    match x
    case Launch(key, _, _) => key in s.processes ==> s.processes[key] < |s.readers|
    case Stop(key) => key in s.processes ==> s.processes[key] < |s.readers|
    case Note(_, _) => true
    case Dies(r) => r < |s.readers| && s.readers[r].alive
    case Line(r, _, _) => r < |s.readers| && s.readers[r].phase.Reading?
    case Exit(r, _, _) => r < |s.readers| && s.readers[r].phase.Reading? && !s.readers[r].alive
    case Judge(r, _, _) => r < |s.readers| && s.readers[r].phase.Judging?
    case Diagnose(r, _) => r < |s.readers| && s.readers[r].phase.Probing?
  }

  function Apply(s: State, x: Step): State
    requires Enabled(s, x)
  {
    match x
    case Launch(key, start, spawned) => Launched(s, key, start, spawned)
    case Stop(key) => Stopped(s, key)
    case Note(key, message) => s.(messages := Noted(s.messages, key, message))
    case Dies(r) => s.(readers := s.readers[r := s.readers[r].(alive := false)])
    case Line(r, message, nonfatal) =>
      if message == "" || nonfatal then s else Appended(s, s.readers[r].key, s.readers[r].generation, message)
    case Exit(r, code, message) =>
      if code == 0 then Moved(s, r, Done)
      else
        var reader := s.readers[r];
        var next := if Current(s, reader.key, reader.generation) then Judging else Done;
        Moved(Appended(s, reader.key, reader.generation, message), r, next)
    case Judge(r, hasUri, hasPlaylist) =>
      var key := s.readers[r].key;
      if key in s.stopping then Moved(s.(stopping := s.stopping - {key}), r, Done)
      else Moved(s, r, if hasUri && !hasPlaylist then Probing else Done)
    case Diagnose(r, diagnosis) =>
      var reader := s.readers[r];
      Moved(if diagnosis == "" then s else Appended(s, reader.key, reader.generation, diagnosis), r, Done)
  }

  function RunFrom(from: State, steps: seq<Step>): Option<State> {
    if steps == [] then Some(from)
    else
      match RunFrom(from, steps[..|steps| - 1])
      case None => None
      case Some(s) => if Enabled(s, steps[|steps| - 1]) then Some(Apply(s, steps[|steps| - 1])) else None
  }

  function Run(steps: seq<Step>): Option<State> { RunFrom(QUIET, steps) }

  // ----- what a reader of the trace would write down, without generations -----

  /** How many processes were spawned. */
  function Spawned(steps: seq<Step>): nat {
    if steps == [] then 0
    else
      var x := steps[|steps| - 1];
      Spawned(steps[..|steps| - 1]) + if x.Launch? && x.spawned then 1 else 0
  }

  /** The reader that belongs to the last launch of the key. */
  function Latest(steps: seq<Step>, key: string): Option<nat> {
    if steps == [] then None
    else
      var before, x := steps[..|steps| - 1], steps[|steps| - 1];
      if x.Launch? && x.key == key then if x.spawned then Some(Spawned(before)) else None else Latest(before, key)
  }

  /** What a step adds to the log of a key, given whether its reader belongs to the key's last launch. */
  function Added(x: Step, key: string, latest: Option<nat>): seq<string> {
    match x
    case Note(k, message) => if k == key then [message] else []
    case Line(r, message, nonfatal) => if latest == Some(r) && message != "" && !nonfatal then [message] else []
    case Exit(r, code, message) => if latest == Some(r) && code != 0 then [message] else []
    case Diagnose(r, diagnosis) => if latest == Some(r) && diagnosis != "" then [diagnosis] else []
    case _ => []
  }

  /** Everything said about a key since its last launch: the start line, the notes, and what the reader of
      that launch reported. */
  function Log(steps: seq<Step>, key: string): seq<string> {
    if steps == [] then []
    else
      var before, x := steps[..|steps| - 1], steps[|steps| - 1];
      if x.Launch? && x.key == key then [x.start] else Log(before, key) + Added(x, key, Latest(before, key))
  }

  // ----- the machine keeps to it -----

  ghost predicate LogKept(s: State, key: string, log: seq<string>) {
    if key in s.messages then s.messages[key] == LastKept(log) else log == []
  }

  /** A reader is the latest of its key exactly if its generation is the current one. */
  ghost predicate Told(s: State, key: string, latest: Option<nat>) {
    && (latest.Some? ==> latest.value < |s.readers| && s.readers[latest.value].key == key)
    && forall r :: 0 <= r < |s.readers| && s.readers[r].key == key ==>
      && key in s.generation && s.readers[r].generation <= s.generation[key]
      && (latest == Some(r) <==> s.readers[r].generation == s.generation[key])
  }

  /** A registered process is the latest of its key, and any other one that runs was told to end. */
  ghost predicate NoneLeaks(s: State, key: string, latest: Option<nat>) {
    && (key in s.processes ==> latest == Some(s.processes[key]))
    && forall r :: 0 <= r < |s.readers| && s.readers[r].key == key && s.readers[r].alive ==>
      s.readers[r].terminated || (key in s.processes && s.processes[key] == r)
  }

  lemma LastKeptSnoc(s: seq<string>, x: string)
    ensures LastKept(LastKept(s) + [x]) == LastKept(s + [x])
  {
    if |s| > KEPT {
      assert s + [x] == s[..|s| - KEPT] + (LastKept(s) + [x]);
    }
  }

  /** No reader appears, changes hands or comes back to life. */
  ghost predicate SameReaders(s: State, t: State) {
    && |t.readers| == |s.readers|
    && forall r :: 0 <= r < |s.readers| ==>
      && t.readers[r].key == s.readers[r].key && t.readers[r].generation == s.readers[r].generation
      && (t.readers[r].alive ==> s.readers[r].alive) && (s.readers[r].terminated ==> t.readers[r].terminated)
  }

  lemma AppendKeeps(s: State, key: string, generation: nat, message: string)
    ensures var t := Appended(s, key, generation, message);
      t.readers == s.readers && t.generation == s.generation && t.processes == s.processes && t.stopping == s.stopping
  {
  }

  lemma MoveKeeps(s: State, r: nat, phase: Phase)
    requires r < |s.readers|
    ensures var t := Moved(s, r, phase); SameReaders(s, t) && t == s.(readers := t.readers)
  {
  }

  lemma StepKeeps(s: State, x: Step)
    requires Enabled(s, x) && !x.Launch? && !x.Stop?
    ensures SameReaders(s, Apply(s, x)) && Apply(s, x).generation == s.generation && Apply(s, x).processes == s.processes
  {
    hide Appended, Noted, Moved, Current;
    match x
    case Line(r, m, _) => AppendKeeps(s, s.readers[r].key, s.readers[r].generation, m);
    case Exit(r, code, m) =>
      var reader := s.readers[r];
      AppendKeeps(s, reader.key, reader.generation, m);
      MoveKeeps(s, r, Done);
      MoveKeeps(Appended(s, reader.key, reader.generation, m), r, if Current(s, reader.key, reader.generation) then Judging else Done);
    case Judge(r, hasUri, hasPlaylist) =>
      MoveKeeps(s.(stopping := s.stopping - {s.readers[r].key}), r, Done);
      MoveKeeps(s, r, if hasUri && !hasPlaylist then Probing else Done);
    case Diagnose(r, m) =>
      AppendKeeps(s, s.readers[r].key, s.readers[r].generation, m);
      MoveKeeps(s, r, Done);
      MoveKeeps(Appended(s, s.readers[r].key, s.readers[r].generation, m), r, Done);
    case _ =>
  }

  lemma StopKeeps(s: State, k: string)
    requires k in s.processes ==> s.processes[k] < |s.readers|
    ensures SameReaders(s, Stopped(s, k)) && Stopped(s, k).generation == s.generation && Stopped(s, k).messages == s.messages
  {
  }

  lemma ToldKept(s: State, t: State, key: string, latest: Option<nat>)
    requires Told(s, key, latest) && SameReaders(s, t) && t.generation == s.generation
    ensures Told(t, key, latest)
  {
  }

  lemma LeaksKept(s: State, t: State, key: string, latest: Option<nat>)
    requires NoneLeaks(s, key, latest) && SameReaders(s, t) && t.processes == s.processes
    ensures NoneLeaks(t, key, latest)
  {
  }

  lemma StopLeaks(s: State, k: string, key: string, latest: Option<nat>)
    requires NoneLeaks(s, key, latest) && (k in s.processes ==> s.processes[k] < |s.readers|)
    ensures NoneLeaks(Stopped(s, k), key, latest)
  {
    var t := Stopped(s, k);
    StopKeeps(s, k);
    forall r | 0 <= r < |t.readers| && t.readers[r].key == key && t.readers[r].alive
      ensures t.readers[r].terminated || (key in t.processes && t.processes[key] == r)
    {
      assert s.readers[r].terminated || (key in s.processes && s.processes[key] == r);
    }
  }

  /** The reader of the last launch after a step. */
  function Next(s: State, x: Step, key: string, latest: Option<nat>): Option<nat> {
    if x.Launch? && x.key == key then if x.spawned then Some(|s.readers|) else None else latest
  }

  /** The launch of k leaves other keys alone; k itself has no reader yet. */
  function Apart(k: string, key: string, latest: Option<nat>): Option<nat> { if key == k then None else latest }

  lemma OpenKept(s: State, k: string, start: string, key: string, latest: Option<nat>)
    requires Told(s, key, latest) && NoneLeaks(s, key, latest) && k !in s.processes
    ensures Told(Opened(s, k, start), key, Apart(k, key, latest)) && NoneLeaks(Opened(s, k, start), key, Apart(k, key, latest))
  {
  }

  lemma SpawnKept(s: State, k: string, key: string, latest: Option<nat>)
    requires Told(s, key, latest) && NoneLeaks(s, key, latest) && k !in s.processes && k in s.generation
    requires key == k ==> latest == None
    ensures var latest' := if key == k then Some(|s.readers|) else latest;
      Told(WithProcess(s, k), key, latest') && NoneLeaks(WithProcess(s, k), key, latest')
  {
    var t := WithProcess(s, k);
    assert forall r :: 0 <= r < |s.readers| ==> t.readers[r] == s.readers[r];
  }

  lemma LaunchKept(s: State, x: Step, key: string, latest: Option<nat>)
    requires Told(s, key, latest) && NoneLeaks(s, key, latest) && Enabled(s, x) && x.Launch?
    ensures Told(Apply(s, x), key, Next(s, x, key, latest)) && NoneLeaks(Apply(s, x), key, Next(s, x, key, latest))
  {
    hide Told, NoneLeaks;
    var k, t := x.key, Stopped(s, x.key);
    StopKeeps(s, k);
    ToldKept(s, t, key, latest);
    StopLeaks(s, k, key, latest);
    OpenKept(t, k, x.start, key, latest);
    if x.spawned { SpawnKept(Opened(t, k, x.start), k, key, Apart(k, key, latest)); }
  }

  lemma StepCount(s: State, x: Step)
    requires Enabled(s, x)
    ensures |Apply(s, x).readers| == |s.readers| + if x.Launch? && x.spawned then 1 else 0
  {
    hide SameReaders, Appended, Noted;
    if !x.Launch? && !x.Stop? { StepLength(s, x); }
  }

  lemma StepLength(s: State, x: Step)
    requires Enabled(s, x) && !x.Launch? && !x.Stop?
    ensures |Apply(s, x).readers| == |s.readers|
  {
    StepKeeps(s, x);
    hide Apply;
  }

  lemma StepKept(s: State, x: Step, key: string, latest: Option<nat>)
    requires Told(s, key, latest) && NoneLeaks(s, key, latest) && Enabled(s, x)
    ensures Told(Apply(s, x), key, Next(s, x, key, latest)) && NoneLeaks(Apply(s, x), key, Next(s, x, key, latest))
  {
    hide Told, NoneLeaks;
    if x.Launch? {
      LaunchKept(s, x, key, latest);
    } else if x.Stop? {
      StopKeeps(s, x.key);
      ToldKept(s, Stopped(s, x.key), key, latest);
      StopLeaks(s, x.key, key, latest);
    } else {
      StepKeeps(s, x);
      ToldKept(s, Apply(s, x), key, latest);
      LeaksKept(s, Apply(s, x), key, latest);
    }
  }

  /** The generation check lets through exactly what the latest reader of the key says. */
  lemma AppendLog(s: State, r: nat, message: string, key: string, latest: Option<nat>, log: seq<string>)
    requires Told(s, key, latest) && LogKept(s, key, log) && r < |s.readers|
    ensures LogKept(Appended(s, s.readers[r].key, s.readers[r].generation, message), key,
                    log + if latest == Some(r) then [message] else [])
  {
    LastKeptSnoc(log, message);
    assert log + [] == log;
  }

  lemma LogStep(s: State, x: Step, key: string, latest: Option<nat>, log: seq<string>)
    requires Told(s, key, latest) && LogKept(s, key, log) && Enabled(s, x)
    ensures LogKept(Apply(s, x), key, if x.Launch? && x.key == key then [x.start] else log + Added(x, key, latest))
  {
    hide Told, Appended, Current;
    assert log + [] == log;
    match x
    case Note(_, message) => LastKeptSnoc(log, message);
    case Line(r, message, _) => AppendLog(s, r, message, key, latest, log);
    case Exit(r, code, message) => AppendLog(s, r, message, key, latest, log);
    case Diagnose(r, message) => AppendLog(s, r, message, key, latest, log);
    case _ =>
  }

  /** Main result: however launches, stops, notes and the steps of any number of lingering readers are
      interleaved, the messages of a key are the last 20 lines of the log since its last launch, which
      holds nothing a reader of an earlier launch reported; the registered process is that of the last
      launch, and every other process still running was told to end. */
  lemma {:induction false} RunKept(steps: seq<Step>, key: string)
    requires Run(steps).Some?
    ensures var s := Run(steps).value;
      && |s.readers| == Spawned(steps)
      && LogKept(s, key, Log(steps, key)) && Told(s, key, Latest(steps, key)) && NoneLeaks(s, key, Latest(steps, key))
  {
    hide LogKept, Told, NoneLeaks, Apply, Enabled, Added;
    if steps == [] {
      NothingYet(key);
    } else {
      var before, x := steps[..|steps| - 1], steps[|steps| - 1];
      RunKept(before, key);
      var s, latest, log := Run(before).value, Latest(before, key), Log(before, key);
      StepKept(s, x, key, latest);
      StepCount(s, x);
      LogStep(s, x, key, latest, log);
    }
  }

  lemma NothingYet(key: string)
    ensures LogKept(QUIET, key, []) && Told(QUIET, key, None) && NoneLeaks(QUIET, key, None)
  {
  }

  // ----- where a message comes from -----

  /** Step n put this message in the log of the key: as a start line, a note, or a report of the reader of
      the key's last launch. */
  ghost predicate Says(steps: seq<Step>, n: nat, key: string, message: string)
    requires n < |steps|
  {
    match steps[n]
    case Launch(k, start, _) => k == key && message == start
    case Note(k, m) => k == key && message == m
    case Line(r, m, nonfatal) => Latest(steps, key) == Some(r) && message == m && !nonfatal
    case Exit(r, code, m) => Latest(steps, key) == Some(r) && message == m && code != 0
    case Diagnose(r, m) => Latest(steps, key) == Some(r) && message == m
    case _ => false
  }

  /** The key was not launched after step n. */
  ghost predicate SinceLaunch(steps: seq<Step>, n: nat, key: string) {
    forall i :: n < i < |steps| ==> !(steps[i].Launch? && steps[i].key == key)
  }

  /** It was said after the key's last launch began. */
  ghost predicate Sourced(steps: seq<Step>, key: string, message: string) {
    exists n :: 0 <= n < |steps| && SinceLaunch(steps, n, key) && Says(steps, n, key, message)
  }

  lemma {:induction false} LogSource(steps: seq<Step>, key: string, message: string)
    requires message in Log(steps, key)
    ensures Sourced(steps, key, message)
  {
    var last := |steps| - 1;
    var before, x := steps[..last], steps[last];
    if x.Launch? && x.key == key {
      assert Says(steps, last, key, message) && SinceLaunch(steps, last, key);
    } else if message in Log(before, key) {
      LogSource(before, key, message);
      var n :| 0 <= n < |before| && SinceLaunch(before, n, key) && Says(before, n, key, message);
      assert steps[n] == before[n] && Latest(steps, key) == Latest(before, key);
      assert SinceLaunch(steps, n, key) && Says(steps, n, key, message);
    } else {
      assert message in Added(x, key, Latest(before, key));
      assert Says(steps, last, key, message) && SinceLaunch(steps, last, key);
    }
  }

  /** Main result: the messages held for a key are the last 20 lines of its log, and each was said after its last
      launch began, by that launch, a note or its reader: none by a reader of an earlier launch. */
  lemma {:induction false} MessagesCurrent(steps: seq<Step>, key: string)
    requires Run(steps).Some? && key in Run(steps).value.messages
    ensures var held, log := Run(steps).value.messages[key], Log(steps, key);
      && |held| == (if |log| < 20 then |log| else 20) && held == log[|log| - |held|..]
      && forall i :: 0 <= i < |held| ==> Sourced(steps, key, held[i])
  {
    hide Run, Sourced;
    RunKept(steps, key);
    var held, log := Run(steps).value.messages[key], Log(steps, key);
    assert held == LastKept(log);
    forall i | 0 <= i < |held| ensures Sourced(steps, key, held[i]) {
      assert held[i] == log[|log| - |held| + i];
      LogSource(steps, key, held[i]);
    }
  }

  // ----- a stopped stream is not diagnosed -----

  ghost predicate Serves(s: State, key: string, r: int) { 0 <= r < |s.readers| && s.readers[r].key == key }

  ghost predicate NoLaunch(steps: seq<Step>, key: string) { forall i :: 0 <= i < |steps| ==> !(steps[i].Launch? && steps[i].key == key) }

  /** A reader of the key stands between its exit message and the question whether it was stopped. */
  ghost predicate SomeJudging(s: State, key: string) { exists r :: Serves(s, key, r) && s.readers[r].phase.Judging? }

  /** p, the latest reader of the key, finds the key marked when it asks. */
  ghost predicate Silenced(s: State, key: string, p: nat) {
    && key !in s.processes && Serves(s, key, p) && Told(s, key, Some(p)) && NoneLeaks(s, key, Some(p))
    && !s.readers[p].phase.Probing? && (s.readers[p].phase.Done? || key in s.stopping)
    && forall r :: Serves(s, key, r) && s.readers[r].phase.Judging? ==> r == p
  }

  /** What a step other than a launch of the key does to the phases of its readers and to its mark. */
  lemma PhaseStep(s: State, x: Step, key: string, p: nat, r: int)
    requires Silenced(s, key, p) && Enabled(s, x) && !(x.Launch? && x.key == key) && Serves(Apply(s, x), key, r)
    ensures Serves(s, key, r)
    ensures Apply(s, x).readers[r].phase.Judging? ==> r == p
    ensures r == p ==> !Apply(s, x).readers[p].phase.Probing? && (Apply(s, x).readers[p].phase.Done? || key in Apply(s, x).stopping)
  {
    hide NoneLeaks, Noted;
    if x.Launch? || x.Stop? {
      StopKeeps(s, x.key);
    } else {
      hide Told, Current;
      StepKeeps(s, x);
      hide SameReaders;
      if x.Exit? && x.reader == r && r != p { NotCurrent(s, key, p, r); }
    }
  }

  lemma NotCurrent(s: State, key: string, p: nat, r: nat)
    requires Told(s, key, Some(p)) && Serves(s, key, r) && r != p
    ensures !Current(s, key, s.readers[r].generation)
  {
  }

  lemma SilencedStep(s: State, x: Step, key: string, p: nat)
    requires Silenced(s, key, p) && Enabled(s, x) && !(x.Launch? && x.key == key)
    ensures Silenced(Apply(s, x), key, p)
  {
    StepKept(s, x, key, Some(p));
    forall r | Serves(Apply(s, x), key, r) && Apply(s, x).readers[r].phase.Judging? ensures r == p {
      PhaseStep(s, x, key, p, r);
    }
    StillServes(s, x, key, p);
    PhaseStep(s, x, key, p, p);
    hide NoneLeaks, Told;
  }

  lemma StillServes(s: State, x: Step, key: string, p: nat)
    requires Serves(s, key, p) && key !in s.processes && Enabled(s, x) && !(x.Launch? && x.key == key)
    ensures Serves(Apply(s, x), key, p) && key !in Apply(s, x).processes
  {
    hide Noted;
    if x.Launch? || x.Stop? { StopKeeps(s, x.key); } else { StepKeeps(s, x); hide Apply; }
  }

  lemma {:induction false} SilencedRun(s: State, steps: seq<Step>, key: string, p: nat)
    requires Silenced(s, key, p) && RunFrom(s, steps).Some? && NoLaunch(steps, key)
    ensures Silenced(RunFrom(s, steps).value, key, p)
  {
    if steps != [] {
      SilencedRun(s, steps[..|steps| - 1], key, p);
      SilencedStep(RunFrom(s, steps[..|steps| - 1]).value, steps[|steps| - 1], key, p);
    }
  }

  /** A running process is still being read. */
  lemma {:induction false} AliveReads(steps: seq<Step>)
    requires Run(steps).Some?
    ensures forall r :: 0 <= r < |Run(steps).value.readers| && Run(steps).value.readers[r].alive ==> Run(steps).value.readers[r].phase.Reading?
  {
    if steps != [] {
      AliveReads(steps[..|steps| - 1]);
      var s, x := Run(steps[..|steps| - 1]).value, steps[|steps| - 1];
      hide RunFrom;
      if x.Launch? || x.Stop? { StopKeeps(s, x.key); } else { StepKeeps(s, x); }
    }
  }

  /** Nothing that follows a stop, up to the next launch of the key, brings reader p to probe. */
  ghost predicate NeverProbes(s: State, key: string, p: nat) {
    forall steps :: NoLaunch(steps, key) && RunFrom(s, steps).Some? ==>
      p < |RunFrom(s, steps).value.readers| && !RunFrom(s, steps).value.readers[p].phase.Probing?
  }

  /** A stop of a running stream is meant to keep its reader from probing the connection. In every
      reachable state it does, whatever follows up to the next launch, if and only if no older reader of
      the key is just judging its own exit: that one would take the mark away. */
  lemma StopSilencesExactly(before: seq<Step>, key: string)
    requires Run(before).Some? && key in Run(before).value.processes && |Run(before).value.readers| > Run(before).value.processes[key]
    requires Run(before).value.readers[Run(before).value.processes[key]].alive
    ensures var s := Run(before).value;
      NeverProbes(Stopped(s, key), key, s.processes[key]) <==> !SomeJudging(s, key)
  {
    RunKept(before, key);
    AliveReads(before);
    hide Run;
    StopSilences(Run(before).value, key);
  }

  lemma StopSilences(s: State, key: string)
    requires key in s.processes && Told(s, key, Some(s.processes[key])) && NoneLeaks(s, key, Some(s.processes[key]))
    requires s.readers[s.processes[key]].alive && s.readers[s.processes[key]].phase.Reading?
    ensures NeverProbes(Stopped(s, key), key, s.processes[key]) <==> !SomeJudging(s, key)
  {
    var p, t := s.processes[key], Stopped(s, key);
    if SomeJudging(s, key) {
      var r :| Serves(s, key, r) && s.readers[r].phase.Judging?;
      StopKeeps(s, key);
      ToldKept(s, t, key, Some(p));
      StolenMark(t, key, p, r);
    } else {
      StopKeeps(s, key);
      ToldKept(s, t, key, Some(p));
      assert NoneLeaks(t, key, Some(p)) by { StopLeaks(s, key, key, Some(p)); }
      assert Silenced(t, key, p) by {
        assert forall r :: Serves(t, key, r) ==> Serves(s, key, r) && t.readers[r].phase == s.readers[r].phase;
      }
      forall steps | NoLaunch(steps, key) && RunFrom(t, steps).Some?
        ensures p < |RunFrom(t, steps).value.readers| && !RunFrom(t, steps).value.readers[p].phase.Probing?
      {
        SilencedRun(t, steps, key, p);
      }
    }
  }

  lemma {:induction false} RunSnoc(s: State, steps: seq<Step>, x: Step)
    requires RunFrom(s, steps).Some? && Enabled(RunFrom(s, steps).value, x)
    ensures RunFrom(s, steps + [x]) == Some(Apply(RunFrom(s, steps).value, x))
  {
    assert (steps + [x])[..|steps|] == steps;
  }

  lemma StolenMark(t: State, key: string, p: nat, r: nat)
    requires Serves(t, key, p) && Serves(t, key, r) && Told(t, key, Some(p)) && key in t.stopping
    requires t.readers[p].alive && t.readers[p].phase.Reading? && t.readers[r].phase.Judging?
    ensures !NeverProbes(t, key, p)
  {
    hide RunFrom, Noted;
    assert RunFrom(t, []) == Some(t) by { NoSteps(t); }
    RunSnoc(t, [], Judge(r, false, false));
    var s1 := [] + [Judge(r, false, false)];
    var t1 := RunFrom(t, s1).value;
    RunSnoc(t, s1, Dies(p));
    var s2 := s1 + [Dies(p)];
    var t2 := RunFrom(t, s2).value;
    RunSnoc(t, s2, Exit(p, 1, ""));
    var s3 := s2 + [Exit(p, 1, "")];
    var t3 := RunFrom(t, s3).value;
    RunSnoc(t, s3, Judge(p, true, false));
    var s4 := s3 + [Judge(p, true, false)];
    assert NoLaunch(s4, key);
    assert RunFrom(t, s4).value.readers[p].phase.Probing?;
  }

  /** Relaunched before the reader of a failed process has asked why it ended. */
  const LAUNCH := Launch("k", "s", true)
  const RELAUNCHED := [LAUNCH, Dies(0), Exit(0, 1, "x"), LAUNCH]

  const JUDGING := Reader("k", 1, false, false, Judging)
  const FAILED := State(map["k" := 0], map["k" := ["s", "x"]], {}, map["k" := 1], [JUDGING])
  const RUNNING_AGAIN :=
    State(map["k" := 1], map["k" := ["s"]], {}, map["k" := 2], [JUDGING, Reader("k", 2, true, false, Reading)])

  lemma {:induction false} FailedReached()
    ensures Run([LAUNCH, Dies(0), Exit(0, 1, "x")]) == Some(FAILED)
  {
    hide Run;
    var first := Reader("k", 1, true, false, Reading);
    var s1 := State(map["k" := 0], map["k" := ["s"]], {}, map["k" := 1], [first]);
    var s2 := s1.(readers := [first.(alive := false)]);
    assert Run([]) == Some(QUIET) by { NothingRun(); }
    Snoc([], QUIET, LAUNCH, s1);
    assert [] + [LAUNCH] == [LAUNCH];
    Snoc([LAUNCH], s1, Dies(0), s2);
    assert [LAUNCH] + [Dies(0)] == [LAUNCH, Dies(0)];
    assert Noted(s2.messages, "k", "x") == FAILED.messages by { assert ["s"] + ["x"] == ["s", "x"]; }
    Snoc([LAUNCH, Dies(0)], s2, Exit(0, 1, "x"), FAILED);
    assert [LAUNCH, Dies(0)] + [Exit(0, 1, "x")] == [LAUNCH, Dies(0), Exit(0, 1, "x")];
  }

  lemma NothingRun()
    ensures Run([]) == Some(QUIET)
  {
  }

  /** The exception does occur: a reachable state in which a stream runs while an older reader of its key is
      judging, so that a stop need not keep the reader of the running process from probing. */
  lemma {:induction false} JudgingWhileRunning()
    ensures Run(RELAUNCHED) == Some(RUNNING_AGAIN)
    ensures SomeJudging(RUNNING_AGAIN, "k") && RUNNING_AGAIN.readers[RUNNING_AGAIN.processes["k"]].alive
    ensures !NeverProbes(Stopped(RUNNING_AGAIN, "k"), "k", 1)
  {
    hide Run;
    FailedReached();
    Snoc([LAUNCH, Dies(0), Exit(0, 1, "x")], FAILED, LAUNCH, RUNNING_AGAIN);
    assert [LAUNCH, Dies(0), Exit(0, 1, "x")] + [LAUNCH] == RELAUNCHED;
    assert Serves(RUNNING_AGAIN, "k", 0);
    StopSilencesExactly(RELAUNCHED, "k");
  }

  lemma {:induction false} Snoc(steps: seq<Step>, s: State, x: Step, t: State)
    requires Run(steps) == Some(s) && Enabled(s, x) && Apply(s, x) == t
    ensures Run(steps + [x]) == Some(t)
  {
    RunSnoc(QUIET, steps, x);
  }

  lemma {:induction false} NoSteps(t: State)
    ensures RunFrom(t, []) == Some(t)
  {
  }
}
