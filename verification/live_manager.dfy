/** The live manager: its tables, updated in place by the routes, the launches and the reader threads. */
module LiveManagers {
  import opened Live

  class LiveManager {
    var processes: map<string, nat>
    var messages: map<string, seq<string>>
    var stopping: set<string>
    var generation: map<string, nat>
    /** The spawned processes with their reader threads: what polling a process shows. */
    var readers: seq<Reader>

    ghost function Abs(): State
      reads this
    {
      State(processes, messages, stopping, generation, readers)
    }

    predicate Valid()
      reads this
    {
      forall k :: k in processes ==> processes[k] < |readers|
    }

    constructor ()
      ensures Valid() && Abs() == QUIET
    {
      processes, messages, stopping, generation, readers := map[], map[], {}, map[], [];
    }

    method Stop(key: string)
      requires Valid()
      modifies this
      ensures Valid() && Abs() == Stopped(old(Abs()), key)
    {
      if key in processes {
        var p := processes[key];
        processes := processes - {key};
        if readers[p].alive {
          stopping := stopping + {key};
          readers := readers[p := readers[p].(terminated := true)];
        }
      }
    }

    method Launch(key: string, startMessage: string, spawned: bool)
      requires Valid()
      modifies this
      ensures Valid() && Abs() == Launched(old(Abs()), key, startMessage, spawned)
    {
      Stop(key);
      stopping := stopping - {key};
      var current := (if key in generation then generation[key] else 0) + 1;
      generation := generation[key := current];
      messages := messages[key := [startMessage]];
      if spawned {
        processes := processes[key := |readers|];
        readers := readers + [Reader(key, current, true, false, Reading)];
      }
    }

    method Note(key: string, message: string)
      requires Valid()
      modifies `messages
      ensures Valid() && messages == Noted(old(messages), key, message)
    {
      if key !in messages {
        messages := messages[key := []];
      }
      messages := messages[key := messages[key] + [message]];
      if |messages[key]| > KEPT {
        messages := messages[key := messages[key][|messages[key]| - KEPT..]];
      }
    }

    /** A message of a superseded generation is dropped. */
    method AppendMessage(key: string, current: nat, message: string) returns (accepted: bool)
      requires Valid()
      modifies `messages
      ensures Valid() && Abs() == Appended(old(Abs()), key, current, message)
      ensures accepted <==> Current(old(Abs()), key, current)
    {
      accepted := key in generation && generation[key] == current;
      if accepted {
        Note(key, message);
      }
    }

    /** One line of a reader thread. */
    method ReadLine(reader: nat, message: string, nonfatal: bool)
      requires Valid() && Enabled(Abs(), Line(reader, message, nonfatal))
      modifies `messages
      ensures Valid() && Abs() == Apply(old(Abs()), Line(reader, message, nonfatal))
    {
      if message == "" || nonfatal {
        return;
      }
      var _ := AppendMessage(readers[reader].key, readers[reader].generation, message);
    }

    /** The end of a process, as its reader thread reports it. */
    method ReadExit(reader: nat, code: int, message: string)
      requires Valid() && Enabled(Abs(), Exit(reader, code, message))
      modifies `messages, `readers
      ensures Valid() && Abs() == Apply(old(Abs()), Exit(reader, code, message))
    {
      var next := Done;
      if code != 0 {
        var accepted := AppendMessage(readers[reader].key, readers[reader].generation, message);
        if accepted {
          next := Judging;
        }
      }
      readers := readers[reader := readers[reader].(phase := next)];
    }

    /** A stopped stream takes its mark back; one that broke before its playlist appeared is probed. */
    method JudgeExit(reader: nat, hasUri: bool, hasPlaylist: bool) returns (probe: bool)
      requires Valid() && Enabled(Abs(), Judge(reader, hasUri, hasPlaylist))
      modifies `stopping, `readers
      ensures Valid() && Abs() == Apply(old(Abs()), Judge(reader, hasUri, hasPlaylist))
      ensures probe <==> readers[reader].phase == Probing
    {
      var key := readers[reader].key;
      probe := false;
      if key in stopping {
        stopping := stopping - {key};
      } else {
        probe := hasUri && !hasPlaylist;
      }
      readers := readers[reader := readers[reader].(phase := if probe then Probing else Done)];
    }

    method ReportDiagnosis(reader: nat, diagnosis: string)
      requires Valid() && Enabled(Abs(), Diagnose(reader, diagnosis))
      modifies `messages, `readers
      ensures Valid() && Abs() == Apply(old(Abs()), Diagnose(reader, diagnosis))
    {
      if diagnosis != "" {
        var _ := AppendMessage(readers[reader].key, readers[reader].generation, diagnosis);
      }
      readers := readers[reader := readers[reader].(phase := Done)];
    }
  }
}
