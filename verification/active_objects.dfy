/** `ActiveObjectTracker`: a class stays active for a while after it was last seen. */
module ActiveObjects {
  import opened Wrappers
  import Tracking

  /** The time and the detection of the last sighting, per class. */
  datatype Sight = Sight(at: real, detection: Tracking.Tracked)

  datatype Row = Row(key: string, active: bool, detection: Option<Tracking.Tracked>)

  /** The keys reported, in the order of the label table. */
  const REPORTED := ["ai_person", "ai_vehicle", "ai_animal"]

  function MarkAll(seen: map<string, Sight>, detections: seq<Tracking.Tracked>, now: real): map<string, Sight> {
    if detections == [] then seen
    else
      var d := detections[|detections| - 1];
      MarkAll(seen, detections[..|detections| - 1], now)[d.key := Sight(now, d)]
  }

  function RowFor(seen: map<string, Sight>, timeout: real, now: real, key: string): Row {
    var active := key in seen && now - seen[key].at <= timeout;
    Row(key, active, if active then Some(seen[key].detection) else None)
  }

  function Rows(seen: map<string, Sight>, timeout: real, now: real, keys: seq<string>): seq<Row> {
    if keys == [] then [] else Rows(seen, timeout, now, keys[..|keys| - 1]) + [RowFor(seen, timeout, now, keys[|keys| - 1])]
  }

  lemma {:induction false} RowsMember(seen: map<string, Sight>, timeout: real, now: real, keys: seq<string>, r: Row)
    ensures r in Rows(seen, timeout, now, keys) <==> r.key in keys && r == RowFor(seen, timeout, now, r.key)
  {
    if keys != [] {
      var n := |keys| - 1;
      RowsMember(seen, timeout, now, keys[..n], r);
      assert r.key in keys <==> r.key in keys[..n] || r.key == keys[n];
    }
  }

  lemma {:induction false} RowsAt(seen: map<string, Sight>, timeout: real, now: real, keys: seq<string>)
    ensures |Rows(seen, timeout, now, keys)| == |keys|
    ensures forall i :: 0 <= i < |keys| ==> Rows(seen, timeout, now, keys)[i] == RowFor(seen, timeout, now, keys[i])
  {
    if keys != [] { RowsAt(seen, timeout, now, keys[..|keys| - 1]); }
  }

  lemma {:induction false} MarkAllKeys(seen: map<string, Sight>, detections: seq<Tracking.Tracked>, now: real, key: string)
    ensures key in MarkAll(seen, detections, now) <==> key in seen || exists d :: d in detections && d.key == key
    ensures (forall d :: d in detections ==> d.key != key) && key in seen ==>
      key in MarkAll(seen, detections, now) && MarkAll(seen, detections, now)[key] == seen[key]
    ensures (exists d :: d in detections && d.key == key) ==>
      key in MarkAll(seen, detections, now) && MarkAll(seen, detections, now)[key].at == now
  {
    if detections != [] {
      var n := |detections| - 1;
      MarkAllKeys(seen, detections[..n], now, key);
      assert forall d :: d in detections <==> d in detections[..n] || d == detections[n];
    }
  }

  class ActiveObjectTracker {
    const timeout: real
    var lastSeen: map<string, real>
    var lastDetection: map<string, Tracking.Tracked>

    ghost predicate Valid() reads this { lastSeen.Keys == lastDetection.Keys }

    ghost function Current(): map<string, Sight>
      reads this
      requires Valid()
    {
      map k | k in lastSeen :: Sight(lastSeen[k], lastDetection[k])
    }

    constructor (timeout: real)
      ensures Valid() && Current() == map[] && this.timeout == timeout
    {
      this.timeout := timeout;
      lastSeen, lastDetection := map[], map[];
    }

    method Update(detections: seq<Tracking.Tracked>, now: real)
      requires Valid()
      modifies this
      ensures Valid() && Current() == MarkAll(old(Current()), detections, now)
    {
      ghost var before := Current();
      for i := 0 to |detections|
        invariant Valid() && Current() == MarkAll(before, detections[..i], now)
      {
        assert detections[..i + 1][..i] == detections[..i];
        lastSeen := lastSeen[detections[i].key := now];
        lastDetection := lastDetection[detections[i].key := detections[i]];
      }
      assert detections[..|detections|] == detections;
    }

    method DetectionRows(now: real) returns (rows: seq<Row>)
      requires Valid()
      ensures rows == Rows(Current(), timeout, now, REPORTED)
      ensures |rows| == 3 && forall i :: 0 <= i < 3 ==>
        && rows[i].key == ["ai_person", "ai_vehicle", "ai_animal"][i]
        && (rows[i].active <==> rows[i].key in lastSeen && now - lastSeen[rows[i].key] <= timeout)
        && rows[i].detection == if rows[i].active then Some(lastDetection[rows[i].key]) else None
    {
      rows := [];
      for i := 0 to |REPORTED|
        invariant rows == Rows(Current(), timeout, now, REPORTED[..i])
      {
        var key := REPORTED[i];
        assert REPORTED[..i + 1][..i] == REPORTED[..i];
        var active := key in lastSeen && now - lastSeen[key] <= timeout;
        rows := rows + [Row(key, active, if active then Some(lastDetection[key]) else None)];
      }
      assert REPORTED[..|REPORTED|] == REPORTED;
      RowsAt(Current(), timeout, now, REPORTED);
    }
  }
}
