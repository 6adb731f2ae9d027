/** When the row of a class is active and what it carries, in terms of the updates alone. */
module ActiveLaws {
  import opened Wrappers
  import opened Tracking
  import opened ActiveObjects

  /** One call of `update`. */
  datatype Update = Update(now: real, detections: seq<Tracked>)

  /** What the tracker remembers after these updates. */
  function SeenAfter(us: seq<Update>): map<string, Sight> {
    if us == [] then map[]
    else
      var u := us[|us| - 1];
      MarkAll(SeenAfter(us[..|us| - 1]), u.detections, u.now)
  }

  predicate HasClass(s: seq<Tracked>, key: string) { exists d :: d in s && d.key == key }

  /** Update j is the last one with a detection of the class. */
  ghost predicate Latest(us: seq<Update>, key: string, j: int) {
    && 0 <= j < |us| && HasClass(us[j].detections, key)
    && forall h :: j < h < |us| ==> !HasClass(us[h].detections, key)
  }

  /** d is the last detection of its class in the list. */
  ghost predicate LastIn(s: seq<Tracked>, d: Tracked) {
    exists n :: 0 <= n < |s| && s[n] == d && forall h :: n < h < |s| ==> s[h].key != d.key
  }

  lemma {:induction false} MarkAllExact(seen: map<string, Sight>, s: seq<Tracked>, now: real, key: string)
    ensures var r := MarkAll(seen, s, now);
      if HasClass(s, key) then key in r && r[key].at == now && r[key].detection.key == key && LastIn(s, r[key].detection)
      else (key in r <==> key in seen) && (key in r ==> r[key] == seen[key])
  {
    if s != [] {
      var n := |s| - 1;
      MarkAllExact(seen, s[..n], now, key);
      assert forall d :: d in s <==> d in s[..n] || d == s[n];
      if s[n].key == key {
        assert LastIn(s, s[n]);
      } else if HasClass(s[..n], key) {
        var d := MarkAll(seen, s[..n], now)[key].detection;
        var i :| 0 <= i < n && s[..n][i] == d && forall h :: i < h < n ==> s[..n][h].key != d.key;
        assert s[i] == d && forall h :: i < h < |s| ==> s[h].key != d.key;
      }
    }
  }

  /** Main result for the memory: a class is remembered exactly if some update had a detection of it, with the
      time of the last such update and the last detection of it there. */
  lemma {:induction false} SeenExact(us: seq<Update>, key: string)
    ensures key in SeenAfter(us) <==> exists j :: Latest(us, key, j)
    ensures forall j :: Latest(us, key, j) ==>
      && SeenAfter(us)[key].at == us[j].now
      && SeenAfter(us)[key].detection.key == key && LastIn(us[j].detections, SeenAfter(us)[key].detection)
  {
    hide MarkAll, HasClass, LastIn;
    if us != [] {
      var n := |us| - 1;
      SeenExact(us[..n], key);
      MarkAllExact(SeenAfter(us[..n]), us[n].detections, us[n].now, key);
      if HasClass(us[n].detections, key) {
        assert Latest(us, key, n);
      } else {
        forall j ensures Latest(us, key, j) <==> Latest(us[..n], key, j) {
          if Latest(us[..n], key, j) { assert forall h :: j < h < n ==> us[..n][h] == us[h]; }
        }
      }
    }
  }

  /** Main result: there is one row for each known class, in the order of the label table; it is active exactly if
      the last update with a detection of the class is no older than the timeout; an active row carries the last
      detection of the class in that update, an inactive one none. */
  lemma {:induction false} RowsExact(us: seq<Update>, timeout: real, now: real, i: nat)
    requires i < 3
    ensures var rows := Rows(SeenAfter(us), timeout, now, REPORTED);
      && |rows| == 3 && rows[i].key == ["ai_person", "ai_vehicle", "ai_animal"][i]
      && (rows[i].active <==> exists j :: Latest(us, rows[i].key, j) && now - us[j].now <= timeout)
      && (rows[i].active ==> (
        && rows[i].detection.Some? && rows[i].detection.value.key == rows[i].key
        && exists j :: Latest(us, rows[i].key, j) && LastIn(us[j].detections, rows[i].detection.value)))
      && (!rows[i].active ==> rows[i].detection.None?)
  {
    hide SeenAfter, LastIn, Rows;
    RowsAt(SeenAfter(us), timeout, now, REPORTED);
    var key := REPORTED[i];
    SeenExact(us, key);
    if key in SeenAfter(us) {
      var j :| Latest(us, key, j);
      forall h | Latest(us, key, h) ensures h == j { OneLatest(us, key, h, j); }
    }
  }

  lemma OneLatest(us: seq<Update>, key: string, h: int, j: int)
    requires Latest(us, key, h) && Latest(us, key, j)
    ensures h == j
  {
  }
}
