/** Classes do not interact: what one frame does to the tracks of a class depends only on that
    class's tracks and detections, apart from the numbers given to new tracks. */
module TrackClasses {
  import opened Matching
  import opened Tracking

  /** Ids are handed out in increasing order, starting at 1, and kept below the counter. */
  ghost predicate Numbered(st: State) {
    Ascending(st.tracks) && 1 <= st.nextId && forall i :: i in Ids(st.tracks) ==> 1 <= i < st.nextId
  }

  ghost predicate Distinct<T(!new)>(s: seq<T>) {
    forall i, j :: 0 <= i < j < |s| ==> s[i] != s[j]
  }

  function ClassNext(p: Params, mine: seq<Track>, c: string, detections: seq<Detection>, id: int): seq<Track> {
    ClassTracks(p, mine, mine, detections) + ClassBirths(p, mine, c, detections, id)
  }

  /** The counter when class c has its turn. */
  function StartId(p: Params, st: State, detections: seq<Detection>, order: seq<string>, c: string): int {
    if order == [] then st.nextId
    else
      var n := |order| - 1;
      if order[n] == c then Frame(p, st, detections, order[..n]).st.nextId
      else StartId(p, st, detections, order[..n], c)
  }

  lemma {:induction false} AllOfClass(s: seq<Track>, c: string)
    ensures (forall t :: t in s ==> t.key == c) ==> OfClass(s, c) == s
    ensures (forall t :: t in s ==> t.key != c) ==> OfClass(s, c) == []
  {
    if s != [] {
      var n := |s| - 1;
      AllOfClass(s[..n], c);
      assert s == s[..n] + [s[n]];
      assert s[n] in s;
      assert forall t :: t in s[..n] ==> t in s;
    }
  }

  lemma {:induction false} MatchedLength(tracks: seq<Track>, pairs: seq<Cand>, detections: seq<Detection>)
    requires Fits(pairs, tracks, detections)
    ensures |Matched(tracks, pairs, detections)| == |pairs|
  {
    if pairs != [] {
      assert Fits(pairs[..|pairs| - 1], tracks, detections);
      MatchedLength(tracks, pairs[..|pairs| - 1], detections);
    }
  }

  lemma {:induction false} MatchedAt(tracks: seq<Track>, pairs: seq<Cand>, detections: seq<Detection>, i: nat)
    requires Fits(pairs, tracks, detections) && i < |pairs|
    ensures |Matched(tracks, pairs, detections)| == |pairs| && pairs[i] in pairs
    ensures Matched(tracks, pairs, detections)[i] == Sight(Lookup(tracks, pairs[i].tid), detections[pairs[i].index])
  {
    var n := |pairs| - 1;
    assert Fits(pairs[..n], tracks, detections);
    MatchedLength(tracks, pairs[..n], detections);
    if i < n {
      MatchedAt(tracks, pairs[..n], detections, i);
    }
  }

  lemma {:induction false} MatchedSnoc(tracks: seq<Track>, pairs: seq<Cand>, c: Cand, detections: seq<Detection>)
    requires Fits(pairs + [c], tracks, detections)
    ensures c in pairs + [c] && Fits(pairs, tracks, detections)
    ensures Matched(tracks, pairs + [c], detections)
         == Matched(tracks, pairs, detections) + [Sight(Lookup(tracks, c.tid), detections[c.index])]
  {
    assert (pairs + [c])[..|pairs|] == pairs;
    assert (pairs + [c])[|pairs|] == c;
    assert forall e :: e in pairs ==> e in pairs + [c];
  }

  lemma MatchedOrigin(tracks: seq<Track>, pairs: seq<Cand>, detections: seq<Detection>, t: Track) returns (c: Cand)
    requires Fits(pairs, tracks, detections) && t in Matched(tracks, pairs, detections)
    ensures c in pairs && t == Sight(Lookup(tracks, c.tid), detections[c.index])
  {
    MatchedLength(tracks, pairs, detections);
    var i :| 0 <= i < |pairs| && Matched(tracks, pairs, detections)[i] == t;
    MatchedAt(tracks, pairs, detections, i);
    c := pairs[i];
  }

  lemma SightingsOfClass(p: Params, mine: seq<Track>, c: string, detections: seq<Detection>, id: int, t: Track)
    requires forall u :: u in mine ==> u.key == c
    requires t in ClassSightings(p, mine, c, detections, id)
    ensures t.key == c
  {
    var pairs := Chosen(mine, detections, p.threshold);
    if t in Matched(mine, pairs, detections) {
      var d := MatchedOrigin(mine, pairs, detections, t);
    } else {
      BirthsFacts(detections, c, Indices(pairs), id);
    }
  }

  lemma IdsConcat(a: seq<Track>, b: seq<Track>)
    ensures Ids(a + b) == Ids(a) + Ids(b)
  {
    assert forall t :: t in a + b <==> t in a || t in b;
  }

  lemma AscendingConcat(a: seq<Track>, b: seq<Track>, id: int)
    requires Ascending(a) && Ascending(b)
    requires forall i :: i in Ids(a) ==> i < id
    requires forall i :: i in Ids(b) ==> id <= i
    ensures Ascending(a + b)
  {
    var r := a + b;
    forall i, j | 0 <= i < j < |r| ensures r[i].id < r[j].id {
      if i < |a| {
        assert r[i] in a && r[i].id in Ids(a);
        assert j >= |a| ==> r[j] in b && r[j].id in Ids(b);
      }
    }
  }

  lemma {:induction false} BirthIds(detections: seq<Detection>, c: string, taken: set<nat>, id: int)
    ensures var b := Births(detections, c, taken, id);
      Ascending(b) && forall i :: i in Ids(b) ==> id <= i < id + |b|
  {
    BirthsFacts(detections, c, taken, id);
  }

  lemma ClassPassNumbered(p: Params, at: Pass, c: string, detections: seq<Detection>)
    requires Numbered(at.st)
    ensures Numbered(ClassPass(p, at, c, detections).st)
    ensures at.st.nextId <= ClassPass(p, at, c, detections).st.nextId
  {
    var mine := OfClass(at.st.tracks, c);
    var m := ClassMatch(p, mine, detections);
    var kept := ClassTracks(p, at.st.tracks, mine, detections);
    var births := ClassBirths(p, mine, c, detections, at.st.nextId);
    AdvanceAscending(at.st.tracks, m, Ids(mine) - m.Keys, p.maxMissed);
    AdvanceIds(at.st.tracks, m, Ids(mine) - m.Keys, p.maxMissed);
    BirthIds(detections, c, Indices(Chosen(mine, detections, p.threshold)), at.st.nextId);
    AscendingConcat(kept, births, at.st.nextId);
    IdsConcat(kept, births);
  }

  lemma {:induction false} ClassPassOther(p: Params, at: Pass, c: string, detections: seq<Detection>, other: string)
    requires Numbered(at.st) && other != c
    ensures var r := ClassPass(p, at, c, detections);
      OfClass(r.st.tracks, other) == OfClass(at.st.tracks, other) && OfClass(r.sightings, other) == OfClass(at.sightings, other)
  {
    var all := at.st.tracks;
    var mine := OfClass(all, c);
    var m := ClassMatch(p, mine, detections);
    var pairs := Chosen(mine, detections, p.threshold);
    var births := ClassBirths(p, mine, c, detections, at.st.nextId);
    var seen := ClassSightings(p, mine, c, detections, at.st.nextId);
    MatchOfDomain(pairs, detections);
    forall t | t in all && t.key == other ensures t.id !in Ids(mine) {
      forall u | u in mine ensures u.id != t.id {
        OfClassMember(all, c, u);
        var i :| 0 <= i < |all| && all[i] == t;
        var j :| 0 <= j < |all| && all[j] == u;
      }
    }
    AdvanceOther(all, other, m, Ids(mine) - m.Keys, p.maxMissed);
    OfClassConcat(ClassTracks(p, all, mine, detections), births, other);
    OfClassConcat(at.sightings, seen, other);
    BirthsFacts(detections, c, Indices(pairs), at.st.nextId);
    AllOfClass(births, other);
    forall t | t in seen ensures t.key == c {
      MineOfClass(all, c);
      SightingsOfClass(p, mine, c, detections, at.st.nextId, t);
    }
    AllOfClass(seen, other);
  }

  lemma {:induction false} MineOfClass(all: seq<Track>, c: string)
    ensures forall u :: u in OfClass(all, c) ==> u in all && u.key == c
  {
    forall u | u in OfClass(all, c) ensures u in all && u.key == c {
      OfClassMember(all, c, u);
    }
  }

  lemma {:induction false} ClassPassMine(p: Params, at: Pass, c: string, detections: seq<Detection>)
    requires OfClass(at.sightings, c) == []
    ensures var r := ClassPass(p, at, c, detections);
      var mine := OfClass(at.st.tracks, c);
      && OfClass(r.st.tracks, c) == ClassNext(p, mine, c, detections, at.st.nextId)
      && OfClass(r.sightings, c) == ClassSightings(p, mine, c, detections, at.st.nextId)
  {
    var all := at.st.tracks;
    var mine := OfClass(all, c);
    var m := ClassMatch(p, mine, detections);
    var births := ClassBirths(p, mine, c, detections, at.st.nextId);
    var seen := ClassSightings(p, mine, c, detections, at.st.nextId);
    AdvanceMine(all, c, m, Ids(mine) - m.Keys, p.maxMissed);
    OfClassConcat(ClassTracks(p, all, mine, detections), births, c);
    OfClassConcat(at.sightings, seen, c);
    BirthsFacts(detections, c, Indices(Chosen(mine, detections, p.threshold)), at.st.nextId);
    AllOfClass(births, c);
    MineOfClass(all, c);
    forall t | t in seen ensures t.key == c {
      SightingsOfClass(p, mine, c, detections, at.st.nextId, t);
    }
    AllOfClass(seen, c);
  }

  /** One frame seen from one class. */
  lemma {:induction false} FrameByClass(p: Params, st: State, detections: seq<Detection>, order: seq<string>, c: string)
    requires Numbered(st) && Distinct(order)
    ensures var r := Frame(p, st, detections, order);
      var mine := OfClass(st.tracks, c);
      var seen := ByClass(detections, c);
      var id := StartId(p, st, detections, order, c);
      && Numbered(r.st)
      && st.nextId <= id <= r.st.nextId
      && OfClass(r.st.tracks, c) == (if c in order then ClassNext(p, mine, c, seen, id) else mine)
      && OfClass(r.sightings, c) == (if c in order then ClassSightings(p, mine, c, seen, id) else [])
  {
    if order != [] {
      var n := |order| - 1;
      var at := Frame(p, st, detections, order[..n]);
      var last := order[n];
      FrameByClass(p, st, detections, order[..n], c);
      ClassPassNumbered(p, at, last, ByClass(detections, last));
      if last == c {
        assert c !in order[..n];
        ClassPassMine(p, at, c, ByClass(detections, c));
      } else {
        assert c in order <==> c in order[..n];
        ClassPassOther(p, at, last, ByClass(detections, last), c);
      }
    }
  }
}
