/** What one frame does to each live track and each detection: where every sighting and every
    surviving track comes from. */
module TrackFrames {
  import Boxes
  import opened Matching
  import opened Tracking
  import opened TrackClasses

  ghost predicate DistinctIds(s: seq<Track>) {
    forall i, j :: 0 <= i < j < |s| ==> s[i].id != s[j].id
  }

  /** s is track t sighted by detection d. */
  ghost predicate SightedBy(p: Params, t: Track, d: Detection, s: Track) {
    s == Sight(t, d) && Boxes.IoU(t.box, d.box) >= p.threshold && d.key == t.key
  }

  ghost predicate BornFrom(d: Detection, id: int, s: Track) {
    s == NewTrack(d, d.key, s.id) && id <= s.id
  }

  lemma {:induction false} LookupUnique(tracks: seq<Track>, t: Track)
    requires Ascending(tracks) && t in tracks
    ensures t.id in Ids(tracks) && Lookup(tracks, t.id) == t
  {
    var u := Lookup(tracks, t.id);
    var i :| 0 <= i < |tracks| && tracks[i] == t;
    var j :| 0 <= j < |tracks| && tracks[j] == u;
  }

  lemma {:induction false} ByClassMember(s: seq<Detection>, c: string, d: Detection)
    ensures d in ByClass(s, c) <==> d in s && d.key == c
  {
    if s != [] {
      var n := |s| - 1;
      ByClassMember(s[..n], c, d);
      assert d in s <==> d in s[..n] || d == s[n];
    }
  }

  lemma {:induction false} MatchOfAt(pairs: seq<Cand>, detections: seq<Detection>, c: Cand)
    requires forall e :: e in pairs ==> e.index < |detections|
    requires OneToOne(pairs) && c in pairs
    ensures c.tid in MatchOf(pairs, detections) && MatchOf(pairs, detections)[c.tid] == detections[c.index]
  {
    var n := |pairs| - 1;
    assert pairs == pairs[..n] + [pairs[n]];
    assert forall e :: e in pairs[..n] ==> e in pairs;
    OneToOneSnoc(pairs[..n], pairs[n]);
    if c in pairs[..n] {
      MatchOfAt(pairs[..n], detections, c);
      assert c.tid in Tids(pairs[..n]);
    }
  }

  lemma {:induction false} ChosenOverlap(mine: seq<Track>, detections: seq<Detection>, threshold: real, c: Cand)
    requires Ascending(mine) && c in Chosen(mine, detections, threshold)
    ensures c.tid in Ids(mine) && c.index < |detections|
    ensures c.score == Boxes.IoU(Lookup(mine, c.tid).box, detections[c.index].box) >= threshold
  {
    var cands := Candidates(mine, detections);
    GreedySound(SortDesc(cands), threshold);
    SortMembers(cands, c);
    CandidatesMember(mine, detections, c);
    var t :| t in mine && t.id == c.tid && c.score == Boxes.IoU(t.box, detections[c.index].box);
    LookupUnique(mine, t);
  }

  lemma {:induction false} BirthsMember(detections: seq<Detection>, c: string, taken: set<nat>, id: int, s: Track)
    requires forall d :: d in detections ==> d.key == c
    requires s in Births(detections, c, taken, id)
    ensures exists d :: d in detections && BornFrom(d, id, s)
  {
    var n := |detections| - 1;
    var before := Births(detections[..n], c, taken, id);
    if s in before {
      BirthsMember(detections[..n], c, taken, id, s);
    } else {
      assert detections[n] in detections;
      assert BornFrom(detections[n], id, s);
    }
  }

  lemma ClassSightingOrigin(p: Params, mine: seq<Track>, c: string, detections: seq<Detection>, id: int, s: Track)
    requires Ascending(mine)
    requires forall t :: t in mine ==> t.key == c
    requires forall d :: d in detections ==> d.key == c
    requires s in ClassSightings(p, mine, c, detections, id)
    ensures (exists t, d :: t in mine && d in detections && SightedBy(p, t, d, s))
         || (exists d :: d in detections && BornFrom(d, id, s))
  {
    var pairs := Chosen(mine, detections, p.threshold);
    if s in Matched(mine, pairs, detections) {
      var e := MatchedOrigin(mine, pairs, detections, s);
      ChosenOverlap(mine, detections, p.threshold, e);
      assert SightedBy(p, Lookup(mine, e.tid), detections[e.index], s);
    } else {
      BirthsMember(detections, c, Indices(pairs), id, s);
    }
  }

  lemma {:induction false} MatchedIds(mine: seq<Track>, pairs: seq<Cand>, detections: seq<Detection>)
    requires Fits(pairs, mine, detections)
    ensures Ids(Matched(mine, pairs, detections)) == Tids(pairs)
  {
    forall i | i in Tids(pairs) ensures i in Ids(Matched(mine, pairs, detections)) {
      var k :| 0 <= k < |pairs| && pairs[k].tid == i;
      MatchedAt(mine, pairs, detections, k);
    }
    forall i | i in Ids(Matched(mine, pairs, detections)) ensures i in Tids(pairs) {
      var s :| s in Matched(mine, pairs, detections) && s.id == i;
      var c := MatchedOrigin(mine, pairs, detections, s);
    }
  }

  /** Every detection sights its own track: no id occurs twice in a pass. */
  lemma ClassSightingsDistinct(p: Params, mine: seq<Track>, c: string, detections: seq<Detection>, id: int)
    requires forall i :: i in Ids(mine) ==> i < id
    ensures DistinctIds(ClassSightings(p, mine, c, detections, id))
  {
    var pairs := Chosen(mine, detections, p.threshold);
    var matched := Matched(mine, pairs, detections);
    var births := ClassBirths(p, mine, c, detections, id);
    MatchedLength(mine, pairs, detections);
    forall i, j | 0 <= i < j < |matched| ensures matched[i].id != matched[j].id {
      MatchedAt(mine, pairs, detections, i);
      MatchedAt(mine, pairs, detections, j);
    }
    MatchedIds(mine, pairs, detections);
    BirthIds(detections, c, Indices(pairs), id);
    DistinctConcat(matched, births);
  }

  lemma DistinctConcat(a: seq<Track>, b: seq<Track>)
    requires DistinctIds(a) && DistinctIds(b) && Ids(a) !! Ids(b)
    ensures DistinctIds(a + b)
  {
    var r := a + b;
    forall i, j | 0 <= i < j < |r| ensures r[i].id != r[j].id {
      if i < |a| <= j {
        assert r[i] in a && r[j] in b;
        assert r[i].id in Ids(a) && r[j].id in Ids(b);
      }
    }
  }

  /** A surviving track was sighted in this frame or missed by it. */
  lemma ClassNextOrigin(p: Params, mine: seq<Track>, c: string, detections: seq<Detection>, id: int, u: Track)
    requires Ascending(mine) && forall i :: i in Ids(mine) ==> i < id
    requires u in ClassNext(p, mine, c, detections, id)
    ensures u in ClassSightings(p, mine, c, detections, id)
         || exists t :: t in mine && u == t.(misses := t.misses + 1) && u.misses <= p.maxMissed
                        && u.id !in Ids(ClassSightings(p, mine, c, detections, id))
  {
    var pairs := Chosen(mine, detections, p.threshold);
    var m := MatchOf(pairs, detections);
    if u !in ClassBirths(p, mine, c, detections, id) {
      AdvanceMember(mine, m, Ids(mine) - m.Keys, p.maxMissed, u);
      var t :| t in mine && Next(t, m, Ids(mine) - m.Keys, p.maxMissed) == Kept(u);
      MatchOfDomain(pairs, detections);
      if t.id in m {
        LookupUnique(mine, t);
        MatchedTrack(mine, pairs, detections, t);
      } else {
        assert t.id in Ids(mine);
        ClassSightingIds(p, mine, c, detections, id, t.id);
      }
    }
  }

  lemma ClassSightingIds(p: Params, mine: seq<Track>, c: string, detections: seq<Detection>, id: int, i: int)
    ensures i in Ids(ClassSightings(p, mine, c, detections, id)) ==>
      i in Tids(Chosen(mine, detections, p.threshold)) || id <= i
  {
    var pairs := Chosen(mine, detections, p.threshold);
    MatchedIds(mine, pairs, detections);
    BirthIds(detections, c, Indices(pairs), id);
    IdsConcat(Matched(mine, pairs, detections), ClassBirths(p, mine, c, detections, id));
  }

  lemma {:induction false} MatchedTrack(mine: seq<Track>, pairs: seq<Cand>, detections: seq<Detection>, t: Track)
    requires Fits(pairs, mine, detections) && OneToOne(pairs)
    requires t.id in Tids(pairs) && t.id in Ids(mine) && Lookup(mine, t.id) == t
    ensures t.id in MatchOf(pairs, detections)
    ensures Sight(t, MatchOf(pairs, detections)[t.id]) in Matched(mine, pairs, detections)
  {
    var k :| 0 <= k < |pairs| && pairs[k].tid == t.id;
    MatchedAt(mine, pairs, detections, k);
    MatchOfAt(pairs, detections, pairs[k]);
    assert Matched(mine, pairs, detections)[k] == Sight(t, detections[pairs[k].index]);
  }

  // ----- the whole frame -----

  lemma {:induction false} ClassSetting(st: State, detections: seq<Detection>, c: string, id: int)
    requires Numbered(st) && st.nextId <= id
    ensures var mine := OfClass(st.tracks, c);
      && Ascending(mine)
      && (forall t :: t in mine ==> t in st.tracks && t.key == c)
      && (forall i :: i in Ids(mine) ==> i in Ids(st.tracks) && 1 <= i < id)
      && (forall d :: d in ByClass(detections, c) ==> d in detections && d.key == c)
  {
    OfClassAscending(st.tracks, c);
    MineOfClass(st.tracks, c);
    forall i | i in Ids(OfClass(st.tracks, c)) ensures i in Ids(st.tracks) {
      var t :| t in OfClass(st.tracks, c) && t.id == i;
    }
    forall d | d in ByClass(detections, c) ensures d in detections && d.key == c {
      ByClassMember(detections, c, d);
    }
  }

  lemma {:induction false} SightingOrigin(p: Params, st: State, detections: seq<Detection>, order: seq<string>, s: Track)
    requires Numbered(st) && Distinct(order)
    requires s in Frame(p, st, detections, order).sightings
    ensures s.key in order
    ensures (exists t, d :: t in st.tracks && d in detections && SightedBy(p, t, d, s))
         || (exists d :: d in detections && BornFrom(d, st.nextId, s))
  {
    var c := s.key;
    var id := StartId(p, st, detections, order, c);
    FrameByClass(p, st, detections, order, c);
    OfClassMember(Frame(p, st, detections, order).sightings, c, s);
    ClassSetting(st, detections, c, id);
    ClassSightingOrigin(p, OfClass(st.tracks, c), c, ByClass(detections, c), id, s);
    if d :| d in ByClass(detections, c) && BornFrom(d, id, s) {
      assert BornFrom(d, st.nextId, s);
    }
  }

  lemma {:induction false} SightingIds(p: Params, st: State, detections: seq<Detection>, order: seq<string>)
    requires Numbered(st) && Distinct(order)
    ensures var r := Frame(p, st, detections, order);
      && DistinctIds(r.sightings)
      && forall s :: s in r.sightings ==> 1 <= s.id < r.st.nextId
    decreases |order|, 2
  {
    if order != [] {
      var n := |order| - 1;
      var at := Frame(p, st, detections, order[..n]);
      SightingIds(p, st, detections, order[..n]);
      var seen := LastSeen(p, st, detections, order);
      forall s | s in seen ensures s.id !in Ids(at.sightings) && 1 <= s.id < Frame(p, st, detections, order).st.nextId {
        SeenApart(p, st, detections, order, s);
      }
      CounterGrows(p, st, detections, order);
      DistinctConcat(at.sightings, seen);
    }
  }

  lemma {:induction false} CounterGrows(p: Params, st: State, detections: seq<Detection>, order: seq<string>)
    requires Numbered(st) && Distinct(order) && order != []
    ensures Frame(p, st, detections, order[..|order| - 1]).st.nextId <= Frame(p, st, detections, order).st.nextId
  {
    var n := |order| - 1;
    FrameByClass(p, st, detections, order[..n], order[n]);
    ClassPassNumbered(p, Frame(p, st, detections, order[..n]), order[n], ByClass(detections, order[n]));
  }

  /** The sightings added by the last class of the order. */
  ghost function LastSeen(p: Params, st: State, detections: seq<Detection>, order: seq<string>): (r: seq<Track>)
    requires Numbered(st) && Distinct(order) && order != []
    ensures DistinctIds(r)
    ensures Frame(p, st, detections, order).sightings == Frame(p, st, detections, order[..|order| - 1]).sightings + r
  {
    var n := |order| - 1;
    var c := order[n];
    var at := Frame(p, st, detections, order[..n]);
    FrameByClass(p, st, detections, order[..n], c);
    ClassSetting(at.st, detections, c, at.st.nextId);
    ClassSightingsDistinct(p, OfClass(at.st.tracks, c), c, ByClass(detections, c), at.st.nextId);
    ClassSightings(p, OfClass(at.st.tracks, c), c, ByClass(detections, c), at.st.nextId)
  }

  lemma {:induction false} SeenApart(p: Params, st: State, detections: seq<Detection>, order: seq<string>, s: Track)
    requires Numbered(st) && Distinct(order) && order != []
    requires s in LastSeen(p, st, detections, order)
    ensures s.id !in Ids(Frame(p, st, detections, order[..|order| - 1]).sightings)
    ensures 1 <= s.id < Frame(p, st, detections, order).st.nextId
    decreases |order|, 1
  {
    var n := |order| - 1;
    var c := order[n];
    var at := Frame(p, st, detections, order[..n]);
    var mine := OfClass(at.st.tracks, c);
    var cd := ByClass(detections, c);
    FrameByClass(p, st, detections, order[..n], c);
    ClassSetting(at.st, detections, c, at.st.nextId);
    var pairs := Chosen(mine, cd, p.threshold);
    IdsConcat(Matched(mine, pairs, cd), ClassBirths(p, mine, c, cd, at.st.nextId));
    BirthIds(cd, c, Indices(pairs), at.st.nextId);
    MatchedIds(mine, pairs, cd);
    assert s.id in Ids(ClassSightings(p, mine, c, cd, at.st.nextId));
    assert s.id in Ids(mine) || at.st.nextId <= s.id;
    forall r | r in at.sightings ensures r.id != s.id {
      SightingApart(p, st, detections, order, r, s.id);
    }
  }

  /** Earlier sightings of the frame concern other ids than the tracks of the class whose turn it is
      and the ids not handed out yet. */
  lemma SightingApart(p: Params, st: State, detections: seq<Detection>, order: seq<string>, r: Track, id: int)
    requires Numbered(st) && Distinct(order) && order != []
    requires var at := Frame(p, st, detections, order[..|order| - 1]);
      r in at.sightings && (id in Ids(OfClass(at.st.tracks, order[|order| - 1])) || at.st.nextId <= id)
    ensures r.id != id
    decreases |order|, 0
  {
    var n := |order| - 1;
    var c := order[n];
    var before := order[..n];
    SightingIds(p, st, detections, before);
    SightingOrigin(p, st, detections, before, r);
    FrameByClass(p, st, detections, before, c);
    if id in Ids(OfClass(st.tracks, c)) && r.id == id {
      var t :| t in OfClass(st.tracks, c) && t.id == id;
      OfClassMember(st.tracks, c, t);
      assert t.id in Ids(st.tracks);
      MissedApart(p, st, detections, before, t, r);
      assert false;
    }
  }

  /** Every surviving track was sighted in this frame or missed by it. */
  lemma {:induction false} NextOrigin(p: Params, st: State, detections: seq<Detection>, order: seq<string>, u: Track)
    requires Numbered(st) && Enumerates(order, Classes(st, detections))
    requires u in Frame(p, st, detections, order).st.tracks
    ensures u in Frame(p, st, detections, order).sightings
         || exists t :: t in st.tracks && u == t.(misses := t.misses + 1) && u.misses <= p.maxMissed
                        && u.id !in Ids(Frame(p, st, detections, order).sightings)
  {
    var c := u.key;
    var r := Frame(p, st, detections, order);
    var mine := OfClass(st.tracks, c);
    var cd := ByClass(detections, c);
    var id := StartId(p, st, detections, order, c);
    FrameByClass(p, st, detections, order, c);
    OfClassMember(r.st.tracks, c, u);
    ClassSetting(st, detections, c, id);
    if u in mine {
      assert u.key in Classes(st, detections);
    }
    ClassNextOrigin(p, mine, c, cd, id, u);
    OfClassMember(r.sightings, c, u);
    if u !in r.sightings {
      var t :| t in mine && u == t.(misses := t.misses + 1) && u.misses <= p.maxMissed
               && u.id !in Ids(ClassSightings(p, mine, c, cd, id));
      forall s | s in r.sightings ensures s.id != u.id {
        if s.key == c {
          OfClassMember(r.sightings, c, s);
          assert s.id in Ids(OfClass(r.sightings, c));
        } else if s.id == u.id {
          MissedApart(p, st, detections, order, t, s);
          assert false;
        }
      }
    }
  }

  lemma {:induction false} MissedApart(p: Params, st: State, detections: seq<Detection>, order: seq<string>, t: Track, s: Track)
    requires Numbered(st) && Distinct(order)
    requires s in Frame(p, st, detections, order).sightings && t in st.tracks && t.id == s.id
    ensures s.key == t.key
  {
    SightingOrigin(p, st, detections, order, s);
    assert t.id in Ids(st.tracks);
    var u, d :| u in st.tracks && d in detections && SightedBy(p, u, d, s);
    LookupUnique(st.tracks, u);
    LookupUnique(st.tracks, t);
  }
}
