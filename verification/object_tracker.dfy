/** The mutable `ObjectTracker`, kept equal to the frame function and carrying its own history. */
module ObjectTracking {
  import opened Matching
  import opened Tracking
  import TrackClasses
  import TrackFrames
  import TrackHistory

  // ----- in-place edits of the live tracks -----

  /** The live tracks with the entry for t.id replaced by t. */
  function Put(tracks: seq<Track>, t: Track): seq<Track> {
    if tracks == [] then []
    else
      var n := |tracks| - 1;
      Put(tracks[..n], t) + [if tracks[n].id == t.id then t else tracks[n]]
  }

  /** The live tracks without the entry for id. */
  function Pop(tracks: seq<Track>, id: int): seq<Track> {
    if tracks == [] then []
    else
      var n := |tracks| - 1;
      if tracks[n].id == id then Pop(tracks[..n], id) else Pop(tracks[..n], id) + [tracks[n]]
  }

  lemma {:induction false} PutSighted(s: seq<Track>, matched: map<int, Detection>, maxMissed: int, t: Track, d: Detection)
    requires t.id !in matched && forall u :: u in s && u.id == t.id ==> u == t
    ensures Put(Advance(s, matched, {}, maxMissed), Sight(t, d)) == Advance(s, matched[t.id := d], {}, maxMissed)
  {
    if s != [] {
      var n := |s| - 1;
      PutSighted(s[..n], matched, maxMissed, t, d);
      var before := Advance(s[..n], matched, {}, maxMissed);
      var next := Next(s[n], matched, {}, maxMissed).track;
      assert s[n] in s;
      assert (before + [next])[..|before|] == before;
    }
  }

  /** The live tracks after t has been missed once more. */
  function MissedBy(now: seq<Track>, t: Track, maxMissed: int): seq<Track> {
    if t.misses + 1 > maxMissed then Pop(now, t.id) else Put(now, t.(misses := t.misses + 1))
  }

  lemma MissedBySnoc(now: seq<Track>, x: Track, t: Track, maxMissed: int)
    ensures MissedBy(now + [x], t, maxMissed)
      == if x.id != t.id then MissedBy(now, t, maxMissed) + [x]
         else if t.misses + 1 > maxMissed then MissedBy(now, t, maxMissed)
         else MissedBy(now, t, maxMissed) + [t.(misses := t.misses + 1)]
  {
    assert (now + [x])[..|now|] == now;
  }

  lemma {:induction false} MissOne(s: seq<Track>, matched: map<int, Detection>, missed: set<int>, maxMissed: int, t: Track)
    requires t.id !in matched && t.id !in missed && forall u :: u in s && u.id == t.id ==> u == t
    ensures Advance(s, matched, missed + {t.id}, maxMissed) == MissedBy(Advance(s, matched, missed, maxMissed), t, maxMissed)
  {
    if s != [] {
      var n := |s| - 1;
      assert s[n] in s;
      MissOne(s[..n], matched, missed, maxMissed, t);
      MissStep(s[n], matched, missed, maxMissed, t, Advance(s[..n], matched, missed, maxMissed));
    }
  }

  lemma MissStep(u: Track, matched: map<int, Detection>, missed: set<int>, maxMissed: int, t: Track, now: seq<Track>)
    requires t.id !in matched && t.id !in missed && (u.id == t.id ==> u == t)
    ensures var next, next' := Next(u, matched, missed, maxMissed), Next(u, matched, missed + {t.id}, maxMissed);
      && (next.Dropped? ==> next'.Dropped?)
      && (next.Kept? ==>
            MissedBy(now + [next.track], t, maxMissed)
            == if next'.Kept? then MissedBy(now, t, maxMissed) + [next'.track] else MissedBy(now, t, maxMissed))
  {
    var next := Next(u, matched, missed, maxMissed);
    if next.Kept? {
      MissedBySnoc(now, next.track, t, maxMissed);
    }
  }

  lemma {:induction false} AdvanceNone(s: seq<Track>, maxMissed: int)
    ensures Advance(s, map[], {}, maxMissed) == s
  {
    if s != [] { AdvanceNone(s[..|s| - 1], maxMissed); }
  }

  lemma {:induction false} ByClassSnoc(s: seq<Detection>, d: Detection, c: string)
    ensures ByClass(s + [d], c) == if d.key == c then ByClass(s, c) + [d] else ByClass(s, c)
  {
    assert (s + [d])[..|s|] == s;
  }

  lemma {:induction false} MatchOfSnoc(pairs: seq<Cand>, c: Cand, detections: seq<Detection>)
    requires forall e :: e in pairs + [c] ==> e.index < |detections|
    ensures c in pairs + [c] && forall e :: e in pairs ==> e in pairs + [c]
    ensures MatchOf(pairs + [c], detections) == MatchOf(pairs, detections)[c.tid := detections[c.index]]
  {
    assert (pairs + [c])[..|pairs|] == pairs;
    assert (pairs + [c])[|pairs|] == c;
  }

  lemma {:induction false} ConfirmSnoc(s: seq<Track>, t: Track, minHits: int)
    ensures Confirm(s + [t], minHits) == if t.hits >= minHits then Confirm(s, minHits) + [ToTracked(t)] else Confirm(s, minHits)
  {
    assert (s + [t])[..|s|] == s;
  }

  class ObjectTracker {
    const p: Params
    var tracks: seq<Track>
    var nextId: int
    /** The sightings of every frame so far. */
    ghost var log: TrackHistory.Log

    ghost function Current(): State reads this { State(tracks, nextId) }

    ghost predicate Valid() reads this {
      TrackHistory.History(p, Current(), log)
    }

    constructor (p: Params)
      ensures Valid() && this.p == p && Current() == TrackHistory.START && log == []
    {
      this.p := p;
      tracks, nextId, log := [], 1, [];
    }

    /** The accepted pairs of one class, applied to the live tracks as they are accepted. */
    method MatchClass(classTracks: seq<Track>, detections: seq<Detection>)
      returns (matchedTids: set<int>, matchedIndices: set<nat>, confirmed: seq<Tracked>)
      requires Ascending(tracks) && Ascending(classTracks) && forall t :: t in classTracks ==> t in tracks
      modifies this`tracks
      ensures var chosen := Chosen(classTracks, detections, p.threshold);
        && matchedTids == Tids(chosen) && matchedIndices == Indices(chosen)
        && confirmed == Confirm(Matched(classTracks, chosen, detections), p.minHits)
        && tracks == Advance(old(tracks), MatchOf(chosen, detections), {}, p.maxMissed)
    {
      var candidates := SortDesc(Candidates(classTracks, detections));
      matchedTids, matchedIndices, confirmed := {}, {}, [];
      ghost var chosen: seq<Cand> := [];
      assert Indices(chosen) == {} && Tids(chosen) == {};
      AdvanceNone(tracks, p.maxMissed);
      for i := 0 to |candidates|
        invariant chosen == Greedy(candidates[..i], p.threshold) && Fits(chosen, classTracks, detections)
        invariant matchedTids == Tids(chosen) && matchedIndices == Indices(chosen)
        invariant confirmed == Confirm(Matched(classTracks, chosen, detections), p.minHits)
        invariant tracks == Advance(old(tracks), MatchOf(chosen, detections), {}, p.maxMissed)
      {
        var c := candidates[i];
        GreedyNext(candidates, i, p.threshold);
        if c.score < p.threshold || c.tid in matchedTids || c.index in matchedIndices {
          continue;
        }
        CandidateFits(classTracks, detections, c);
        Accept(old(tracks), classTracks, detections, chosen, c, p);
        matchedTids, matchedIndices := matchedTids + {c.tid}, matchedIndices + {c.index};
        var track := Lookup(classTracks, c.tid);
        var detection := detections[c.index];
        var seen := Sight(track, detection);
        tracks := Put(tracks, seen);
        if seen.hits >= p.minHits {
          confirmed := confirmed + [ToTracked(seen)];
        }
        chosen := chosen + [c];
      }
      assert candidates[..|candidates|] == candidates;
    }

    static lemma {:induction false} GreedyNext(candidates: seq<Cand>, i: nat, threshold: real)
      requires i < |candidates|
      ensures var before := Greedy(candidates[..i], threshold);
        Greedy(candidates[..i + 1], threshold)
        == if Skips(candidates[i], before, threshold) then before else before + [candidates[i]]
    {
      assert candidates[..i + 1][..i] == candidates[..i];
    }

    static lemma {:induction false} CandidateFits(classTracks: seq<Track>, detections: seq<Detection>, c: Cand)
      requires c in SortDesc(Candidates(classTracks, detections))
      ensures c.tid in Ids(classTracks) && c.index < |detections|
    {
      SortMembers(Candidates(classTracks, detections), c);
      CandidatesMember(classTracks, detections, c);
    }

    /** One accepted pair. */
    static lemma {:induction false} Accept(tracks: seq<Track>, classTracks: seq<Track>, detections: seq<Detection>,
        chosen: seq<Cand>, c: Cand, p: Params)
      requires Ascending(tracks) && forall t :: t in classTracks ==> t in tracks
      requires Fits(chosen, classTracks, detections) && c.tid in Ids(classTracks) && c.index < |detections|
      requires c.tid !in Tids(chosen)
      ensures Tids(chosen + [c]) == Tids(chosen) + {c.tid} && Indices(chosen + [c]) == Indices(chosen) + {c.index}
      ensures Fits(chosen + [c], classTracks, detections)
      ensures var seen := Sight(Lookup(classTracks, c.tid), detections[c.index]);
        && Put(Advance(tracks, MatchOf(chosen, detections), {}, p.maxMissed), seen)
           == Advance(tracks, MatchOf(chosen + [c], detections), {}, p.maxMissed)
        && Confirm(Matched(classTracks, chosen + [c], detections), p.minHits)
           == Confirm(Matched(classTracks, chosen, detections), p.minHits)
              + (if seen.hits >= p.minHits then [ToTracked(seen)] else [])
    {
      var t := Lookup(classTracks, c.tid);
      Snoc(chosen, c);
      TrackClasses.MatchedSnoc(classTracks, chosen, c, detections);
      ConfirmSnoc(Matched(classTracks, chosen, detections), Sight(t, detections[c.index]), p.minHits);
      MatchOfDomain(chosen, detections);
      MatchOfSnoc(chosen, c, detections);
      forall u | u in tracks && u.id == t.id ensures u == t {
        TrackFrames.LookupUnique(tracks, u);
        TrackFrames.LookupUnique(tracks, t);
      }
      PutSighted(tracks, MatchOf(chosen, detections), p.maxMissed, t, detections[c.index]);
    }

    /** The tracks of one class that found no detection. */
    method MissClass(classTracks: seq<Track>, matchedTids: set<int>, ghost start: seq<Track>, ghost matched: map<int, Detection>)
      requires Ascending(start) && Ascending(classTracks) && forall t :: t in classTracks ==> t in start
      requires matched.Keys == matchedTids && tracks == Advance(start, matched, {}, p.maxMissed)
      modifies this`tracks
      ensures tracks == Advance(start, matched, Ids(classTracks) - matchedTids, p.maxMissed)
    {
      ghost var missed: set<int> := {};
      for k := 0 to |classTracks|
        invariant missed == Ids(classTracks[..k]) - matchedTids
        invariant tracks == Advance(start, matched, missed, p.maxMissed)
      {
        var t := classTracks[k];
        assert classTracks[..k + 1] == classTracks[..k] + [t];
        IdsSnoc(classTracks[..k], t);
        AscendingPrefix(classTracks, k);
        if t.id in matchedTids {
          continue;
        }
        forall u | u in start && u.id == t.id ensures u == t {
          TrackFrames.LookupUnique(start, u);
          TrackFrames.LookupUnique(start, t);
        }
        MissOne(start, matched, missed, p.maxMissed, t);
        if t.misses + 1 > p.maxMissed {
          tracks := Pop(tracks, t.id);
        } else {
          tracks := Put(tracks, t.(misses := t.misses + 1));
        }
        missed := missed + {t.id};
      }
      assert classTracks[..|classTracks|] == classTracks;
    }

    static lemma AscendingPrefix(s: seq<Track>, k: nat)
      requires Ascending(s) && k < |s|
      ensures s[k].id !in Ids(s[..k])
    {
    }

    /** New tracks for the detections of one class that no track took. */
    method BirthClass(c: string, detections: seq<Detection>, matchedIndices: set<nat>) returns (confirmed: seq<Tracked>)
      modifies this`tracks, this`nextId
      ensures var births := Births(detections, c, matchedIndices, old(nextId));
        tracks == old(tracks) + births && nextId == old(nextId) + |births| && confirmed == Confirm(births, p.minHits)
    {
      confirmed := [];
      ghost var births: seq<Track> := [];
      for index := 0 to |detections|
        invariant births == Births(detections[..index], c, matchedIndices, old(nextId))
        invariant tracks == old(tracks) + births && nextId == old(nextId) + |births|
        invariant confirmed == Confirm(births, p.minHits)
      {
        assert detections[..index + 1][..index] == detections[..index];
        if index in matchedIndices {
          continue;
        }
        var track := NewTrack(detections[index], c, nextId);
        tracks := tracks + [track];
        nextId := nextId + 1;
        ConfirmSnoc(births, track, p.minHits);
        if track.hits >= p.minHits {
          confirmed := confirmed + [ToTracked(track)];
        }
        births := births + [track];
      }
      assert detections[..|detections|] == detections;
    }

    /** The pass over one class. */
    method UpdateClass(c: string, detections: seq<Detection>, ghost at: Pass) returns (confirmed: seq<Tracked>)
      requires at.st == Current() && TrackClasses.Numbered(at.st)
      modifies this`tracks, this`nextId
      ensures Current() == ClassPass(p, at, c, detections).st
      ensures Confirm(at.sightings, p.minHits) + confirmed == Confirm(ClassPass(p, at, c, detections).sightings, p.minHits)
    {
      hide Chosen, Births, Matched, Advance, Confirm, OfClass;
      var classTracks := OfClass(tracks, c);
      ghost var start := tracks;
      ghost var chosen := Chosen(classTracks, detections, p.threshold);
      OfClassAscending(tracks, c);
      TrackClasses.MineOfClass(tracks, c);
      var matchedTids, matchedIndices, seen := MatchClass(classTracks, detections);
      MatchOfDomain(chosen, detections);
      MissClass(classTracks, matchedTids, start, MatchOf(chosen, detections));
      var born := BirthClass(c, detections, matchedIndices);
      confirmed := seen + born;
      ConfirmConcat(Matched(classTracks, chosen, detections), ClassBirths(p, classTracks, c, detections, at.st.nextId), p.minHits);
      ConfirmConcat(at.sightings, ClassSightings(p, classTracks, c, detections, at.st.nextId), p.minHits);
    }

    static lemma {:induction false} FrameNone(p: Params, st: State, detections: seq<Detection>)
      ensures Frame(p, st, detections, []) == Pass(st, []) && Confirm([], p.minHits) == []
      ensures forall c :: ByClass([], c) == []
    {
    }

    static lemma {:induction false} FrameNext(p: Params, st: State, detections: seq<Detection>, order: seq<string>, k: nat)
      requires k < |order|
      ensures Frame(p, st, detections, order[..k + 1])
           == ClassPass(p, Frame(p, st, detections, order[..k]), order[k], ByClass(detections, order[k]))
    {
      assert order[..k + 1][..k] == order[..k];
    }

    /** One frame. `order` is the order in which the set of classes happens to be iterated. */
    method Update(detections: seq<Detection>, order: seq<string>) returns (confirmed: seq<Tracked>)
      requires Valid() && Enumerates(order, Classes(Current(), detections))
      modifies this
      ensures Valid()
      ensures Current() == Frame(p, old(Current()), detections, order).st
      ensures log == old(log) + [Frame(p, old(Current()), detections, order).sightings]
      ensures confirmed == Confirm(log[|log| - 1], p.minHits)
    {
      hide Frame, ClassPass, Confirm, ByClass;
      FrameNone(p, Current(), detections);
      assert detections[..0] == [] && order[..0] == [];
      var byClass: map<string, seq<Detection>> := map[];
      for i := 0 to |detections|
        invariant forall c :: ByClass(detections[..i], c) == if c in byClass then byClass[c] else []
      {
        var d := detections[i];
        assert detections[..i + 1] == detections[..i] + [d];
        forall c ensures ByClass(detections[..i + 1], c) == if d.key == c then ByClass(detections[..i], c) + [d] else ByClass(detections[..i], c) {
          ByClassSnoc(detections[..i], d, c);
        }
        byClass := byClass[d.key := (if d.key in byClass then byClass[d.key] else []) + [d]];
      }
      assert detections[..|detections|] == detections;
      confirmed := [];
      ghost var start := Current();
      ghost var at := Pass(start, []);
      for k := 0 to |order|
        invariant at == Frame(p, start, detections, order[..k]) && at.st == Current() && TrackClasses.Numbered(at.st)
        invariant confirmed == Confirm(at.sightings, p.minHits)
        invariant log == old(log)
      {
        var c := order[k];
        FrameNext(p, start, detections, order, k);
        var classDetections := if c in byClass then byClass[c] else [];
        TrackClasses.ClassPassNumbered(p, at, c, classDetections);
        var more := UpdateClass(c, classDetections, at);
        confirmed := confirmed + more;
        at := ClassPass(p, at, c, classDetections);
      }
      assert order[..|order|] == order;
      TrackHistory.FrameFollows(p, start, detections, order);
      TrackHistory.HistoryStep(p, start, log, at.sightings, at.st);
      log := log + [at.sightings];
    }
  }
}
