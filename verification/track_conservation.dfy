/** Every detection of a frame sights exactly one track: the sightings, stripped of track data, are
    the detections of the frame. */
module TrackConservation {
  import Matching
  import opened Tracking
  import TrackClasses
  import TrackFrames

  function Erase(t: Track): Detection { Detection(t.tag, t.key, t.confidence, t.box) }

  function EraseAll(s: seq<Track>): seq<Detection> {
    if s == [] then [] else EraseAll(s[..|s| - 1]) + [Erase(s[|s| - 1])]
  }

  function Rest(detections: seq<Detection>, taken: set<nat>): seq<Detection> {
    if detections == [] then []
    else
      var n := |detections| - 1;
      if n in taken then Rest(detections[..n], taken) else Rest(detections[..n], taken) + [detections[n]]
  }

  lemma {:induction false} EraseConcat(a: seq<Track>, b: seq<Track>)
    ensures EraseAll(a + b) == EraseAll(a) + EraseAll(b)
  {
    if b == [] {
      assert a + b == a;
    } else {
      var n := |b| - 1;
      assert (a + b)[..|a| + n] == a + b[..n];
      EraseConcat(a, b[..n]);
    }
  }

  lemma {:induction false} EraseBirths(detections: seq<Detection>, c: string, taken: set<nat>, id: int)
    requires forall d :: d in detections ==> d.key == c
    ensures EraseAll(Births(detections, c, taken, id)) == Rest(detections, taken)
  {
    if detections != [] {
      var n := |detections| - 1;
      assert detections[n] in detections;
      assert forall d :: d in detections[..n] ==> d in detections;
      EraseBirths(detections[..n], c, taken, id);
      var before := Births(detections[..n], c, taken, id);
      var t := NewTrack(detections[n], c, id + |before|);
      assert (before + [t])[..|before|] == before;
    }
  }

  lemma {:induction false} RestWithout(detections: seq<Detection>, taken: set<nat>, i: nat)
    requires i < |detections| && i !in taken
    ensures multiset(Rest(detections, taken)) == multiset(Rest(detections, taken + {i})) + multiset{detections[i]}
  {
    var n := |detections| - 1;
    var a, b := Rest(detections[..n], taken), Rest(detections[..n], taken + {i});
    if i == n {
      RestBeyond(detections[..n], taken, i);
      assert Rest(detections, taken + {i}) == b && Rest(detections, taken) == a + [detections[n]];
    } else {
      RestWithout(detections[..n], taken, i);
      assert multiset(a) == multiset(b) + multiset{detections[i]};
      if n in taken {
        assert Rest(detections, taken) == a && Rest(detections, taken + {i}) == b;
      } else {
        assert Rest(detections, taken) == a + [detections[n]] && Rest(detections, taken + {i}) == b + [detections[n]];
      }
    }
  }

  lemma {:induction false} RestBeyond(detections: seq<Detection>, taken: set<nat>, i: nat)
    requires |detections| <= i
    ensures Rest(detections, taken + {i}) == Rest(detections, taken)
  {
    if detections != [] {
      RestBeyond(detections[..|detections| - 1], taken, i);
    }
  }

  lemma {:induction false} RestAll(detections: seq<Detection>)
    ensures Rest(detections, {}) == detections
  {
    if detections != [] {
      RestAll(detections[..|detections| - 1]);
    }
  }

  lemma {:induction false} MatchedAndRest(mine: seq<Track>, pairs: seq<Matching.Cand>, detections: seq<Detection>, c: string)
    requires Fits(pairs, mine, detections) && Matching.OneToOne(pairs)
    requires forall t :: t in mine ==> t.key == c
    requires forall d :: d in detections ==> d.key == c
    ensures multiset(EraseAll(Matched(mine, pairs, detections))) + multiset(Rest(detections, Matching.Indices(pairs)))
         == multiset(detections)
  {
    if pairs == [] {
      assert Matching.Indices(pairs) == {};
      RestAll(detections);
    } else {
      var n := |pairs| - 1;
      var e := pairs[n];
      assert pairs == pairs[..n] + [e];
      Matching.OneToOneSnoc(pairs[..n], e);
      Matching.Snoc(pairs[..n], e);
      assert Fits(pairs[..n], mine, detections);
      MatchedAndRest(mine, pairs[..n], detections, c);
      RestWithout(detections, Matching.Indices(pairs[..n]), e.index);
      var before := Matched(mine, pairs[..n], detections);
      var s := Sight(Lookup(mine, e.tid), detections[e.index]);
      assert detections[e.index] in detections;
      assert Erase(s) == detections[e.index];
      assert (before + [s])[..|before|] == before;
    }
  }

  lemma ClassConservation(p: Params, mine: seq<Track>, c: string, detections: seq<Detection>, id: int)
    requires forall t :: t in mine ==> t.key == c
    requires forall d :: d in detections ==> d.key == c
    ensures multiset(EraseAll(ClassSightings(p, mine, c, detections, id))) == multiset(detections)
  {
    var pairs := Chosen(mine, detections, p.threshold);
    EraseConcat(Matched(mine, pairs, detections), ClassBirths(p, mine, c, detections, id));
    EraseBirths(detections, c, Matching.Indices(pairs), id);
    MatchedAndRest(mine, pairs, detections, c);
  }

  lemma {:induction false} ErasedOfClass(s: seq<Track>, d: Detection)
    ensures multiset(EraseAll(OfClass(s, d.key)))[d] == multiset(EraseAll(s))[d]
  {
    if s != [] {
      var n := |s| - 1;
      ErasedOfClass(s[..n], d);
      if s[n].key == d.key {
        EraseConcat(OfClass(s[..n], d.key), [s[n]]);
      }
      assert EraseAll([s[n]]) == [Erase(s[n])] by { assert [s[n]][..0] == []; }
    }
  }

  lemma {:induction false} CountByClass(s: seq<Detection>, d: Detection)
    ensures multiset(ByClass(s, d.key))[d] == multiset(s)[d]
  {
    if s != [] {
      var n := |s| - 1;
      assert s == s[..n] + [s[n]];
      CountByClass(s[..n], d);
    }
  }

  lemma Visited(st: State, detections: seq<Detection>, order: seq<string>, d: Detection)
    requires Enumerates(order, Classes(st, detections))
    ensures d in detections ==> d.key in order
  {
    if d in detections { assert d.key in Classes(st, detections); }
  }

  /** Main result of this module. */
  lemma {:induction false} FrameConservation(p: Params, st: State, detections: seq<Detection>, order: seq<string>)
    requires TrackClasses.Numbered(st) && Enumerates(order, Classes(st, detections))
    ensures multiset(EraseAll(Frame(p, st, detections, order).sightings)) == multiset(detections)
  {
    var r := Frame(p, st, detections, order);
    forall d: Detection ensures multiset(EraseAll(r.sightings))[d] == multiset(detections)[d] {
      var c := d.key;
      var id := TrackClasses.StartId(p, st, detections, order, c);
      TrackClasses.FrameByClass(p, st, detections, order, c);
      TrackFrames.ClassSetting(st, detections, c, id);
      ErasedOfClass(r.sightings, d);
      CountByClass(detections, d);
      Visited(st, detections, order, d);
      if c in order {
        ClassConservation(p, OfClass(st.tracks, c), c, ByClass(detections, c), id);
      }
    }
  }

  lemma {:induction false} EraseLength(s: seq<Track>)
    ensures |EraseAll(s)| == |s|
  {
    if s != [] {
      EraseLength(s[..|s| - 1]);
    }
  }

  lemma {:induction false} FrameCount(p: Params, st: State, detections: seq<Detection>, order: seq<string>)
    requires TrackClasses.Numbered(st) && Enumerates(order, Classes(st, detections))
    ensures |Frame(p, st, detections, order).sightings| == |detections|
  {
    var s := Frame(p, st, detections, order).sightings;
    FrameConservation(p, st, detections, order);
    EraseLength(s);
    assert |multiset(EraseAll(s))| == |multiset(detections)|;
  }
}
