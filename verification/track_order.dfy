/** The iteration order of the set of classes does not matter: it only changes the numbers given to
    new tracks. */
module TrackOrder {
  import opened Matching
  import opened Tracking
  import TrackClasses
  import TrackFrames

  type Renaming = map<int, int>

  ghost predicate Injective(r: Renaming) {
    forall i, j :: i in r && j in r && r[i] == r[j] ==> i == j
  }

  function To(r: Renaming, id: int): int { if id in r then r[id] else id }

  function RenameTrack(r: Renaming, t: Track): Track { t.(id := To(r, t.id)) }

  function Rename(r: Renaming, s: seq<Track>): seq<Track> {
    if s == [] then [] else Rename(r, s[..|s| - 1]) + [RenameTrack(r, s[|s| - 1])]
  }

  function RenameCand(r: Renaming, c: Cand): Cand { c.(tid := To(r, c.tid)) }

  function RenameCands(r: Renaming, s: seq<Cand>): (u: seq<Cand>)
    ensures |u| == |s|
    ensures forall i :: 0 <= i < |s| ==> u[i] == RenameCand(r, s[i])
  {
    seq(|s|, i requires 0 <= i < |s| => RenameCand(r, s[i]))
  }

  // ----- lists of tracks -----

  lemma {:induction false} RenameAt(r: Renaming, s: seq<Track>)
    ensures |Rename(r, s)| == |s|
    ensures forall i :: 0 <= i < |s| ==> Rename(r, s)[i] == RenameTrack(r, s[i])
  {
    if s != [] { RenameAt(r, s[..|s| - 1]); }
  }

  lemma {:induction false} RenameSnoc(r: Renaming, s: seq<Track>, t: Track)
    ensures Rename(r, s + [t]) == Rename(r, s) + [RenameTrack(r, t)]
  {
    assert (s + [t])[..|s|] == s;
  }

  lemma {:induction false} RenameConcat(r: Renaming, a: seq<Track>, b: seq<Track>)
    ensures Rename(r, a + b) == Rename(r, a) + Rename(r, b)
  {
    RenameAt(r, a);
    RenameAt(r, b);
    RenameAt(r, a + b);
  }

  ghost predicate Extends(r': Renaming, r: Renaming) {
    forall i :: i in r ==> i in r' && r'[i] == r[i]
  }

  lemma {:induction false} RenameExtended(r: Renaming, r': Renaming, s: seq<Track>)
    requires Extends(r', r) && Ids(s) <= r.Keys
    ensures Rename(r', s) == Rename(r, s)
  {
    RenameAt(r, s);
    RenameAt(r', s);
    forall i | 0 <= i < |s| ensures RenameTrack(r', s[i]) == RenameTrack(r, s[i]) {
      assert s[i].id in Ids(s);
    }
  }

  lemma {:induction false} LookupRenamed(r: Renaming, s: seq<Track>, id: int)
    requires Injective(r) && Ascending(s) && Ids(s) <= r.Keys && id in Ids(s)
    ensures To(r, id) in Ids(Rename(r, s)) && Lookup(Rename(r, s), To(r, id)) == RenameTrack(r, Lookup(s, id))
  {
    var u := Rename(r, s);
    var t := Lookup(s, id);
    RenameAt(r, s);
    var i :| 0 <= i < |s| && s[i] == t;
    assert u[i] in u;
    var w := Lookup(u, To(r, id));
    var j :| 0 <= j < |u| && u[j] == w;
    assert s[j].id in Ids(s) && s[i].id in Ids(s);
    assert s[j].id == id;
  }

  // ----- the matching -----

  lemma {:induction false} CandidatesRenamed(r: Renaming, s: seq<Track>, detections: seq<Detection>)
    ensures Candidates(Rename(r, s), detections) == RenameCands(r, Candidates(s, detections))
  {
    if s != [] {
      var n := |s| - 1;
      CandidatesRenamed(r, s[..n], detections);
      var before := Rename(r, s[..n]);
      assert (before + [RenameTrack(r, s[n])])[..|before|] == before;
      assert Row(RenameTrack(r, s[n]), detections) == RenameCands(r, Row(s[n], detections));
    }
  }

  lemma RenameCandsCons(r: Renaming, x: Cand, s: seq<Cand>)
    ensures RenameCands(r, [x] + s) == [RenameCand(r, x)] + RenameCands(r, s)
  {
  }

  lemma {:induction false} InsertRenamed(r: Renaming, x: Cand, s: seq<Cand>)
    ensures Insert(RenameCand(r, x), RenameCands(r, s)) == RenameCands(r, Insert(x, s))
  {
    if s == [] {
    } else {
      assert s == [s[0]] + s[1..];
      RenameCandsCons(r, s[0], s[1..]);
      RenameCandsCons(r, x, s);
      if x.score < s[0].score {
        InsertRenamed(r, x, s[1..]);
        RenameCandsCons(r, s[0], Insert(x, s[1..]));
      }
    }
  }

  lemma {:induction false} SortRenamed(r: Renaming, s: seq<Cand>)
    ensures SortDesc(RenameCands(r, s)) == RenameCands(r, SortDesc(s))
  {
    if s != [] {
      assert s == [s[0]] + s[1..];
      RenameCandsCons(r, s[0], s[1..]);
      SortRenamed(r, s[1..]);
      InsertRenamed(r, s[0], SortDesc(s[1..]));
    }
  }

  lemma SkipsRenamed(r: Renaming, c: Cand, chosen: seq<Cand>, threshold: real)
    requires Injective(r) && c.tid in r && Tids(chosen) <= r.Keys
    ensures Skips(RenameCand(r, c), RenameCands(r, chosen), threshold) == Skips(c, chosen, threshold)
  {
    var u := RenameCands(r, chosen);
    if c.tid in Tids(chosen) {
      var i :| 0 <= i < |chosen| && chosen[i].tid == c.tid;
      assert u[i] in u;
    }
    if c.index in Indices(chosen) {
      var i :| 0 <= i < |chosen| && chosen[i].index == c.index;
      assert u[i] in u;
    }
    if To(r, c.tid) in Tids(u) {
      var i :| 0 <= i < |u| && u[i].tid == To(r, c.tid);
      assert chosen[i] in chosen && chosen[i].tid in Tids(chosen);
    }
    if c.index in Indices(u) {
      var i :| 0 <= i < |u| && u[i].index == c.index;
      assert chosen[i] in chosen;
    }
  }

  lemma {:induction false} GreedyRenamed(r: Renaming, s: seq<Cand>, threshold: real)
    requires Injective(r) && forall c :: c in s ==> c.tid in r
    ensures Greedy(RenameCands(r, s), threshold) == RenameCands(r, Greedy(s, threshold))
  {
    if s != [] {
      var n := |s| - 1;
      GreedyRenamed(r, s[..n], threshold);
      assert RenameCands(r, s)[..n] == RenameCands(r, s[..n]);
      GreedySound(s[..n], threshold);
      SkipsRenamed(r, s[n], Greedy(s[..n], threshold), threshold);
    }
  }

  lemma {:induction false} ChosenRenamed(r: Renaming, s: seq<Track>, detections: seq<Detection>, threshold: real)
    requires Injective(r) && Ids(s) <= r.Keys
    ensures Chosen(Rename(r, s), detections, threshold) == RenameCands(r, Chosen(s, detections, threshold))
  {
    CandidatesRenamed(r, s, detections);
    SortRenamed(r, Candidates(s, detections));
    forall c | c in SortDesc(Candidates(s, detections)) ensures c.tid in r {
      SortMembers(Candidates(s, detections), c);
      CandidatesMember(s, detections, c);
    }
    GreedyRenamed(r, SortDesc(Candidates(s, detections)), threshold);
  }

  // ----- what becomes of one class -----

  lemma {:induction false} FitsRenamed(r: Renaming, s: seq<Track>, pairs: seq<Cand>, detections: seq<Detection>)
    requires Injective(r) && Ascending(s) && Ids(s) <= r.Keys && Fits(pairs, s, detections)
    ensures Fits(RenameCands(r, pairs), Rename(r, s), detections)
  {
    var u := RenameCands(r, pairs);
    forall c | c in u ensures c.tid in Ids(Rename(r, s)) && c.index < |detections| {
      var i :| 0 <= i < |u| && u[i] == c;
      assert pairs[i] in pairs;
      LookupRenamed(r, s, pairs[i].tid);
    }
  }

  lemma {:induction false} MatchedRenamed(r: Renaming, s: seq<Track>, pairs: seq<Cand>, detections: seq<Detection>)
    requires Injective(r) && Ascending(s) && Ids(s) <= r.Keys && Fits(pairs, s, detections)
    requires Fits(RenameCands(r, pairs), Rename(r, s), detections)
    ensures Matched(Rename(r, s), RenameCands(r, pairs), detections) == Rename(r, Matched(s, pairs, detections))
  {
    hide Matched, Rename, Lookup, Ascending;
    var n := |pairs| - 1;
    if pairs == [] {
      MatchedNone(r, s, detections);
    } else {
      var before, c := pairs[..n], pairs[n];
      assert pairs == before + [c];
      assert RenameCands(r, pairs) == RenameCands(r, before) + [RenameCand(r, c)];
      assert Fits(before, s, detections);
      FitsRenamed(r, s, before, detections);
      MatchedRenamed(r, s, before, detections);
      LookupRenamed(r, s, c.tid);
      TrackClasses.MatchedSnoc(s, before, c, detections);
      TrackClasses.MatchedSnoc(Rename(r, s), RenameCands(r, before), RenameCand(r, c), detections);
      RenameSnoc(r, Matched(s, before, detections), Sight(Lookup(s, c.tid), detections[c.index]));
    }
  }

  lemma {:induction false} MatchedNone(r: Renaming, s: seq<Track>, detections: seq<Detection>)
    ensures RenameCands(r, []) == []
    ensures Matched(Rename(r, s), [], detections) == Rename(r, Matched(s, [], detections))
  {
  }

  lemma {:induction false} MatchOfRenamed(r: Renaming, pairs: seq<Cand>, detections: seq<Detection>, id: int)
    requires Injective(r) && id in r && Tids(pairs) <= r.Keys && OneToOne(pairs)
    requires forall c :: c in pairs ==> c.index < |detections|
    ensures forall c :: c in RenameCands(r, pairs) ==> c.index < |detections|
    ensures id in MatchOf(pairs, detections) <==> r[id] in MatchOf(RenameCands(r, pairs), detections)
    ensures id in MatchOf(pairs, detections) ==>
      MatchOf(pairs, detections)[id] == MatchOf(RenameCands(r, pairs), detections)[r[id]]
  {
    var u := RenameCands(r, pairs);
    forall c | c in u ensures c.index < |detections| {
      var i :| 0 <= i < |u| && u[i] == c;
      assert pairs[i] in pairs;
    }
    forall i, j | 0 <= i < j < |u| ensures u[i].tid != u[j].tid && u[i].index != u[j].index {
      assert pairs[i] in pairs && pairs[j] in pairs;
      assert pairs[i].tid in Tids(pairs) && pairs[j].tid in Tids(pairs);
    }
    MatchOfDomain(pairs, detections);
    MatchOfDomain(u, detections);
    if id in Tids(pairs) {
      var i :| 0 <= i < |pairs| && pairs[i].tid == id;
      assert u[i] in u && pairs[i] in pairs;
      TrackFrames.MatchOfAt(pairs, detections, pairs[i]);
      TrackFrames.MatchOfAt(u, detections, u[i]);
    }
    if r[id] in Tids(u) {
      var i :| 0 <= i < |u| && u[i].tid == r[id];
      assert pairs[i] in pairs && pairs[i].tid in Tids(pairs);
    }
  }

  lemma {:induction false} AdvanceRenamed(r: Renaming, s: seq<Track>, m: map<int, Detection>, missed: set<int>,
        m': map<int, Detection>, missed': set<int>, maxMissed: int)
    requires Ids(s) <= r.Keys
    requires forall id :: id in Ids(s) ==> (id in m <==> r[id] in m') && (id in m ==> m[id] == m'[r[id]])
    requires forall id :: id in Ids(s) ==> (id in missed <==> r[id] in missed')
    ensures Advance(Rename(r, s), m', missed', maxMissed) == Rename(r, Advance(s, m, missed, maxMissed))
  {
    if s != [] {
      var n := |s| - 1;
      assert s == s[..n] + [s[n]];
      IdsSnoc(s[..n], s[n]);
      assert s[n].id in Ids(s);
      AdvanceRenamed(r, s[..n], m, missed, m', missed', maxMissed);
      AdvanceSnoc(Rename(r, s[..n]), RenameTrack(r, s[n]), m', missed', maxMissed);
      NextRenamed(r, s[n], m, missed, m', missed', maxMissed);
      var next := Next(s[n], m, missed, maxMissed);
      if next.Kept? {
        RenameSnoc(r, Advance(s[..n], m, missed, maxMissed), next.track);
      }
    }
  }

  lemma NextRenamed(r: Renaming, t: Track, m: map<int, Detection>, missed: set<int>, m': map<int, Detection>, missed': set<int>, maxMissed: int)
    requires t.id in r
    requires (t.id in m <==> r[t.id] in m') && (t.id in m ==> m[t.id] == m'[r[t.id]])
    requires t.id in missed <==> r[t.id] in missed'
    ensures Next(RenameTrack(r, t), m', missed', maxMissed)
         == match Next(t, m, missed, maxMissed) case Dropped => Dropped case Kept(u) => Kept(RenameTrack(r, u))
  {
  }

  lemma {:induction false} IdsRenamed(r: Renaming, s: seq<Track>, id: int)
    requires Injective(r) && Ids(s) <= r.Keys && id in r
    ensures id in Ids(s) <==> r[id] in Ids(Rename(r, s))
  {
    RenameAt(r, s);
    var u := Rename(r, s);
    if id in Ids(s) {
      var i :| 0 <= i < |s| && s[i].id == id;
      assert u[i] in u;
    }
    if r[id] in Ids(u) {
      var i :| 0 <= i < |u| && u[i].id == r[id];
      assert s[i] in s && s[i].id in Ids(s);
    }
  }

  lemma {:induction false} ClassTracksRenamed(p: Params, r: Renaming, mine: seq<Track>, detections: seq<Detection>)
    requires Injective(r) && Ids(mine) <= r.Keys
    ensures var mine' := Rename(r, mine);
      ClassTracks(p, mine', mine', detections) == Rename(r, ClassTracks(p, mine, mine, detections))
  {
    var mine' := Rename(r, mine);
    var pairs := Chosen(mine, detections, p.threshold);
    ChosenRenamed(r, mine, detections, p.threshold);
    var m, m' := ClassMatch(p, mine, detections), ClassMatch(p, mine', detections);
    forall id | id in Ids(mine)
      ensures (id in m <==> r[id] in m') && (id in m ==> m[id] == m'[r[id]]) && r[id] in Ids(mine')
    {
      MatchOfRenamed(r, pairs, detections, id);
      IdsRenamed(r, mine, id);
    }
    AdvanceRenamed(r, mine, m, Ids(mine) - m.Keys, m', Ids(mine') - m'.Keys, p.maxMissed);
  }

  /** r sends the births numbered from id to those numbered from id'. */
  ghost predicate Shifts(r: Renaming, id: int, id': int, count: nat) {
    forall k :: id <= k < id + count ==> k in r && r[k] == id' + (k - id)
  }

  lemma {:induction false} BirthsRenamed(r: Renaming, detections: seq<Detection>, c: string, taken: set<nat>, id: int, id': int)
    requires Shifts(r, id, id', |Births(detections, c, taken, id)|)
    ensures Births(detections, c, taken, id') == Rename(r, Births(detections, c, taken, id))
  {
    if detections != [] {
      var n := |detections| - 1;
      var before := Births(detections[..n], c, taken, id);
      BirthsRenamed(r, detections[..n], c, taken, id, id');
      if n !in taken {
        RenameAt(r, before);
        assert id <= id + |before| < id + |Births(detections, c, taken, id)|;
        RenameSnoc(r, before, NewTrack(detections[n], c, id + |before|));
      }
    }
  }

  lemma IndicesRenamed(r: Renaming, s: seq<Cand>)
    ensures Indices(RenameCands(r, s)) == Indices(s)
  {
    var u := RenameCands(r, s);
    forall k | k in Indices(s) ensures k in Indices(u) {
      var i :| 0 <= i < |s| && s[i].index == k;
      assert u[i] in u;
    }
    forall k | k in Indices(u) ensures k in Indices(s) {
      var i :| 0 <= i < |u| && u[i].index == k;
      assert s[i] in s;
    }
  }

  lemma {:induction false} ClassRenamed(p: Params, r: Renaming, mine: seq<Track>, c: string, detections: seq<Detection>, id: int, id': int)
    requires Injective(r) && Ascending(mine) && Ids(mine) <= r.Keys
    requires Shifts(r, id, id', |ClassBirths(p, mine, c, detections, id)|)
    ensures var mine' := Rename(r, mine);
      && TrackClasses.ClassNext(p, mine', c, detections, id') == Rename(r, TrackClasses.ClassNext(p, mine, c, detections, id))
      && ClassSightings(p, mine', c, detections, id') == Rename(r, ClassSightings(p, mine, c, detections, id))
  {
    var pairs := Chosen(mine, detections, p.threshold);
    var births := ClassBirths(p, mine, c, detections, id);
    ChosenRenamed(r, mine, detections, p.threshold);
    IndicesRenamed(r, pairs);
    BirthsRenamed(r, detections, c, Indices(pairs), id, id');
    ClassTracksRenamed(p, r, mine, detections);
    FitsRenamed(r, mine, pairs, detections);
    MatchedRenamed(r, mine, pairs, detections);
    RenameConcat(r, ClassTracks(p, mine, mine, detections), births);
    RenameConcat(r, Matched(mine, pairs, detections), births);
  }
}
