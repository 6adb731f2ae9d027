/** How good the greedy assignment of one class is, in terms of boxes. */
module TrackMatching {
  import Boxes
  import opened Matching
  import opened Tracking

  /** A pairing of tracks with detections that overlap at least by the threshold. */
  ghost predicate Admissible(m: seq<Cand>, tracks: seq<Track>, detections: seq<Detection>, threshold: real) {
    && OneToOne(m)
    && forall c :: c in m ==> Overlaps(c, tracks, detections) && c.score >= threshold
  }

  ghost predicate Overlaps(c: Cand, tracks: seq<Track>, detections: seq<Detection>) {
    c.index < |detections| && exists t :: t in tracks && t.id == c.tid && c.score == Boxes.IoU(t.box, detections[c.index].box)
  }

  /** The accepted pairs are an admissible pairing. */
  lemma ChosenAdmissible(tracks: seq<Track>, detections: seq<Detection>, threshold: real)
    ensures Admissible(Chosen(tracks, detections, threshold), tracks, detections, threshold)
  {
    var cands := Candidates(tracks, detections);
    GreedySound(SortDesc(cands), threshold);
    forall c | c in Chosen(tracks, detections, threshold) ensures Overlaps(c, tracks, detections) && c.score >= threshold {
      SortMembers(cands, c);
      CandidatesMember(tracks, detections, c);
    }
  }

  /** No blocking pair: a track and a detection that overlap enough are not both left with less. */
  lemma ChosenStable(tracks: seq<Track>, detections: seq<Detection>, threshold: real, t: Track, i: nat) returns (e: Cand)
    requires t in tracks && i < |detections| && Boxes.IoU(t.box, detections[i].box) >= threshold
    ensures e in Chosen(tracks, detections, threshold)
    ensures (e.tid == t.id || e.index == i) && e.score >= Boxes.IoU(t.box, detections[i].box)
  {
    var c := Cand(Boxes.IoU(t.box, detections[i].box), t.id, i);
    var cands := Candidates(tracks, detections);
    CandidatesMember(tracks, detections, c);
    SortMembers(cands, c);
    SortDescending(cands);
    e := GreedyStable(SortDesc(cands), threshold, c);
  }

  /** The accepted pairs reach at least half the total overlap of every admissible pairing. */
  lemma {:induction false} ChosenHalfOptimal(tracks: seq<Track>, detections: seq<Detection>, threshold: real, m: seq<Cand>)
    requires Admissible(m, tracks, detections, threshold)
    ensures Total(m) <= 2.0 * Total(Chosen(tracks, detections, threshold))
  {
    var cands := Candidates(tracks, detections);
    SortDescending(cands);
    forall c | c in SortDesc(cands) ensures 0.0 <= c.score {
      SortMembers(cands, c);
      CandidatesMember(tracks, detections, c);
      var t :| t in tracks && c.score == Boxes.IoU(t.box, detections[c.index].box);
      Boxes.IoURange(t.box, detections[c.index].box);
    }
    forall c | c in m ensures c in SortDesc(cands) && c.score >= threshold {
      assert Overlaps(c, tracks, detections);
      CandidatesMember(tracks, detections, c);
      SortMembers(cands, c);
    }
    GreedyHalfOptimal(SortDesc(cands), threshold, m);
  }
}
