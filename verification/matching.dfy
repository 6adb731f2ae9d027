/** Greedy assignment of detections to tracks: candidate pairs are taken in descending overlap
    order, skipping pairs whose track or detection is already taken. */
module Matching {

  /** A candidate pair: its overlap ratio, the track id and the position of the detection. */
  datatype Cand = Cand(score: real, tid: int, index: nat)

  // ----- the stable descending sort -----

  function Insert(x: Cand, s: seq<Cand>): (r: seq<Cand>)
    ensures multiset(r) == multiset{x} + multiset(s)
  {
    if s == [] then [x]
    else if x.score >= s[0].score then [x] + s
    else
      assert s == [s[0]] + s[1..];
      [s[0]] + Insert(x, s[1..])
  }

  /** `sorted(..., key=score, reverse=True)`: descending, equal scores keep their order. */
  function SortDesc(s: seq<Cand>): (r: seq<Cand>)
    ensures multiset(r) == multiset(s)
  {
    if s == [] then []
    else
      assert s == [s[0]] + s[1..];
      Insert(s[0], SortDesc(s[1..]))
  }

  ghost predicate Descending(s: seq<Cand>) {
    forall i, j :: 0 <= i < j < |s| ==> s[i].score >= s[j].score
  }

  lemma {:induction false} InsertDescending(x: Cand, s: seq<Cand>)
    requires Descending(s)
    ensures Descending(Insert(x, s))
  {
    if s != [] && x.score < s[0].score {
      InsertDescending(x, s[1..]);
      var r := Insert(x, s[1..]);
      forall c | c in r ensures c.score <= s[0].score {
        assert c in multiset(r);
        assert c == x || c in s[1..];
      }
    }
  }

  lemma {:induction false} SortDescending(s: seq<Cand>)
    ensures Descending(SortDesc(s))
  {
    if s != [] {
      SortDescending(s[1..]);
      InsertDescending(s[0], SortDesc(s[1..]));
    }
  }

  lemma {:induction false} SortMembers(s: seq<Cand>, c: Cand)
    ensures c in SortDesc(s) <==> c in s
  {
    assert c in SortDesc(s) <==> c in multiset(SortDesc(s));
    assert c in s <==> c in multiset(s);
  }

  /** The candidates with a given score, in order. */
  function WithScore(s: seq<Cand>, score: real): seq<Cand> {
    if s == [] then []
    else if s[0].score == score then [s[0]] + WithScore(s[1..], score)
    else WithScore(s[1..], score)
  }

  lemma {:induction false} InsertStable(x: Cand, s: seq<Cand>, score: real)
    ensures WithScore(Insert(x, s), score) == WithScore([x] + s, score)
  {
    assert ([x] + s)[1..] == s;
    if s != [] && x.score < s[0].score {
      InsertStable(x, s[1..], score);
      assert ([x] + s[1..])[1..] == s[1..];
    }
  }

  /** The sort is stable. */
  lemma {:induction false} SortStable(s: seq<Cand>, score: real)
    ensures WithScore(SortDesc(s), score) == WithScore(s, score)
  {
    if s != [] {
      SortStable(s[1..], score);
      InsertStable(s[0], SortDesc(s[1..]), score);
      assert ([s[0]] + SortDesc(s[1..]))[1..] == SortDesc(s[1..]);
    }
  }

  // ----- the greedy pass -----

  function Tids(s: seq<Cand>): set<int> { set c | c in s :: c.tid }

  function Indices(s: seq<Cand>): set<nat> { set c | c in s :: c.index }

  lemma Snoc(s: seq<Cand>, c: Cand)
    ensures (s + [c])[..|s|] == s
    ensures Tids(s + [c]) == Tids(s) + {c.tid}
    ensures Indices(s + [c]) == Indices(s) + {c.index}
  {
    assert forall d :: d in s + [c] <==> d in s || d == c;
  }

  predicate Skips(c: Cand, chosen: seq<Cand>, threshold: real) {
    c.score < threshold || c.tid in Tids(chosen) || c.index in Indices(chosen)
  }

  /** The pairs accepted when the pass has gone through all of `cands`, in order of acceptance. */
  function Greedy(cands: seq<Cand>, threshold: real): seq<Cand> {
    if cands == [] then []
    else
      var before := Greedy(cands[..|cands| - 1], threshold);
      var c := cands[|cands| - 1];
      if Skips(c, before, threshold) then before else before + [c]
  }

  ghost predicate OneToOne(m: seq<Cand>) {
    forall i, j :: 0 <= i < j < |m| ==> m[i].tid != m[j].tid && m[i].index != m[j].index
  }

  lemma OneToOneSnoc(m: seq<Cand>, c: Cand)
    ensures OneToOne(m + [c]) <==> OneToOne(m) && c.tid !in Tids(m) && c.index !in Indices(m)
  {
    var r := m + [c];
    if OneToOne(r) {
      assert forall i :: 0 <= i < |m| ==> m[i] == r[i] && r[i].tid != r[|m|].tid && r[i].index != r[|m|].index;
    }
    if OneToOne(m) && c.tid !in Tids(m) && c.index !in Indices(m) {
      forall i, j | 0 <= i < j < |r| ensures r[i].tid != r[j].tid && r[i].index != r[j].index {
        assert r[i] == m[i] && m[i] in m;
      }
    }
  }

  predicate Touches(c: Cand, d: Cand) {
    c.tid == d.tid || c.index == d.index
  }

  lemma {:induction false} GreedySound(cands: seq<Cand>, threshold: real)
    ensures OneToOne(Greedy(cands, threshold))
    ensures forall c :: c in Greedy(cands, threshold) ==> c in cands && c.score >= threshold
  {
    if cands != [] {
      var before := Greedy(cands[..|cands| - 1], threshold);
      GreedySound(cands[..|cands| - 1], threshold);
      OneToOneSnoc(before, cands[|cands| - 1]);
    }
  }

  /** No blocking pair: every admissible pair shares a track or a detection with an accepted pair
      that overlaps at least as well (itself, when it was accepted). */
  lemma {:induction false} GreedyStable(cands: seq<Cand>, threshold: real, c: Cand) returns (d: Cand)
    requires Descending(cands) && c in cands && c.score >= threshold
    ensures d in Greedy(cands, threshold) && Touches(c, d) && d.score >= c.score
  {
    var n := |cands| - 1;
    var before := Greedy(cands[..n], threshold);
    if c in cands[..n] {
      d := GreedyStable(cands[..n], threshold, c);
    } else {
      assert c == cands[n];
      if Skips(c, before, threshold) {
        GreedySound(cands[..n], threshold);
        if c.tid in Tids(before) {
          d :| d in before && d.tid == c.tid;
        } else {
          d :| d in before && d.index == c.index;
        }
        assert d in cands[..n];
      } else {
        d := c;
      }
    }
  }

  // ----- half of the best possible total overlap -----

  function Total(m: seq<Cand>): real {
    if m == [] then 0.0 else Total(m[..|m| - 1]) + m[|m| - 1].score
  }

  /** The pairs of m that share neither a track nor a detection with c. */
  function Without(m: seq<Cand>, c: Cand): seq<Cand> {
    if m == [] then []
    else
      var l := m[|m| - 1];
      if Touches(l, c) then Without(m[..|m| - 1], c) else Without(m[..|m| - 1], c) + [l]
  }

  lemma {:induction false} WithoutOneToOne(m: seq<Cand>, c: Cand)
    requires OneToOne(m)
    ensures OneToOne(Without(m, c))
    ensures forall d :: d in Without(m, c) <==> d in m && !Touches(d, c)
  {
    if m != [] {
      var k := |m| - 1;
      assert m == m[..k] + [m[k]];
      OneToOneSnoc(m[..k], m[k]);
      WithoutOneToOne(m[..k], c);
      OneToOneSnoc(Without(m[..k], c), m[k]);
    }
  }

  /** Removing what touches one pair costs at most two of that pair's score. */
  lemma {:induction false} WithoutTotal(m: seq<Cand>, c: Cand)
    requires OneToOne(m)
    requires forall d :: d in m ==> 0.0 <= d.score
    requires 0.0 <= c.score && forall d :: d in m && Touches(d, c) ==> d.score <= c.score
    ensures Total(m) <= Total(Without(m, c))
                        + (if c.tid in Tids(m) then c.score else 0.0)
                        + (if c.index in Indices(m) then c.score else 0.0)
  {
    if m != [] {
      var k := |m| - 1;
      var l := m[k];
      assert m == m[..k] + [l];
      Snoc(m[..k], l);
      OneToOneSnoc(m[..k], l);
      WithoutTotal(m[..k], c);
      assert l in m;
      var rest := Without(m[..k], c);
      assert (rest + [l])[..|rest|] == rest;
    }
  }

  /** What the accepted pairs leave of a rival matching. */
  function Uncovered(m: seq<Cand>, chosen: seq<Cand>): seq<Cand> {
    if chosen == [] then m else Without(Uncovered(m, chosen[..|chosen| - 1]), chosen[|chosen| - 1])
  }

  lemma {:induction false} UncoveredMembers(m: seq<Cand>, chosen: seq<Cand>)
    requires OneToOne(m)
    ensures OneToOne(Uncovered(m, chosen))
    ensures forall c :: c in Uncovered(m, chosen) <==>
      c in m && c.tid !in Tids(chosen) && c.index !in Indices(chosen)
  {
    if chosen != [] {
      var k := |chosen| - 1;
      UncoveredMembers(m, chosen[..k]);
      WithoutOneToOne(Uncovered(m, chosen[..k]), chosen[k]);
      assert chosen == chosen[..k] + [chosen[k]];
      Snoc(chosen[..k], chosen[k]);
    }
  }

  /** The accounting behind the bound, kept along the pass. */
  lemma {:induction false} GreedyCharges(cands: seq<Cand>, threshold: real, m: seq<Cand>)
    requires Descending(cands) && OneToOne(m)
    requires forall c :: c in cands ==> 0.0 <= c.score
    requires forall c :: c in m ==> 0.0 <= c.score
    requires forall i, c :: 0 <= i < |cands| && c in m && c !in cands[..i] && c.score >= threshold ==> c.score <= cands[i].score
    requires forall c :: c in m ==> c.score >= threshold
    ensures Total(m) <= Total(Uncovered(m, Greedy(cands, threshold))) + 2.0 * Total(Greedy(cands, threshold))
  {
    if cands != [] {
      var n := |cands| - 1;
      var prefix := cands[..n];
      assert forall i :: 0 <= i < n ==> prefix[..i] == cands[..i];
      GreedyCharges(prefix, threshold, m);
      var before := Greedy(prefix, threshold);
      var c := cands[n];
      if !Skips(c, before, threshold) {
        var rest := Uncovered(m, before);
        UncoveredMembers(m, before);
        forall d | d in rest ensures d.score <= c.score {
          if d in prefix {
            var e := GreedyStable(prefix, threshold, d);
            assert false;
          }
          assert d in m && d !in cands[..n];
        }
        WithoutTotal(rest, c);
        Snoc(before, c);
      }
    }
  }

  lemma PrefixMember(s: seq<Cand>, i: nat, j: nat)
    requires i <= |s| && j < |s|
    ensures j < i ==> s[j] in s[..i]
  {
    if j < i { assert s[..i][j] == s[j]; }
  }

  /** The accepted pairs reach at least half the total score of any admissible one-to-one choice. */
  lemma {:induction false} GreedyHalfOptimal(cands: seq<Cand>, threshold: real, m: seq<Cand>)
    requires Descending(cands) && OneToOne(m)
    requires forall c :: c in cands ==> 0.0 <= c.score
    requires forall c :: c in m ==> c in cands && c.score >= threshold
    ensures Total(m) <= 2.0 * Total(Greedy(cands, threshold))
  {
    forall i, c | 0 <= i < |cands| && c in m && c !in cands[..i] && c.score >= threshold
      ensures c.score <= cands[i].score
    {
      var j :| 0 <= j < |cands| && cands[j] == c;
      PrefixMember(cands, i, j);
    }
    GreedyCharges(cands, threshold, m);
    UncoveredMembers(m, Greedy(cands, threshold));
    var rest := Uncovered(m, Greedy(cands, threshold));
    if rest != [] {
      var c := rest[0];
      var d := GreedyStable(cands, threshold, c);
      assert false;
    }
  }
}
