/** Two runs over the same detections that differ only in the order in which each frame visits its
    classes: the second is the first with renamed tracks. */
module TrackOrderRuns {
  import Matching
  import opened Tracking
  import opened TrackClasses
  import TrackFrames
  import opened TrackHistory
  import opened TrackOrder

  /** Corresponding states: class by class, the tracks of st' are the renamed tracks of st. */
  ghost predicate Related(r: Renaming, st: State, st': State) {
    && Numbered(st) && Numbered(st') && Injective(r)
    && (forall i :: i in r ==> 1 <= i < st.nextId && 1 <= r[i] < st'.nextId)
    && Ids(st.tracks) <= r.Keys
    && forall c :: OfClass(st'.tracks, c) == Rename(r, OfClass(st.tracks, c))
  }

  /** Two corresponding frames. */
  datatype Twin = Twin(p: Params, r: Renaming, st: State, st': State, detections: seq<Detection>, order: seq<string>, order': seq<string>)
  {
    ghost predicate Valid() {
      && Related(r, st, st')
      && Enumerates(order, Classes(st, detections)) && Enumerates(order', Classes(st', detections))
    }

    function Mine(c: string): seq<Track> { OfClass(st.tracks, c) }

    function Seen(c: string): seq<Detection> { ByClass(detections, c) }

    function First(c: string): int { StartId(p, st, detections, order, c) }

    function First'(c: string): int { StartId(p, st', detections, order', c) }

    function Born(c: string): nat { |ClassBirths(p, Mine(c), c, Seen(c), 0)| }

    function Left(): Pass { Frame(p, st, detections, order) }

    function Right(): Pass { Frame(p, st', detections, order') }
  }

  // ----- the numbers of new tracks -----

  lemma {:induction false} BirthsCount(detections: seq<Detection>, c: string, taken: set<nat>, id: int, id': int)
    ensures |Births(detections, c, taken, id)| == |Births(detections, c, taken, id')|
  {
    if detections != [] { BirthsCount(detections[..|detections| - 1], c, taken, id, id'); }
  }

  function BornIn(p: Params, st: State, detections: seq<Detection>, c: string): nat {
    |ClassBirths(p, OfClass(st.tracks, c), c, ByClass(detections, c), 0)|
  }

  /** The block of numbers a class uses lies between its turn and the end of the frame. */
  lemma {:induction false} BlockEnd(p: Params, st: State, detections: seq<Detection>, order: seq<string>, c: string)
    requires Numbered(st) && Distinct(order) && c in order
    ensures st.nextId <= StartId(p, st, detections, order, c)
    ensures StartId(p, st, detections, order, c) + BornIn(p, st, detections, c) <= Frame(p, st, detections, order).st.nextId
  {
    hide Frame, Births, OfClass, ByClass;
    var n := |order| - 1;
    FrameByClass(p, st, detections, order, c);
    if order[n] == c {
      BlockEndLast(p, st, detections, order);
    } else {
      BlockEnd(p, st, detections, order[..n], c);
      TrackFrames.CounterGrows(p, st, detections, order);
    }
  }

  lemma {:induction false} BlockEndLast(p: Params, st: State, detections: seq<Detection>, order: seq<string>)
    requires Numbered(st) && Distinct(order) && order != []
    ensures var c := order[|order| - 1];
      StartId(p, st, detections, order, c) + BornIn(p, st, detections, c) == Frame(p, st, detections, order).st.nextId
  {
    hide Births, OfClass, ByClass, Chosen;
    var n := |order| - 1;
    var c := order[n];
    var at := Frame(p, st, detections, order[..n]);
    FrameByClass(p, st, detections, order[..n], c);
    assert c !in order[..n];
    BirthsCount(ByClass(detections, c), c, Matching.Indices(Chosen(OfClass(st.tracks, c), ByClass(detections, c), p.threshold)), 0, at.st.nextId);
  }

  lemma {:induction false} BlocksApart(p: Params, st: State, detections: seq<Detection>, order: seq<string>, c: string, d: string)
    requires Numbered(st) && Distinct(order) && c in order && d in order && c != d
    ensures var a, b := StartId(p, st, detections, order, c), StartId(p, st, detections, order, d);
      a + BornIn(p, st, detections, c) <= b || b + BornIn(p, st, detections, d) <= a
  {
    hide Frame, BornIn;
    var n := |order| - 1;
    if order[n] == c {
      BlockEnd(p, st, detections, order[..n], d);
    } else if order[n] == d {
      BlockEnd(p, st, detections, order[..n], c);
    } else {
      BlocksApart(p, st, detections, order[..n], c, d);
    }
  }

  lemma BornSame(x: Twin, c: string)
    requires x.Valid()
    ensures BornIn(x.p, x.st, x.detections, c) == BornIn(x.p, x.st', x.detections, c) == x.Born(c)
  {
    var mine := x.Mine(c);
    MineIds(x.st, c);
    ChosenRenamed(x.r, mine, x.Seen(c), x.p.threshold);
    IndicesRenamed(x.r, Chosen(mine, x.Seen(c), x.p.threshold));
  }

  lemma {:induction false} MineIds(st: State, c: string)
    ensures Ids(OfClass(st.tracks, c)) <= Ids(st.tracks)
  {
    MineOfClass(st.tracks, c);
  }

  lemma SameClasses(r: Renaming, st: State, st': State, detections: seq<Detection>)
    requires Related(r, st, st')
    ensures Classes(st, detections) == Classes(st', detections)
  {
    forall c ensures c in Keys(st.tracks) <==> c in Keys(st'.tracks) {
      RenameAt(r, OfClass(st.tracks, c));
      ClassPresent(st.tracks, c);
      ClassPresent(st'.tracks, c);
    }
  }

  lemma {:induction false} ClassPresent(s: seq<Track>, c: string)
    ensures c in Keys(s) <==> OfClass(s, c) != []
  {
    if OfClass(s, c) != [] {
      OfClassMember(s, c, OfClass(s, c)[0]);
    }
    if t :| t in s && t.key == c {
      OfClassMember(s, c, t);
    }
  }

  // ----- extending the renaming over one frame -----

  predicate InRange(i: int, id: int, count: nat) { id <= i < id + count }

  function Block(id: int, id': int, count: nat): Renaming {
    map i | id <= i < id + count && InRange(i, id, count) :: id' + (i - id)
  }

  function Grow(x: Twin, done: seq<string>): Renaming {
    if done == [] then x.r
    else
      var c := done[|done| - 1];
      Grow(x, done[..|done| - 1]) + Block(x.First(c), x.First'(c), x.Born(c))
  }

  ghost predicate InBlock(x: Twin, c: string, i: int, j: int) {
    x.First(c) <= i < x.First(c) + x.Born(c) && j == x.First'(c) + (i - x.First(c))
  }

  /** Every pair of the grown renaming is old or lies in the block of a class already handled. */
  ghost predicate Grown(x: Twin, done: seq<string>, r: Renaming) {
    && Extends(r, x.r)
    && (forall i :: i in r ==> i in x.r || exists c :: c in done && InBlock(x, c, i, r[i]))
    && (forall c, i :: c in done && x.First(c) <= i < x.First(c) + x.Born(c) ==> i in r && InBlock(x, c, i, r[i]))
  }

  lemma {:induction false} GrowGrown(x: Twin, done: seq<string>)
    requires x.Valid() && Distinct(done) && forall c :: c in done ==> c in x.order
    ensures Grown(x, done, Grow(x, done))
  {
    if done != [] {
      var n := |done| - 1;
      var c := done[n];
      var before := Grow(x, done[..n]);
      GrowGrown(x, done[..n]);
      forall i | i in before ensures !(x.First(c) <= i < x.First(c) + x.Born(c)) {
        BlockFresh(x, c);
        if i !in x.r {
          var d :| d in done[..n] && InBlock(x, d, i, before[i]);
          assert c != d;
          BlocksFresh(x, c, d);
        }
      }
      GrowStep(x, done, before);
    }
  }

  lemma GrowStep(x: Twin, done: seq<string>, before: Renaming)
    requires done != [] && Grown(x, done[..|done| - 1], before)
    requires var c := done[|done| - 1]; forall i :: i in before ==> !(x.First(c) <= i < x.First(c) + x.Born(c))
    ensures var c := done[|done| - 1]; Grown(x, done, before + Block(x.First(c), x.First'(c), x.Born(c)))
  {
    hide StartId, ClassBirths, OfClass, ByClass;
    var n := |done| - 1;
    var c := done[n];
    var after := before + Block(x.First(c), x.First'(c), x.Born(c));
    assert forall d :: d in done <==> d in done[..n] || d == c;
    forall i | i in after ensures i in x.r || exists d :: d in done && InBlock(x, d, i, after[i]) {
      if i in before {
        if i !in x.r {
          var d :| d in done[..n] && InBlock(x, d, i, before[i]);
          assert d in done && InBlock(x, d, i, after[i]);
        }
      } else {
        assert c in done && InBlock(x, c, i, after[i]);
      }
    }
    forall d, i | d in done && x.First(d) <= i < x.First(d) + x.Born(d) ensures i in after && InBlock(x, d, i, after[i]) {
      if d in done[..n] {
        assert i in before && InBlock(x, d, i, before[i]);
      }
    }
  }

  lemma BlockFresh(x: Twin, c: string)
    requires x.Valid() && c in x.order
    ensures x.st.nextId <= x.First(c) && x.First(c) + x.Born(c) <= x.Left().st.nextId
    ensures x.st'.nextId <= x.First'(c) && x.First'(c) + x.Born(c) <= x.Right().st.nextId
    ensures c in x.order'
  {
    SameClasses(x.r, x.st, x.st', x.detections);
    BornSame(x, c);
    BlockEnd(x.p, x.st, x.detections, x.order, c);
    BlockEnd(x.p, x.st', x.detections, x.order', c);
  }

  lemma BlocksFresh(x: Twin, c: string, d: string)
    requires x.Valid() && c in x.order && d in x.order && c != d
    ensures x.First(c) + x.Born(c) <= x.First(d) || x.First(d) + x.Born(d) <= x.First(c)
    ensures x.First'(c) + x.Born(c) <= x.First'(d) || x.First'(d) + x.Born(d) <= x.First'(c)
  {
    BlockFresh(x, c);
    BlockFresh(x, d);
    BornSame(x, c);
    BornSame(x, d);
    BlocksApart(x.p, x.st, x.detections, x.order, c, d);
    BlocksApart(x.p, x.st', x.detections, x.order', c, d);
  }

  lemma GrownInjective(x: Twin, r: Renaming)
    requires x.Valid() && Grown(x, x.order, r)
    ensures Injective(r)
  {
    forall i, j | i in r && j in r && r[i] == r[j] ensures i == j {
      if i !in x.r {
        var c :| c in x.order && InBlock(x, c, i, r[i]);
        BlockFresh(x, c);
        if j !in x.r {
          var d :| d in x.order && InBlock(x, d, j, r[j]);
          if c != d { BlocksFresh(x, c, d); }
        }
      } else if j !in x.r {
        var d :| d in x.order && InBlock(x, d, j, r[j]);
        BlockFresh(x, d);
      }
    }
  }

  lemma GrownRange(x: Twin, r: Renaming, i: int)
    requires x.Valid() && Grown(x, x.order, r) && i in r
    ensures 1 <= i < x.Left().st.nextId && 1 <= r[i] < x.Right().st.nextId
  {
    if i in x.r {
      FrameByClass(x.p, x.st, x.detections, x.order, "");
      FrameByClass(x.p, x.st', x.detections, x.order', "");
    } else {
      var c :| c in x.order && InBlock(x, c, i, r[i]);
      BlockFresh(x, c);
    }
  }

  /** The renamed class lists. */
  lemma {:induction false} FrameClassRenamed(x: Twin, r: Renaming, c: string)
    requires x.Valid() && Grown(x, x.order, r)
    ensures OfClass(x.Right().st.tracks, c) == Rename(r, OfClass(x.Left().st.tracks, c))
    ensures OfClass(x.Right().sightings, c) == Rename(r, OfClass(x.Left().sightings, c))
  {
    hide Frame, Rename, StartId;
    FrameByClass(x.p, x.st, x.detections, x.order, c);
    FrameByClass(x.p, x.st', x.detections, x.order', c);
    SameClasses(x.r, x.st, x.st', x.detections);
    MineIds(x.st, c);
    RenameExtended(x.r, r, x.Mine(c));
    GrownInjective(x, r);
    if c in x.order {
      OfClassAscending(x.st.tracks, c);
      BlockShifts(x, r, c);
      ClassRenamed(x.p, r, x.Mine(c), c, x.Seen(c), x.First(c), x.First'(c));
    } else {
      assert Rename(r, []) == [] by { RenameAt(r, []); }
    }
  }

  lemma BlockShifts(x: Twin, r: Renaming, c: string)
    requires x.Valid() && Grown(x, x.order, r) && c in x.order
    ensures Shifts(r, x.First(c), x.First'(c), |ClassBirths(x.p, x.Mine(c), c, x.Seen(c), x.First(c))|)
  {
    hide Frame, StartId, Births, Chosen, Related, Enumerates;
    BirthsCount(x.Seen(c), c, Matching.Indices(Chosen(x.Mine(c), x.Seen(c), x.p.threshold)), 0, x.First(c));
  }

  /** Ids in use after the frame are old ones of the class or lie in its block. */
  lemma ClassIds(p: Params, mine: seq<Track>, c: string, detections: seq<Detection>, id: int, i: int)
    requires i in Ids(ClassNext(p, mine, c, detections, id)) || i in Ids(ClassSightings(p, mine, c, detections, id))
    ensures i in Ids(mine) || id <= i < id + |ClassBirths(p, mine, c, detections, id)|
  {
    var pairs := Chosen(mine, detections, p.threshold);
    var m := ClassMatch(p, mine, detections);
    var births := ClassBirths(p, mine, c, detections, id);
    AdvanceIds(mine, m, Ids(mine) - m.Keys, p.maxMissed);
    BirthIds(detections, c, Matching.Indices(pairs), id);
    TrackFrames.MatchedIds(mine, pairs, detections);
    IdsConcat(ClassTracks(p, mine, mine, detections), births);
    IdsConcat(Matched(mine, pairs, detections), births);
  }

  lemma FrameIds(x: Twin, t: Track)
    requires x.Valid() && (t in x.Left().st.tracks || t in x.Left().sightings)
    ensures (exists u :: u in x.st.tracks && u.id == t.id && u.key == t.key)
         || (t.key in x.order && x.First(t.key) <= t.id < x.First(t.key) + x.Born(t.key))
  {
    var c := t.key;
    FrameByClass(x.p, x.st, x.detections, x.order, c);
    OfClassMember(x.Left().st.tracks, c, t);
    OfClassMember(x.Left().sightings, c, t);
    MineOfClass(x.st.tracks, c);
    if c in x.order {
      assert t in ClassNext(x.p, x.Mine(c), c, x.Seen(c), x.First(c)) || t in ClassSightings(x.p, x.Mine(c), c, x.Seen(c), x.First(c));
      assert t.id in Ids(ClassNext(x.p, x.Mine(c), c, x.Seen(c), x.First(c)))
          || t.id in Ids(ClassSightings(x.p, x.Mine(c), c, x.Seen(c), x.First(c)));
      ClassIds(x.p, x.Mine(c), c, x.Seen(c), x.First(c), t.id);
      BirthsCount(x.Seen(c), c, Matching.Indices(Chosen(x.Mine(c), x.Seen(c), x.p.threshold)), 0, x.First(c));
      if t.id in Ids(x.Mine(c)) {
        var u :| u in x.Mine(c) && u.id == t.id;
        assert u in x.st.tracks && u.key == c;
      }
    } else {
      assert t in x.Mine(c);
    }
  }

  lemma FrameIdsCovered(x: Twin, r: Renaming, t: Track)
    requires x.Valid() && Grown(x, x.order, r) && (t in x.Left().st.tracks || t in x.Left().sightings)
    ensures t.id in r
  {
    hide Frame, StartId, Births, Chosen;
    FrameIds(x, t);
    if u :| u in x.st.tracks && u.id == t.id && u.key == t.key {
      assert u.id in Ids(x.st.tracks);
    }
  }

  lemma RelatedStep(x: Twin, r: Renaming)
    requires x.Valid() && Grown(x, x.order, r)
    ensures Related(r, x.Left().st, x.Right().st)
    ensures Ids(x.Left().sightings) <= r.Keys
  {
    hide Frame, StartId, Rename;
    GrownInjective(x, r);
    FrameByClass(x.p, x.st, x.detections, x.order, "");
    FrameByClass(x.p, x.st', x.detections, x.order', "");
    forall i | i in r ensures 1 <= i < x.Left().st.nextId && 1 <= r[i] < x.Right().st.nextId {
      GrownRange(x, r, i);
    }
    forall i | i in Ids(x.Left().st.tracks) || i in Ids(x.Left().sightings) ensures i in r {
      var t :| (t in x.Left().st.tracks || t in x.Left().sightings) && t.id == i;
      FrameIdsCovered(x, r, t);
    }
    forall c ensures OfClass(x.Right().st.tracks, c) == Rename(r, OfClass(x.Left().st.tracks, c)) {
      FrameClassRenamed(x, r, c);
    }
  }

  // ----- whole runs -----

  /** Ids of one class keep their order. */
  ghost predicate Monotone(r: Renaming, log: Log) {
    forall f, g, s, q :: 0 <= f < |log| && 0 <= g < |log| && s in log[f] && q in log[g] && s.key == q.key && s.id < q.id
      ==> To(r, s.id) < To(r, q.id)
  }

  ghost predicate LogsRelated(r: Renaming, log: Log, log': Log) {
    && |log| == |log'|
    && (forall f :: 0 <= f < |log| ==> Ids(log[f]) <= r.Keys)
    && (forall f, c :: 0 <= f < |log| ==> OfClass(log'[f], c) == Rename(r, OfClass(log[f], c)))
  }

  /** s is a sighting of a track seen before the frame, or of a track born in it. */
  lemma SightingAge(x: Twin, log: Log, s: Track)
    requires x.Valid() && AllLive(x.p, x.st.tracks, log) && s in x.Left().sightings
    ensures Known(x, log, s) || New(x, s)
  {
    hide Frame, StartId, ClassBirths, Related, Enumerates;
    FrameIds(x, s);
    if u :| u in x.st.tracks && u.id == s.id && u.key == s.key {
      LiveRenamed(x, u);
      assert Live(x.p, log, u);
      assert SeenIn(log, |log| - 1 - u.misses, u.(misses := 0), s);
    }
  }

  lemma LiveRenamed(x: Twin, u: Track)
    requires x.Valid() && u in x.st.tracks
    ensures u.id in x.r
  {
    assert u.id in Ids(x.st.tracks);
  }

  ghost predicate SeenIn(log: Log, g: int, q: Track, s: Track) {
    0 <= g < |log| && q in log[g] && q.id == s.id && q.key == s.key
  }

  ghost predicate Known(x: Twin, log: Log, s: Track) {
    s.id in x.r && exists g, q :: SeenIn(log, g, q, s)
  }

  ghost predicate New(x: Twin, s: Track) {
    s.key in x.order && x.First(s.key) <= s.id < x.First(s.key) + x.Born(s.key)
  }

  lemma KnownValue(x: Twin, log: Log, r: Renaming, s: Track)
    requires x.Valid() && Grown(x, x.order, r) && Known(x, log, s)
    ensures To(r, s.id) == To(x.r, s.id) < x.st'.nextId && s.id < x.st.nextId
  {
  }

  lemma NewValue(x: Twin, r: Renaming, s: Track)
    requires x.Valid() && Grown(x, x.order, r) && New(x, s)
    ensures x.st.nextId <= s.id && x.st'.nextId <= To(r, s.id) == x.First'(s.key) + (s.id - x.First(s.key))
  {
    hide Frame, StartId, ClassBirths, OfClass, ByClass;
    BlockFresh(x, s.key);
  }

  lemma KnownOrder(r: Renaming, x: Twin, log: Log, s: Track, q: Track)
    requires Monotone(r, log) && Known(x, log, s) && Known(x, log, q)
    requires s.key == q.key && s.id < q.id
    ensures To(r, s.id) < To(r, q.id)
  {
    var g, s' :| SeenIn(log, g, s', s);
    var h, q' :| SeenIn(log, h, q', q);
    assert To(r, s'.id) < To(r, q'.id);
  }

  lemma OrderOfTwo(x: Twin, log: Log, r: Renaming, s: Track, q: Track)
    requires x.Valid() && Grown(x, x.order, r) && Monotone(x.r, log)
    requires (Known(x, log, s) || New(x, s)) && (Known(x, log, q) || New(x, q))
    requires s.key == q.key && s.id < q.id
    ensures To(r, s.id) < To(r, q.id)
  {
    hide Known, New, Grown, To, Monotone;
    if Known(x, log, s) { KnownValue(x, log, r, s); } else { NewValue(x, r, s); }
    if Known(x, log, q) { KnownValue(x, log, r, q); } else { NewValue(x, r, q); }
    if Known(x, log, s) && Known(x, log, q) {
      KnownOrder(x.r, x, log, s, q);
    }
  }

  lemma MonotoneStep(x: Twin, log: Log, r: Renaming)
    requires x.Valid() && Grown(x, x.order, r) && Monotone(x.r, log) && AllLive(x.p, x.st.tracks, log)
    requires forall f :: 0 <= f < |log| ==> Ids(log[f]) <= x.r.Keys
    ensures Monotone(r, log + [x.Left().sightings])
  {
    hide Frame, StartId, ClassBirths, OfClass, ByClass, AllLive, Related;
    var all := log + [x.Left().sightings];
    forall f, s: Track | 0 <= f < |all| && s in all[f] ensures Known(x, log, s) || New(x, s) {
      if f < |log| {
        assert SeenIn(log, f, s, s) && s.id in Ids(log[f]);
      } else {
        SightingAge(x, log, s);
      }
    }
    forall f, g, s: Track, q: Track | 0 <= f < |all| && 0 <= g < |all| && s in all[f] && q in all[g] && s.key == q.key && s.id < q.id
      ensures To(r, s.id) < To(r, q.id)
    {
      OrderOfTwo(x, log, r, s, q);
    }
  }

  lemma LogsStep(x: Twin, log: Log, log': Log, r: Renaming)
    requires x.Valid() && Grown(x, x.order, r) && LogsRelated(x.r, log, log')
    ensures LogsRelated(r, log + [x.Left().sightings], log' + [x.Right().sightings])
  {
    hide Frame, StartId, ClassBirths, ByClass;
    RelatedStep(x, r);
    var all, all' := log + [x.Left().sightings], log' + [x.Right().sightings];
    forall f, c | 0 <= f < |all| ensures OfClass(all'[f], c) == Rename(r, OfClass(all[f], c)) {
      if f < |log| {
        assert OfClass(log'[f], c) == Rename(x.r, OfClass(log[f], c));
        MineIds(State(log[f], 1), c);
        RenameExtended(x.r, r, OfClass(log[f], c));
      } else {
        FrameClassRenamed(x, r, c);
      }
    }
    forall f | 0 <= f < |all| ensures Ids(all[f]) <= r.Keys {
      if f < |log| {
        assert Ids(log[f]) <= x.r.Keys;
        assert forall i :: i in x.r ==> i in r;
      }
    }
  }

  ghost predicate SameDetections(steps: seq<Step>, steps': seq<Step>) {
    |steps| == |steps'| && forall n :: 0 <= n < |steps| ==> steps[n].detections == steps'[n].detections
  }

  /** Main result: two runs over the same detections, whatever the class orders, are related by one
      renaming of track ids, injective and order-preserving within each class. */
  lemma {:induction false} OrderIrrelevant(p: Params, steps: seq<Step>, steps': seq<Step>) returns (r: Renaming)
    requires SameDetections(steps, steps') && Orders(p, steps) && Orders(p, steps')
    ensures Related(r, Run(p, steps).st, Run(p, steps').st)
    ensures LogsRelated(r, Run(p, steps).log, Run(p, steps').log)
    ensures Monotone(r, Run(p, steps).log)
  {
    hide Frame, StartId, ClassBirths, ByClass;
    if steps == [] {
      r := map[];
      RunNone(p);
    } else {
      var n := |steps| - 1;
      OrdersPrefix(p, steps, n);
      OrdersPrefix(p, steps', n);
      var before := OrderIrrelevant(p, steps[..n], steps'[..n]);
      var left, right := Run(p, steps[..n]), Run(p, steps'[..n]);
      var x := Twin(p, before, left.st, right.st, steps[n].detections, steps[n].order, steps'[n].order);
      r := Grow(x, x.order);
      GrowGrown(x, x.order);
      RelatedStep(x, r);
      RunHistory(p, steps[..n]);
      MonotoneStep(x, left.log, r);
      LogsStep(x, left.log, right.log, r);
      RunLast(p, steps);
      RunLast(p, steps');
    }
  }

  lemma {:induction false} RunNone(p: Params)
    ensures Run(p, []) == Outcome(START, []) && Numbered(START) && forall c :: OfClass(START.tracks, c) == []
    ensures Rename(map[], []) == []
  {
  }

  lemma {:induction false} RunLast(p: Params, steps: seq<Step>)
    requires steps != []
    ensures var n := |steps| - 1;
      var before := Run(p, steps[..n]);
      var r := Frame(p, before.st, steps[n].detections, steps[n].order);
      Run(p, steps) == Outcome(r.st, before.log + [r.sightings])
  {
  }

  // ----- what the caller sees -----

  function RenameTracked(r: Renaming, t: Tracked): Tracked { t.(trackId := To(r, t.trackId)) }

  function RenameConfirmed(r: Renaming, s: seq<Tracked>): seq<Tracked> {
    if s == [] then [] else RenameConfirmed(r, s[..|s| - 1]) + [RenameTracked(r, s[|s| - 1])]
  }

  function TrackedOfClass(s: seq<Tracked>, c: string): seq<Tracked> {
    if s == [] then []
    else
      var n := |s| - 1;
      if s[n].key == c then TrackedOfClass(s[..n], c) + [s[n]] else TrackedOfClass(s[..n], c)
  }

  lemma {:induction false} ConfirmRenamed(r: Renaming, s: seq<Track>, minHits: int)
    ensures Confirm(Rename(r, s), minHits) == RenameConfirmed(r, Confirm(s, minHits))
  {
    if s != [] {
      var n := |s| - 1;
      ConfirmRenamed(r, s[..n], minHits);
      var before := Rename(r, s[..n]);
      assert (before + [RenameTrack(r, s[n])])[..|before|] == before;
      var confirmed := Confirm(s[..n], minHits);
      assert (confirmed + [ToTracked(s[n])])[..|confirmed|] == confirmed;
    }
  }

  lemma {:induction false} ConfirmOfClass(s: seq<Track>, c: string, minHits: int)
    ensures TrackedOfClass(Confirm(s, minHits), c) == Confirm(OfClass(s, c), minHits)
  {
    if s != [] {
      var n := |s| - 1;
      ConfirmOfClass(s[..n], c, minHits);
      var confirmed := Confirm(s[..n], minHits);
      assert (confirmed + [ToTracked(s[n])])[..|confirmed|] == confirmed;
      var mine := OfClass(s[..n], c);
      assert (mine + [s[n]])[..|mine|] == mine;
    }
  }

  lemma {:induction false} RenamedOfClass(r: Renaming, s: seq<Tracked>, c: string)
    ensures TrackedOfClass(RenameConfirmed(r, s), c) == RenameConfirmed(r, TrackedOfClass(s, c))
  {
    if s != [] {
      var n := |s| - 1;
      RenamedOfClass(r, s[..n], c);
      var before := RenameConfirmed(r, s[..n]);
      assert (before + [RenameTracked(r, s[n])])[..|before|] == before;
      var mine := TrackedOfClass(s[..n], c);
      assert (mine + [s[n]])[..|mine|] == mine;
    }
  }

  lemma {:induction false} CountOfClass(s: seq<Tracked>, t: Tracked)
    ensures multiset(TrackedOfClass(s, t.key))[t] == multiset(s)[t]
  {
    if s != [] {
      var n := |s| - 1;
      assert s == s[..n] + [s[n]];
      CountOfClass(s[..n], t);
    }
  }

  /** Corresponding frames surface the same detections, up to order and the renaming. */
  lemma {:induction false} SameConfirmed(r: Renaming, log: Log, log': Log, f: nat, minHits: int)
    requires LogsRelated(r, log, log') && f < |log|
    ensures multiset(Confirm(log'[f], minHits)) == multiset(RenameConfirmed(r, Confirm(log[f], minHits)))
  {
    var left, right := Confirm(log[f], minHits), Confirm(log'[f], minHits);
    forall t: Tracked ensures multiset(right)[t] == multiset(RenameConfirmed(r, left))[t] {
      var c := t.key;
      CountOfClass(right, t);
      CountOfClass(RenameConfirmed(r, left), t);
      ConfirmOfClass(log'[f], c, minHits);
      ConfirmOfClass(log[f], c, minHits);
      ConfirmRenamed(r, OfClass(log[f], c), minHits);
      RenamedOfClass(r, left, c);
    }
  }
}
