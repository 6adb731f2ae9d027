/** Laws of line crossings over whole runs: the counts balance, directions alternate, and redrawing the
    line the other way swaps in and out. */
module CrossingLaws {
  import opened Wrappers
  import opened Geometry
  import Tracking
  import opened DetectionKeys
  import opened Zones
  import opened LineCrossing

  function Side(p: Point, z: Zone): real
    requires IsLine(z)
  {
    CrossingSide(p, z.points[0], z.points[1])
  }

  /** 1 on the "in" side of the line, 0 elsewhere (a point on the line counts as "out"). */
  function Level(p: Point, z: Zone): int
    requires IsLine(z)
  {
    if Side(p, z) > 0.0 then 1 else 0
  }

  predicate Hits(before: Point, after: Point, z: Zone)
    requires IsLine(z)
  {
    SegmentsIntersect(before, after, z.points[0], z.points[1])
  }

  // ----- one move -----

  /** What one move adds to #in - #out. */
  function Change(before: Point, after: Point, z: Zone): int
    requires IsLine(z)
  {
    if !Hits(before, after, z) then 0 else if Side(after, z) > 0.0 then 1 else -1
  }

  /** The move is reported exactly when it changes sides. */
  predicate Faithful(before: Point, after: Point, z: Zone)
    requires IsLine(z)
  {
    Hits(before, after, z) == (Level(before, z) != Level(after, z))
  }

  lemma ChangeExactly(before: Point, after: Point, z: Zone)
    requires IsLine(z)
    ensures Change(before, after, z) == Level(after, z) - Level(before, z) <==> Faithful(before, after, z)
  {
    if Level(before, z) == 1 && Level(after, z) == 1 {
      SameSideApart(before, after, z);
    }
  }

  /** A move that stays strictly on one side never meets the segment. */
  lemma SameSideApart(a: Point, b: Point, z: Zone)
    requires IsLine(z)
    requires (Side(a, z) > 0.0 && Side(b, z) > 0.0) || (Side(a, z) < 0.0 && Side(b, z) < 0.0)
    ensures !Hits(a, b, z)
  {
    var l1, l2 := z.points[0], z.points[1];
    SegmentsIntersectExact(a, b, l1, l2);
    if s, t :| Meets(a, b, l1, l2, s, t) {
      CrossAlong(l1, l2, a, b, s);
      CrossAlong(l1, l2, l1, l2, t);
      assert Cross(l1, l2, l1) == 0.0 && Cross(l1, l2, l2) == 0.0;
      if Side(a, z) > 0.0 {
        ConvexPositive(Cross(l1, l2, a), Cross(l1, l2, b), s);
      } else {
        ConvexPositive(-Cross(l1, l2, a), -Cross(l1, l2, b), s);
      }
      assert false;
    }
  }

  /** When a move is faithful: with both ends on the "in" side always; with both ends elsewhere when
      it does not touch the segment; when it changes sides, when it passes through the segment. */
  lemma FaithfulExactly(before: Point, after: Point, z: Zone)
    requires IsLine(z)
    ensures Faithful(before, after, z) <==>
      if Level(before, z) != Level(after, z) then SharePoint(before, after, z.points[0], z.points[1])
      else Level(before, z) == 1 || !SharePoint(before, after, z.points[0], z.points[1])
  {
    SegmentsIntersectExact(before, after, z.points[0], z.points[1]);
    if Level(before, z) == 1 && Level(after, z) == 1 {
      SameSideApart(before, after, z);
    }
  }

  /** In particular for centroids off the infinite line whose side changes pass through the segment. */
  lemma FaithfulOffLine(before: Point, after: Point, z: Zone)
    requires IsLine(z) && Side(before, z) != 0.0 && Side(after, z) != 0.0
    requires Level(before, z) != Level(after, z) ==> SharePoint(before, after, z.points[0], z.points[1])
    ensures Faithful(before, after, z)
  {
    SegmentsIntersectExact(before, after, z.points[0], z.points[1]);
    if Level(before, z) == Level(after, z) {
      SameSideApart(before, after, z);
    }
  }

  const VERTICAL := Zone(1, Line, [Point(0.0, -1.0), Point(0.0, 1.0)], [], None)

  /** On the line itself the count goes wrong: a track that comes from the "in" side, steps onto the
      segment and stays there is counted "out" twice. */
  lemma OnLineCountsTwice()
    ensures var a, b, c := Point(-1.0, 0.0), Point(0.0, 0.0), Point(0.0, 0.5);
      && Level(a, VERTICAL) == 1 && Change(a, b, VERTICAL) == -1 && Change(b, c, VERTICAL) == -1
      && !Faithful(b, c, VERTICAL)
  {
    hide SegmentsIntersect;
    var a, b, c := Point(-1.0, 0.0), Point(0.0, 0.0), Point(0.0, 0.5);
    var l1, l2 := VERTICAL.points[0], VERTICAL.points[1];
    SegmentsIntersectExact(a, b, l1, l2);
    SegmentsIntersectExact(b, c, l1, l2);
    assert Meets(a, b, l1, l2, 1.0, 0.5);
    assert Meets(b, c, l1, l2, 0.0, 0.5);
  }

  // ----- one track -----

  /** The directions reported along a path. */
  function PathCrossings(path: seq<Point>, z: Zone): seq<Direction>
    requires IsLine(z)
  {
    if |path| <= 1 then []
    else
      var n := |path| - 1;
      var before := PathCrossings(path[..n], z);
      if Hits(path[n - 1], path[n], z) then before + [Towards(path[n], z)] else before
  }

  function Balance(s: seq<Direction>): int {
    if s == [] then 0 else Balance(s[..|s| - 1]) + if s[|s| - 1] == In then 1 else -1
  }

  ghost predicate FaithfulPath(path: seq<Point>, z: Zone)
    requires IsLine(z)
  {
    forall i :: 0 < i < |path| ==> Faithful(path[i - 1], path[i], z)
  }

  ghost predicate Alternates(s: seq<Direction>) {
    forall i :: 0 < i < |s| ==> s[i - 1] != s[i]
  }

  lemma {:induction false} BalanceSnoc(s: seq<Direction>, d: Direction)
    ensures Balance(s + [d]) == Balance(s) + if d == In then 1 else -1
  {
    assert (s + [d])[..|s|] == s;
  }

  /** Along a faithful path #in - #out is the change of side. */
  lemma {:induction false} PathBalance(path: seq<Point>, z: Zone)
    requires IsLine(z) && path != [] && FaithfulPath(path, z)
    ensures Balance(PathCrossings(path, z)) == Level(path[|path| - 1], z) - Level(path[0], z)
  {
    hide SegmentsIntersect, CrossingSide, Balance;
    var n := |path| - 1;
    if n == 0 {
      assert Balance([]) == 0 by { BalanceNone(); }
    } else {
      PathBalance(path[..n], z);
      assert Faithful(path[n - 1], path[n], z);
      BalanceSnoc(PathCrossings(path[..n], z), Towards(path[n], z));
    }
  }

  /** At every point of the path #in - #out is the change of side so far. */
  ghost predicate Balanced(path: seq<Point>, z: Zone)
    requires IsLine(z)
  {
    forall k :: 0 < k <= |path| ==> Balance(PathCrossings(path[..k], z)) == Level(path[k - 1], z) - Level(path[0], z)
  }

  /** Main result for paths: the counts are right at every point of a path exactly if each of its moves is
      faithful. */
  lemma {:induction false} BalancedExactly(path: seq<Point>, z: Zone)
    requires IsLine(z)
    ensures Balanced(path, z) <==> FaithfulPath(path, z)
  {
    hide SegmentsIntersect, CrossingSide, Faithful;
    if FaithfulPath(path, z) {
      forall k | 0 < k <= |path| ensures Balance(PathCrossings(path[..k], z)) == Level(path[k - 1], z) - Level(path[0], z) {
        PathBalance(path[..k], z);
      }
    }
    if Balanced(path, z) {
      forall i | 0 < i < |path| ensures Faithful(path[i - 1], path[i], z) {
        assert path[..i + 1][..i] == path[..i];
        BalanceMove(path[..i + 1], z);
        ChangeExactly(path[i - 1], path[i], z);
      }
    }
  }

  /** The last move adds its change to the balance. */
  lemma {:induction false} BalanceMove(path: seq<Point>, z: Zone)
    requires IsLine(z) && |path| >= 2
    ensures var n := |path| - 1;
      Balance(PathCrossings(path, z)) == Balance(PathCrossings(path[..n], z)) + Change(path[n - 1], path[n], z)
  {
    hide SegmentsIntersect, CrossingSide, Balance;
    var n := |path| - 1;
    BalanceSnoc(PathCrossings(path[..n], z), Towards(path[n], z));
  }

  lemma BalanceNone()
    ensures Balance([]) == 0
  {
  }

  /** Along a faithful path the last report says on which side the path ends. */
  lemma {:induction false} PathLast(path: seq<Point>, z: Zone)
    requires IsLine(z) && path != [] && FaithfulPath(path, z) && PathCrossings(path, z) != []
    ensures var r := PathCrossings(path, z); r[|r| - 1] == In <==> Level(path[|path| - 1], z) == 1
  {
    hide SegmentsIntersect, CrossingSide;
    var n := |path| - 1;
    if !Hits(path[n - 1], path[n], z) {
      assert Faithful(path[n - 1], path[n], z);
      PathLast(path[..n], z);
    }
  }

  /** Along a faithful path reported directions alternate. */
  lemma {:induction false} PathAlternates(path: seq<Point>, z: Zone)
    requires IsLine(z) && path != [] && FaithfulPath(path, z)
    ensures Alternates(PathCrossings(path, z))
  {
    hide SegmentsIntersect, CrossingSide;
    var n := |path| - 1;
    if n > 0 {
      PathAlternates(path[..n], z);
      assert Faithful(path[n - 1], path[n], z);
      if PathCrossings(path[..n], z) != [] { PathLast(path[..n], z); }
    }
  }

  /** The zone drawn in a run never changes its line. */
  ghost predicate SameZone(atoms: seq<Atom>, z: Zone) {
    forall i :: 0 <= i < |atoms| && atoms[i].Observe? && atoms[i].zone.id == z.id ==> atoms[i].zone == z
  }

  /** The observation concerns k: a usable line, a class it counts, its zone and its track. */
  predicate Concerned(z: Zone, d: Tracking.Tracked, k: Key) {
    z.mode == Line && |z.points| == 2 && Concerns(z, d.key) && z.id == k.zone && d.trackId == k.track
  }

  /** The time of the last observation of k. */
  function LastObserved(atoms: seq<Atom>, k: Key): Option<real> {
    if atoms == [] then None
    else
      var a := atoms[|atoms| - 1];
      if a.Observe? && Concerned(a.zone, a.detection, k) then Some(a.now) else LastObserved(atoms[..|atoms| - 1], k)
  }

  /** The centroids of one track in one zone since an expiry last found it unobserved for more than 3 seconds. */
  function PathOf(atoms: seq<Atom>, k: Key): seq<Point> {
    if atoms == [] then []
    else
      var n := |atoms| - 1;
      var before := PathOf(atoms[..n], k);
      match atoms[n]
      case Observe(z, d, now) => if Concerned(z, d, k) then before + [Centroid(d.box)] else before
      case Expire(now) => if Overdue(atoms[..n], k, now) then [] else before
  }

  predicate Overdue(atoms: seq<Atom>, k: Key, now: real) {
    LastObserved(atoms, k).Some? && now - LastObserved(atoms, k).value > 3.0
  }

  /** The directions reported for that track and zone over the same stretch. */
  function ReportsOf(atoms: seq<Atom>, k: Key): seq<Direction> {
    if atoms == [] then []
    else
      var n := |atoms| - 1;
      match atoms[n]
      case Observe(z, d, now) =>
        var events := Apply(ApplyAll(EMPTY, atoms[..n]).memory, atoms[n]).events;
        ReportsOf(atoms[..n], k) + (if |events| == 1 && events[0].key == k then [events[0].direction] else [])
      case Expire(now) =>
        if Overdue(atoms[..n], k, now) then [] else ReportsOf(atoms[..n], k)
  }

  /** The tracker remembers exactly the last point of the path, with the time of its observation. */
  ghost predicate Remembers(m: Memory, k: Key, path: seq<Point>, last: Option<real>) {
    if path == [] then k !in m.centroid && k !in m.seen
    else
      && k in m.centroid && m.centroid[k] == path[|path| - 1]
      && k in m.seen && last == Some(m.seen[k])
  }

  lemma {:induction false} RunRemembers(atoms: seq<Atom>, k: Key)
    ensures Remembers(ApplyAll(EMPTY, atoms).memory, k, PathOf(atoms, k), LastObserved(atoms, k))
  {
    hide SegmentsIntersect;
    if atoms != [] { RunRemembers(atoms[..|atoms| - 1], k); }
  }

  lemma {:induction false} PathCrossingsSnoc(path: seq<Point>, p: Point, z: Zone)
    requires IsLine(z) && path != []
    ensures PathCrossings(path + [p], z)
      == if Hits(path[|path| - 1], p, z) then PathCrossings(path, z) + [Towards(p, z)] else PathCrossings(path, z)
  {
    assert (path + [p])[..|path|] == path;
  }

  /** In every run, what is reported for a track and a zone is the crossings of its path. */
  lemma {:induction false} RunReports(atoms: seq<Atom>, k: Key, z: Zone)
    requires IsLine(z) && k.zone == z.id && SameZone(atoms, z)
    ensures ReportsOf(atoms, k) == PathCrossings(PathOf(atoms, k), z)
  {
    hide ApplyAll, SegmentsIntersect, PathCrossings;
    if atoms == [] {
      PathCrossingsNone(z);
    } else {
      var n := |atoms| - 1;
      var m := ApplyAll(EMPTY, atoms[..n]).memory;
      RunReports(atoms[..n], k, z);
      RunRemembers(atoms[..n], k);
      match atoms[n]
      case Observe(y, d, now) =>
        if y.id == z.id { assert y == z; }
        ReportStep(m, y, d, now, k, z, PathOf(atoms[..n], k));
      case Expire(now) =>
        PathCrossingsNone(z);
    }
  }

  lemma {:induction false} PathCrossingsNone(z: Zone)
    requires IsLine(z)
    ensures PathCrossings([], z) == []
  {
  }

  /** One observation extends the reports as it extends the path. */
  lemma ReportStep(m: Memory, y: Zone, d: Tracking.Tracked, now: real, k: Key, z: Zone, path: seq<Point>)
    requires IsLine(z) && k.zone == z.id && (y.id == z.id ==> y == z)
    requires path == [] ==> k !in m.centroid
    requires path != [] ==> k in m.centroid && m.centroid[k] == path[|path| - 1]
    ensures var events := Apply(m, Observe(y, d, now)).events;
      var path' := if Concerned(y, d, k) then path + [Centroid(d.box)] else path;
      PathCrossings(path', z)
      == PathCrossings(path, z) + (if |events| == 1 && events[0].key == k then [events[0].direction] else [])
  {
    hide SegmentsIntersect;
    if Concerned(y, d, k) && path != [] {
      PathCrossingsSnoc(path, Centroid(d.box), z);
    }
  }

  /** Main result for one track and one zone: over any run in which the moves since the track was last
      forgotten are faithful, reports alternate and #in - #out is the change of side. */
  lemma {:induction false} TrackLaw(atoms: seq<Atom>, k: Key, z: Zone)
    requires IsLine(z) && k.zone == z.id && SameZone(atoms, z)
    requires PathOf(atoms, k) != [] && FaithfulPath(PathOf(atoms, k), z)
    ensures Alternates(ReportsOf(atoms, k))
    ensures var path := PathOf(atoms, k);
      Balance(ReportsOf(atoms, k)) == Level(path[|path| - 1], z) - Level(path[0], z)
  {
    RunReports(atoms, k, z);
    PathBalance(PathOf(atoms, k), z);
    PathAlternates(PathOf(atoms, k), z);
  }

  // ----- all tracks of a zone: the counts balance -----

  /** #in - #out as persisted for zone id. */
  function Net(events: seq<Event>, id: int): int {
    if events == [] then 0
    else
      var e := events[|events| - 1];
      Net(events[..|events| - 1], id) + if e.key.zone != id then 0 else if e.direction == In then 1 else -1
  }

  lemma {:induction false} NetConcat(a: seq<Event>, b: seq<Event>, id: int)
    ensures Net(a + b, id) == Net(a, id) + Net(b, id)
  {
    if b == [] {
      assert a + b == a;
    } else {
      var n := |b| - 1;
      assert (a + b)[..|a| + n] == a + b[..n];
      NetConcat(a, b[..n], id);
    }
  }

  /** The tracks remembered on the "in" side of z. */
  function Inside(m: Memory, z: Zone): set<Key>
    requires IsLine(z)
  {
    set k | k in m.centroid && k.zone == z.id && Level(m.centroid[k], z) == 1
  }

  predicate Observes(a: Atom, z: Zone) { a.Observe? && a.zone == z && Concerns(z, a.detection.key) }

  /** Tracks that turn up on the "in" side without having been known. */
  function AtomEntered(m: Memory, a: Atom, z: Zone): int
    requires IsLine(z)
  {
    if Observes(a, z) && KeyOf(z, a.detection) !in m.centroid then Level(Centroid(a.detection.box), z) else 0
  }

  /** Tracks forgotten on the "in" side. */
  function AtomForgotten(m: Memory, a: Atom, z: Zone): int
    requires IsLine(z)
  {
    if a.Expire? then |Inside(m, z) * Stale(m, a.now)| else 0
  }

  ghost predicate AtomFaithful(m: Memory, a: Atom, z: Zone)
    requires IsLine(z)
  {
    Observes(a, z) && KeyOf(z, a.detection) in m.centroid ==>
      Faithful(m.centroid[KeyOf(z, a.detection)], Centroid(a.detection.box), z)
  }

  function Entered(m: Memory, atoms: seq<Atom>, z: Zone): int
    requires IsLine(z)
  {
    if atoms == [] then 0
    else
      var n := |atoms| - 1;
      Entered(m, atoms[..n], z) + AtomEntered(ApplyAll(m, atoms[..n]).memory, atoms[n], z)
  }

  function Forgotten(m: Memory, atoms: seq<Atom>, z: Zone): int
    requires IsLine(z)
  {
    if atoms == [] then 0
    else
      var n := |atoms| - 1;
      Forgotten(m, atoms[..n], z) + AtomForgotten(ApplyAll(m, atoms[..n]).memory, atoms[n], z)
  }

  ghost predicate AllFaithful(m: Memory, atoms: seq<Atom>, z: Zone)
    requires IsLine(z)
  {
    forall n :: 0 <= n < |atoms| ==> AtomFaithful(ApplyAll(m, atoms[..n]).memory, atoms[n], z)
  }

  lemma ObserveOccupancy(m: Memory, a: Atom, z: Zone)
    requires IsLine(z) && Observes(a, z) && AtomFaithful(m, a, z)
    ensures |Inside(Apply(m, a).memory, z)| - |Inside(m, z)| == Net(Apply(m, a).events, z.id) + AtomEntered(m, a, z)
  {
    hide SegmentsIntersect, CrossingSide, Centroid, Net, Fired, Inside;
    var k := KeyOf(z, a.detection);
    var p := Centroid(a.detection.box);
    if k in m.centroid { ChangeExactly(m.centroid[k], p, z); }
    NetOne(Apply(m, a).events, z.id);
    InsideMoved(m, Apply(m, a).memory, z, k, p);
  }

  lemma InsideMoved(m: Memory, m': Memory, z: Zone, k: Key, p: Point)
    requires IsLine(z) && k.zone == z.id && m'.centroid == m.centroid[k := p]
    ensures |Inside(m', z)| - |Inside(m, z)| == Level(p, z) - if k in m.centroid then Level(m.centroid[k], z) else 0
  {
    hide Level;
    var inside, after := Inside(m, z), Inside(m', z);
    LevelRange(p, z);
    if k in m.centroid { LevelRange(m.centroid[k], z); }
    forall j ensures j in after <==> if j == k then Level(p, z) == 1 else j in inside {}
    SizeMoved(inside, after, k);
  }

  lemma LevelRange(p: Point, z: Zone)
    requires IsLine(z)
    ensures Level(p, z) == 0 || Level(p, z) == 1
  {
  }

  lemma SizeMoved(before: set<Key>, after: set<Key>, k: Key)
    requires forall j :: j != k ==> (j in after <==> j in before)
    ensures |after| - |before| == (if k in after then 1 else 0) - (if k in before then 1 else 0)
  {
    var rest := before - {k};
    assert rest == after - {k};
    assert before == if k in before then rest + {k} else rest;
    assert after == if k in after then rest + {k} else rest;
  }

  lemma {:induction false} NetOne(events: seq<Event>, id: int)
    requires |events| <= 1
    ensures Net(events, id) == if events == [] || events[0].key.zone != id then 0 else if events[0].direction == In then 1 else -1
  {
    if events != [] { assert events[..0] == []; }
  }

  lemma ExpireOccupancy(m: Memory, now: real, z: Zone)
    requires IsLine(z)
    ensures |Inside(ExpireAt(m, now), z)| == |Inside(m, z)| - |Inside(m, z) * Stale(m, now)|
  {
    var inside, stale := Inside(m, z), Stale(m, now);
    assert Inside(ExpireAt(m, now), z) == inside - stale;
    assert inside == (inside - stale) + inside * stale;
  }

  lemma AtomOccupancy(m: Memory, a: Atom, z: Zone)
    requires IsLine(z) && AtomFaithful(m, a, z)
    requires a.Observe? && a.zone.id == z.id ==> a.zone == z
    ensures |Inside(Apply(m, a).memory, z)| - |Inside(m, z)|
         == Net(Apply(m, a).events, z.id) + AtomEntered(m, a, z) - AtomForgotten(m, a, z)
  {
    if a.Expire? {
      ExpireOccupancy(m, a.now, z);
    } else if Observes(a, z) {
      ObserveOccupancy(m, a, z);
    } else {
      assert Inside(Apply(m, a).memory, z) == Inside(m, z);
      NetOne(Apply(m, a).events, z.id);
    }
  }

  /** Main result for a zone: over every run of faithful moves, the number of tracks on the "in" side
      changes by #in - #out, plus those first seen there, minus those forgotten there. */
  lemma {:induction false} Occupancy(m: Memory, atoms: seq<Atom>, z: Zone)
    requires IsLine(z) && SameZone(atoms, z) && AllFaithful(m, atoms, z)
    ensures var end := ApplyAll(m, atoms);
      |Inside(end.memory, z)| - |Inside(m, z)| == Net(end.events, z.id) + Entered(m, atoms, z) - Forgotten(m, atoms, z)
  {
    if atoms != [] {
      var n := |atoms| - 1;
      var before := ApplyAll(m, atoms[..n]);
      forall i | 0 <= i < n ensures AtomFaithful(ApplyAll(m, atoms[..n][..i]).memory, atoms[..n][i], z) {
        assert atoms[..n][..i] == atoms[..i];
      }
      Occupancy(m, atoms[..n], z);
      AtomOccupancy(before.memory, atoms[n], z);
      NetConcat(before.events, Apply(before.memory, atoms[n]).events, z.id);
    }
  }

  // ----- drawing the line the other way -----

  function Redrawn(z: Zone): Zone {
    if IsLine(z) then z.(points := [z.points[1], z.points[0]]) else z
  }

  function RedrawnAtom(a: Atom): Atom {
    match a
    case Observe(z, d, now) => Observe(Redrawn(z), d, now)
    case Expire(now) => a
  }

  function RedrawnAll(atoms: seq<Atom>): (r: seq<Atom>)
    ensures |r| == |atoms|
  {
    if atoms == [] then [] else RedrawnAll(atoms[..|atoms| - 1]) + [RedrawnAtom(atoms[|atoms| - 1])]
  }

  function Opposite(d: Direction): Direction { if d == In then Out else In }

  function Swapped(events: seq<Event>): seq<Event> {
    if events == [] then []
    else
      var e := events[|events| - 1];
      Swapped(events[..|events| - 1]) + [e.(direction := Opposite(e.direction))]
  }

  lemma {:induction false} SwappedConcat(a: seq<Event>, b: seq<Event>)
    ensures Swapped(a + b) == Swapped(a) + Swapped(b)
  {
    if b == [] {
      assert a + b == a;
    } else {
      var n := |b| - 1;
      assert (a + b)[..|a| + n] == a + b[..n];
      SwappedConcat(a, b[..n]);
    }
  }

  lemma SwappedOne(e: Event)
    ensures Swapped([e]) == [e.(direction := Opposite(e.direction))]
  {
    assert [e][..0] == [];
  }

  lemma RedrawnSide(p: Point, z: Zone)
    requires IsLine(z)
    ensures Side(p, Redrawn(z)) == -Side(p, z)
  {
  }

  lemma RedrawnHits(before: Point, after: Point, z: Zone)
    requires IsLine(z)
    ensures Hits(before, after, Redrawn(z)) == Hits(before, after, z)
  {
    var l1, l2 := z.points[0], z.points[1];
    SegmentsIntersectExact(before, after, l1, l2);
    SegmentsIntersectExact(before, after, l2, l1);
    if SharePoint(before, after, l1, l2) { ShareReversed(before, after, l1, l2); }
    if SharePoint(before, after, l2, l1) { ShareReversed(before, after, l2, l1); }
  }

  ghost predicate SameTracks(m: Memory, m': Memory) { m.centroid == m'.centroid && m.seen == m'.seen }

  /** No observed centroid lies exactly on the line of its zone. */
  ghost predicate OffLine(a: Atom) {
    a.Observe? && IsLine(a.zone) ==> Side(Centroid(a.detection.box), a.zone) != 0.0
  }

  lemma RedrawnOne(m: Memory, m': Memory, a: Atom)
    requires SameTracks(m, m') && OffLine(a)
    ensures SameTracks(Apply(m, a).memory, Apply(m', RedrawnAtom(a)).memory)
    ensures Apply(m', RedrawnAtom(a)).events == Swapped(Apply(m, a).events)
  {
    if a.Observe? && IsLine(a.zone) {
      var k, p := KeyOf(a.zone, a.detection), Centroid(a.detection.box);
      RedrawnSide(p, a.zone);
      if k in m.centroid {
        RedrawnHits(m.centroid[k], p, a.zone);
        SwappedOne(Event(k, a.detection.key, Towards(p, a.zone), a.now));
      }
    }
  }

  /** Redrawing every line the other way swaps in and out over the whole run. */
  lemma {:induction false} RedrawnSwaps(m: Memory, m': Memory, atoms: seq<Atom>)
    requires SameTracks(m, m') && forall i :: 0 <= i < |atoms| ==> OffLine(atoms[i])
    ensures SameTracks(ApplyAll(m, atoms).memory, ApplyAll(m', RedrawnAll(atoms)).memory)
    ensures ApplyAll(m', RedrawnAll(atoms)).events == Swapped(ApplyAll(m, atoms).events)
  {
    if atoms != [] {
      var n := |atoms| - 1;
      RedrawnSwaps(m, m', atoms[..n]);
      var before, before' := ApplyAll(m, atoms[..n]), ApplyAll(m', RedrawnAll(atoms[..n]));
      RedrawnOne(before.memory, before'.memory, atoms[n]);
      SwappedConcat(before.events, Apply(before.memory, atoms[n]).events);
      ApplySnoc(m', RedrawnAll(atoms[..n]), RedrawnAtom(atoms[n]));
    }
  }

  // ----- trigger keys -----

  /** The time of the last event that fires the trigger. */
  function LastFired(events: seq<Event>, trigger: string): Option<real> {
    if events == [] then None
    else
      var e := events[|events| - 1];
      if CrossingKey(e.kind, e.direction) == Some(trigger) then Some(e.at)
      else LastFired(events[..|events| - 1], trigger)
  }

  lemma {:induction false} LastFiredOne(before: seq<Event>, more: seq<Event>, trigger: string)
    requires |more| <= 1
    ensures LastFired(before + more, trigger)
      == if more != [] && CrossingKey(more[0].kind, more[0].direction) == Some(trigger) then Some(more[0].at)
         else LastFired(before, trigger)
  {
    if more == [] { assert before + more == before; } else { assert (before + more)[..|before|] == before; }
  }

  /** A trigger key is active exactly during the pulse after its last crossing. */
  lemma {:induction false} TriggerPulse(atoms: seq<Atom>, trigger: string)
    ensures var end := ApplyAll(EMPTY, atoms);
      var last := LastFired(end.events, trigger);
      && (trigger in end.memory.active <==> last.Some?)
      && (last.Some? ==> end.memory.active[trigger] == last.value + 3.0)
  {
    if atoms != [] {
      var n := |atoms| - 1;
      var before := ApplyAll(EMPTY, atoms[..n]);
      TriggerPulse(atoms[..n], trigger);
      LastFiredOne(before.events, Apply(before.memory, atoms[n]).events, trigger);
    }
  }
}
