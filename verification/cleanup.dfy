/** The cleanup preview and its application to the recordings table. */
module Cleanup {
  import opened Wrappers
  import opened Retention

  predicate HasId(s: seq<Recording>, id: int) {
    exists i :: 0 <= i < |s| && s[i].id == id
  }

  /** `selected[id] = ...`: an id already present keeps its place. */
  function Note(selected: seq<Recording>, r: Recording): seq<Recording> {
    if HasId(selected, r.id) then selected else selected + [r]
  }

  /** Recordings are named by their id. */
  ghost predicate SameById(s: seq<Recording>, t: seq<Recording>) {
    forall r, q :: r in s && q in t && r.id == q.id ==> r == q
  }

  lemma DistinctNamed(s: seq<Recording>)
    requires DistinctIds(s)
    ensures SameById(s, s)
  {
    forall r, q | r in s && q in s && r.id == q.id ensures r == q {
      var i :| 0 <= i < |s| && s[i] == r;
      var j :| 0 <= j < |s| && s[j] == q;
    }
  }

  lemma Noted(selected: seq<Recording>, r: Recording, s: seq<Recording>)
    requires DistinctIds(selected) && SameById(s, s) && r in s && forall q :: q in selected ==> q in s
    ensures DistinctIds(Note(selected, r))
    ensures forall q :: q in Note(selected, r) <==> q in selected || q == r
  {
    if HasId(selected, r.id) {
      var i :| 0 <= i < |selected| && selected[i].id == r.id;
      assert selected[i] in s && selected[i] == r;
    }
  }

  /** The recordings condemned by one of the first rules. */
  ghost predicate DoomedBy(r: Recording, rules: seq<Rule>, s: seq<Recording>, now: int) {
    exists rule :: rule in rules && Condemns(rule, r, s, now)
  }

  /** `selected` holds the listed recordings condemned by `rules`, and those satisfying `more`. */
  ghost predicate Holds(selected: seq<Recording>, s: seq<Recording>, rules: seq<Rule>, now: int, more: set<Recording>) {
    && DistinctIds(selected)
    && forall r :: r in selected <==> (r in s && DoomedBy(r, rules, s, now)) || r in more
  }

  lemma HoldsNote(selected: seq<Recording>, s: seq<Recording>, rules: seq<Rule>, now: int, more: set<Recording>, r: Recording)
    requires Holds(selected, s, rules, now, more) && DistinctIds(s) && r in s && forall q :: q in more ==> q in s
    ensures Holds(Note(selected, r), s, rules, now, more + {r})
  {
    DistinctNamed(s);
    Noted(selected, r, s);
  }

  /** All recordings a rule condemns have been noted. */
  lemma HoldsRule(selected: seq<Recording>, s: seq<Recording>, rules: seq<Rule>, rule: Rule, now: int, more: set<Recording>)
    requires Holds(selected, s, rules, now, more)
    requires forall r :: r in more <==> r in s && Condemns(rule, r, s, now)
    ensures Holds(selected, s, rules + [rule], now, {})
  {
    forall r ensures r in selected <==> r in s && DoomedBy(r, rules + [rule], s, now) {
      assert forall y :: y in rules + [rule] <==> y in rules || y == rule;
      if r in s && DoomedBy(r, rules, s, now) {
        var y :| y in rules && Condemns(y, r, s, now);
        assert y in rules + [rule];
      }
      if r in more { assert rule in rules + [rule]; }
    }
  }

  ghost function OldOnes(s: seq<Recording>, rule: Rule, now: int): set<Recording> {
    set r | r in s && TooOld(r, rule, now)
  }

  ghost function DroppedOnes(s: seq<Recording>, limit: int): set<Recording> {
    set r | r in s && r !in Keep(s, limit)
  }

  lemma SetSnoc(s: seq<Recording>, r: Recording, rule: Rule, now: int)
    ensures OldOnes(s + [r], rule, now) == OldOnes(s, rule, now) + if TooOld(r, rule, now) then {r} else {}
  {
    assert forall q :: q in s + [r] <==> q in s || q == r;
  }

  /** The preview: oldest first, each recording that some rule condemns once. */
  method CleanupPreview(recordings: seq<Recording>, rules: seq<Rule>, now: int) returns (doomed: seq<Recording>)
    requires DistinctIds(recordings)
    ensures DistinctIds(doomed) && forall i, j :: 0 <= i < j < |doomed| ==> !Before(doomed[j].startedAt, doomed[i].startedAt)
    ensures forall r :: r in doomed <==> Doomed(r, rules, recordings, now)
  {
    hide Condemns, Keep, Newest, Matching, DistinctIds, Holds, Before;
    var selected: seq<Recording> := [];
    HoldsNone(recordings, now);
    assert rules[..0] == [];
    for k := 0 to |rules|
      invariant Holds(selected, recordings, rules[..k], now, {})
    {
      var rule := rules[k];
      var matching := Matching(recordings, rule);
      MatchingFacts(recordings, rule);
      ghost var old_ := {};
      if rule.maxAgeDays.Some? {
        var cutoff := now - rule.maxAgeDays.value * DAY;
        assert matching[..0] == [];
        for j := 0 to |matching|
          invariant old_ == OldOnes(matching[..j], rule, now)
          invariant Holds(selected, recordings, rules[..k], now, old_)
        {
          var r := matching[j];
          assert matching[..j + 1] == matching[..j] + [r];
          SetSnoc(matching[..j], r, rule, now);
          if r.startedTime < cutoff {
            assert r in matching && forall q :: q in old_ ==> q in matching;
            HoldsNote(selected, recordings, rules[..k], now, old_, r);
            selected := Note(selected, r);
            old_ := old_ + {r};
          }
        }
        assert matching[..|matching|] == matching;
      }
      ghost var noted: set<Recording> := old_;
      if rule.maxSizeGb.Some? {
        var limit := LimitBytes(rule.maxSizeGb.value);
        selected, noted := NoteDropped(selected, recordings, rules[..k], now, old_, Newest(matching), limit);
      }
      RuleDone(selected, recordings, rules[..k], rule, now, old_, noted);
      assert rules[..k + 1] == rules[..k] + [rule];
    }
    assert rules[..|rules|] == rules;
    doomed := Oldest(selected);
    PreviewDone(selected, recordings, rules, now);
  }

  lemma {:induction false} PreviewDone(selected: seq<Recording>, s: seq<Recording>, rules: seq<Rule>, now: int)
    requires Holds(selected, s, rules, now, {})
    ensures DistinctIds(Oldest(selected))
    ensures forall i, j :: 0 <= i < j < |Oldest(selected)| ==> !Before(Oldest(selected)[j].startedAt, Oldest(selected)[i].startedAt)
    ensures forall r :: r in Oldest(selected) <==> Doomed(r, rules, s, now)
  {
    hide Before;
    OldestSorted(selected);
    ChronologicalExact(Oldest(selected));
    OldestDistinct(selected);
    forall r ensures r in Oldest(selected) <==> Doomed(r, rules, s, now) {
      OldestMember(selected, r);
    }
  }

  lemma RuleDone(selected: seq<Recording>, s: seq<Recording>, rules: seq<Rule>, rule: Rule, now: int, old_: set<Recording>, noted: set<Recording>)
    requires Holds(selected, s, rules, now, noted)
    requires old_ == OldOnes(Matching(s, rule), rule, now)
    requires noted == old_ + if rule.maxSizeGb.Some? then DroppedOnes(Newest(Matching(s, rule)), LimitBytes(rule.maxSizeGb.value)) else {}
    ensures Holds(selected, s, rules + [rule], now, {})
  {
    hide Keep, Newest, Matching;
    MatchingFacts(s, rule);
    HoldsRule(selected, s, rules, rule, now, noted);
  }

  lemma HoldsNone(s: seq<Recording>, now: int)
    ensures Holds([], s, [], now, {})
  {
  }

  lemma MatchingFacts(s: seq<Recording>, rule: Rule)
    ensures forall r :: r in Matching(s, rule) <==> r in s && Matches(r, rule)
    ensures forall r :: r in Newest(Matching(s, rule)) <==> r in s && Matches(r, rule)
    ensures DistinctIds(s) ==> DistinctIds(Newest(Matching(s, rule)))
  {
    forall r ensures r in Matching(s, rule) <==> r in s && Matches(r, rule) {
      SelectMember(s, (q: Recording) => Matches(q, rule), r);
    }
    forall r ensures r in Newest(Matching(s, rule)) <==> r in Matching(s, rule) {
      NewestMember(Matching(s, rule), r);
    }
    if DistinctIds(s) {
      SelectDistinct(s, (q: Recording) => Matches(q, rule));
      NewestDistinct(Matching(s, rule));
    }
  }

  /** The size rule: recordings that do not fit any more, newest first, are noted. */
  method NoteDropped(start: seq<Recording>, ghost s: seq<Recording>, ghost rules: seq<Rule>, ghost now: int,
        ghost more: set<Recording>, sorted: seq<Recording>, limit: int)
    returns (selected: seq<Recording>, ghost noted: set<Recording>)
    requires Holds(start, s, rules, now, more) && DistinctIds(s) && DistinctIds(sorted)
    requires (forall q :: q in more ==> q in s) && forall q :: q in sorted ==> q in s
    ensures noted == more + DroppedOnes(sorted, limit) && Holds(selected, s, rules, now, noted)
  {
    hide Holds, Keep;
    selected, noted := start, more;
    var kept: seq<Recording> := [];
    var total := 0;
    KeepNone(limit);
    assert sorted[..0] == [];
    for j := 0 to |sorted|
      invariant kept == Keep(sorted[..j], limit) && total == Size(kept)
      invariant noted == more + (set r | r in sorted[..j] && r !in Keep(sorted, limit))
      invariant Holds(selected, s, rules, now, noted)
    {
      var r := sorted[j];
      assert sorted[..j + 1] == sorted[..j] + [r];
      KeepNext(sorted, limit, j);
      KeepFinal(sorted, limit, j);
      if total + r.size <= limit {
        SizeSnoc(kept, r);
        kept := kept + [r];
        total := total + r.size;
      } else {
        HoldsNote(selected, s, rules, now, noted, r);
        selected := Note(selected, r);
        noted := noted + {r};
      }
    }
    assert sorted[..|sorted|] == sorted;
  }

  lemma {:induction false} KeepNone(limit: int)
    ensures Keep([], limit) == [] && Size([]) == 0
  {
  }

  // ----- the recordings table -----

  /** Rows by increasing id. */
  ghost predicate Table(t: seq<Recording>) {
    forall i, j :: 0 <= i < j < |t| ==> t[i].id < t[j].id
  }

  /** `list_ready_recordings_for_cleanup`: finished and unlocked rows by start text, then id. */
  function ListReady(t: seq<Recording>): seq<Recording> {
    Oldest(Select(t, (r: Recording) => r.ready && !r.locked))
  }

  function Without(t: seq<Recording>, id: int): seq<Recording> {
    Select(t, (r: Recording) => r.id != id)
  }

  lemma {:induction false} SelectSelect(s: seq<Recording>, p: Recording -> bool, q: Recording -> bool, both: Recording -> bool)
    requires forall r :: r in s ==> (both(r) <==> p(r) && q(r))
    ensures Select(Select(s, p), q) == Select(s, both)
  {
    if s != [] {
      var n := |s| - 1;
      assert s[n] in s;
      SelectSelect(s[..n], p, q, both);
      var before := Select(s[..n], p);
      assert (before + [s[n]])[..|before|] == before;
    }
  }

  lemma {:induction false} SelectAll(s: seq<Recording>, p: Recording -> bool)
    requires forall r :: r in s ==> p(r)
    ensures Select(s, p) == s
  {
    if s != [] {
      assert s[|s| - 1] in s;
      SelectAll(s[..|s| - 1], p);
    }
  }

  ghost function Remaining(t: seq<Recording>, doomed: seq<Recording>): seq<Recording> {
    Select(t, (r: Recording) => !HasId(doomed, r.id))
  }

  /** The rows no rule condemns. */
  ghost function Survivors(t: seq<Recording>, rules: seq<Rule>, now: int): seq<Recording> {
    Select(t, (r: Recording) => !Doomed(r, rules, ListReady(t), now))
  }

  class Archive {
    var table: seq<Recording>
    var rules: seq<Rule>
    var targets: seq<Target>

    ghost predicate Valid() reads this { Table(table) }

    /** `_effective_retention_rules` */
    method RulesInForce() returns (r: seq<Rule>)
      ensures r == EffectiveRules(rules, targets)
      ensures forall rule :: rule in r <==> (rule in rules && rule.enabled) || exists t :: t in targets && StandsFor(t, rule)
    {
      r := [];
      for i := 0 to |rules|
        invariant r == EnabledRules(rules[..i])
      {
        assert rules[..i + 1][..i] == rules[..i];
        if rules[i].enabled {
          r := r + [rules[i]];
        }
      }
      assert rules[..|rules|] == rules;
      for i := 0 to |targets|
        invariant r == EnabledRules(rules) + TargetRules(targets[..i])
      {
        assert targets[..i + 1][..i] == targets[..i];
        var t := targets[i];
        if t.days.None? && t.maxGb.None? {
          continue;
        }
        r := r + [Rule(true, None, "", Some(t.id), t.days, t.maxGb)];
      }
      assert targets[..|targets|] == targets;
      forall rule ensures rule in r <==> (rule in rules && rule.enabled) || exists t :: t in targets && StandsFor(t, rule) {
        InForceExactly(rules, targets, rule);
      }
    }

    /** Deletes what the preview lists and nothing else. */
    method ApplyCleanup(now: int) returns (count: nat)
      requires Valid()
      modifies this`table
      ensures Valid()
      ensures table == Survivors(old(table), EffectiveRules(rules, targets), now)
      ensures count == |old(table)| - |table|
    {
      hide Select, Oldest, Doomed, Table, DistinctIds, HasId, Before;
      var inForce := RulesInForce();
      ghost var start := table;
      ListReadyFacts(table);
      var doomed := CleanupPreview(ListReady(table), inForce, now);
      assert doomed[..0] == [];
      RemainingNone(start);
      for k := 0 to |doomed|
        invariant table == Remaining(start, doomed[..k])
      {
        assert doomed[..k + 1] == doomed[..k] + [doomed[k]];
        RemainingNext(start, doomed[..k], doomed[k]);
        table := Without(table, doomed[k].id);
      }
      assert doomed[..|doomed|] == doomed;
      RemainingDoomed(start, doomed, inForce, now);
      RemainingCount(start, doomed);
      TableKept(start, (r: Recording) => !HasId(doomed, r.id));
      count := |doomed|;
    }
  }

  lemma {:induction false} TableKept(t: seq<Recording>, p: Recording -> bool)
    requires Table(t)
    ensures Table(Select(t, p))
    decreases |t|
  {
    if t != [] {
      var n := |t| - 1;
      TableKept(t[..n], p);
      forall r | r in Select(t[..n], p) ensures r.id < t[n].id {
        SelectMember(t[..n], p, r);
      }
    }
  }

  lemma ListReadyFacts(t: seq<Recording>)
    requires Table(t)
    ensures DistinctIds(t) && DistinctIds(ListReady(t))
    ensures forall r :: r in ListReady(t) <==> r in t && r.ready && !r.locked
  {
    var p := (r: Recording) => r.ready && !r.locked;
    SelectDistinct(t, p);
    OldestDistinct(Select(t, p));
    forall r ensures r in ListReady(t) <==> r in t && r.ready && !r.locked {
      SelectMember(t, p, r);
      OldestMember(Select(t, p), r);
    }
  }

  lemma RemainingNone(t: seq<Recording>)
    ensures Remaining(t, []) == t
  {
    SelectAll(t, (r: Recording) => !HasId([], r.id));
  }

  lemma RemainingNext(t: seq<Recording>, doomed: seq<Recording>, d: Recording)
    ensures Remaining(t, doomed + [d]) == Without(Remaining(t, doomed), d.id)
  {
    var all := doomed + [d];
    forall id ensures HasId(all, id) <==> HasId(doomed, id) || id == d.id {
      if HasId(doomed, id) {
        var i :| 0 <= i < |doomed| && doomed[i].id == id;
        assert all[i].id == id;
      }
      if id == d.id { assert all[|doomed|].id == id; }
    }
    SelectSelect(t, (r: Recording) => !HasId(doomed, r.id), (r: Recording) => r.id != d.id, (r: Recording) => !HasId(all, r.id));
  }

  lemma {:induction false} SelectSame(s: seq<Recording>, p: Recording -> bool, q: Recording -> bool)
    requires forall r :: r in s ==> p(r) == q(r)
    ensures Select(s, p) == Select(s, q)
  {
    if s != [] {
      assert s[|s| - 1] in s;
      SelectSame(s[..|s| - 1], p, q);
    }
  }

  lemma RemainingDoomed(t: seq<Recording>, doomed: seq<Recording>, rules: seq<Rule>, now: int)
    requires Table(t) && forall r :: r in doomed <==> Doomed(r, rules, ListReady(t), now)
    ensures Remaining(t, doomed) == Survivors(t, rules, now)
    ensures forall r :: r in doomed ==> r in t
  {
    ListReadyFacts(t);
    DistinctNamed(t);
    forall r | r in t ensures HasId(doomed, r.id) <==> Doomed(r, rules, ListReady(t), now) {
      if HasId(doomed, r.id) {
        var i :| 0 <= i < |doomed| && doomed[i].id == r.id;
        assert doomed[i] in doomed && doomed[i] in t;
      }
      if Doomed(r, rules, ListReady(t), now) {
        var i :| 0 <= i < |doomed| && doomed[i] == r;
        assert HasId(doomed, r.id);
      }
    }
    SelectSame(t, (r: Recording) => !HasId(doomed, r.id), (r: Recording) => !Doomed(r, rules, ListReady(t), now));
  }

  /** Distinct rows found in the table are deleted one for one. */
  lemma {:induction false} RemainingCount(t: seq<Recording>, doomed: seq<Recording>)
    requires DistinctIds(doomed) && Table(t) && forall r :: r in doomed ==> r in t
    ensures |Remaining(t, doomed)| == |t| - |doomed|
  {
    if doomed == [] {
      RemainingNone(t);
    } else {
      var n := |doomed| - 1;
      var d := doomed[n];
      assert doomed == doomed[..n] + [d];
      assert d in doomed;
      RemainingCount(t, doomed[..n]);
      RemainingNext(t, doomed[..n], d);
      SelectMember(t, (r: Recording) => !HasId(doomed[..n], r.id), d);
      TableKept(t, (r: Recording) => !HasId(doomed[..n], r.id));
      WithoutOne(Remaining(t, doomed[..n]), d);
    }
  }

  lemma {:induction false} WithoutOne(t: seq<Recording>, d: Recording)
    requires Table(t) && d in t
    ensures |Without(t, d.id)| == |t| - 1
  {
    var n := |t| - 1;
    if t[n] == d {
      SelectAll(t[..n], (r: Recording) => r.id != d.id);
    } else {
      WithoutOne(t[..n], d);
    }
  }

  // ----- what cleanup achieves -----

  lemma {:induction false} SizeConcat(a: seq<Recording>, b: seq<Recording>)
    ensures Size(a + b) == Size(a) + Size(b)
  {
    if b == [] {
      assert a + b == a;
    } else {
      var n := |b| - 1;
      assert a + b == (a + b[..n]) + [b[n]];
      SizeConcat(a, b[..n]);
      SizeSnoc(a + b[..n], b[n]);
    }
  }

  lemma {:induction false} SelectConcat(a: seq<Recording>, b: seq<Recording>, p: Recording -> bool)
    ensures Select(a + b, p) == Select(a, p) + Select(b, p)
  {
    if b == [] {
      assert a + b == a;
    } else {
      var n := |b| - 1;
      assert (a + b)[..|a| + n] == a + b[..n];
      SelectConcat(a, b[..n], p);
    }
  }

  lemma {:induction false} SizeSelectConcat(a: seq<Recording>, b: seq<Recording>, p: Recording -> bool)
    ensures Size(Select(a + b, p)) == Size(Select(a, p)) + Size(Select(b, p))
  {
    SelectConcat(a, b, p);
    SizeConcat(Select(a, p), Select(b, p));
  }

  lemma {:induction false} InsertNewestSize(x: Recording, s: seq<Recording>, p: Recording -> bool)
    ensures Size(Select(InsertNewest(x, s), p)) == Size(Select([x] + s, p))
  {
    if s != [] && !TextLe(s[0].startedAt, x.startedAt) {
      InsertNewestSize(x, s[1..], p);
      assert s == [s[0]] + s[1..];
      SizeSelectConcat([s[0]], InsertNewest(x, s[1..]), p);
      SizeSelectConcat([x], s[1..], p);
      SizeSelectConcat([x], s, p);
      SizeSelectConcat([s[0]], s[1..], p);
    }
  }

  lemma {:induction false} NewestSize(s: seq<Recording>, p: Recording -> bool)
    ensures Size(Select(Newest(s), p)) == Size(Select(s, p))
  {
    if s != [] {
      NewestSize(s[1..], p);
      InsertNewestSize(s[0], Newest(s[1..]), p);
      assert s == [s[0]] + s[1..];
      SizeSelectConcat([s[0]], Newest(s[1..]), p);
      SizeSelectConcat([s[0]], s[1..], p);
    }
  }

  lemma {:induction false} InsertOldestSize(x: Recording, s: seq<Recording>, p: Recording -> bool)
    ensures Size(Select(InsertOldest(x, s), p)) == Size(Select([x] + s, p))
  {
    if s != [] && !TextLe(x.startedAt, s[0].startedAt) {
      InsertOldestSize(x, s[1..], p);
      assert s == [s[0]] + s[1..];
      SizeSelectConcat([s[0]], InsertOldest(x, s[1..]), p);
      SizeSelectConcat([x], s[1..], p);
      SizeSelectConcat([x], s, p);
      SizeSelectConcat([s[0]], s[1..], p);
    }
  }

  lemma {:induction false} OldestSize(s: seq<Recording>, p: Recording -> bool)
    ensures Size(Select(Oldest(s), p)) == Size(Select(s, p))
  {
    if s != [] {
      OldestSize(s[1..], p);
      InsertOldestSize(s[0], Oldest(s[1..]), p);
      assert s == [s[0]] + s[1..];
      SizeSelectConcat([s[0]], Oldest(s[1..]), p);
      SizeSelectConcat([s[0]], s[1..], p);
    }
  }

  lemma {:induction false} SelectSizeMonotone(s: seq<Recording>, p: Recording -> bool, q: Recording -> bool)
    requires forall r :: r in s && p(r) ==> q(r)
    ensures Size(Select(s, p)) <= Size(Select(s, q))
  {
    if s != [] {
      var n := |s| - 1;
      assert s[n] in s;
      SelectSizeMonotone(s[..n], p, q);
      SizeSnoc(Select(s[..n], p), s[n]);
      SizeSnoc(Select(s[..n], q), s[n]);
    }
  }

  lemma {:induction false} KeepIsSelect(s: seq<Recording>, limit: int)
    requires DistinctIds(s)
    ensures Select(s, r => r in Keep(s, limit)) == Keep(s, limit)
  {
    if s != [] {
      var n := |s| - 1;
      KeepIsSelect(s[..n], limit);
      forall r | r in s[..n] ensures r in Keep(s, limit) <==> r in Keep(s[..n], limit) {}
      SelectSame(s[..n], (r: Recording) => r in Keep(s, limit), (r: Recording) => r in Keep(s[..n], limit));
      if s[n] in Keep(s[..n], limit) {
        KeepMember(s[..n], limit, s[n]);
      }
    }
  }

  lemma {:induction false} KeepFits(s: seq<Recording>, limit: int)
    ensures Size(Keep(s, limit)) <= if limit >= 0 then limit else 0
  {
    if s != [] {
      var n := |s| - 1;
      KeepFits(s[..n], limit);
      SizeSnoc(Keep(s[..n], limit), s[n]);
    }
  }

  /** What fits is kept. */
  lemma {:induction false} KeepAll(s: seq<Recording>, limit: int)
    requires s == [] || Size(s) <= limit
    ensures Keep(s, limit) == s
  {
    if s != [] {
      var n := |s| - 1;
      KeepAll(s[..n], limit);
      assert s == s[..n] + [s[n]];
    }
  }

  /** The listed rows matching a rule, counted in the table. */
  lemma {:induction false} MatchingSize(t: seq<Recording>, rule: Rule, p: Recording -> bool)
    ensures Size(Select(Newest(Matching(ListReady(t), rule)), p))
         == Size(Select(t, (r: Recording) => r.ready && !r.locked && Matches(r, rule) && p(r)))
  {
    var listed := (r: Recording) => r.ready && !r.locked;
    var matches := (r: Recording) => Matches(r, rule);
    var both := (r: Recording) => Matches(r, rule) && p(r);
    NewestSize(Matching(ListReady(t), rule), p);
    SelectSelect(ListReady(t), matches, p, both);
    OldestSize(Select(t, listed), both);
    SelectSelect(t, listed, both, (r: Recording) => r.ready && !r.locked && Matches(r, rule) && p(r));
  }

  lemma SurvivorMember(t: seq<Recording>, rules: seq<Rule>, now: int, r: Recording)
    ensures r in Survivors(t, rules, now) <==> r in t && !Doomed(r, rules, ListReady(t), now)
  {
    SelectMember(t, (q: Recording) => !Doomed(q, rules, ListReady(t), now), r);
  }

  /** After cleanup the recordings matching a size rule fit its limit. */
  lemma SizeFits(t: seq<Recording>, rules: seq<Rule>, now: int, rule: Rule)
    requires Table(t) && rule in rules && rule.maxSizeGb.Some?
    ensures var limit := LimitBytes(rule.maxSizeGb.value);
      Size(Newest(Matching(ListReady(Survivors(t, rules, now)), rule))) <= if limit >= 0 then limit else 0
  {
    var limit := LimitBytes(rule.maxSizeGb.value);
    var rest := Survivors(t, rules, now);
    var kept := KeptBy(rule, ListReady(t));
    var sorted := Newest(Matching(ListReady(t), rule));
    var all := (r: Recording) => true;
    var alive := (r: Recording) => !Doomed(r, rules, ListReady(t), now);
    var listed := (r: Recording) => r.ready && !r.locked && Matches(r, rule) && all(r);
    var inKept := (r: Recording) => r in kept;
    var listedKept := (r: Recording) => r.ready && !r.locked && Matches(r, rule) && inKept(r);
    var listedAlive := (r: Recording) => alive(r) && listed(r);
    SelectAll(Newest(Matching(ListReady(rest), rule)), all);
    MatchingSize(rest, rule, all);
    SelectSelect(t, alive, listed, listedAlive);
    ListReadyFacts(t);
    forall r | r in t && listedAlive(r) ensures listedKept(r) {
      assert r in ListReady(t);
      assert !Condemns(rule, r, ListReady(t), now);
    }
    SelectSizeMonotone(t, listedAlive, listedKept);
    MatchingSize(t, rule, inKept);
    MatchingFacts(ListReady(t), rule);
    KeepIsSelect(sorted, limit);
    SelectSame(sorted, inKept, (r: Recording) => r in Keep(sorted, limit));
    KeepFits(sorted, limit);
  }

  /** Main result: with fixed rules and a fixed clock, cleanup is a fixpoint: nothing that survives it is
      condemned by a second preview. */
  lemma CleanupFixpoint(t: seq<Recording>, rules: seq<Rule>, now: int, r: Recording)
    requires Table(t)
    ensures !Doomed(r, rules, ListReady(Survivors(t, rules, now)), now)
  {
    var rest := Survivors(t, rules, now);
    TableKept(t, (q: Recording) => !Doomed(q, rules, ListReady(t), now));
    ListReadyFacts(t);
    ListReadyFacts(rest);
    SurvivorMember(t, rules, now, r);
    if r in ListReady(rest) {
      assert r in ListReady(t);
      forall rule | rule in rules ensures !Condemns(rule, r, ListReady(rest), now) {
        if Matches(r, rule) {
          assert !Condemns(rule, r, ListReady(t), now);
          if rule.maxSizeGb.Some? {
            NothingDropped(t, rules, now, rule, r);
          }
        }
      }
    }
  }

  lemma NothingDropped(t: seq<Recording>, rules: seq<Rule>, now: int, rule: Rule, r: Recording)
    requires Table(t) && rule in rules && rule.maxSizeGb.Some?
    requires r in ListReady(Survivors(t, rules, now)) && Matches(r, rule)
    ensures r in KeptBy(rule, ListReady(Survivors(t, rules, now)))
  {
    var limit := LimitBytes(rule.maxSizeGb.value);
    var rest := Survivors(t, rules, now);
    var sorted := Newest(Matching(ListReady(rest), rule));
    SizeFits(t, rules, now, rule);
    MatchingFacts(ListReady(rest), rule);
    if limit < 0 {
      NegativeLimit(t, rules, now, rule, r);
    } else {
      KeepAll(sorted, limit);
    }
  }

  /** A negative limit leaves nothing that matches. */
  lemma NegativeLimit(t: seq<Recording>, rules: seq<Rule>, now: int, rule: Rule, r: Recording)
    requires Table(t) && rule in rules && rule.maxSizeGb.Some? && LimitBytes(rule.maxSizeGb.value) < 0
    requires Matches(r, rule)
    ensures r !in ListReady(Survivors(t, rules, now))
  {
    var sorted := Newest(Matching(ListReady(t), rule));
    TableKept(t, (q: Recording) => !Doomed(q, rules, ListReady(t), now));
    ListReadyFacts(t);
    ListReadyFacts(Survivors(t, rules, now));
    SurvivorMember(t, rules, now, r);
    KeepNegative(sorted, LimitBytes(rule.maxSizeGb.value));
    if r in ListReady(t) {
      assert Condemns(rule, r, ListReady(t), now);
    }
  }

  lemma {:induction false} KeepNegative(s: seq<Recording>, limit: int)
    requires limit < 0
    ensures Keep(s, limit) == []
  {
    if s != [] { KeepNegative(s[..|s| - 1], limit); }
  }

  /** What a cleanup deletes and leaves: every deletion is justified by a rule in force, every listed
      recording condemned by a rule is deleted, locked and unfinished ones stay. */
  lemma CleanupExact(t: seq<Recording>, rules: seq<Rule>, now: int, r: Recording)
    requires Table(t) && r in t
    ensures r !in Survivors(t, rules, now) <==>
      r.ready && !r.locked && exists rule :: rule in rules && Condemns(rule, r, ListReady(t), now)
  {
    SurvivorMember(t, rules, now, r);
    ListReadyFacts(t);
  }

  /** No recording older than an age rule allows is left. */
  lemma NoneTooOld(t: seq<Recording>, rules: seq<Rule>, now: int, rule: Rule, r: Recording)
    requires Table(t) && rule in rules && r in Survivors(t, rules, now) && r.ready && !r.locked && Matches(r, rule)
    ensures !TooOld(r, rule, now)
  {
    SurvivorMember(t, rules, now, r);
    ListReadyFacts(t);
    assert !Condemns(rule, r, ListReady(t), now);
  }

  /** The outcome does not depend on the order of the rules, even where they overlap. */
  lemma RuleOrderIrrelevant(t: seq<Recording>, rules: seq<Rule>, rules': seq<Rule>, now: int)
    requires multiset(rules) == multiset(rules')
    ensures Survivors(t, rules, now) == Survivors(t, rules', now)
  {
    forall rule: Rule ensures rule in rules <==> rule in rules' {
      assert rule in rules <==> rule in multiset(rules);
      assert rule in rules' <==> rule in multiset(rules');
    }
    SelectSame(t, (r: Recording) => !Doomed(r, rules, ListReady(t), now), (r: Recording) => !Doomed(r, rules', ListReady(t), now));
  }

  // ----- the sort is stable -----

  function StartedAs(text: string): Recording -> bool { (r: Recording) => r.startedAt == text }

  lemma {:induction false} InsertNewestStable(x: Recording, s: seq<Recording>, text: string)
    ensures Select(InsertNewest(x, s), StartedAs(text)) == Select([x] + s, StartedAs(text))
  {
    hide TextLe;
    if s != [] && !TextLe(s[0].startedAt, x.startedAt) {
      TextReflexive(x.startedAt);
      InsertNewestStable(x, s[1..], text);
      PastOther(x, s[0], s[1..], InsertNewest(x, s[1..]), StartedAs(text));
      assert s == [s[0]] + s[1..];
    }
  }

  /** Two recordings of which at most one is selected may change places. */
  lemma {:induction false} PastOther(x: Recording, y: Recording, rest: seq<Recording>, done: seq<Recording>, p: Recording -> bool)
    requires !p(x) || !p(y)
    requires Select(done, p) == Select([x] + rest, p)
    ensures Select([y] + done, p) == Select([x] + ([y] + rest), p)
  {
    SelectConcat([y], done, p);
    SelectConcat([x], rest, p);
    SelectConcat([x], [y] + rest, p);
    SelectConcat([y], rest, p);
    assert Select([x], p) == [] || Select([y], p) == [];
  }

  lemma {:induction false} TextReflexive(a: string)
    ensures TextLe(a, a)
    decreases |a|
  {
    if a != [] { TextReflexive(a[1..]); }
  }

  /** Recordings with the same start text stay in the order of the list. */
  lemma {:induction false} NewestStable(s: seq<Recording>, text: string)
    ensures Select(Newest(s), StartedAs(text)) == Select(s, StartedAs(text))
  {
    if s != [] {
      var p := StartedAs(text);
      NewestStable(s[1..], text);
      InsertNewestStable(s[0], Newest(s[1..]), text);
      assert s == [s[0]] + s[1..];
      SelectConcat([s[0]], Newest(s[1..]), p);
      SelectConcat([s[0]], s[1..], p);
    }
  }

  // ----- which recordings a size rule keeps -----

  /** A choice of recordings of a list, position by position. */
  function Chosen(s: seq<Recording>, b: seq<bool>): seq<Recording>
    requires |b| == |s|
  {
    if s == [] then []
    else
      var n := |s| - 1;
      if b[n] then Chosen(s[..n], b[..n]) + [s[n]] else Chosen(s[..n], b[..n])
  }

  /** The choice the size rule makes. */
  function KeepBits(s: seq<Recording>, limit: int): (b: seq<bool>)
    ensures |b| == |s|
  {
    if s == [] then []
    else
      var n := |s| - 1;
      KeepBits(s[..n], limit) + [Size(Keep(s[..n], limit)) + s[n].size <= limit]
  }

  lemma {:induction false} KeepChosen(s: seq<Recording>, limit: int)
    ensures Chosen(s, KeepBits(s, limit)) == Keep(s, limit)
  {
    if s != [] {
      var n := |s| - 1;
      KeepChosen(s[..n], limit);
      assert KeepBits(s, limit)[..n] == KeepBits(s[..n], limit);
    }
  }

  /** a and b first differ at i, where a takes the recording. */
  ghost predicate TakesFirst(a: seq<bool>, b: seq<bool>, i: int) {
    0 <= i < |a| && i < |b| && (forall j :: 0 <= j < i ==> a[j] == b[j]) && a[i] && !b[i]
  }

  ghost predicate AtLeast(a: seq<bool>, b: seq<bool>) {
    a == b || exists i :: TakesFirst(a, b, i)
  }

  lemma AtLeastSnoc(a: seq<bool>, b: seq<bool>, x: bool, y: bool)
    requires |a| == |b| && AtLeast(a, b) && (a == b && y ==> x)
    ensures AtLeast(a + [x], b + [y])
  {
    if a != b {
      var i :| TakesFirst(a, b, i);
      assert TakesFirst(a + [x], b + [y], i);
    } else if x && !y {
      assert TakesFirst(a + [x], b + [y], |a|);
    }
  }

  lemma {:induction false} ChosenPrefix(s: seq<Recording>, b: seq<bool>, i: nat)
    requires |b| == |s| && i <= |s|
    ensures Size(Chosen(s[..i], b[..i])) <= Size(Chosen(s, b))
    decreases |s|
  {
    if i == |s| {
      assert s[..i] == s && b[..i] == b;
    } else {
      var n := |s| - 1;
      ChosenPrefix(s[..n], b[..n], i);
      assert s[..n][..i] == s[..i] && b[..n][..i] == b[..i];
      SizeSnoc(Chosen(s[..n], b[..n]), s[n]);
    }
  }

  /** A recording that a fitting choice takes, after choosing as the rule does, the rule takes too. */
  lemma TakesWhatFits(s: seq<Recording>, limit: int, b: seq<bool>)
    requires s != [] && |b| == |s| && Size(Chosen(s, b)) <= limit && b[|s| - 1] && KeepBits(s[..|s| - 1], limit) == b[..|s| - 1]
    ensures Size(Keep(s[..|s| - 1], limit)) + s[|s| - 1].size <= limit
  {
    var n := |s| - 1;
    KeepChosen(s[..n], limit);
    SizeSnoc(Keep(s[..n], limit), s[n]);
  }

  /** Main result: newest first, the size rule makes the lexicographically greatest choice that fits. */
  lemma {:induction false} KeepGreatest(s: seq<Recording>, limit: int, b: seq<bool>)
    requires |b| == |s| && Size(Chosen(s, b)) <= limit
    ensures AtLeast(KeepBits(s, limit), b)
    decreases |s|
  {
    if s != [] {
      hide AtLeast, Keep, Chosen, Size, KeepBits;
      var n := |s| - 1;
      var rest, bits, takes := b[..n], KeepBits(s[..n], limit), Size(Keep(s[..n], limit)) + s[n].size <= limit;
      ChosenPrefix(s, b, n);
      KeepGreatest(s[..n], limit, rest);
      if bits == rest && b[n] { TakesWhatFits(s, limit, b); }
      AtLeastSnoc(bits, rest, takes, b[n]);
      assert b == rest + [b[n]];
      KeepBitsSnoc(s, limit);
    }
  }

  lemma {:induction false} KeepBitsSnoc(s: seq<Recording>, limit: int)
    requires s != []
    ensures var n := |s| - 1;
      KeepBits(s, limit) == KeepBits(s[..n], limit) + [Size(Keep(s[..n], limit)) + s[n].size <= limit]
  {
  }

  /** And the choice is maximal: anything it drops would exceed the limit if added back. */
  lemma {:induction false} KeepMaximal(s: seq<Recording>, limit: int, r: Recording)
    requires r in s && r !in Keep(s, limit)
    ensures Size(Keep(s, limit)) + r.size > limit
  {
    var n := |s| - 1;
    SizeSnoc(Keep(s[..n], limit), s[n]);
    assert r == s[n] || r in s[..n];
    if r in s[..n] {
      KeepMaximal(s[..n], limit, r);
    }
  }
}
