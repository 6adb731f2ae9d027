/** Retention cleanup: which recordings age and size rules delete. */
module Retention {
  import opened Wrappers

  /** `startedAt` is the stored text, by which recordings are sorted; `startedTime` is that text parsed,
      in microseconds, with the earliest time for text that does not parse. */
  datatype Recording = Recording(
    id: int, camera: int, key: string, storage: int, startedAt: string, startedTime: int, size: nat, ready: bool, locked: bool)

  datatype Rule = Rule(
    enabled: bool, camera: Option<int>, key: string, storage: Option<int>, maxAgeDays: Option<int>, maxSizeGb: Option<real>)

  datatype Target = Target(id: int, days: Option<int>, maxGb: Option<real>)

  const DAY := 86_400_000_000
  const BYTES_PER_GB := 1_073_741_824.0

  // ----- text order and stable sorting -----

  predicate TextLe(a: string, b: string)
    decreases |a|
  {
    a == [] || (b != [] && (a[0] < b[0] || (a[0] == b[0] && TextLe(a[1..], b[1..]))))
  }

  lemma {:induction false} TextTotal(a: string, b: string)
    ensures TextLe(a, b) || TextLe(b, a)
    decreases |a|
  {
    if a != [] && b != [] && a[0] == b[0] { TextTotal(a[1..], b[1..]); }
  }

  lemma {:induction false} TextTransitive(a: string, b: string, c: string)
    requires TextLe(a, b) && TextLe(b, c)
    ensures TextLe(a, c)
    decreases |a|
  {
    if a != [] && a[0] == b[0] && b[0] == c[0] { TextTransitive(a[1..], b[1..], c[1..]); }
  }

  /** a comes before b: a is a proper beginning of b, or at the first place where they differ a has the smaller
      character. */
  ghost predicate Before(a: string, b: string) { a < b || exists i :: SmallerAt(a, b, i) }

  ghost predicate SmallerAt(a: string, b: string, i: int) {
    0 <= i < |a| && i < |b| && a[..i] == b[..i] && a[i] < b[i]
  }

  lemma {:induction false} BeforeCons(c: char, a: string, b: string)
    ensures Before([c] + a, [c] + b) <==> Before(a, b)
  {
    var ca, cb := [c] + a, [c] + b;
    assert ca[1..] == a && cb[1..] == b;
    if ca < cb {
      assert forall i :: 0 <= i < |a| ==> a[i] == ca[i + 1] && b[i] == cb[i + 1];
    }
    if i :| SmallerAt(ca, cb, i) {
      assert i != 0;
      assert a[..i - 1] == ca[..i][1..] && b[..i - 1] == cb[..i][1..];
      assert SmallerAt(a, b, i - 1);
    }
    if i :| SmallerAt(a, b, i) {
      assert ca[..i + 1] == [c] + a[..i] && cb[..i + 1] == [c] + b[..i];
      assert SmallerAt(ca, cb, i + 1);
    }
  }

  lemma SameFirst(a: string, b: string, i: int)
    requires SmallerAt(a, b, i)
    ensures i == 0 || a[0] == b[0]
  {
    if i > 0 { assert a[..i][0] == b[..i][0]; }
  }

  /** The order of the sort keys is that of texts, character by character. */
  lemma {:induction false} TextLeExact(a: string, b: string)
    ensures TextLe(a, b) <==> a == b || Before(a, b)
    decreases |a|
  {
    if a != [] && b != [] {
      if a[0] == b[0] {
        TextLeExact(a[1..], b[1..]);
        BeforeCons(a[0], a[1..], b[1..]);
        assert a == [a[0]] + a[1..] && b == [b[0]] + b[1..];
      } else if a[0] < b[0] {
        assert SmallerAt(a, b, 0);
      } else {
        forall i | SmallerAt(a, b, i) ensures i == 0 || a[0] == b[0] { SameFirst(a, b, i); }
      }
    }
  }

  lemma {:induction false} TextAntisymmetric(a: string, b: string)
    requires TextLe(a, b) && TextLe(b, a)
    ensures a == b
    decreases |a|
  {
    if a != [] {
      TextAntisymmetric(a[1..], b[1..]);
      assert a == [a[0]] + a[1..] && b == [b[0]] + b[1..];
    }
  }

  /** No text comes before itself or both ways. */
  lemma {:induction false} BeforeStrict(a: string, b: string)
    requires Before(a, b)
    ensures a != b && !Before(b, a)
  {
    TextLeExact(a, b);
    TextLeExact(b, a);
    if Before(b, a) { TextAntisymmetric(a, b); }
  }

  function InsertNewest(x: Recording, s: seq<Recording>): seq<Recording> {
    if s == [] || TextLe(s[0].startedAt, x.startedAt) then [x] + s else [s[0]] + InsertNewest(x, s[1..])
  }

  /** Newest first; recordings with the same text keep their order. */
  function Newest(s: seq<Recording>): seq<Recording> {
    if s == [] then [] else InsertNewest(s[0], Newest(s[1..]))
  }

  function InsertOldest(x: Recording, s: seq<Recording>): seq<Recording> {
    if s == [] || TextLe(x.startedAt, s[0].startedAt) then [x] + s else [s[0]] + InsertOldest(x, s[1..])
  }

  /** Oldest first; recordings with the same text keep their order. */
  function Oldest(s: seq<Recording>): seq<Recording> {
    if s == [] then [] else InsertOldest(s[0], Oldest(s[1..]))
  }

  ghost predicate Chronological(s: seq<Recording>) {
    forall i, j :: 0 <= i < j < |s| ==> TextLe(s[i].startedAt, s[j].startedAt)
  }

  ghost predicate NewestFirst(s: seq<Recording>) {
    forall i, j :: 0 <= i < j < |s| ==> TextLe(s[j].startedAt, s[i].startedAt)
  }

  lemma {:induction false} ChronologicalExact(s: seq<Recording>)
    ensures Chronological(s) <==> forall i, j :: 0 <= i < j < |s| ==> !Before(s[j].startedAt, s[i].startedAt)
    ensures NewestFirst(s) <==> forall i, j :: 0 <= i < j < |s| ==> !Before(s[i].startedAt, s[j].startedAt)
  {
    hide Before;
    forall i, j | 0 <= i < |s| && 0 <= j < |s|
      ensures TextLe(s[i].startedAt, s[j].startedAt) <==> !Before(s[j].startedAt, s[i].startedAt)
    {
      NotAfter(s[i].startedAt, s[j].startedAt);
    }
  }

  lemma {:induction false} NotAfter(a: string, b: string)
    ensures TextLe(a, b) <==> !Before(b, a)
  {
    TextLeExact(a, b);
    TextLeExact(b, a);
    TextTotal(a, b);
    if Before(b, a) { BeforeStrict(b, a); }
  }

  // ----- rules -----

  predicate Matches(r: Recording, rule: Rule) {
    && (rule.camera.Some? ==> r.camera == rule.camera.value)
    && (rule.key != "" ==> r.key == rule.key)
    && (rule.storage.Some? ==> r.storage == rule.storage.value)
  }

  function Select(s: seq<Recording>, p: Recording -> bool): seq<Recording> {
    if s == [] then []
    else if p(s[|s| - 1]) then Select(s[..|s| - 1], p) + [s[|s| - 1]]
    else Select(s[..|s| - 1], p)
  }

  function Matching(s: seq<Recording>, rule: Rule): seq<Recording> { Select(s, (r: Recording) => Matches(r, rule)) }

  /** `int(...)` of a float: truncation toward zero. */
  function Trunc(x: real): int { if x >= 0.0 then x.Floor else -((-x).Floor) }

  function LimitBytes(gb: real): int { Trunc(gb * BYTES_PER_GB) }

  function Size(s: seq<Recording>): nat {
    if s == [] then 0 else Size(s[..|s| - 1]) + s[|s| - 1].size
  }

  /** What a size limit keeps of a list, in the order of the list. */
  function Keep(s: seq<Recording>, limit: int): seq<Recording> {
    if s == [] then []
    else
      var n := |s| - 1;
      var before := Keep(s[..n], limit);
      if Size(before) + s[n].size <= limit then before + [s[n]] else before
  }

  function KeptBy(rule: Rule, s: seq<Recording>): seq<Recording>
    requires rule.maxSizeGb.Some?
  {
    Keep(Newest(Matching(s, rule)), LimitBytes(rule.maxSizeGb.value))
  }

  predicate TooOld(r: Recording, rule: Rule, now: int) {
    rule.maxAgeDays.Some? && r.startedTime < now - rule.maxAgeDays.value * DAY
  }

  predicate TooMuch(r: Recording, rule: Rule, s: seq<Recording>) {
    rule.maxSizeGb.Some? && r !in KeptBy(rule, s)
  }

  /** The rule deletes r from the listed recordings s. */
  predicate Condemns(rule: Rule, r: Recording, s: seq<Recording>, now: int) {
    Matches(r, rule) && (TooOld(r, rule, now) || TooMuch(r, rule, s))
  }

  ghost predicate Doomed(r: Recording, rules: seq<Rule>, s: seq<Recording>, now: int) {
    r in s && exists rule :: rule in rules && Condemns(rule, r, s, now)
  }

  /** The rules in force: the enabled ones, then one per storage target with a limit. */
  function TargetRules(targets: seq<Target>): seq<Rule> {
    if targets == [] then []
    else
      var t := targets[|targets| - 1];
      var before := TargetRules(targets[..|targets| - 1]);
      if t.days.None? && t.maxGb.None? then before
      else before + [Rule(true, None, "", Some(t.id), t.days, t.maxGb)]
  }

  function EnabledRules(rules: seq<Rule>): seq<Rule> {
    if rules == [] then []
    else
      var r := rules[|rules| - 1];
      if r.enabled then EnabledRules(rules[..|rules| - 1]) + [r] else EnabledRules(rules[..|rules| - 1])
  }

  function EffectiveRules(rules: seq<Rule>, targets: seq<Target>): seq<Rule> {
    EnabledRules(rules) + TargetRules(targets)
  }

  /** The rule that a storage target with a limit stands for. */
  predicate StandsFor(t: Target, rule: Rule) {
    && (t.days.Some? || t.maxGb.Some?)
    && rule.enabled && rule.camera.None? && rule.key == "" && rule.storage == Some(t.id)
    && rule.maxAgeDays == t.days && rule.maxSizeGb == t.maxGb
  }

  /** A rule is in force exactly if it is an enabled one or stands for a target with a limit. */
  lemma {:induction false} InForceExactly(rules: seq<Rule>, targets: seq<Target>, rule: Rule)
    ensures rule in EffectiveRules(rules, targets) <==>
      (rule in rules && rule.enabled) || exists t :: t in targets && StandsFor(t, rule)
  {
    EnabledExactly(rules, rule);
    TargetExactly(targets, rule);
  }

  lemma {:induction false} EnabledExactly(rules: seq<Rule>, rule: Rule)
    ensures rule in EnabledRules(rules) <==> rule in rules && rule.enabled
  {
    if rules != [] {
      var n := |rules| - 1;
      EnabledExactly(rules[..n], rule);
      assert rule in rules <==> rule in rules[..n] || rule == rules[n];
    }
  }

  lemma {:induction false} TargetExactly(targets: seq<Target>, rule: Rule)
    ensures rule in TargetRules(targets) <==> exists t :: t in targets && StandsFor(t, rule)
  {
    if targets != [] {
      var n := |targets| - 1;
      var t, rest := targets[n], targets[..n];
      TargetExactly(rest, rule);
      if t.days.Some? || t.maxGb.Some? {
        assert StandsFor(t, rule) <==> rule == Rule(true, None, "", Some(t.id), t.days, t.maxGb);
        assert TargetRules(targets) == TargetRules(rest) + [Rule(true, None, "", Some(t.id), t.days, t.maxGb)];
      }
      assert forall t :: t in targets <==> t in targets[..n] || t == targets[n];
    }
  }

  // ----- facts about lists -----

  lemma {:induction false} SelectMember(s: seq<Recording>, p: Recording -> bool, r: Recording)
    ensures r in Select(s, p) <==> r in s && p(r)
  {
    if s != [] {
      var n := |s| - 1;
      SelectMember(s[..n], p, r);
      assert r in s <==> r in s[..n] || r == s[n];
    }
  }

  lemma {:induction false} NewestMember(s: seq<Recording>, r: Recording)
    ensures r in Newest(s) <==> r in s
  {
    if s != [] {
      NewestMember(s[1..], r);
      InsertNewestMember(s[0], Newest(s[1..]), r);
      assert r in s <==> r == s[0] || r in s[1..];
    }
  }

  lemma {:induction false} InsertNewestMember(x: Recording, s: seq<Recording>, r: Recording)
    ensures r in InsertNewest(x, s) <==> r == x || r in s
  {
    if s != [] && !TextLe(s[0].startedAt, x.startedAt) {
      InsertNewestMember(x, s[1..], r);
      assert r in s <==> r == s[0] || r in s[1..];
    }
  }

  lemma {:induction false} OldestMember(s: seq<Recording>, r: Recording)
    ensures r in Oldest(s) <==> r in s
  {
    if s != [] {
      OldestMember(s[1..], r);
      InsertOldestMember(s[0], Oldest(s[1..]), r);
      assert r in s <==> r == s[0] || r in s[1..];
    }
  }

  lemma {:induction false} InsertOldestMember(x: Recording, s: seq<Recording>, r: Recording)
    ensures r in InsertOldest(x, s) <==> r == x || r in s
  {
    if s != [] && !TextLe(x.startedAt, s[0].startedAt) {
      InsertOldestMember(x, s[1..], r);
      assert r in s <==> r == s[0] || r in s[1..];
    }
  }

  lemma {:induction false} InsertOldestSorted(x: Recording, s: seq<Recording>)
    requires Chronological(s)
    ensures Chronological(InsertOldest(x, s))
  {
    if s == [] {
    } else if TextLe(x.startedAt, s[0].startedAt) {
      forall i | 0 <= i < |s| ensures TextLe(x.startedAt, s[i].startedAt) {
        if i > 0 { TextTransitive(x.startedAt, s[0].startedAt, s[i].startedAt); }
      }
    } else {
      InsertOldestSorted(x, s[1..]);
      var rest := InsertOldest(x, s[1..]);
      forall i | 0 <= i < |rest| ensures TextLe(s[0].startedAt, rest[i].startedAt) {
        InsertOldestMember(x, s[1..], rest[i]);
        TextTotal(s[0].startedAt, x.startedAt);
        if rest[i] in s[1..] {
          var j :| 0 <= j < |s[1..]| && s[1..][j] == rest[i];
          assert s[j + 1] == rest[i];
        }
      }
    }
  }

  lemma {:induction false} OldestSorted(s: seq<Recording>)
    ensures Chronological(Oldest(s))
  {
    if s != [] {
      OldestSorted(s[1..]);
      InsertOldestSorted(s[0], Oldest(s[1..]));
    }
  }

  lemma {:induction false} InsertNewestSorted(x: Recording, s: seq<Recording>)
    requires NewestFirst(s)
    ensures NewestFirst(InsertNewest(x, s))
  {
    if s == [] {
    } else if TextLe(s[0].startedAt, x.startedAt) {
      forall i | 0 <= i < |s| ensures TextLe(s[i].startedAt, x.startedAt) {
        if i > 0 { TextTransitive(s[i].startedAt, s[0].startedAt, x.startedAt); }
      }
    } else {
      InsertNewestSorted(x, s[1..]);
      var rest := InsertNewest(x, s[1..]);
      forall i | 0 <= i < |rest| ensures TextLe(rest[i].startedAt, s[0].startedAt) {
        InsertNewestMember(x, s[1..], rest[i]);
        TextTotal(s[0].startedAt, x.startedAt);
        if rest[i] in s[1..] {
          var j :| 0 <= j < |s[1..]| && s[1..][j] == rest[i];
          assert s[j + 1] == rest[i];
        }
      }
    }
  }

  lemma {:induction false} NewestSorted(s: seq<Recording>)
    ensures NewestFirst(Newest(s))
    ensures forall i, j :: 0 <= i < j < |Newest(s)| ==> !Before(Newest(s)[i].startedAt, Newest(s)[j].startedAt)
  {
    hide Before;
    ChronologicalExact(Newest(s));
    if s != [] {
      NewestSorted(s[1..]);
      InsertNewestSorted(s[0], Newest(s[1..]));
    }
  }

  ghost predicate DistinctIds(s: seq<Recording>) {
    forall i, j :: 0 <= i < j < |s| ==> s[i].id != s[j].id
  }

  // ----- the preview -----

  lemma {:induction false} KeepNext(s: seq<Recording>, limit: int, i: nat)
    requires i < |s|
    ensures Keep(s[..i + 1], limit)
      == if Size(Keep(s[..i], limit)) + s[i].size <= limit then Keep(s[..i], limit) + [s[i]] else Keep(s[..i], limit)
  {
    assert s[..i + 1][..i] == s[..i];
  }

  lemma {:induction false} SizeSnoc(s: seq<Recording>, r: Recording)
    ensures Size(s + [r]) == Size(s) + r.size
  {
    assert (s + [r])[..|s|] == s;
  }

  lemma {:induction false} KeepMember(s: seq<Recording>, limit: int, r: Recording)
    requires r in Keep(s, limit)
    ensures r in s
  {
    var n := |s| - 1;
    if r in Keep(s[..n], limit) { KeepMember(s[..n], limit, r); }
  }

  /** With distinct recordings, the decision taken at position i is final. */
  lemma {:induction false} KeepFinal(s: seq<Recording>, limit: int, i: nat)
    requires i < |s| && DistinctIds(s)
    ensures s[i] in Keep(s, limit) <==> Size(Keep(s[..i], limit)) + s[i].size <= limit
  {
    var n := |s| - 1;
    if i == n {
      if s[n] in Keep(s[..n], limit) {
        KeepMember(s[..n], limit, s[n]);
        assert false;
      }
    } else {
      assert s[..n][..i] == s[..i];
      KeepFinal(s[..n], limit, i);
    }
  }

  lemma {:induction false} InsertNewestDistinct(x: Recording, s: seq<Recording>)
    requires DistinctIds(s) && forall r :: r in s ==> r.id != x.id
    ensures DistinctIds(InsertNewest(x, s))
  {
    if s != [] && !TextLe(s[0].startedAt, x.startedAt) {
      InsertNewestDistinct(x, s[1..]);
      var rest := InsertNewest(x, s[1..]);
      forall i | 0 <= i < |rest| ensures rest[i].id != s[0].id {
        InsertNewestMember(x, s[1..], rest[i]);
        if rest[i] in s[1..] {
          var j :| 0 <= j < |s[1..]| && s[1..][j] == rest[i];
          assert s[j + 1] == rest[i];
        }
      }
    }
  }

  lemma {:induction false} NewestDistinct(s: seq<Recording>)
    requires DistinctIds(s)
    ensures DistinctIds(Newest(s))
  {
    if s != [] {
      NewestDistinct(s[1..]);
      forall r | r in Newest(s[1..]) ensures r.id != s[0].id {
        NewestMember(s[1..], r);
        var j :| 0 <= j < |s[1..]| && s[1..][j] == r;
        assert s[j + 1] == r;
      }
      InsertNewestDistinct(s[0], Newest(s[1..]));
    }
  }

  lemma {:induction false} SelectDistinct(s: seq<Recording>, p: Recording -> bool)
    requires DistinctIds(s)
    ensures DistinctIds(Select(s, p))
  {
    if s != [] {
      var n := |s| - 1;
      SelectDistinct(s[..n], p);
      forall r | r in Select(s[..n], p) ensures r.id != s[n].id {
        SelectMember(s[..n], p, r);
      }
    }
  }

  lemma {:induction false} OldestDistinct(s: seq<Recording>)
    requires DistinctIds(s)
    ensures DistinctIds(Oldest(s))
  {
    if s != [] {
      OldestDistinct(s[1..]);
      forall r | r in Oldest(s[1..]) ensures r.id != s[0].id {
        OldestMember(s[1..], r);
        var j :| 0 <= j < |s[1..]| && s[1..][j] == r;
        assert s[j + 1] == r;
      }
      InsertOldestDistinct(s[0], Oldest(s[1..]));
    }
  }

  lemma {:induction false} InsertOldestDistinct(x: Recording, s: seq<Recording>)
    requires DistinctIds(s) && forall r :: r in s ==> r.id != x.id
    ensures DistinctIds(InsertOldest(x, s))
  {
    if s != [] && !TextLe(x.startedAt, s[0].startedAt) {
      InsertOldestDistinct(x, s[1..]);
      var rest := InsertOldest(x, s[1..]);
      forall i | 0 <= i < |rest| ensures rest[i].id != s[0].id {
        InsertOldestMember(x, s[1..], rest[i]);
        if rest[i] in s[1..] {
          var j :| 0 <= j < |s[1..]| && s[1..][j] == rest[i];
          assert s[j + 1] == rest[i];
        }
      }
    }
  }
}
