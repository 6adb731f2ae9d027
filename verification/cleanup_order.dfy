/** Which recordings a cleanup prefers and what it deletes, with texts, sizes and times spelled out. */
module CleanupOrder {
  import opened Wrappers
  import opened Retention
  import opened Cleanup

  // ----- a size rule prefers newer recordings -----

  lemma {:induction false} KeepPrefix(s: seq<Recording>, limit: int, i: nat, j: nat)
    requires i <= j <= |s|
    ensures Size(Keep(s[..i], limit)) <= Size(Keep(s[..j], limit))
  {
    hide Keep, Size;
    if i < j {
      KeepPrefix(s, limit, i, j - 1);
      KeepNext(s, limit, j - 1);
      SizeSnoc(Keep(s[..j - 1], limit), s[j - 1]);
    }
  }

  /** If a size rule keeps a recording, it keeps every newer one that is no larger. */
  lemma {:induction false} NewerKept(s: seq<Recording>, rule: Rule, q: Recording, r: Recording)
    requires DistinctIds(s) && rule.maxSizeGb.Some? && q in s && r in s && Matches(q, rule) && Matches(r, rule)
    requires Before(r.startedAt, q.startedAt) && q.size <= r.size && r in KeptBy(rule, s)
    ensures q in KeptBy(rule, s)
  {
    hide Keep, Matching, Matches, Before;
    var sorted, limit := Newest(Matching(s, rule)), LimitBytes(rule.maxSizeGb.value);
    MatchingFacts(s, rule);
    NewestSorted(Matching(s, rule));
    var i :| 0 <= i < |sorted| && sorted[i] == q;
    var j :| 0 <= j < |sorted| && sorted[j] == r;
    KeepFinal(sorted, limit, i);
    KeepFinal(sorted, limit, j);
    KeepPrefix(sorted, limit, i, j);
  }

  /** Main result: a cleanup never prefers the older recording: if one survives, so does every finished recording
      that is newer by its text and its time, no larger, and subject to no rule the older one escapes. */
  lemma {:induction false} NewerSurvives(t: seq<Recording>, rules: seq<Rule>, now: int, q: Recording, r: Recording)
    requires Table(t) && q in t && r in Survivors(t, rules, now) && r.ready && !r.locked
    requires Before(r.startedAt, q.startedAt) && r.startedTime <= q.startedTime && q.size <= r.size
    requires forall rule :: rule in rules && Matches(q, rule) ==> Matches(r, rule)
    ensures q in Survivors(t, rules, now)
  {
    hide KeptBy, Matches, Before;
    SurvivorMember(t, rules, now, q);
    SurvivorMember(t, rules, now, r);
    ListReadyFacts(t);
    if q in ListReady(t) {
      forall rule | rule in rules ensures !Condemns(rule, q, ListReady(t), now) {
        assert !Condemns(rule, r, ListReady(t), now);
        if rule.maxSizeGb.Some? && Matches(q, rule) { NewerKept(ListReady(t), rule, q, r); }
      }
    }
  }

  // ----- limits in bytes and microseconds -----

  /** A size in bytes is within the limit exactly if it is within the gigabytes asked for; a limit less than a
      byte below zero still counts as zero. */
  lemma LimitExact(gb: real, n: nat)
    ensures n <= LimitBytes(gb) <==> n as real <= gb * 1_073_741_824.0 || (n == 0 && gb * 1_073_741_824.0 > -1.0)
  {
    var x := gb * BYTES_PER_GB;
    assert x.Floor as real <= x < x.Floor as real + 1.0;
    assert (-x).Floor as real <= -x < (-x).Floor as real + 1.0;
  }

  /** The rule is for the camera, the key and the storage of the recording, or leaves them open. */
  predicate IsFor(rule: Rule, camera: int, key: string, storage: int) {
    rule.camera in {None, Some(camera)} && rule.key in {"", key} && rule.storage in {None, Some(storage)}
  }

  /** The recordings a size rule weighs: those it is for, newest first, equal texts in the order of the list. */
  ghost predicate Weighs(rule: Rule, s: seq<Recording>, sorted: seq<Recording>) {
    && (forall r :: r in sorted <==> r in s && IsFor(rule, r.camera, r.key, r.storage))
    && (forall i, j :: 0 <= i < j < |sorted| ==> !Before(sorted[i].startedAt, sorted[j].startedAt))
    && (forall text :: Select(sorted, StartedAs(text)) == Select(Matching(s, rule), StartedAs(text)))
  }

  lemma {:induction false} KeptOfWeighed(rule: Rule, s: seq<Recording>)
    requires rule.maxSizeGb.Some?
    ensures exists sorted :: Weighs(rule, s, sorted) && KeptBy(rule, s) == Keep(sorted, LimitBytes(rule.maxSizeGb.value))
  {
    hide Before, Keep, Matching, LimitBytes, Newest;
    var sorted := Newest(Matching(s, rule));
    MatchingFacts(s, rule);
    NewestSorted(Matching(s, rule));
    forall text ensures Select(sorted, StartedAs(text)) == Select(Matching(s, rule), StartedAs(text)) {
      NewestStable(Matching(s, rule), text);
    }
    assert forall r :: r in sorted <==> r in s && IsFor(rule, r.camera, r.key, r.storage);
    assert Weighs(rule, s, sorted);
  }

  /** Main result: what a cleanup deletes: the finished and unlocked recordings for which some rule in force is,
      and which that rule finds more than its days of 86 400 seconds old, or does not keep. */
  lemma {:induction false} DeletedExactly(t: seq<Recording>, rules: seq<Rule>, now: int, r: Recording)
    requires Table(t) && r in t
    ensures r !in Survivors(t, rules, now) <==>
      r.ready && !r.locked && exists rule ::
        rule in rules && IsFor(rule, r.camera, r.key, r.storage) &&
        ((rule.maxAgeDays.Some? && r.startedTime + rule.maxAgeDays.value * 86_400_000_000 < now) ||
        (rule.maxSizeGb.Some? && r !in KeptBy(rule, ListReady(t))))
  {
    hide KeptBy, Survivors, ListReady;
    CleanupExact(t, rules, now, r);
    forall rule ensures Matches(r, rule) <==> IsFor(rule, r.camera, r.key, r.storage) {}
  }
}
