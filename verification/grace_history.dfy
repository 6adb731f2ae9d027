/** Memories that forget a key once it has not been sighted for more than 3 seconds: what they hold after any
    sequence of updates, in terms of the sightings alone. */
module GraceHistory {
  /** One update: its time and the keys it sights. */
  datatype Update<K(==)> = Update(now: real, sighted: set<K>)

  /** The last update up to j that sights k, or -1. */
  function LastSighting<K(==)>(us: seq<Update<K>>, k: K, j: int): (r: int)
    requires j < |us|
    ensures -1 <= r && (r == -1 || r <= j)
    ensures r >= 0 ==> k in us[r].sighted
    ensures forall i :: r < i <= j && 0 <= i ==> k !in us[i].sighted
    decreases j + 1
  {
    if j < 0 then -1 else if k in us[j].sighted then j else LastSighting(us, k, j - 1)
  }

  lemma {:induction false} LastSightingSnoc<K>(us: seq<Update<K>>, u: Update<K>, k: K, j: int)
    requires j < |us|
    ensures LastSighting(us + [u], k, j) == LastSighting(us, k, j)
    decreases j + 1
  {
    if j >= 0 && k !in us[j].sighted { LastSightingSnoc(us, u, k, j - 1); }
  }

  /** Update j finds a sighting of k, at a or later, within the grace period. */
  predicate Covered<K(==)>(us: seq<Update<K>>, k: K, j: int)
    requires 0 <= j < |us|
  {
    LastSighting(us, k, j) >= 0 && us[j].now - us[LastSighting(us, k, j)].now <= 3.0
  }

  /** k is sighted by update a, and no later update finds it out of the grace period. */
  ghost predicate Alive<K>(us: seq<Update<K>>, k: K, a: int) {
    0 <= a < |us| && k in us[a].sighted && forall j :: a <= j < |us| ==> Covered(us, k, j)
  }

  lemma CoveredSnoc<K>(us: seq<Update<K>>, u: Update<K>, k: K, j: int)
    requires 0 <= j < |us|
    ensures Covered(us + [u], k, j) == Covered(us, k, j)
  {
    LastSightingSnoc(us, u, k, j);
  }

  lemma AliveSnoc<K>(us: seq<Update<K>>, u: Update<K>, k: K, a: int)
    requires a < |us|
    ensures Alive(us + [u], k, a) <==> Alive(us, k, a) && Covered(us + [u], k, |us|)
  {
    forall j | 0 <= j < |us| ensures Covered(us + [u], k, j) == Covered(us, k, j) {
      CoveredSnoc(us, u, k, j);
    }
    var all := us + [u];
    if Alive(us, k, a) && Covered(all, k, |us|) {
      assert all[a] == us[a];
    }
    if Alive(all, k, a) {
      assert forall j :: a <= j < |us| ==> Covered(all, k, j);
    }
  }

  /** a is the first update from which k has been alive, or -1 when there is none. */
  ghost predicate Since<K>(us: seq<Update<K>>, k: K, a: int) {
    && a >= -1
    && (a >= 0 ==> Alive(us, k, a))
    && (forall b :: 0 <= b < |us| && (a == -1 || b < a) ==> !Alive(us, k, b))
  }

  lemma SinceStep<K>(us: seq<Update<K>>, u: Update<K>, k: K, before: int) returns (a: int)
    requires Since(us, k, before)
    ensures Since(us + [u], k, a)
    ensures a == if !Covered(us + [u], k, |us|) then -1 else if before >= 0 then before
                 else if k in u.sighted then |us| else -1
  {
    var all := us + [u];
    assert all[|us|] == u;
    forall b | 0 <= b < |us| ensures Alive(all, k, b) <==> Alive(us, k, b) && Covered(all, k, |us|) {
      AliveSnoc(us, u, k, b);
    }
    if !Covered(all, k, |us|) {
      a := -1;
    } else if before >= 0 {
      a := before;
    } else {
      a := if k in u.sighted then |us| else -1;
    }
  }

  lemma {:induction false} SightedCovered<K>(us: seq<Update<K>>, k: K)
    requires us != []
    ensures var n := |us| - 1;
      LastSighting(us, k, n) == if k in us[n].sighted then n else LastSighting(us, k, n - 1)
    ensures k in us[|us| - 1].sighted ==> Covered(us, k, |us| - 1)
  {
  }

  ghost predicate Nondecreasing<K>(us: seq<Update<K>>) {
    forall i, j :: 0 <= i <= j < |us| ==> us[i].now <= us[j].now
  }

  lemma {:induction false} LastSightingPrefix<K>(us: seq<Update<K>>, n: nat, k: K, j: int)
    requires j < n <= |us|
    ensures LastSighting(us[..n], k, j) == LastSighting(us, k, j)
    decreases j + 1
  {
    if j >= 0 && k !in us[j].sighted { LastSightingPrefix(us, n, k, j - 1); }
  }

  lemma {:induction false} AlivePrefix<K>(us: seq<Update<K>>, n: nat, k: K, a: int)
    requires a < n <= |us|
    ensures Alive(us, k, a) ==> Alive(us[..n], k, a)
    ensures Alive(us[..n], k, a) && (forall j :: n <= j < |us| ==> Covered(us, k, j)) ==> Alive(us, k, a)
  {
    hide LastSighting;
    forall j | 0 <= j < n ensures Covered(us[..n], k, j) == Covered(us, k, j) {
      LastSightingPrefix(us, n, k, j);
    }
  }

  // ----- a table of last sightings -----

  const GRACE_SECONDS := 3.0

  function Lapsed<K>(seen: map<K, real>, now: real): set<K> {
    set k | k in seen && now - seen[k] > GRACE_SECONDS
  }

  function Refreshed<K>(seen: map<K, real>, sighted: set<K>, now: real): map<K, real> {
    map k | k in seen.Keys + sighted :: if k in sighted then now else seen[k]
  }

  /** The table after one update: the sighted keys are refreshed, then the lapsed ones dropped. */
  function SeenTick<K>(seen: map<K, real>, u: Update<K>): map<K, real> {
    var refreshed := Refreshed(seen, u.sighted, u.now);
    refreshed - Lapsed(refreshed, u.now)
  }

  function SeenRun<K>(us: seq<Update<K>>): map<K, real> {
    if us == [] then map[] else SeenTick(SeenRun(us[..|us| - 1]), us[|us| - 1])
  }

  /** Main result: a key is in the table exactly if some sighting of it has been alive ever since, with the time
      of the latest one. */
  lemma {:induction false} SeenExact<K>(us: seq<Update<K>>, k: K) returns (a: int)
    ensures Since(us, k, a)
    ensures k in SeenRun(us) <==> a >= 0
    ensures a >= 0 ==> a <= LastSighting(us, k, |us| - 1) && SeenRun(us)[k] == us[LastSighting(us, k, |us| - 1)].now
  {
    if us == [] {
      a := -1;
    } else {
      var n := |us| - 1;
      var before := SeenExact(us[..n], k);
      assert us == us[..n] + [us[n]];
      a := SinceStep(us[..n], us[n], k, before);
      SightedCovered(us, k);
      LastSightingSnoc(us[..n], us[n], k, n - 1);
    }
  }
}
