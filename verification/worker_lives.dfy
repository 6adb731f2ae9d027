/** The stored crossing counts over several lives of a camera's worker. A worker is started anew after failed
    frames, after an edit of its zones and after a restart of the server; the counts stay. */
module WorkerLives {
  import opened Tracking
  import DetectionKeys
  import Zones
  import opened LineCrossing
  import CrossingLaws
  import opened Pipeline
  import opened PipelineLaws

  /** One life: the counts found at its start, its zones and its frames. */
  datatype Life = Life(found: Counts, zones: seq<Zones.Zone>, inputs: seq<Input>)

  function Left(p: Params, life: Life): Counts { RunWorker(p, life.zones, life.found, life.inputs).counts }

  function Atoms(p: Params, life: Life): seq<Atom> { LineAtoms(p, life.zones, life.inputs) }

  /** Each life finds the counts of zone id as the one before left them. Other zones have other workers. */
  ghost predicate HandedOn(p: Params, lives: seq<Life>, id: int) {
    forall i, d :: 0 < i < |lives| ==> Stored(lives[i].found, id, d) == Stored(Left(p, lives[i - 1]), id, d)
  }

  /** The crossings of a zone in one direction reported in all lives together. */
  function AllTallies(p: Params, lives: seq<Life>, id: int, d: DetectionKeys.Direction): nat {
    if lives == [] then 0
    else
      var n := |lives| - 1;
      AllTallies(p, lives[..n], id, d) + Tally(ApplyAll(EMPTY, Atoms(p, lives[n])).events, id, d)
  }

  lemma {:induction false} HandedOnPrefix(p: Params, lives: seq<Life>, id: int)
    requires lives != [] && HandedOn(p, lives, id)
    ensures HandedOn(p, lives[..|lives| - 1], id)
  {
  }

  /** Main result: the stored count of a zone and a direction is what it was before the first life plus every
      crossing reported since, in whichever life. */
  lemma {:induction false} StoredTotal(p: Params, lives: seq<Life>, id: int, d: DetectionKeys.Direction)
    requires lives != [] && HandedOn(p, lives, id)
    ensures Stored(Left(p, lives[|lives| - 1]), id, d) == Stored(lives[0].found, id, d) + AllTallies(p, lives, id, d)
  {
    hide RunWorker, ApplyAll, LineAtoms, Tally;
    var n := |lives| - 1;
    LineRun(p, lives[n].zones, lives[n].found, lives[n].inputs, id, d);
    if n > 0 {
      HandedOnPrefix(p, lives, id);
      StoredTotal(p, lives[..n], id, d);
    } else {
      assert lives[..0] == [];
    }
  }

  /** A life in which z is a line of its own and all moves across it are faithful. */
  ghost predicate Fair(p: Params, life: Life, z: Zones.Zone)
    requires IsLine(z)
  {
    && z in life.zones && (forall y :: y in life.zones && y.id == z.id ==> y == z)
    && CrossingLaws.AllFaithful(EMPTY, Atoms(p, life), z)
  }

  /** What a life adds to #in - #out: the tracks inside at its end, less those first seen inside, plus those
      forgotten inside. */
  function Share(p: Params, life: Life, z: Zones.Zone): int
    requires IsLine(z)
  {
    |CrossingLaws.Inside(RunWorker(p, life.zones, life.found, life.inputs).memory, z)|
    - CrossingLaws.Entered(EMPTY, Atoms(p, life), z) + CrossingLaws.Forgotten(EMPTY, Atoms(p, life), z)
  }

  function Shares(p: Params, lives: seq<Life>, z: Zones.Zone): int
    requires IsLine(z)
  {
    if lives == [] then 0 else Shares(p, lives[..|lives| - 1], z) + Share(p, lives[|lives| - 1], z)
  }

  /** Main result: over any number of fair lives the stored #in - #out changes by the sum of their shares. */
  lemma {:induction false} StoredOccupancy(p: Params, lives: seq<Life>, z: Zones.Zone)
    requires lives != [] && IsLine(z) && HandedOn(p, lives, z.id)
    requires forall i :: 0 <= i < |lives| ==> Fair(p, lives[i], z)
    ensures StoredNet(Left(p, lives[|lives| - 1]), z.id) == StoredNet(lives[0].found, z.id) + Shares(p, lives, z)
  {
    hide RunWorker, LineAtoms, CrossingLaws.AllFaithful, CrossingLaws.Entered, CrossingLaws.Forgotten, CrossingLaws.Inside;
    var n := |lives| - 1;
    assert Fair(p, lives[n], z);
    WorkerOccupancy(p, lives[n].zones, lives[n].found, lives[n].inputs, z);
    if n > 0 {
      HandedOnPrefix(p, lives, z.id);
      StoredOccupancy(p, lives[..n], z);
    } else {
      assert lives[..0] == [];
    }
  }
}
