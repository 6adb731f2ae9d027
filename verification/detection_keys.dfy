/** Canonical detection classes and the trigger keys derived from them. */
module DetectionKeys {
  import opened Wrappers

  datatype Direction = In | Out

  const DETECTION_KEYS: set<string> := {"ai_person", "ai_vehicle", "ai_animal"}

  function Name(d: Direction): string { if d == In then "in" else "out" }

  /** `loitering_key_for` */
  function LoiteringKey(key: string): Option<string> {
    if key in DETECTION_KEYS then Some(key + "_loitering") else None
  }

  /** `line_crossing_key_for` */
  function CrossingKey(key: string, d: Direction): Option<string> {
    if key in DETECTION_KEYS then Some(key + "_line_" + Name(d)) else None
  }

  /** The keys of the label tables: class by class, each with its loitering key and its two crossing keys. */
  const TABLE: seq<(string, string, string, string)> := [
    ("ai_person", "ai_person_loitering", "ai_person_line_in", "ai_person_line_out"),
    ("ai_vehicle", "ai_vehicle_loitering", "ai_vehicle_line_in", "ai_vehicle_line_out"),
    ("ai_animal", "ai_animal_loitering", "ai_animal_line_in", "ai_animal_line_out")]

  /** The keys made for a class are those of its row; other classes have none. */
  lemma KeysExact(key: string)
    ensures forall i :: 0 <= i < |TABLE| && TABLE[i].0 == key ==>
      && LoiteringKey(key) == Some(TABLE[i].1)
      && CrossingKey(key, In) == Some(TABLE[i].2) && CrossingKey(key, Out) == Some(TABLE[i].3)
    ensures (forall i :: 0 <= i < |TABLE| ==> TABLE[i].0 != key) ==>
      LoiteringKey(key).None? && CrossingKey(key, In).None? && CrossingKey(key, Out).None?
  {
    assert "ai_person" == TABLE[0].0 && "ai_vehicle" == TABLE[1].0 && "ai_animal" == TABLE[2].0;
    assert "ai_person" + "_loitering" == TABLE[0].1;
    assert "ai_vehicle" + "_loitering" == TABLE[1].1;
    assert "ai_animal" + "_loitering" == TABLE[2].1;
    assert ("ai_person" + "_line_") + "in" == TABLE[0].2 && ("ai_person" + "_line_") + "out" == TABLE[0].3;
    assert ("ai_vehicle" + "_line_") + "in" == TABLE[1].2 && ("ai_vehicle" + "_line_") + "out" == TABLE[1].3;
    assert ("ai_animal" + "_line_") + "in" == TABLE[2].2 && ("ai_animal" + "_line_") + "out" == TABLE[2].3;
  }

  /** A loitering key names its class. */
  lemma LoiteringKeyInjective(a: string, b: string)
    requires LoiteringKey(a).Some? && LoiteringKey(a) == LoiteringKey(b)
    ensures a == b
  {
    var s := LoiteringKey(a).value;
    assert s[..|s| - |"_loitering"|] == a;
    assert s[..|s| - |"_loitering"|] == b;
  }

  /** A crossing key names its class and its direction. */
  lemma CrossingKeyInjective(a: string, d: Direction, b: string, e: Direction)
    requires CrossingKey(a, d).Some? && CrossingKey(a, d) == CrossingKey(b, e)
    ensures a == b && d == e
  {
    var s := CrossingKey(a, d).value;
    assert s[|s| - 1] == if d == In then 'n' else 't';
    assert s[|s| - 1] == if e == In then 'n' else 't';
    assert s[..|s| - |"_line_" + Name(d)|] == a;
    assert s[..|s| - |"_line_" + Name(d)|] == b;
  }
}
