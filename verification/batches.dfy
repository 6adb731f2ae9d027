/** Packing locale values into requests, joined by a separator, and splitting the answers again. */
module Batches {
  import opened Placeholders

  /** A key with the text to send. */
  datatype Item = Item(key: string, text: string)

  const SEPARATOR := ['\n', '\U{241E}', '\n']
  const MAX_BATCH_CHARS := 4400

  function Texts(batch: seq<Item>): (r: seq<string>)
    ensures |r| == |batch| && forall i :: 0 <= i < |batch| ==> r[i] == batch[i].text
  {
    seq(|batch|, i requires 0 <= i < |batch| => batch[i].text)
  }

  // ----- join and split -----

  /** `SEPARATOR.join(values)` */
  function Join(values: seq<string>): string {
    if values == [] then "" else if |values| == 1 then values[0]
    else values[0] + SEPARATOR + Join(values[1..])
  }

  predicate SeparatorAt(text: string, i: int) {
    0 <= i && i + 3 <= |text| && text[i] == '\n' && text[i + 1] == '\U{241E}' && text[i + 2] == '\n'
  }

  /** Position of the first separator, or -1. */
  function Find(text: string): (r: int)
    ensures r == -1 || SeparatorAt(text, r)
    ensures forall i :: SeparatorAt(text, i) ==> 0 <= r <= i
  {
    if SeparatorAt(text, 0) then 0
    else if text == [] then -1
    else
      var r := Find(text[1..]);
      assert forall i :: SeparatorAt(text, i) ==> SeparatorAt(text[1..], i - 1);
      if r == -1 then -1 else r + 1
  }

  /** `text.split(SEPARATOR)` */
  function Split(text: string): (r: seq<string>)
    ensures r != []
    decreases |text|
  {
    var i := Find(text);
    if i == -1 then [text] else [text[..i]] + Split(text[i + 3..])
  }

  /** The first separator after v is the one that follows it. */
  predicate Closed(v: string) { Find(v + SEPARATOR) == |v| }

  ghost predicate HalfSeparator(v: string) {
    |v| >= 2 && v[|v| - 2] == '\n' && v[|v| - 1] == '\U{241E}'
  }

  /** A value is closed exactly when it contains no separator and does not end in the separator's first
      two characters. */
  lemma {:induction false} ClosedExactly(v: string)
    ensures Closed(v) <==> Find(v) == -1 && !HalfSeparator(v)
  {
    var t := v + SEPARATOR;
    assert SeparatorAt(t, |v|);
    assert SeparatorAt(v, Find(v)) ==> SeparatorAt(t, Find(v));
    assert HalfSeparator(v) ==> SeparatorAt(t, |v| - 2);
    if Find(t) < |v| {
      assert Find(t) + 3 <= |v| ==> SeparatorAt(v, Find(t));
    }
  }

  lemma {:induction false} FindAppended(v: string, rest: string)
    ensures Find(v + SEPARATOR + rest) == Find(v + SEPARATOR)
    ensures 0 <= Find(v + SEPARATOR) <= |v|
  {
    var t, u := v + SEPARATOR, v + SEPARATOR + rest;
    assert SeparatorAt(t, |v|);
    assert SeparatorAt(u, Find(t));
    assert Find(u) + 3 <= |t| ==> SeparatorAt(t, Find(u));
  }

  ghost predicate Separable(values: seq<string>) {
    values != [] && Find(values[|values| - 1]) == -1 && forall i :: 0 <= i < |values| - 1 ==> Closed(values[i])
  }

  /** Main result: splitting a joined text gives the values back exactly when all but the last are closed
      and the last holds no separator. */
  lemma {:induction false} SplitJoin(values: seq<string>)
    requires values != []
    ensures Split(Join(values)) == values <==> Separable(values)
  {
    hide Find, Closed;
    if |values| == 1 {
      SplitOne(values[0]);
      assert [values[0]] == values;
    } else {
      var v, rest := values[0], values[1..];
      SplitJoin(rest);
      assert values == [v] + rest;
      SeparableCons(v, rest);
      SplitHead(v, Join(rest));
      if Split(Join(values)) == values {
        assert Split(Join(values))[0] == v && Split(Join(values))[1..] == rest;
      }
    }
  }

  lemma {:induction false} SplitOne(v: string)
    ensures Split(v) == [v] <==> Find(v) == -1
  {
    if Find(v) != -1 { assert Split(v)[0] == v[..Find(v)]; }
  }

  lemma {:induction false} SplitHead(v: string, rest: string)
    ensures Closed(v) ==> Split(v + SEPARATOR + rest) == [v] + Split(rest)
    ensures !Closed(v) ==> Split(v + SEPARATOR + rest)[0] != v
  {
    var text := v + SEPARATOR + rest;
    FindAppended(v, rest);
    var i := Find(text);
    assert Split(text) == [text[..i]] + Split(text[i + 3..]);
    if Closed(v) {
      assert text[..i] == v && text[i + 3..] == rest;
    } else {
      assert |text[..i]| < |v|;
    }
  }

  lemma SeparableCons(v: string, rest: seq<string>)
    requires rest != []
    ensures Separable([v] + rest) <==> Closed(v) && Separable(rest)
  {
    var all := [v] + rest;
    if Separable(all) {
      assert all[0] == v;
      forall i | 0 <= i < |rest| - 1 ensures Closed(rest[i]) { assert all[i + 1] == rest[i]; }
    }
  }

  /** A silently wrong split: with a first value ending in the separator's first two characters the
      number of parts can be right and the parts are not. */
  lemma SplitShifts()
    ensures var values := [SEPARATOR[..2], ""]; |Split(Join(values))| == 2 && Split(Join(values)) != values
  {
    var values := [SEPARATOR[..2], ""];
    var v := values[0];
    var text := v + SEPARATOR + "";
    assert values[1..] == [""];
    assert Join(values) == text;
    assert SeparatorAt(text, 0);
    var tail := text[3..];
    assert |tail| == 2;
    assert Split(tail) == [tail];
    assert Split(text) == [text[..0]] + [tail];
  }

  // ----- packing -----

  /** The finished batches, the batch being filled, and the length counted for it. */
  datatype Packing = Packing(done: seq<seq<Item>>, current: seq<Item>, length: nat)

  function PackOne(p: Packing, item: Item): Packing {
    var added := |item.text| + if p.current != [] then |SEPARATOR| else 0;
    if p.current != [] && p.length + added > MAX_BATCH_CHARS then Packing(p.done + [p.current], [item], added)
    else Packing(p.done, p.current + [item], p.length + added)
  }

  function Pack(items: seq<Item>): Packing {
    if items == [] then Packing([], [], 0) else PackOne(Pack(items[..|items| - 1]), items[|items| - 1])
  }

  predicate TooLong(item: Item) { |item.text| > 4400 }

  function Close(p: Packing): seq<seq<Item>> {
    if p.current != [] then p.done + [p.current] else p.done
  }

  function BatchesOf(items: seq<Item>): Result<seq<seq<Item>>> {
    if exists item :: item in items && TooLong(item) then Err(ValueTooLong) else Ok(Close(Pack(items)))
  }

  /** `batches` */
  method MakeBatches(items: seq<Item>) returns (r: Result<seq<seq<Item>>>)
    ensures r == BatchesOf(items)
  {
    var result: seq<seq<Item>>, current: seq<Item>, currentLength: nat := [], [], 0;
    for i := 0 to |items|
      invariant Packing(result, current, currentLength) == Pack(items[..i])
      invariant forall j :: 0 <= j < i ==> !TooLong(items[j])
    {
      assert items[..i + 1][..i] == items[..i];
      var item := items[i];
      var valueLength := |item.text| + if current != [] then |SEPARATOR| else 0;
      if current != [] && currentLength + valueLength > MAX_BATCH_CHARS {
        result := result + [current];
        current, currentLength := [], 0;
      }
      if |item.text| > MAX_BATCH_CHARS {
        assert item in items && TooLong(item);
        return Err(ValueTooLong);
      }
      current := current + [item];
      currentLength := currentLength + valueLength;
    }
    assert items[..|items|] == items;
    if current != [] {
      result := result + [current];
    }
    r := Ok(result);
  }

  // ----- what the batches are -----

  function Flatten(bs: seq<seq<Item>>): seq<Item> {
    if bs == [] then [] else Flatten(bs[..|bs| - 1]) + bs[|bs| - 1]
  }

  /** Length of the joined text of a batch. */
  function Joined(batch: seq<Item>): nat {
    if batch == [] then 0
    else if |batch| == 1 then |batch[0].text|
    else Joined(batch[..|batch| - 1]) + |SEPARATOR| + |batch[|batch| - 1].text|
  }

  lemma {:induction false} JoinSnoc(values: seq<string>, v: string)
    requires values != []
    ensures Join(values + [v]) == Join(values) + SEPARATOR + v
  {
    var all := values + [v];
    assert all[1..] == values[1..] + [v];
    if |values| == 1 {
      assert values[1..] + [v] == [v];
    } else {
      JoinSnoc(values[1..], v);
    }
  }

  lemma {:induction false} JoinedLength(batch: seq<Item>)
    ensures |Join(Texts(batch))| == Joined(batch)
  {
    if |batch| > 1 {
      var n := |batch| - 1;
      JoinedLength(batch[..n]);
      assert Texts(batch) == Texts(batch[..n]) + [batch[n].text];
      JoinSnoc(Texts(batch[..n]), batch[n].text);
    }
  }

  /** `current_length` counts one separator too many in every batch after the first. */
  function Excess(first: bool): nat { if first then 0 else |SEPARATOR| }

  /** A batch fits, and a later batch of several values fits with a separator to spare. */
  ghost predicate Fits(b: seq<Item>, first: bool) {
    && b != [] && Joined(b) <= 4400
    && (|b| >= 2 ==> Joined(b) + Excess(first) <= 4400)
  }

  /** The first value of the next batch did not fit any more, by the count the code keeps. */
  ghost predicate Full(b: seq<Item>, first: bool, next: seq<Item>) {
    next != [] && Joined(b) + Excess(first) + 3 + |next[0].text| > 4400
  }

  ghost predicate GoodBatches(bs: seq<seq<Item>>) {
    && (forall i :: 0 <= i < |bs| ==> Fits(bs[i], i == 0))
    && (forall i :: 0 < i < |bs| ==> Full(bs[i - 1], i == 1, bs[i]))
  }

  ghost predicate GoodPacking(p: Packing) {
    && (p.current == [] ==> p.done == [] && p.length == 0)
    && (p.current != [] ==> GoodBatches(p.done + [p.current]) && p.length == Joined(p.current) + Excess(p.done == []))
  }

  lemma GoodSnoc(bs: seq<seq<Item>>, b: seq<Item>)
    ensures GoodBatches(bs + [b]) <==>
      GoodBatches(bs) && Fits(b, bs == []) && (bs != [] ==> Full(bs[|bs| - 1], |bs| == 1, b))
  {
    hide Fits, Full;
    var all := bs + [b];
    if GoodBatches(all) {
      forall i | 0 <= i < |bs| ensures Fits(bs[i], i == 0) { assert all[i] == bs[i]; }
      forall i | 0 < i < |bs| ensures Full(bs[i - 1], i == 1, bs[i]) {
        assert all[i] == bs[i] && all[i - 1] == bs[i - 1];
      }
      assert all[|bs|] == b && Fits(all[|bs|], |bs| == 0);
      if bs != [] { assert Full(all[|bs| - 1], |bs| == 1, all[|bs|]) && all[|bs| - 1] == bs[|bs| - 1]; }
    }
  }

  lemma {:induction false} JoinedSnoc(b: seq<Item>, item: Item)
    ensures Joined(b + [item]) == if b == [] then |item.text| else Joined(b) + |SEPARATOR| + |item.text|
  {
    assert (b + [item])[..|b|] == b;
  }

  lemma PackOneGood(p: Packing, item: Item)
    requires GoodPacking(p) && !TooLong(item)
    ensures GoodPacking(PackOne(p, item))
  {
    hide GoodBatches, Joined;
    var r := PackOne(p, item);
    JoinedSnoc([], item);
    JoinedSnoc(p.current, item);
    assert [] + [item] == [item];
    GoodSnoc(p.done, p.current);
    GoodSnoc(p.done, p.current + [item]);
    GoodSnoc(p.done + [p.current], [item]);
    if p.current == [] {
      assert p.done == [] && p.current + [item] == [item];
      GoodNone();
    } else if p.done != [] {
      assert Full(p.done[|p.done| - 1], |p.done| == 1, p.current + [item])
        <==> Full(p.done[|p.done| - 1], |p.done| == 1, p.current);
    }
  }

  lemma GoodNone()
    ensures GoodBatches([])
  {
  }

  lemma {:induction false} FlattenSnoc(bs: seq<seq<Item>>, b: seq<Item>)
    ensures Flatten(bs + [b]) == Flatten(bs) + b
  {
    assert (bs + [b])[..|bs|] == bs;
  }

  lemma {:induction false} PackGood(items: seq<Item>)
    requires forall item :: item in items ==> !TooLong(item)
    ensures GoodPacking(Pack(items))
    ensures Flatten(Pack(items).done) + Pack(items).current == items
  {
    if items != [] {
      var n := |items| - 1;
      assert items[n] in items;
      var p := Pack(items[..n]);
      PackGood(items[..n]);
      PackOneGood(p, items[n]);
      FlattenSnoc(p.done, p.current);
      assert items == items[..n] + [items[n]];
    }
  }

  /** Main result: packing fails exactly on a value over the limit; otherwise it loses, reorders and
      splits nothing, makes no empty batch, and every batch fits and was filled as far as the count
      allows. */
  lemma BatchesExact(items: seq<Item>)
    ensures BatchesOf(items).Err? <==> exists item :: item in items && TooLong(item)
    ensures BatchesOf(items).Ok? ==> var bs := BatchesOf(items).value;
      Flatten(bs) == items && GoodBatches(bs)
  {
    if forall item :: item in items ==> !TooLong(item) {
      PackGood(items);
      var p := Pack(items);
      FlattenSnoc(p.done, p.current);
    }
  }
}
