/** Translating a locale file: protect, pack, translate batch by batch, split, restore. The translation
    service is any way to answer the requests one after the other. */
module Locales {
  import opened Placeholders
  import opened Batches

  datatype Entry = Entry(key: string, value: string)

  ghost predicate DistinctKeys(source: seq<Entry>) {
    forall i, j :: 0 <= i < j < |source| ==> source[i].key != source[j].key
  }

  /** The protected text to send for each entry. */
  function ItemsOf(k: Charset, source: seq<Entry>): (r: seq<Item>)
    ensures |r| == |source|
    ensures forall i :: 0 <= i < |source| ==> r[i] == Item(source[i].key, Protect(k, source[i].value).text)
  {
    seq(|source|, i requires 0 <= i < |source| => Item(source[i].key, Protect(k, source[i].value).text))
  }

  /** The names taken out of each entry. */
  function NamesOf(k: Charset, source: seq<Entry>): map<string, seq<string>> {
    if source == [] then map[]
    else
      var e := source[|source| - 1];
      NamesOf(k, source[..|source| - 1])[e.key := Protect(k, e.value).names]
  }

  function KeysOf(source: seq<Entry>): set<string> { set e | e in source :: e.key }

  type NameTable = map<string, seq<string>>
  type Locale = map<string, string>

  /** The answers of one batch, restored and stored under their keys. */
  function Store(k: Charset, names: NameTable, soFar: Locale, batch: seq<Item>, values: seq<string>): Result<Locale>
    requires |batch| == |values| && forall i :: 0 <= i < |batch| ==> batch[i].key in names
  {
    if batch == [] then Ok(soFar)
    else
      var n := |batch| - 1;
      assert batch[n].key in names;
      match Store(k, names, soFar, batch[..n], values[..n])
      case Err(e) => Err(e)
      case Ok(m) =>
        match Restore(k, values[n], names[batch[n].key])
        case Err(e) => Err(e)
        case Ok(text) => Ok(m[batch[n].key := text])
  }

  ghost predicate Addressed(names: NameTable, bs: seq<seq<Item>>) {
    forall b, item :: b in bs && item in b ==> item.key in names
  }

  /** The service's answer to each request: the same text may be answered differently at another time. */
  type Service = (nat, string) -> string

  /** The answer to the request for batch number i, split. */
  function Answers(tr: Service, i: nat, batch: seq<Item>): seq<string> { Split(tr(i, Join(Texts(batch)))) }

  function TranslateBatches(k: Charset, names: NameTable, tr: Service, bs: seq<seq<Item>>): Result<Locale>
    requires Addressed(names, bs)
  {
    if bs == [] then Ok(map[])
    else
      var n := |bs| - 1;
      assert bs[n] in bs && forall i :: 0 <= i < |bs[n]| ==> bs[n][i] in bs[n];
      assert Addressed(names, bs[..n]) by { assert forall b :: b in bs[..n] ==> b in bs; }
      match TranslateBatches(k, names, tr, bs[..n])
      case Err(e) => Err(e)
      case Ok(m) =>
        var values := Answers(tr, n, bs[n]);
        if |values| != |bs[n]| then Err(SeparatorChanged) else Store(k, names, m, bs[n], values)
  }

  lemma {:induction false} FlattenMember(bs: seq<seq<Item>>, item: Item)
    ensures item in Flatten(bs) <==> exists b :: b in bs && item in b
  {
    if bs != [] {
      var n := |bs| - 1;
      FlattenMember(bs[..n], item);
      assert forall b :: b in bs <==> b in bs[..n] || b == bs[n];
    }
  }

  lemma {:induction false} NamesOfAt(k: Charset, source: seq<Entry>, i: nat)
    requires i < |source| && DistinctKeys(source)
    ensures source[i].key in NamesOf(k, source)
    ensures NamesOf(k, source)[source[i].key] == Protect(k, source[i].value).names
  {
    var n := |source| - 1;
    if i < n {
      assert source[..n][i] == source[i];
      NamesOfAt(k, source[..n], i);
    }
  }

  lemma {:induction false} ItemsNamed(k: Charset, source: seq<Entry>, bs: seq<seq<Item>>)
    requires DistinctKeys(source) && Flatten(bs) == ItemsOf(k, source)
    ensures Addressed(NamesOf(k, source), bs)
  {
    forall b, item | b in bs && item in b ensures item.key in NamesOf(k, source) {
      FlattenMember(bs, item);
      var i :| 0 <= i < |source| && ItemsOf(k, source)[i] == item;
      NamesOfAt(k, source, i);
    }
  }

  /** The whole of `translate_locale`, on values. */
  function Translate(k: Charset, source: seq<Entry>, tr: Service): Result<Locale>
    requires DistinctKeys(source)
  {
    match BatchesOf(ItemsOf(k, source))
    case Err(e) => Err(e)
    case Ok(bs) =>
      BatchesExact(ItemsOf(k, source));
      ItemsNamed(k, source, bs);
      match TranslateBatches(k, NamesOf(k, source), tr, bs)
      case Err(e) => Err(e)
      case Ok(m) => if m.Keys != KeysOf(source) then Err(KeysChanged) else Ok(m)
  }

  method TranslateLocale(k: Charset, source: seq<Entry>, tr: Service) returns (r: Result<Locale>)
    requires DistinctKeys(source)
    ensures r == Translate(k, source, tr)
  {
    hide Protect, Restore, Split, Join, BatchesOf, Flatten, GoodBatches, TranslateBatches, Store, Texts, ItemsOf, NamesOf;
    EntriesNone(k);
    assert source[..0] == [];
    var names: NameTable := map[];
    var items: seq<Item> := [];
    for i := 0 to |source|
      invariant names == NamesOf(k, source[..i]) && items == ItemsOf(k, source[..i])
    {
      EntriesNext(k, source, i);
      var text, own := ProtectPlaceholders(k, source[i].value);
      assert Protected(text, own) == Protect(k, source[i].value);
      names := names[source[i].key := own];
      items := items + [Item(source[i].key, text)];
    }
    assert source[..|source|] == source;
    var work := MakeBatches(items);
    if work.Err? {
      return Err(work.error);
    }
    var bs := work.value;
    BatchesExact(items);
    ItemsNamed(k, source, bs);
    var translated: Locale := map[];
    assert bs[..0] == [];
    BatchesNone(k, names, tr);
    for i := 0 to |bs|
      invariant Addressed(names, bs) && Addressed(names, bs[..i])
      invariant TranslateBatches(k, names, tr, bs[..i]) == Ok(translated)
      invariant names == NamesOf(k, source) && bs == BatchesOf(ItemsOf(k, source)).value
    {
      BatchesNext(k, names, tr, bs, i);
      var values := Split(tr(i, Join(Texts(bs[i]))));
      if |values| != |bs[i]| {
        FailureStays(k, names, tr, bs, i + 1);
        return Err(SeparatorChanged);
      }
      var stored := StoreBatch(k, names, translated, bs[i], values);
      if stored.Err? {
        FailureStays(k, names, tr, bs, i + 1);
        return Err(stored.error);
      }
      translated := stored.value;
    }
    assert bs[..|bs|] == bs;
    if translated.Keys != KeysOf(source) {
      return Err(KeysChanged);
    }
    r := Ok(translated);
  }

  lemma {:induction false} EntriesNone(k: Charset)
    ensures NamesOf(k, []) == map[] && ItemsOf(k, []) == []
  {
  }

  lemma {:induction false} EntriesNext(k: Charset, source: seq<Entry>, i: nat)
    requires i < |source|
    ensures var p := Protect(k, source[i].value);
      && NamesOf(k, source[..i + 1]) == NamesOf(k, source[..i])[source[i].key := p.names]
      && ItemsOf(k, source[..i + 1]) == ItemsOf(k, source[..i]) + [Item(source[i].key, p.text)]
  {
    assert source[..i + 1][..i] == source[..i];
  }

  lemma {:induction false} BatchesNone(k: Charset, names: NameTable, tr: Service)
    ensures Addressed(names, []) && TranslateBatches(k, names, tr, []) == Ok(map[])
  {
  }

  lemma {:induction false} BatchesNext(k: Charset, names: NameTable, tr: Service, bs: seq<seq<Item>>, i: nat)
    requires Addressed(names, bs) && i < |bs|
    ensures Addressed(names, bs[..i]) && Addressed(names, bs[..i + 1]) && forall j :: 0 <= j < |bs[i]| ==> bs[i][j].key in names
    ensures var before := TranslateBatches(k, names, tr, bs[..i]);
      before.Ok? ==>
        TranslateBatches(k, names, tr, bs[..i + 1])
        == if |Answers(tr, i, bs[i])| != |bs[i]| then Err(SeparatorChanged)
           else Store(k, names, before.value, bs[i], Answers(tr, i, bs[i]))
  {
    assert bs[i] in bs;
    assert forall j :: 0 <= j < |bs[i]| ==> bs[i][j] in bs[i];
    assert forall b :: b in bs[..i + 1] ==> b in bs;
    assert forall b :: b in bs[..i] ==> b in bs;
    assert bs[..i + 1][..i] == bs[..i];
  }

  method StoreBatch(k: Charset, names: NameTable, translated: Locale, batch: seq<Item>, values: seq<string>) returns (r: Result<Locale>)
    requires |batch| == |values| && forall i :: 0 <= i < |batch| ==> batch[i].key in names
    ensures r == Store(k, names, translated, batch, values)
  {
    var m := translated;
    for j := 0 to |batch|
      invariant Store(k, names, translated, batch[..j], values[..j]) == Ok(m)
    {
      assert batch[..j + 1][..j] == batch[..j] && values[..j + 1][..j] == values[..j];
      var text := Restore(k, values[j], names[batch[j].key]);
      if text.Err? {
        StoreFails(k, names, translated, batch, values, j + 1);
        return Err(text.error);
      }
      m := m[batch[j].key := text.value];
    }
    assert batch[..|batch|] == batch && values[..|values|] == values;
    r := Ok(m);
  }

  lemma {:induction false} StoreFails(k: Charset, names: NameTable, m: Locale, batch: seq<Item>, values: seq<string>, j: nat)
    requires |batch| == |values| && (forall i :: 0 <= i < |batch| ==> batch[i].key in names) && j <= |batch|
    requires Store(k, names, m, batch[..j], values[..j]).Err?
    ensures Store(k, names, m, batch, values) == Store(k, names, m, batch[..j], values[..j])
    decreases |batch|
  {
    if j == |batch| {
      assert batch[..j] == batch && values[..j] == values;
    } else {
      var n := |batch| - 1;
      assert batch[..n][..j] == batch[..j] && values[..n][..j] == values[..j];
      StoreFails(k, names, m, batch[..n], values[..n], j);
    }
  }

  lemma {:induction false} FailureStays(k: Charset, names: NameTable, tr: Service, bs: seq<seq<Item>>, j: nat)
    requires Addressed(names, bs) && j <= |bs| && Addressed(names, bs[..j])
    requires TranslateBatches(k, names, tr, bs[..j]).Err?
    ensures TranslateBatches(k, names, tr, bs) == TranslateBatches(k, names, tr, bs[..j])
    decreases |bs|
  {
    if j == |bs| {
      assert bs[..j] == bs;
    } else {
      var n := |bs| - 1;
      assert bs[..n][..j] == bs[..j];
      assert forall b :: b in bs[..n] ==> b in bs;
      FailureStays(k, names, tr, bs[..n], j);
    }
  }
}
