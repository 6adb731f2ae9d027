/** What a translated locale contains. */
module LocaleLaws {
  import opened Placeholders
  import opened Batches
  import opened Locales

  // ----- every key is kept -----

  lemma {:induction false} StoreKeys(k: Charset, names: NameTable, m: Locale, batch: seq<Item>, values: seq<string>)
    requires |batch| == |values| && forall i :: 0 <= i < |batch| ==> batch[i].key in names
    requires Store(k, names, m, batch, values).Ok?
    ensures Store(k, names, m, batch, values).value.Keys == m.Keys + set item | item in batch :: item.key
  {
    if batch != [] {
      var n := |batch| - 1;
      StoreKeys(k, names, m, batch[..n], values[..n]);
      assert forall item :: item in batch <==> item in batch[..n] || item == batch[n];
    }
  }

  lemma {:induction false} TranslatedKeys(k: Charset, names: NameTable, tr: Service, bs: seq<seq<Item>>)
    requires Addressed(names, bs) && TranslateBatches(k, names, tr, bs).Ok?
    ensures TranslateBatches(k, names, tr, bs).value.Keys == set item | item in Flatten(bs) :: item.key
  {
    if bs != [] {
      var n := |bs| - 1;
      assert bs[..n] + [bs[n]] == bs;
      BatchesNext(k, names, tr, bs, n);
      TranslatedKeys(k, names, tr, bs[..n]);
      StoreKeys(k, names, TranslateBatches(k, names, tr, bs[..n]).value, bs[n], Answers(tr, n, bs[n]));
      assert forall item :: item in Flatten(bs) <==> item in Flatten(bs[..n]) || item in bs[n];
    }
  }

  lemma ItemKeys(k: Charset, source: seq<Entry>)
    ensures (set item | item in ItemsOf(k, source) :: item.key) == KeysOf(source)
  {
    forall e | e in source ensures e.key in (set item | item in ItemsOf(k, source) :: item.key) {
      var i :| 0 <= i < |source| && source[i] == e;
      assert ItemsOf(k, source)[i] in ItemsOf(k, source);
    }
    forall item | item in ItemsOf(k, source) ensures item.key in KeysOf(source) {
      var i :| 0 <= i < |source| && ItemsOf(k, source)[i] == item;
      assert source[i] in source;
    }
  }

  /** Whatever the service answers, a translation that succeeds has exactly the keys of the source, so
      the final check on keys never fires. */
  lemma KeysKept(k: Charset, source: seq<Entry>, tr: Service)
    requires DistinctKeys(source)
    ensures Translate(k, source, tr).Ok? ==> Translate(k, source, tr).value.Keys == KeysOf(source)
    ensures Translate(k, source, tr) != Err(KeysChanged)
  {
    hide BatchesOf, ItemsOf;
    var items := ItemsOf(k, source);
    BatchesExact(items);
    if BatchesOf(items).Ok? {
      var bs := BatchesOf(items).value;
      ItemsNamed(k, source, bs);
      BatchErrors(k, NamesOf(k, source), tr, bs);
      if TranslateBatches(k, NamesOf(k, source), tr, bs).Ok? {
        TranslatedKeys(k, NamesOf(k, source), tr, bs);
        ItemKeys(k, source);
      }
    } else {
      PackingError(items);
    }
  }

  lemma PackingError(items: seq<Item>)
    ensures BatchesOf(items).Err? ==> BatchesOf(items) == Err(ValueTooLong)
  {
  }

  lemma {:induction false} StoreErrors(k: Charset, names: NameTable, m: Locale, batch: seq<Item>, values: seq<string>)
    requires |batch| == |values| && forall i :: 0 <= i < |batch| ==> batch[i].key in names
    ensures Store(k, names, m, batch, values) != Err(KeysChanged)
  {
    if batch != [] { StoreErrors(k, names, m, batch[..|batch| - 1], values[..|batch| - 1]); }
  }

  lemma {:induction false} BatchErrors(k: Charset, names: NameTable, tr: Service, bs: seq<seq<Item>>)
    requires Addressed(names, bs)
    ensures TranslateBatches(k, names, tr, bs) != Err(KeysChanged)
  {
    if bs != [] {
      var n := |bs| - 1;
      assert bs[..n] + [bs[n]] == bs;
      BatchesNext(k, names, tr, bs, n);
      BatchErrors(k, names, tr, bs[..n]);
      var before := TranslateBatches(k, names, tr, bs[..n]);
      if before.Ok? && |Answers(tr, n, bs[n])| == |bs[n]| {
        StoreErrors(k, names, before.value, bs[n], Answers(tr, n, bs[n]));
      }
    }
  }

  // ----- a service that rearranges pieces -----

  /** For each key the pieces of its protected text in a new order that spells no new token. */
  ghost predicate Rearranged(k: Charset, source: seq<Entry>, moved: map<string, seq<Piece>>) {
    forall i :: 0 <= i < |source| ==>
      && source[i].key in moved
      && multiset(moved[source[i].key]) == multiset(Numbered(Scan(source[i].value, k.word)))
      && NoSpuriousToken(moved[source[i].key], IsDigit(k))
  }

  ghost predicate AnswersMoved(tr: Service, n: nat, batch: seq<Item>, moved: map<string, seq<Piece>>) {
    && |Answers(tr, n, batch)| == |batch|
    && forall i :: 0 <= i < |batch| ==> batch[i].key in moved && Answers(tr, n, batch)[i] == Render(moved[batch[i].key])
  }

  /** The text each key should end up with. */
  ghost predicate Restored(k: Charset, names: NameTable, moved: map<string, seq<Piece>>, key: string, text: string) {
    key in names && key in moved && Restore(k, Render(moved[key]), names[key]) == Ok(text)
  }

  ghost predicate AllRestored(k: Charset, names: NameTable, moved: map<string, seq<Piece>>, m: Locale) {
    forall key :: key in m ==> Restored(k, names, moved, key, m[key])
  }

  lemma {:induction false} StoreMoved(k: Charset, names: NameTable, m: Locale, batch: seq<Item>, values: seq<string>, moved: map<string, seq<Piece>>)
    requires |batch| == |values| && forall i :: 0 <= i < |batch| ==> batch[i].key in names
    requires AllRestored(k, names, moved, m)
    requires forall i :: 0 <= i < |batch| ==> batch[i].key in moved && values[i] == Render(moved[batch[i].key])
    requires forall i :: 0 <= i < |batch| ==> Restore(k, Render(moved[batch[i].key]), names[batch[i].key]).Ok?
    ensures Store(k, names, m, batch, values).Ok? && AllRestored(k, names, moved, Store(k, names, m, batch, values).value)
  {
    hide Restore, Render;
    if batch != [] {
      var n := |batch| - 1;
      StoreMoved(k, names, m, batch[..n], values[..n], moved);
    }
  }

  lemma {:induction false} TranslateMoved(k: Charset, names: NameTable, tr: Service, bs: seq<seq<Item>>, moved: map<string, seq<Piece>>)
    requires Addressed(names, bs)
    requires forall j :: 0 <= j < |bs| ==> AnswersMoved(tr, j, bs[j], moved)
    requires forall b, item :: b in bs && item in b ==> item.key in moved && Restore(k, Render(moved[item.key]), names[item.key]).Ok?
    ensures TranslateBatches(k, names, tr, bs).Ok? && AllRestored(k, names, moved, TranslateBatches(k, names, tr, bs).value)
  {
    hide Restore, Render, Store, Answers, TranslateBatches;
    if bs == [] {
      BatchesNone(k, names, tr);
    } else {
      var n := |bs| - 1;
      assert bs[..n] + [bs[n]] == bs;
      assert bs[n] in bs && forall b :: b in bs[..n] ==> b in bs;
      assert forall i :: 0 <= i < |bs[n]| ==> bs[n][i] in bs[n];
      assert bs[..n + 1] == bs;
      BatchesNext(k, names, tr, bs, n);
      TranslateMoved(k, names, tr, bs[..n], moved);
      StoreMoved(k, names, TranslateBatches(k, names, tr, bs[..n]).value, bs[n], Answers(tr, n, bs[n]), moved);
    }
  }

  /** Main result: if every value fits and the service keeps the separators and only rearranges the
      pieces of each text, every key gets its rearranged text with its own names back in place. */
  lemma {:induction false} RearrangingService(k: Charset, source: seq<Entry>, tr: Service, moved: map<string, seq<Piece>>, i: nat)
    requires Sane(k) && DistinctKeys(source) && Rearranged(k, source, moved)
    requires BatchesOf(ItemsOf(k, source)).Ok?
    requires var bs := BatchesOf(ItemsOf(k, source)).value; forall j :: 0 <= j < |bs| ==> AnswersMoved(tr, j, bs[j], moved)
    requires i < |source|
    ensures var r := Translate(k, source, tr);
      var names := Protect(k, source[i].value).names;
      var pieces := moved[source[i].key];
      && r.Ok? && r.value.Keys == KeysOf(source) && source[i] in source
      && (forall p :: p in pieces ==> InRange(k, p, names))
      && r.value[source[i].key] == Render(Named(k, pieces, names))
  {
    hide Restore, Render, BatchesOf, ItemsOf, Protect, Scan, NamesOf, TranslateBatches, NoSpuriousToken, GoodBatches;
    var items := ItemsOf(k, source);
    var bs := BatchesOf(items).value;
    var names := NamesOf(k, source);
    BatchesExact(items);
    ItemsNamed(k, source, bs);
    forall b, item | b in bs && item in b
      ensures item.key in moved && Restore(k, Render(moved[item.key]), names[item.key]).Ok?
    {
      FlattenMember(bs, item);
      ItemRestored(k, source, moved, item);
    }
    TranslateMoved(k, names, tr, bs, moved);
    KeysKept(k, source, tr);
    TranslateOk(k, source, tr, bs);
    NamesOfAt(k, source, i);
    RestoreByIndex(k, source[i].value, moved[source[i].key]);
    assert source[i].key in KeysOf(source) by { assert source[i] in source; }
  }

  lemma {:induction false} ItemRestored(k: Charset, source: seq<Entry>, moved: map<string, seq<Piece>>, item: Item)
    requires Sane(k) && DistinctKeys(source) && Rearranged(k, source, moved) && item in ItemsOf(k, source)
    ensures item.key in moved && item.key in NamesOf(k, source)
    ensures Restore(k, Render(moved[item.key]), NamesOf(k, source)[item.key]).Ok?
  {
    hide Restore, Render, Protect, NamesOf;
    var i :| 0 <= i < |source| && ItemsOf(k, source)[i] == item;
    NamesOfAt(k, source, i);
    RestoreByIndex(k, source[i].value, moved[source[i].key]);
  }

  lemma {:induction false} TranslateOk(k: Charset, source: seq<Entry>, tr: Service, bs: seq<seq<Item>>)
    requires DistinctKeys(source) && BatchesOf(ItemsOf(k, source)) == Ok(bs) && Addressed(NamesOf(k, source), bs)
    ensures Translate(k, source, tr).Ok? ==> Translate(k, source, tr) == TranslateBatches(k, NamesOf(k, source), tr, bs)
    ensures TranslateBatches(k, NamesOf(k, source), tr, bs).Ok? && Translate(k, source, tr) != Err(KeysChanged) ==>
      Translate(k, source, tr).Ok?
  {
  }

  // ----- a service that answers with its request -----

  ghost predicate Identity(tr: Service) { forall i: nat, t: string :: tr(i, t) == t }

  /** The pieces of every entry, unmoved. */
  ghost function Unmoved(k: Charset, source: seq<Entry>): map<string, seq<Piece>> {
    if source == [] then map[]
    else
      var e := source[|source| - 1];
      Unmoved(k, source[..|source| - 1])[e.key := Numbered(Scan(e.value, k.word))]
  }

  lemma {:induction false} UnmovedAt(k: Charset, source: seq<Entry>, i: nat)
    requires i < |source| && DistinctKeys(source)
    ensures source[i].key in Unmoved(k, source)
    ensures Unmoved(k, source)[source[i].key] == Numbered(Scan(source[i].value, k.word))
  {
    var n := |source| - 1;
    if i < n {
      assert source[..n][i] == source[i];
      UnmovedAt(k, source[..n], i);
    }
  }

  lemma {:induction false} UnmovedRearranged(k: Charset, source: seq<Entry>)
    requires Sane(k) && DistinctKeys(source)
    ensures Rearranged(k, source, Unmoved(k, source))
  {
    hide NoSpuriousToken, Numbered, Scan, Unmoved;
    forall i | 0 <= i < |source|
      ensures source[i].key in Unmoved(k, source)
      ensures multiset(Unmoved(k, source)[source[i].key]) == multiset(Numbered(Scan(source[i].value, k.word)))
      ensures NoSpuriousToken(Unmoved(k, source)[source[i].key], IsDigit(k))
    {
      UnmovedAt(k, source, i);
      ScanClean(source[i].value, k.word);
      NumberedProper(k, Scan(source[i].value, k.word));
    }
  }

  /** Splitting gives back what was joined, batch by batch. */
  ghost predicate AllSeparable(bs: seq<seq<Item>>) {
    forall j :: 0 <= j < |bs| ==> Separable(Texts(bs[j]))
  }

  /** The result is the source itself. */
  ghost predicate SameAs(r: Result<Locale>, source: seq<Entry>) {
    && r.Ok? && r.value.Keys == KeysOf(source)
    && forall i :: 0 <= i < |source| ==> source[i].key in r.value && r.value[source[i].key] == source[i].value
  }

  lemma {:induction false} IdentityAnswers(k: Charset, source: seq<Entry>, tr: Service, n: nat, b: seq<Item>)
    requires DistinctKeys(source) && Identity(tr) && Separable(Texts(b))
    requires b != [] && forall item :: item in b ==> item in ItemsOf(k, source)
    ensures AnswersMoved(tr, n, b, Unmoved(k, source))
  {
    hide Split, Join, Find, Unmoved, Numbered, Scan, Render, Separable;
    var texts := Texts(b);
    forall j | 0 <= j < |b|
      ensures b[j].key in Unmoved(k, source) && texts[j] == Render(Unmoved(k, source)[b[j].key])
    {
      assert b[j] in b;
      var i :| 0 <= i < |source| && ItemsOf(k, source)[i] == b[j];
      UnmovedAt(k, source, i);
    }
    SplitJoin(texts);
    assert Answers(tr, n, b) == texts;
  }

  lemma {:induction false} IdentityBatches(k: Charset, source: seq<Entry>, tr: Service, bs: seq<seq<Item>>)
    requires DistinctKeys(source) && Identity(tr) && AllSeparable(bs)
    requires Flatten(bs) == ItemsOf(k, source) && GoodBatches(bs)
    ensures forall j :: 0 <= j < |bs| ==> AnswersMoved(tr, j, bs[j], Unmoved(k, source))
  {
    hide AnswersMoved, Unmoved, Identity, ItemsOf, Separable;
    forall j | 0 <= j < |bs| ensures AnswersMoved(tr, j, bs[j], Unmoved(k, source)) {
      assert Fits(bs[j], j == 0) && bs[j] in bs;
      forall item | item in bs[j] ensures item in ItemsOf(k, source) { FlattenMember(bs, item); }
      IdentityAnswers(k, source, tr, j, bs[j]);
    }
  }

  /** With a service that returns its request and batches that split as they were joined, the translated locale
      is the source. */
  lemma {:induction false} IdentitySame(k: Charset, source: seq<Entry>, tr: Service)
    requires Sane(k) && DistinctKeys(source) && Identity(tr)
    requires BatchesOf(ItemsOf(k, source)).Ok? && AllSeparable(BatchesOf(ItemsOf(k, source)).value)
    ensures SameAs(Translate(k, source, tr), source)
  {
    hide AllSeparable, Identity, ItemsOf, Unmoved, AnswersMoved, GoodBatches, NamesOf, TranslateBatches;
    var items := ItemsOf(k, source);
    BatchesExact(items);
    IdentityBatches(k, source, tr, BatchesOf(items).value);
    UnmovedRearranged(k, source);
    IdentityOk(k, source, tr);
    forall i | 0 <= i < |source|
      ensures source[i].key in Translate(k, source, tr).value && Translate(k, source, tr).value[source[i].key] == source[i].value
    {
      RearrangingService(k, source, tr, Unmoved(k, source), i);
      UnmovedRestores(k, source, i);
      assert source[i].key in KeysOf(source) by { assert source[i] in source; }
    }
  }

  ghost predicate AllClosed(k: Charset, source: seq<Entry>) {
    forall i :: 0 <= i < |source| ==> Closed(Protect(k, source[i].value).text)
  }

  lemma {:induction false} ClosedSeparable(k: Charset, source: seq<Entry>, bs: seq<seq<Item>>)
    requires AllClosed(k, source) && Flatten(bs) == ItemsOf(k, source) && GoodBatches(bs)
    ensures AllSeparable(bs)
  {
    hide Find, Closed;
    forall j | 0 <= j < |bs| ensures Separable(Texts(bs[j])) {
      var b := bs[j];
      assert Fits(b, j == 0) && b in bs;
      forall h | 0 <= h < |b| ensures Closed(Texts(b)[h]) && Find(Texts(b)[h]) == -1 {
        assert b[h] in b;
        FlattenMember(bs, b[h]);
        var i :| 0 <= i < |source| && ItemsOf(k, source)[i] == b[h];
        ClosedExactly(b[h].text);
      }
    }
  }

  /** Main result: with a service that returns its request, the translated locale is the source, for every
      source whose protected values are closed; the only failure is a protected value over the limit. */
  lemma {:induction false} IdentityRoundTrip(k: Charset, source: seq<Entry>, tr: Service)
    requires Sane(k) && DistinctKeys(source) && Identity(tr) && AllClosed(k, source)
    ensures var r := Translate(k, source, tr);
      if exists item :: item in ItemsOf(k, source) && TooLong(item) then r == Err(ValueTooLong) else SameAs(r, source)
  {
    hide AllClosed, Identity, ItemsOf, GoodBatches, NamesOf, TranslateBatches, TooLong;
    var items := ItemsOf(k, source);
    BatchesExact(items);
    PackingError(items);
    if BatchesOf(items).Ok? {
      ClosedSeparable(k, source, BatchesOf(items).value);
      IdentitySame(k, source, tr);
    }
  }

  lemma {:induction false} IdentityOk(k: Charset, source: seq<Entry>, tr: Service)
    requires Sane(k) && DistinctKeys(source) && BatchesOf(ItemsOf(k, source)).Ok?
    requires Rearranged(k, source, Unmoved(k, source))
    requires var bs := BatchesOf(ItemsOf(k, source)).value; forall j :: 0 <= j < |bs| ==> AnswersMoved(tr, j, bs[j], Unmoved(k, source))
    ensures Translate(k, source, tr).Ok? && Translate(k, source, tr).value.Keys == KeysOf(source)
  {
    hide AnswersMoved, Unmoved, Rearranged;
    if source == [] {
      assert ItemsOf(k, source) == [] && Pack([]) == Packing([], [], 0);
      assert BatchesOf([]) == Ok([]);
      BatchesNone(k, NamesOf(k, source), tr);
    } else {
      RearrangingService(k, source, tr, Unmoved(k, source), 0);
    }
  }

  lemma {:induction false} UnmovedRestores(k: Charset, source: seq<Entry>, i: nat)
    requires Sane(k) && DistinctKeys(source) && i < |source|
    requires source[i].key in Unmoved(k, source)
    requires forall p :: p in Unmoved(k, source)[source[i].key] ==> InRange(k, p, Protect(k, source[i].value).names)
    ensures Render(Named(k, Unmoved(k, source)[source[i].key], Protect(k, source[i].value).names)) == source[i].value
  {
    UnmovedAt(k, source, i);
    var s := Scan(source[i].value, k.word);
    ScanClean(source[i].value, k.word);
    ScanFaithful(source[i].value, k.word);
    NumberedProper(k, s);
    NamedNumbered(k, s);
  }

  // ----- which values are closed -----

  const RECORD_MARK := '\U{241E}'

  lemma {:induction false} DecimalPlain(n: nat)
    ensures RECORD_MARK !in Decimal(n)
  {
    if n >= 10 { DecimalPlain(n / 10); }
  }

  lemma {:induction false} RenderPlain(s: seq<Piece>)
    requires forall p :: p in s ==> RECORD_MARK !in Show(p)
    ensures RECORD_MARK !in Render(s)
  {
    if s != [] {
      assert s[0] in s && forall p :: p in s[1..] ==> p in s;
      RenderPlain(s[1..]);
    }
  }

  lemma {:induction false} PieceOfRender(s: seq<Piece>, i: nat)
    requires i < |s| && RECORD_MARK in Show(s[i])
    ensures RECORD_MARK in Render(s)
    decreases i
  {
    hide Render;
    assert s == [s[0]] + s[1..];
    RenderCons(s[0], s[1..]);
    if i > 0 {
      assert s[1..][i - 1] == s[i];
      PieceOfRender(s[1..], i - 1);
    }
  }

  /** A value without the separator's middle character stays closed when protected. */
  lemma PlainIsClosed(k: Charset, value: string)
    requires RECORD_MARK !in value
    ensures Closed(Protect(k, value).text)
  {
    var s := Scan(value, k.word);
    var u := Numbered(s);
    ScanFaithful(value, k.word);
    NumberedLength(s);
    forall p | p in u ensures RECORD_MARK !in Show(p) {
      var i :| 0 <= i < |u| && u[i] == p;
      NumberedAt(s, i);
      if s[i].Tok? {
        DecimalPlain(|Names(s[..i])|);
      } else if RECORD_MARK in Show(p) {
        PieceOfRender(s, i);
        assert false;
      }
    }
    RenderPlain(u);
    var text := Render(u);
    ClosedExactly(text);
    SeparatorMark(text);
  }

  lemma {:induction false} SeparatorMark(text: string)
    ensures Find(text) != -1 || HalfSeparator(text) ==> RECORD_MARK in text
  {
    if Find(text) != -1 {
      assert text[Find(text) + 1] == RECORD_MARK;
    } else if HalfSeparator(text) {
      assert text[|text| - 1] == RECORD_MARK;
    }
  }
}
