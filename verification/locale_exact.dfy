/** Exactly when a service that returns its request gives the source back. */
module LocaleExact {
  import opened Placeholders
  import opened Batches
  import opened Locales
  import opened LocaleLaws

  // ----- a wrong split cuts some value short -----

  /** part is the beginning of v up to some line feed in it. */
  ghost predicate CutShort(part: string, v: string) {
    |part| < |v| && part == v[..|part|] && v[|part|] == '\n'
  }

  lemma {:induction false} CutHead(v: string, rest: string)
    requires !Closed(v)
    ensures CutShort(Split(v + SEPARATOR + rest)[0], v)
  {
    var text := v + SEPARATOR + rest;
    FindAppended(v, rest);
    var i := Find(text);
    assert SeparatorAt(v + SEPARATOR, i);
    assert Split(text)[0] == text[..i] == v[..i];
    assert text[i] == v[i];
  }

  /** If the number of parts is right and the parts are not, one of them is a value cut short. */
  lemma {:induction false} SplitWrong(values: seq<string>) returns (i: nat)
    requires values != [] && !Separable(values) && |Split(Join(values))| == |values|
    ensures i < |values| && CutShort(Split(Join(values))[i], values[i])
  {
    hide Find, Closed, CutShort;
    var v, rest := values[0], values[1..];
    assert values == [v] + rest;
    if rest == [] {
      OnePart(v);
      assert false;
    } else {
      SeparableCons(v, rest);
      SplitHead(v, Join(rest));
      if Closed(v) {
        i := SplitWrong(rest);
        assert Split(Join(values))[i + 1] == Split(Join(rest))[i] && values[i + 1] == rest[i];
        i := i + 1;
      } else {
        i := 0;
        CutHead(v, Join(rest));
      }
    }
  }

  lemma {:induction false} OnePart(v: string)
    ensures |Split(v)| == 1 <==> Separable([v])
  {
    if Find(v) != -1 { assert |Split(v[Find(v) + 3..])| >= 1; }
  }

  // ----- a protected text cut at a line feed does not restore to its value -----

  lemma {:induction false} NoLineFeed(n: nat)
    ensures '\n' !in Decimal(n)
  {
    if n >= 10 { NoLineFeed(n / 10); }
  }

  /** No token of the list contains a line feed. */
  ghost predicate Flat(u: seq<Piece>) { forall p :: p in u && p.Tok? ==> '\n' !in p.name }

  lemma {:induction false} NumberedFlat(s: seq<Piece>)
    ensures Flat(Numbered(s))
  {
    if s != [] {
      NumberedFlat(s[..|s| - 1]);
      NoLineFeed(|Names(s[..|s| - 1])|);
    }
  }

  /** A line feed in a printed list is a literal of it. */
  lemma {:induction false} CutAtPiece(u: seq<Piece>, n: nat) returns (c: nat)
    requires Flat(u) && n < |Render(u)| && Render(u)[n] == '\n'
    ensures c < |u| && u[c] == Lit('\n') && Render(u[..c]) == Render(u)[..n]
  {
    RenderNonEmpty(u);
    hide Render, Show;
    var p, rest := u[0], u[1..];
    assert u == [p] + rest;
    RenderCons(p, rest);
    CutJoined(Show(p), Render(rest), n);
    if n < |Show(p)| {
      c := 0;
      assert p in u;
      FirstFeed(p, n);
      RenderNothing();
    } else {
      FlatRest(u);
      c := CutAtPiece(rest, n - |Show(p)|);
      CutAfter(p, rest, c);
      c := c + 1;
    }
  }

  lemma FlatRest(u: seq<Piece>)
    requires u != [] && Flat(u)
    ensures Flat(u[1..])
  {
    assert forall q :: q in u[1..] ==> q in u;
  }

  lemma CutAfter(p: Piece, rest: seq<Piece>, c: nat)
    requires c < |rest|
    ensures ([p] + rest)[c + 1] == rest[c] && Render(([p] + rest)[..c + 1]) == Show(p) + Render(rest[..c])
  {
    hide Render;
    assert ([p] + rest)[..c + 1] == [p] + rest[..c];
    RenderCons(p, rest[..c]);
  }

  lemma CutJoined(a: string, b: string, n: nat)
    requires n < |a + b|
    ensures n < |a| ==> (a + b)[n] == a[n]
    ensures n >= |a| ==> (a + b)[n] == b[n - |a|] && (a + b)[..n] == a + b[..n - |a|]
  {
  }

  lemma FirstFeed(p: Piece, n: nat)
    requires n < |Show(p)| && Show(p)[n] == '\n' && (p.Tok? ==> '\n' !in p.name)
    ensures p == Lit('\n') && n == 0
  {
    if p.Tok? {
      TokenFlat(p.name, n);
      assert false;
    }
  }

  lemma RenderNothing()
    ensures Render([]) == ""
  {
  }

  lemma TokenFlat(name: string, n: nat)
    requires '\n' !in name && n < |Show(Tok(name))|
    ensures Show(Tok(name))[n] != '\n'
  {
    if 0 < n <= |name| { assert Show(Tok(name))[n] == name[n - 1]; }
  }

  /** The first pieces of a list spell no more than the whole list does. */
  lemma {:induction false} PrefixClean(k: Charset, u: seq<Piece>, c: nat)
    requires c <= |u| && AllProper(u, IsDigit(k)) && NoSpuriousToken(u, IsDigit(k))
    ensures AllProper(u[..c], IsDigit(k)) && NoSpuriousToken(u[..c], IsDigit(k))
  {
    forall i: nat, n: nat ensures !Spells(u[..c], i, n, IsDigit(k)) {
      assert Spells(u[..c], i, n, IsDigit(k)) ==> Spells(u, i, n, IsDigit(k));
    }
  }

  /** What the pieces before c restore to. */
  lemma {:induction false} PrefixRestores(k: Charset, s: seq<Piece>, c: nat)
    requires Sane(k) && NoSpuriousToken(s, k.word) && c <= |s|
    ensures |Numbered(s)| == |s| && Restore(k, Render(Numbered(s)[..c]), Names(s)) == Ok(Render(s[..c]))
  {
    hide Restore, Scan, Render, Names, Spells;
    var u := Numbered(s);
    NumberedLength(s);
    NumberedProper(k, s);
    PrefixClean(k, u, c);
    DigitsAreNotBraces(k);
    ScanRender(u[..c], IsDigit(k));
    RestoreScanned(k, u[..c], Names(s));
    NamedNumbered(k, s);
    NamedAt(k, u, Names(s));
    NamedAt(k, u[..c], Names(s));
    assert Named(k, u[..c], Names(s)) == s[..c];
  }

  lemma {:induction false} RestoreScanned(k: Charset, u: seq<Piece>, names: seq<string>)
    requires Scan(Render(u), IsDigit(k)) == u && forall p :: p in u ==> InRange(k, p, names)
    ensures Restore(k, Render(u), names) == Ok(Render(Named(k, u, names)))
  {
  }

  /** Main lemma: a protected text cut short at a line feed restores to something shorter than the value. */
  lemma {:induction false} CutRestoresShort(k: Charset, value: string, part: string)
    requires Sane(k) && CutShort(part, Protect(k, value).text)
    ensures Restore(k, part, Protect(k, value).names) != Ok(value)
  {
    hide Restore, Scan, Render, Numbered, Names;
    var s := Scan(value, k.word);
    ScanClean(value, k.word);
    ScanFaithful(value, k.word);
    NumberedFlat(s);
    var c := CutAtPiece(Numbered(s), |part|);
    NumberedLength(s);
    PrefixRestores(k, s, c);
    assert s == s[..c] + s[c..];
    RenderConcat(s[..c], s[c..]);
    RenderSome(s[c..]);
  }

  lemma {:induction false} RenderSome(s: seq<Piece>)
    requires s != []
    ensures |Render(s)| > 0
  {
  }

  // ----- what a translation stores -----

  ghost predicate DistinctItemKeys(items: seq<Item>) {
    forall i, j :: 0 <= i < j < |items| ==> items[i].key != items[j].key
  }

  lemma {:induction false} StoreAt(k: Charset, names: NameTable, m: Locale, batch: seq<Item>, values: seq<string>)
    requires |batch| == |values| && forall i :: 0 <= i < |batch| ==> batch[i].key in names
    requires Store(k, names, m, batch, values).Ok? && DistinctItemKeys(batch)
    ensures var r := Store(k, names, m, batch, values).value;
      && (forall i :: 0 <= i < |batch| ==> batch[i].key in r && Restore(k, values[i], names[batch[i].key]) == Ok(r[batch[i].key]))
      && (forall key :: key in m && (forall i :: 0 <= i < |batch| ==> batch[i].key != key) ==> key in r && r[key] == m[key])
  {
    hide Restore;
    if batch != [] {
      var n := |batch| - 1;
      StoreAt(k, names, m, batch[..n], values[..n]);
    }
  }

  /** Every item of a successful translation is stored as its own part of its batch's answer restores. */
  lemma {:induction false} TranslatedAt(k: Charset, names: NameTable, tr: Service, bs: seq<seq<Item>>, j: nat, i: nat)
    requires Addressed(names, bs) && TranslateBatches(k, names, tr, bs).Ok? && DistinctItemKeys(Flatten(bs))
    requires j < |bs| && i < |bs[j]|
    ensures var m := TranslateBatches(k, names, tr, bs).value;
      && |Answers(tr, j, bs[j])| == |bs[j]| && bs[j][i].key in m && bs[j][i].key in names
      && Restore(k, Answers(tr, j, bs[j])[i], names[bs[j][i].key]) == Ok(m[bs[j][i].key])
  {
    hide Restore, Store, Answers, TranslateBatches;
    var n := |bs| - 1;
    var rest, last := bs[..n], bs[n];
    assert rest + [last] == bs && bs[..n + 1] == bs;
    BatchesNext(k, names, tr, bs, n);
    FlattenSnoc(rest, last);
    DistinctParts(Flatten(rest), last);
    FailureBefore(k, names, tr, bs);
    StoreAt(k, names, TranslateBatches(k, names, tr, rest).value, last, Answers(tr, n, last));
    if j < n {
      TranslatedAt(k, names, tr, rest, j, i);
      FlattenMember(rest, bs[j][i]);
      assert rest[j] in rest && bs[j][i] in bs[j];
      assert bs[j][i] in Flatten(rest);
    }
  }

  lemma DistinctParts(a: seq<Item>, b: seq<Item>)
    requires DistinctItemKeys(a + b)
    ensures DistinctItemKeys(a) && DistinctItemKeys(b)
    ensures forall x, j :: x in a && 0 <= j < |b| ==> b[j].key != x.key
  {
    var all := a + b;
    forall x, j | x in a && 0 <= j < |b| ensures b[j].key != x.key {
      var i :| 0 <= i < |a| && a[i] == x;
      assert all[i] == x && all[|a| + j] == b[j];
    }
    forall i, j | 0 <= i < j < |b| ensures b[i].key != b[j].key {
      assert all[|a| + i] == b[i] && all[|a| + j] == b[j];
    }
    assert forall i :: 0 <= i < |a| ==> all[i] == a[i];
  }

  lemma {:induction false} FailureBefore(k: Charset, names: NameTable, tr: Service, bs: seq<seq<Item>>)
    requires bs != [] && Addressed(names, bs) && TranslateBatches(k, names, tr, bs).Ok?
    ensures Addressed(names, bs[..|bs| - 1]) && TranslateBatches(k, names, tr, bs[..|bs| - 1]).Ok?
  {
    BatchesNext(k, names, tr, bs, |bs| - 1);
    var n := |bs| - 1;
    if TranslateBatches(k, names, tr, bs[..n]).Err? { FailureStays(k, names, tr, bs, n); }
  }

  // ----- the condition -----

  lemma {:induction false} WrongBatch(k: Charset, source: seq<Entry>, tr: Service, bs: seq<seq<Item>>, j: nat)
    requires Sane(k) && DistinctKeys(source) && Identity(tr) && BatchesOf(ItemsOf(k, source)) == Ok(bs)
    requires j < |bs| && bs[j] != [] && !Separable(Texts(bs[j]))
    ensures !SameAs(Translate(k, source, tr), source)
  {
    hide Restore, Separable, Split, Join, BatchesOf, ItemsOf, NamesOf, TranslateBatches, Protect, GoodBatches, CutShort;
    var items, names, r := ItemsOf(k, source), NamesOf(k, source), Translate(k, source, tr);
    BatchesExact(items);
    ItemsNamed(k, source, bs);
    TranslateOk(k, source, tr, bs);
    if r.Ok? {
      assert DistinctItemKeys(Flatten(bs));
      TranslatedAt(k, names, tr, bs, j, 0);
      var i := SplitWrong(Texts(bs[j]));
      TranslatedAt(k, names, tr, bs, j, i);
      var item := bs[j][i];
      assert bs[j] in bs && item in bs[j];
      FlattenMember(bs, item);
      var e :| 0 <= e < |source| && items[e] == item;
      NamesOfAt(k, source, e);
      CutRestoresShort(k, source[e].value, Answers(tr, j, bs[j])[i]);
    }
  }

  /** Main result: with a service that returns its request, the translated locale is the source if and only if no
      protected value is over the limit and every batch splits as it was joined. */
  lemma {:induction false} IdentityExactly(k: Charset, source: seq<Entry>, tr: Service)
    requires Sane(k) && DistinctKeys(source) && Identity(tr)
    ensures SameAs(Translate(k, source, tr), source) <==>
      && (forall item :: item in ItemsOf(k, source) ==> !TooLong(item))
      && BatchesOf(ItemsOf(k, source)).Ok? && AllSeparable(BatchesOf(ItemsOf(k, source)).value)
  {
    hide Separable, ItemsOf, NamesOf, TranslateBatches, TooLong, SameAs, Identity;
    var items := ItemsOf(k, source);
    BatchesExact(items);
    if BatchesOf(items).Err? {
      NotSame(k, source, tr);
    } else {
      var bs := BatchesOf(items).value;
      if AllSeparable(bs) {
        IdentitySame(k, source, tr);
      } else {
        var j :| 0 <= j < |bs| && !Separable(Texts(bs[j]));
        assert Fits(bs[j], j == 0);
        WrongBatch(k, source, tr, bs, j);
      }
    }
  }

  lemma {:induction false} NotSame(k: Charset, source: seq<Entry>, tr: Service)
    requires DistinctKeys(source) && BatchesOf(ItemsOf(k, source)).Err?
    ensures !SameAs(Translate(k, source, tr), source)
  {
  }
}
