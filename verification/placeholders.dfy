/** Placeholder protection: `{name}` becomes `{0}`, `{1}`, ... before translation and is put back by
    index afterwards. */
module Placeholders {
  datatype Result<T> = Ok(value: T) | Err(error: Error)

  datatype Error = IndexOutOfRange | ValueTooLong | SeparatorChanged | KeysChanged

  /** The character classes of the regular expressions: `\w`, and the decimal value of a `\d` character
      (-1 for any other). */
  datatype Charset = Charset(word: char -> bool, digit: char -> int)

  const DIGITS := "0123456789"

  ghost predicate Sane(k: Charset) {
    && !k.word('{') && !k.word('}')
    && (forall d :: 0 <= d < 10 ==> k.digit(DIGITS[d]) == d)
    && (forall c {:trigger k.digit(c)} :: 0 <= k.digit(c) ==> k.digit(c) < 10 && k.word(c))
  }

  function IsDigit(k: Charset): char -> bool { c => k.digit(c) >= 0 }

  // ----- texts as pieces -----

  datatype Piece = Lit(c: char) | Tok(name: string)

  function Show(p: Piece): string {
    match p
    case Lit(c) => [c]
    case Tok(name) => "{" + name + "}"
  }

  function Render(s: seq<Piece>): string {
    if s == [] then "" else Show(s[0]) + Render(s[1..])
  }

  /** Number of leading characters satisfying p. */
  function Run(text: string, p: char -> bool): (n: nat)
    ensures n <= |text|
    ensures forall i :: 0 <= i < n ==> p(text[i])
    ensures n < |text| ==> !p(text[n])
  {
    if text == [] || !p(text[0]) then 0 else 1 + Run(text[1..], p)
  }

  /** The text begins with a match of `\{(p+)\}`. */
  predicate MatchesHere(text: string, p: char -> bool) {
    |text| >= 3 && text[0] == '{' && var n := Run(text[1..], p); n > 0 && n + 1 < |text| && text[n + 1] == '}'
  }

  /** Leftmost, non-overlapping matches, as `re.sub` finds them. */
  function Scan(text: string, p: char -> bool): seq<Piece>
    decreases |text|
  {
    if text == [] then []
    else if MatchesHere(text, p) then
      var n := Run(text[1..], p);
      [Tok(text[1..n + 1])] + Scan(text[n + 2..], p)
    else [Lit(text[0])] + Scan(text[1..], p)
  }

  // ----- decimal numbers -----

  function Decimal(n: nat): string {
    if n < 10 then [DIGITS[n]] else Decimal(n / 10) + [DIGITS[n % 10]]
  }

  /** `int(...)` of a string of digits. */
  function Parse(k: Charset, s: string): int {
    if s == [] then 0 else 10 * Parse(k, s[..|s| - 1]) + k.digit(s[|s| - 1])
  }

  lemma {:induction false} ParseDecimal(k: Charset, n: nat)
    requires Sane(k)
    ensures Parse(k, Decimal(n)) == n
    ensures Decimal(n) != [] && forall i :: 0 <= i < |Decimal(n)| ==> IsDigit(k)(Decimal(n)[i])
  {
    assert k.digit(DIGITS[n % 10]) == n % 10;
    if n >= 10 {
      ParseDecimal(k, n / 10);
      var s := Decimal(n);
      assert s[..|s| - 1] == Decimal(n / 10);
    } else {
      assert [DIGITS[n]][..0] == [];
    }
  }

  /** Numerals are decimal, the last digit the smallest, and are read the same way. */
  lemma {:induction false} NumeralsExact(k: Charset, a: nat, b: nat, s: string, c: char)
    requires b < 10
    ensures Decimal(b) == [DIGITS[b]] && (a > 0 ==> Decimal(10 * a + b) == Decimal(a) + Decimal(b))
    ensures Parse(k, [c]) == k.digit(c) && Parse(k, s + [c]) == 10 * Parse(k, s) + Parse(k, [c])
  {
    assert (10 * a + b) / 10 == a && (10 * a + b) % 10 == b;
    assert (s + [c])[..|s|] == s && [c][..0] == [];
  }

  // ----- protect and restore -----

  function Names(s: seq<Piece>): seq<string> {
    if s == [] then []
    else
      var n := |s| - 1;
      if s[n].Tok? then Names(s[..n]) + [s[n].name] else Names(s[..n])
  }

  /** The tokens replaced by their numbers. */
  function Numbered(s: seq<Piece>): seq<Piece> {
    if s == [] then []
    else
      var n := |s| - 1;
      Numbered(s[..n]) + [if s[n].Tok? then Tok(Decimal(|Names(s[..n])|)) else s[n]]
  }

  datatype Protected = Protected(text: string, names: seq<string>)

  function Protect(k: Charset, text: string): Protected {
    var pieces := Scan(text, k.word);
    Protected(Render(Numbered(pieces)), Names(pieces))
  }

  predicate InRange(k: Charset, p: Piece, names: seq<string>) {
    p.Tok? ==> 0 <= Parse(k, p.name) < |names|
  }

  /** The numbered tokens replaced by the names they index. */
  function Named(k: Charset, s: seq<Piece>, names: seq<string>): seq<Piece>
    requires forall p :: p in s ==> InRange(k, p, names)
  {
    if s == [] then []
    else
      assert s[0] in s && InRange(k, s[0], names);
      [if s[0].Tok? then Tok(names[Parse(k, s[0].name)]) else s[0]] + Named(k, s[1..], names)
  }

  function RestorePieces(k: Charset, s: seq<Piece>, names: seq<string>): Result<string> {
    if forall p :: p in s ==> InRange(k, p, names) then Ok(Render(Named(k, s, names))) else Err(IndexOutOfRange)
  }

  function Restore(k: Charset, text: string, names: seq<string>): Result<string> {
    RestorePieces(k, Scan(text, IsDigit(k)), names)
  }

  /** `protect_placeholders`: the scan that appends the names as it meets them. */
  method ProtectPlaceholders(k: Charset, text: string) returns (out: string, names: seq<string>)
    ensures Protected(out, names) == Protect(k, text)
  {
    hide Scan, Numbered, Names, Render, Decimal, MatchesHere;
    out, names := "", [];
    var rest := text;
    ghost var done: seq<Piece> := [];
    ScanNone(k);
    while rest != []
      invariant Scan(text, k.word) == done + Scan(rest, k.word)
      invariant out == Render(Numbered(done)) && names == Names(done)
      decreases |rest|
    {
      ScanNext(rest, k.word);
      if MatchesHere(rest, k.word) {
        var n := Run(rest[1..], k.word);
        var name := rest[1..n + 1];
        ProtectStep(done, Tok(name));
        names := names + [name];
        out := out + ("{" + Decimal(|names| - 1) + "}");
        done := done + [Tok(name)];
        rest := rest[n + 2..];
      } else {
        ProtectStep(done, Lit(rest[0]));
        out := out + [rest[0]];
        done := done + [Lit(rest[0])];
        rest := rest[1..];
      }
    }
    assert done + [] == done;
  }

  lemma ScanNone(k: Charset)
    ensures Scan("", k.word) == [] && Render(Numbered([])) == "" && Names([]) == []
  {
  }

  lemma {:induction false} ScanNext(text: string, q: char -> bool)
    requires text != []
    ensures MatchesHere(text, q) ==> var n := Run(text[1..], q);
      n + 2 <= |text| && Scan(text, q) == [Tok(text[1..n + 1])] + Scan(text[n + 2..], q)
    ensures !MatchesHere(text, q) ==> Scan(text, q) == [Lit(text[0])] + Scan(text[1..], q)
  {
  }

  lemma {:induction false} ProtectStep(done: seq<Piece>, p: Piece)
    ensures Names(done + [p]) == if p.Tok? then Names(done) + [p.name] else Names(done)
    ensures Render(Numbered(done + [p]))
         == Render(Numbered(done)) + (if p.Tok? then "{" + Decimal(|Names(done)|) + "}" else [p.c])
  {
    var q := if p.Tok? then Tok(Decimal(|Names(done)|)) else p;
    NumberedSnoc(done, p);
    RenderConcat(Numbered(done), [q]);
    NumberedSnoc([], q);
  }

  lemma {:induction false} NumberedSnoc(s: seq<Piece>, p: Piece)
    ensures Names(s + [p]) == if p.Tok? then Names(s) + [p.name] else Names(s)
    ensures Numbered(s + [p]) == Numbered(s) + [if p.Tok? then Tok(Decimal(|Names(s)|)) else p]
    ensures Render([p]) == Show(p)
  {
    assert (s + [p])[..|s|] == s;
    assert [p][1..] == [];
  }

  lemma {:induction false} RenderConcat(a: seq<Piece>, b: seq<Piece>)
    ensures Render(a + b) == Render(a) + Render(b)
  {
    if a == [] {
      assert a + b == b;
    } else {
      assert (a + b)[1..] == a[1..] + b;
      RenderConcat(a[1..], b);
    }
  }

  // ----- which piece lists survive printing and scanning -----

  ghost predicate Proper(p: Piece, q: char -> bool) {
    p.Tok? ==> p.name != [] && forall i :: 0 <= i < |p.name| ==> q(p.name[i])
  }

  ghost predicate AllProper(s: seq<Piece>, q: char -> bool) {
    forall p :: p in s ==> Proper(p, q)
  }

  /** Literal characters that would read as a token: `{`, n characters of q, `}`. */
  ghost predicate Spells(s: seq<Piece>, i: nat, n: nat, q: char -> bool) {
    && n > 0 && i + n + 1 < |s|
    && s[i] == Lit('{') && s[i + n + 1] == Lit('}')
    && forall j :: i < j <= i + n ==> s[j].Lit? && q(s[j].c)
  }

  ghost predicate NoSpuriousToken(s: seq<Piece>, q: char -> bool) {
    forall i: nat, n: nat :: !Spells(s, i, n, q)
  }

  lemma {:induction false} RunUpTo(text: string, n: nat, q: char -> bool)
    requires n <= |text| && (forall i :: 0 <= i < n ==> q(text[i])) && (n < |text| ==> !q(text[n]))
    ensures Run(text, q) == n
    decreases n
  {
    if n > 0 { RunUpTo(text[1..], n - 1, q); }
  }

  lemma {:induction false} TokenFirst(s: seq<Piece>)
    requires s != []
    ensures |Render(s)| > 0 && (s[0].Tok? ==> Render(s)[0] == '{')
  {
  }

  /** The leading run of a printed list comes from literals. */
  lemma {:induction false} RunIsLiteral(s: seq<Piece>, n: nat, q: char -> bool)
    requires !q('{') && n <= |Render(s)| && forall i :: 0 <= i < n ==> q(Render(s)[i])
    ensures n <= |s| && (forall i :: 0 <= i < n ==> s[i] == Lit(Render(s)[i]))
    ensures Render(s)[n..] == Render(s[n..])
    decreases n
  {
    hide Render;
    if n > 0 {
      RenderNonEmpty(s);
      var rest := Render(s[1..]);
      TokenFirst(s);
      assert s == [s[0]] + s[1..];
      RenderCons(s[0], s[1..]);
      assert Render(s) == [s[0].c] + rest;
      assert forall i :: 0 <= i < n - 1 ==> rest[i] == Render(s)[i + 1];
      RunIsLiteral(s[1..], n - 1, q);
      forall i | 0 <= i < n ensures s[i] == Lit(Render(s)[i]) {
        if i > 0 { assert s[1..][i - 1] == Lit(rest[i - 1]); }
      }
      assert Render(s)[n..] == rest[n - 1..];
      assert s[1..][n - 1..] == s[n..];
    } else {
      assert s[0..] == s && Render(s)[0..] == Render(s);
    }
  }

  lemma {:induction false} RenderNonEmpty(s: seq<Piece>)
    requires |Render(s)| > 0
    ensures s != []
  {
  }

  lemma TokenMatches(name: string, rest: string, q: char -> bool)
    requires !q('}') && name != [] && forall i :: 0 <= i < |name| ==> q(name[i])
    ensures var text := "{" + name + "}" + rest;
      MatchesHere(text, q) && Run(text[1..], q) == |name| && text[1..|name| + 1] == name && text[|name| + 2..] == rest
  {
    var text := "{" + name + "}" + rest;
    assert text[1..] == name + "}" + rest;
    assert text[1..][|name|] == '}';
    RunUpTo(text[1..], |name|, q);
  }

  /** A literal brace that begins a match begins a spurious token. */
  lemma LiteralMatches(s: seq<Piece>, q: char -> bool) returns (n: nat)
    requires !q('{') && !q('}') && s != [] && s[0].Lit? && MatchesHere(Render(s), q)
    ensures Spells(s, 0, n, q)
  {
    var text := Render(s);
    assert text == [s[0].c] + Render(s[1..]);
    assert text[1..] == Render(s[1..]);
    n := Run(text[1..], q);
    RunIsLiteral(s[1..], n, q);
    assert Render(s[1..])[n] == '}';
    assert Render(s[1..])[n..] == Render(s[1..][n..]);
    var tail := s[1..][n..];
    assert Render(tail)[0] == '}';
    TokenFirst(tail);
    assert tail[0] == Lit('}');
    assert s[n + 1] == tail[0];
    forall j | 0 < j <= n ensures s[j].Lit? && q(s[j].c) {
      assert s[1..][j - 1] == s[j];
    }
  }

  lemma {:induction false} SpellsMatches(s: seq<Piece>, n: nat, q: char -> bool)
    requires !q('}') && Spells(s, 0, n, q)
    ensures MatchesHere(Render(s), q)
  {
    hide Render, MatchesHere;
    var name := seq(n, i requires 0 <= i < n => s[i + 1].c);
    LiteralsRender(s, n + 2);
    var head := Render(s)[..n + 2];
    assert forall i :: 0 < i <= n ==> head[i] == name[i - 1];
    assert head == "{" + name + "}";
    TokenMatches(name, Render(s[n + 2..]), q);
  }

  lemma {:induction false} LiteralsRender(s: seq<Piece>, n: nat)
    requires n <= |s| && forall i :: 0 <= i < n ==> s[i].Lit?
    ensures |Render(s)| >= n && (forall i :: 0 <= i < n ==> Render(s)[i] == s[i].c)
    ensures Render(s) == Render(s)[..n] + Render(s[n..])
    decreases n
  {
    if n > 0 {
      LiteralsRender(s[1..], n - 1);
      assert s[1..][n - 1..] == s[n..];
    } else {
      assert s[0..] == s;
    }
  }

  lemma {:induction false} ScanStep(s: seq<Piece>, q: char -> bool)
    requires !q('{') && !q('}') && s != [] && Proper(s[0], q)
    ensures if s[0].Lit? && MatchesHere(Render(s), q)
      then Scan(Render(s), q) != [] && Scan(Render(s), q)[0].Tok?
      else Scan(Render(s), q) == [s[0]] + Scan(Render(s[1..]), q)
  {
    var text := Render(s);
    if s[0].Tok? {
      TokenMatches(s[0].name, Render(s[1..]), q);
    } else {
      assert text[1..] == Render(s[1..]);
    }
  }

  lemma SpellsTail(s: seq<Piece>, i: nat, n: nat, q: char -> bool)
    requires s != []
    ensures Spells(s[1..], i, n, q) <==> Spells(s, i + 1, n, q)
  {
    if i + n + 2 < |s| {
      assert s[1..][i] == s[i + 1] && s[1..][i + n + 1] == s[i + n + 2];
      if Spells(s[1..], i, n, q) {
        forall j | i + 1 < j <= i + 1 + n ensures s[j].Lit? && q(s[j].c) { assert s[1..][j - 1] == s[j]; }
      }
    }
  }

  /** Main lemma: a list of proper pieces is read back from its text exactly when no literal characters
      spell a token. */
  lemma {:induction false} ScanRender(s: seq<Piece>, q: char -> bool)
    requires !q('{') && !q('}') && AllProper(s, q)
    ensures Scan(Render(s), q) == s <==> NoSpuriousToken(s, q)
  {
    hide Scan, Render, MatchesHere, Spells;
    if s == [] {
      ScanEmpty(q);
      SpellsInside(s, q);
    } else {
      assert s[0] in s && forall p :: p in s[1..] ==> p in s;
      ScanRender(s[1..], q);
      ScanStep(s, q);
      NoSpuriousTail(s, q);
      if s[0].Lit? && MatchesHere(Render(s), q) {
        var n := LiteralMatches(s, q);
      } else {
        forall n: nat ensures !Spells(s, 0, n, q) {
          if Spells(s, 0, n, q) {
            SpellsLiteral(s, n, q);
            SpellsMatches(s, n, q);
          }
        }
        assert s == [s[0]] + s[1..];
        assert ([s[0]] + Scan(Render(s[1..]), q))[1..] == Scan(Render(s[1..]), q);
      }
    }
  }

  lemma SpellsLiteral(s: seq<Piece>, n: nat, q: char -> bool)
    requires Spells(s, 0, n, q)
    ensures s[0].Lit?
  {
  }

  lemma SpellsInside(s: seq<Piece>, q: char -> bool)
    ensures forall i: nat, n: nat :: Spells(s, i, n, q) ==> i + n + 1 < |s|
  {
  }

  lemma NoSpuriousTail(s: seq<Piece>, q: char -> bool)
    requires s != []
    ensures NoSpuriousToken(s, q) <==> NoSpuriousToken(s[1..], q) && forall n: nat :: !Spells(s, 0, n, q)
  {
    hide Spells;
    forall i: nat, n: nat ensures Spells(s[1..], i, n, q) <==> Spells(s, i + 1, n, q) { SpellsTail(s, i, n, q); }
    if NoSpuriousToken(s[1..], q) && forall n: nat :: !Spells(s, 0, n, q) {
      forall i: nat, n: nat ensures !Spells(s, i, n, q) {
        if i > 0 { assert Spells(s[1..], i - 1, n, q) <==> Spells(s, i, n, q); }
      }
    }
  }

  /** Scanning loses nothing and produces proper pieces. */
  lemma {:induction false} ScanFaithful(text: string, q: char -> bool)
    ensures Render(Scan(text, q)) == text && AllProper(Scan(text, q), q)
    decreases |text|
  {
    hide Scan, Render, MatchesHere;
    if text == [] {
      ScanEmpty(q);
    } else if MatchesHere(text, q) {
      var n := Run(text[1..], q);
      ScanNext(text, q);
      ScanFaithful(text[n + 2..], q);
      MatchParts(text, q);
      RenderCons(Tok(text[1..n + 1]), Scan(text[n + 2..], q));
    } else {
      ScanNext(text, q);
      ScanFaithful(text[1..], q);
      RenderCons(Lit(text[0]), Scan(text[1..], q));
    }
  }

  lemma ScanEmpty(q: char -> bool)
    ensures Scan("", q) == [] && Render([]) == ""
  {
  }

  lemma {:induction false} RenderCons(p: Piece, s: seq<Piece>)
    ensures Render([p] + s) == Show(p) + Render(s)
  {
    assert ([p] + s)[1..] == s;
  }

  lemma MatchParts(text: string, q: char -> bool)
    requires MatchesHere(text, q)
    ensures var n := Run(text[1..], q);
      var p := Tok(text[1..n + 1]);
      n + 2 <= |text| && Show(p) + text[n + 2..] == text && Proper(p, q)
  {
    var n := Run(text[1..], q);
    assert forall i :: 0 <= i < n ==> q(text[1..][i]) && text[1..n + 1][i] == text[1..][i];
    assert text == "{" + text[1..n + 1] + "}" + text[n + 2..];
  }

  /** The literals left by a scan spell no token. */
  lemma {:induction false} ScanClean(text: string, q: char -> bool)
    requires !q('{') && !q('}')
    ensures NoSpuriousToken(Scan(text, q), q)
  {
    ScanFaithful(text, q);
    ScanRender(Scan(text, q), q);
  }

  // ----- round trip -----

  /** Piece i of a text with the number of placeholders before it. */
  function Before(s: seq<Piece>, i: nat): nat
    requires i <= |s|
  {
    if i == 0 then 0 else Before(s, i - 1) + if s[i - 1].Tok? then 1 else 0
  }

  lemma {:induction false} NamesBefore(s: seq<Piece>, i: nat)
    requires i <= |s|
    ensures |Names(s[..i])| == Before(s, i)
  {
    if i == 0 {
      assert s[..0] == [];
    } else {
      NamesBefore(s, i - 1);
      assert s[..i][..i - 1] == s[..i - 1];
    }
  }

  /** Protection leaves the literal characters alone and writes the number n for the placeholder with n placeholders
      before it, whose name becomes the n-th name. */
  lemma {:induction false} ProtectExactly(k: Charset, text: string) returns (sent: seq<Piece>)
    ensures var s, p := Scan(text, k.word), Protect(k, text);
      && p.text == Render(sent) && |sent| == |s| && |p.names| == Before(s, |s|)
      && forall i :: 0 <= i < |s| ==>
        if s[i].Tok? then sent[i] == Tok(Decimal(Before(s, i))) && Before(s, i) < |p.names| && p.names[Before(s, i)] == s[i].name
        else sent[i] == s[i]
  {
    var s := Scan(text, k.word);
    sent := Numbered(s);
    NumberedLength(s);
    NamesBefore(s, |s|);
    assert s[..|s|] == s;
    forall i | 0 <= i < |s|
      ensures if s[i].Tok? then sent[i] == Tok(Decimal(Before(s, i))) && Before(s, i) < |Names(s)| && Names(s)[Before(s, i)] == s[i].name
        else sent[i] == s[i]
    {
      NumberedAt(s, i);
      NamesBefore(s, i);
    }
  }

  lemma {:induction false} NumberedAt(s: seq<Piece>, i: nat)
    requires i < |s|
    ensures |Numbered(s)| == |s|
    ensures Numbered(s)[i] == if s[i].Tok? then Tok(Decimal(|Names(s[..i])|)) else s[i]
    ensures s[i].Tok? ==> |Names(s[..i])| < |Names(s)| && Names(s)[|Names(s[..i])|] == s[i].name
  {
    var n := |s| - 1;
    NumberedLength(s[..n]);
    if i < n {
      NumberedAt(s[..n], i);
      assert s[..n][..i] == s[..i];
    }
  }

  lemma {:induction false} NumberedLength(s: seq<Piece>)
    ensures |Numbered(s)| == |s|
  {
    if s != [] { NumberedLength(s[..|s| - 1]); }
  }

  /** The numbered pieces are proper, in range, and spell no token. */
  lemma {:induction false} NumberedProper(k: Charset, s: seq<Piece>)
    requires Sane(k) && NoSpuriousToken(s, k.word)
    ensures AllProper(Numbered(s), IsDigit(k)) && NoSpuriousToken(Numbered(s), IsDigit(k))
    ensures forall p :: p in Numbered(s) ==> InRange(k, p, Names(s))
  {
    var u := Numbered(s);
    NumberedLength(s);
    forall p | p in u ensures Proper(p, IsDigit(k)) && InRange(k, p, Names(s)) {
      var i :| 0 <= i < |u| && u[i] == p;
      NumberedAt(s, i);
      if s[i].Tok? { ParseDecimal(k, |Names(s[..i])|); }
    }
    forall i: nat, n: nat ensures !Spells(u, i, n, IsDigit(k)) {
      if Spells(u, i, n, IsDigit(k)) { SpelledBefore(k, s, i, n); }
    }
  }

  /** Literals that spell a numbered token spelled a token before the numbering. */
  lemma {:induction false} SpelledBefore(k: Charset, s: seq<Piece>, i: nat, n: nat)
    requires Sane(k) && Spells(Numbered(s), i, n, IsDigit(k))
    ensures Spells(s, i, n, k.word)
  {
    var u := Numbered(s);
    NumberedLength(s);
    forall j | i <= j <= i + n + 1 ensures s[j] == u[j] {
      NumberedAt(s, j);
      assert u[j].Lit?;
    }
  }

  lemma {:induction false} NamedAt(k: Charset, s: seq<Piece>, names: seq<string>)
    requires forall p :: p in s ==> InRange(k, p, names)
    ensures |Named(k, s, names)| == |s|
    ensures forall i :: 0 <= i < |s| ==>
      InRange(k, s[i], names) && Named(k, s, names)[i] == if s[i].Tok? then Tok(names[Parse(k, s[i].name)]) else s[i]
  {
    if s != [] {
      assert s[0] in s && forall p :: p in s[1..] ==> p in s;
      NamedAt(k, s[1..], names);
      forall i | 0 <= i < |s|
        ensures InRange(k, s[i], names) && Named(k, s, names)[i] == if s[i].Tok? then Tok(names[Parse(k, s[i].name)]) else s[i]
      {
        if i > 0 { assert s[1..][i - 1] == s[i]; }
      }
    }
  }

  lemma {:induction false} NamedNumbered(k: Charset, s: seq<Piece>)
    requires Sane(k) && forall p :: p in Numbered(s) ==> InRange(k, p, Names(s))
    ensures Named(k, Numbered(s), Names(s)) == s
  {
    var u := Numbered(s);
    NumberedLength(s);
    NamedAt(k, u, Names(s));
    forall i | 0 <= i < |s| ensures Named(k, u, Names(s))[i] == s[i] {
      NumberedAt(s, i);
      if s[i].Tok? { ParseDecimal(k, |Names(s[..i])|); }
    }
  }

  lemma DigitsAreNotBraces(k: Charset)
    requires Sane(k)
    ensures !IsDigit(k)('{') && !IsDigit(k)('}')
  {
  }

  /** Main result: restoring a protected text gives the text back, for every text. */
  lemma ProtectRestore(k: Charset, text: string)
    requires Sane(k)
    ensures var p := Protect(k, text); Restore(k, p.text, p.names) == Ok(text)
  {
    var s := Scan(text, k.word);
    ScanClean(text, k.word);
    ScanFaithful(text, k.word);
    NumberedProper(k, s);
    DigitsAreNotBraces(k);
    ScanRender(Numbered(s), IsDigit(k));
    NamedNumbered(k, s);
  }

  /** Main result: restoration is by index. However the pieces of a protected text are rearranged, as
      long as no literal characters come to spell a token, each `{i}` becomes the i-th name and every
      other character stays. */
  lemma {:induction false} RestoreByIndex(k: Charset, text: string, moved: seq<Piece>)
    requires Sane(k)
    requires multiset(moved) == multiset(Numbered(Scan(text, k.word)))
    requires NoSpuriousToken(moved, IsDigit(k))
    ensures var names := Protect(k, text).names;
      && (forall p :: p in moved ==> InRange(k, p, names))
      && Restore(k, Render(moved), names) == Ok(Render(Named(k, moved, names)))
  {
    var s := Scan(text, k.word);
    ScanClean(text, k.word);
    NumberedProper(k, s);
    forall p | p in moved ensures p in Numbered(s) {
      assert p in multiset(moved);
      assert p in multiset(Numbered(s));
    }
    DigitsAreNotBraces(k);
    ScanRender(moved, IsDigit(k));
  }

  /** The number of every token indexes one of `count` names. */
  ghost predicate AllIndexed(k: Charset, s: seq<Piece>, count: nat) {
    forall i :: 0 <= i < |s| && s[i].Tok? ==> 0 <= Parse(k, s[i].name) < count
  }

  /** Restoration of any text: it fails exactly if some number is out of range; otherwise each number becomes the name
      it indexes, however often it occurs, and every other character stays. */
  lemma {:induction false} RestoreExactly(k: Charset, text: string, names: seq<string>) returns (restored: seq<Piece>)
    ensures var s := Scan(text, IsDigit(k));
      if AllIndexed(k, s, |names|) then
        && Restore(k, text, names) == Ok(Render(restored)) && |restored| == |s|
        && forall i :: 0 <= i < |s| ==> restored[i] == if s[i].Tok? then Tok(names[Parse(k, s[i].name)]) else s[i]
      else Restore(k, text, names) == Err(IndexOutOfRange)
  {
    var s := Scan(text, IsDigit(k));
    if AllIndexed(k, s, |names|) {
      forall p | p in s ensures InRange(k, p, names) {
        var i :| 0 <= i < |s| && s[i] == p;
      }
      NamedAt(k, s, names);
      restored := Named(k, s, names);
    } else {
      var i :| 0 <= i < |s| && s[i].Tok? && !(0 <= Parse(k, s[i].name) < |names|);
      assert s[i] in s && !InRange(k, s[i], names);
      restored := [];
    }
  }
}
