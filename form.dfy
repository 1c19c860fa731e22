/**
 * The search form's own logic: the path of a card's picture, the sanitizing and
 * encoding of the search parameters, the checkbox toggles, and the guards on
 * submitting and paging.
 */
module Form {
  import opened Wrappers
  import opened Strings
  import opened Tokens
  import opened Ordering
  import QueryBuilder
  import Sql
  import Search

  // ---- Card pictures ----

  /** A result row as far as its picture is concerned: a row id, possibly missing. */
  datatype Card = Card(rowid: Option<int>)

  const CardsDir := "/assets/cards/"
  const DefaultImage := CardsDir + "default.jpg"

  /** The row id as text, left-padded with `'0'` to at least five characters. */
  function Padded(id: int): (p: string)
    ensures |p| >= 5
  {
    PadStart(IntToString(id), 5, '0')
  }

  /** `getCardImagePath`: the default picture for a missing card or a falsy row id,
      otherwise three directory levels from the padded id and the unpadded id as the
      file name. */
  function CardImagePath(card: Option<Card>): string {
    if card.None? || card.value.rowid.None? || card.value.rowid.value == 0 then DefaultImage
    else
      var id := card.value.rowid.value;
      var p := Padded(id);
      CardsDir + [p[0]] + "/" + [p[1]] + "/" + [p[2]] + "/" + IntToString(id) + ".jpg"
  }

  function Pow10(k: nat): (p: nat)
    ensures p >= 1
  {
    if k == 0 then 1 else 10 * Pow10(k - 1)
  }

  lemma Pow10Five()
    ensures Pow10(5) == 100000
  {
    assert Pow10(2) == 100;
  }

  function DigitValue(c: char): int {
    c as int - '0' as int
  }

  lemma {:induction false} NatToStringShort(n: nat, k: nat)
    requires 1 <= k && n < Pow10(k)
    ensures |NatToString(n)| <= k
  {
    if n >= 10 {
      NatToStringShort(n / 10, k - 1);
    }
  }

  lemma {:induction false} NatToStringLong(n: nat, k: nat)
    requires n >= Pow10(k)
    ensures |NatToString(n)| >= k + 1
  {
    if k > 0 {
      NatToStringLong(n / 10, k - 1);
    }
  }

  predicate Digits(s: string) {
    forall i :: 0 <= i < |s| ==> '0' <= s[i] <= '9'
  }

  lemma {:induction false} ReadZeros(z: nat)
    ensures ReadDecimal(seq(z, _ => '0')) == 0
  {
    if z > 0 {
      assert seq(z, _ => '0')[..z - 1] == seq(z - 1, _ => '0');
      ReadZeros(z - 1);
    }
  }

  /** Leading zeros do not change the number a string of digits reads as. */
  lemma {:induction false} LeadingZeros(z: nat, s: string)
    requires Digits(s)
    ensures Digits(seq(z, _ => '0') + s)
    ensures ReadDecimal(seq(z, _ => '0') + s) == ReadDecimal(s)
    decreases |s|
  {
    var zs := seq(z, _ => '0');
    assert forall i :: 0 <= i < z + |s| ==> (zs + s)[i] == if i < z then '0' else s[i - z];
    if s == [] {
      assert zs + s == zs;
      ReadZeros(z);
    } else {
      var n := |s| - 1;
      assert (zs + s)[..z + n] == zs + s[..n];
      LeadingZeros(z, s[..n]);
    }
  }

  /** The padded id reads back as the id, and is the id itself once it has five
      digits or more. */
  lemma PaddedReadsBack(id: int)
    requires id > 0
    ensures Digits(Padded(id))
    ensures ReadDecimal(Padded(id)) == id
    ensures |NatToString(id)| >= 5 ==> Padded(id) == NatToString(id)
    ensures |NatToString(id)| < 5 ==> |Padded(id)| == 5
  {
    var s := NatToString(id);
    DecimalRoundTrip(id);
    if |s| < 5 {
      LeadingZeros(5 - |s|, s);
    }
  }

  /** A five-digit string reads as its digits weighted by powers of ten. */
  lemma FiveDigits(s: string)
    requires |s| == 5 && Digits(s)
    ensures ReadDecimal(s) == DigitValue(s[0]) * 10000 + DigitValue(s[1]) * 1000 +
      DigitValue(s[2]) * 100 + DigitValue(s[3]) * 10 + DigitValue(s[4])
  {
    assert s[..4][..3] == s[..3] && s[..3][..2] == s[..2] && s[..2][..1] == s[..1] && s[..1][..0] == [];
    assert ReadDecimal(s[..1]) == DigitValue(s[0]);
    assert ReadDecimal(s[..2]) == ReadDecimal(s[..1]) * 10 + DigitValue(s[1]);
    assert ReadDecimal(s[..3]) == ReadDecimal(s[..2]) * 10 + DigitValue(s[2]);
    assert ReadDecimal(s[..4]) == ReadDecimal(s[..3]) * 10 + DigitValue(s[3]);
    assert ReadDecimal(s) == ReadDecimal(s[..4]) * 10 + DigitValue(s[4]);
  }

  /** The leading digits of a five-digit number. */
  lemma LeadingDigits(id: int, d0: int, d1: int, d2: int, d3: int, d4: int)
    requires 0 <= d0 <= 9 && 0 <= d1 <= 9 && 0 <= d2 <= 9 && 0 <= d3 <= 9 && 0 <= d4 <= 9
    requires id == d0 * 10000 + d1 * 1000 + d2 * 100 + d3 * 10 + d4
    ensures id / 10000 == d0 && id / 1000 % 10 == d1 && id / 100 % 10 == d2
  {
    var r0 := d1 * 1000 + d2 * 100 + d3 * 10 + d4;
    assert 0 <= r0 < 10000 && id == d0 * 10000 + r0;
    var r1 := d2 * 100 + d3 * 10 + d4;
    assert 0 <= r1 < 1000 && id == (d0 * 10 + d1) * 1000 + r1;
    assert id / 1000 == d0 * 10 + d1;
    var r2 := d3 * 10 + d4;
    assert 0 <= r2 < 100 && id == (d0 * 100 + d1 * 10 + d2) * 100 + r2;
    assert id / 100 == d0 * 100 + d1 * 10 + d2;
  }

  lemma DigitCharOf(c: char)
    requires '0' <= c <= '9'
    ensures DigitChar(DigitValue(c) as nat) == c
  {
  }

  /** For ids below 100000 the three directory levels are the ten-thousands, thousands
      and hundreds digits of the id: id 123 lives in `0/0/1/123.jpg`. */
  lemma ImagePathDigits(id: int)
    requires 0 < id < 100000
    ensures CardImagePath(Some(Card(Some(id)))) ==
      CardsDir + [DigitChar(id / 10000)] + "/" + [DigitChar(id / 1000 % 10)] + "/" +
      [DigitChar(id / 100 % 10)] + "/" + NatToString(id) + ".jpg"
  {
    var p := Padded(id);
    Pow10Five();
    NatToStringShort(id, 5);
    PaddedReadsBack(id);
    if |NatToString(id)| == 5 {
      assert p == NatToString(id);
    }
    assert |p| == 5;
    FiveDigits(p);
    LeadingDigits(id, DigitValue(p[0]), DigitValue(p[1]), DigitValue(p[2]), DigitValue(p[3]), DigitValue(p[4]));
    DigitCharOf(p[0]);
    DigitCharOf(p[1]);
    DigitCharOf(p[2]);
  }

  /** From 100000 on no padding happens: the directory levels are the first three
      digits of the id. */
  lemma ImagePathLong(id: int)
    requires id >= 100000
    ensures var s := NatToString(id);
      |s| >= 6 &&
      CardImagePath(Some(Card(Some(id)))) == CardsDir + [s[0]] + "/" + [s[1]] + "/" + [s[2]] + "/" + s + ".jpg"
  {
    Pow10Five();
    NatToStringLong(id, 5);
    PaddedReadsBack(id);
    assert Padded(id) == NatToString(id);
  }

  /** The default picture is given exactly for a missing card or a falsy row id: no
      real id produces its path. */
  lemma ImagePathDefault(card: Option<Card>)
    ensures CardImagePath(card) == DefaultImage <==>
      card.None? || card.value.rowid.None? || card.value.rowid.value == 0
  {
    if !(card.None? || card.value.rowid.None? || card.value.rowid.value == 0) {
      var id := card.value.rowid.value;
      var p := Padded(id);
      var s := IntToString(id);
      assert p[0] == '0' || p[0] == s[0];
      assert s[0] == '-' || '0' <= s[0] <= '9';
      var path := CardImagePath(card);
      assert path[|CardsDir|] == p[0];
      assert DefaultImage[|CardsDir|] == 'd';
    }
  }

  lemma ImagePathExample()
    ensures CardImagePath(Some(Card(Some(123)))) == "/assets/cards/0/0/1/123.jpg"
  {
    ImagePathDigits(123);
    NatToString123();
    assert DigitChar(0) == '0' && DigitChar(1) == '1';
  }

  lemma NatToString123()
    ensures NatToString(123) == "123"
  {
    assert NatToString(1) == "1";
    assert NatToString(12) == "12";
  }

  // ---- The search-text sanitizer ----

  /** `text.replace(/\{[^}]*\}/g, '')`: at a `{` the match runs to the first `}` after
      it, which may follow at once; a `{` with no `}` after it stays. */
  function StripTokens(s: string): string
    decreases |s|
  {
    if s == [] then []
    else if s[0] == '{' then
      match FirstIndex(s[1..], '}')
      case Some(k) => StripTokens(s[k + 2..])
      case None => [s[0]] + StripTokens(s[1..])
    else [s[0]] + StripTokens(s[1..])
  }

  /** No `{` is followed, anywhere later, by a `}`. */
  predicate Clean(r: string) {
    forall i, j :: 0 <= i < j < |r| && r[i] == '{' ==> r[j] != '}'
  }

  lemma CleanCons(c: char, r: string)
    requires c != '{' && Clean(r)
    ensures Clean([c] + r)
  {
    var s := [c] + r;
    forall i, j | 0 <= i < j < |s| && s[i] == '{' ensures s[j] != '}' {
      assert s[i] == r[i - 1] && s[j] == r[j - 1];
    }
  }

  lemma CleanTail(r: string)
    requires r != [] && Clean(r)
    ensures Clean(r[1..])
  {
    forall i, j | 0 <= i < j < |r| - 1 && r[1..][i] == '{' ensures r[1..][j] != '}' {
      assert r[1..][i] == r[i + 1] && r[1..][j] == r[j + 1];
    }
  }

  /** A clean text is left as it is. */
  lemma {:induction false} StripClean(r: string)
    requires Clean(r)
    ensures StripTokens(r) == r
    decreases |r|
  {
    if r != [] {
      CleanTail(r);
      StripClean(r[1..]);
      if r[0] == '{' {
        assert '}' !in r[1..] by {
          forall j | 0 <= j < |r| - 1 ensures r[1..][j] != '}' {
            assert r[1..][j] == r[j + 1];
          }
        }
      }
      assert r == [r[0]] + r[1..];
    }
  }

  lemma NoCloseClean(s: string)
    requires '}' !in s
    ensures Clean(s)
  {
  }

  /** The sanitized text contains no `{` followed later by a `}`: every `{...}` span is
      gone. */
  lemma {:induction false} StripTokensClean(s: string)
    ensures Clean(StripTokens(s))
    decreases |s|
  {
    if s != [] {
      if s[0] == '{' {
        match FirstIndex(s[1..], '}')
        case Some(k) =>
          StripTokensClean(s[k + 2..]);
        case None =>
          NoCloseClean(s);
          StripClean(s);
          assert StripTokens(s) == s by {
            NoCloseClean(s[1..]);
            StripClean(s[1..]);
            assert s == [s[0]] + s[1..];
          }
      } else {
        StripTokensClean(s[1..]);
        CleanCons(s[0], StripTokens(s[1..]));
      }
    }
  }

  /** Sanitizing twice is sanitizing once. */
  lemma StripTokensIdempotent(s: string)
    ensures StripTokens(StripTokens(s)) == StripTokens(s)
  {
    StripTokensClean(s);
    StripClean(StripTokens(s));
  }

  /** Text without `{` is not changed. */
  lemma StripTokensPlain(s: string)
    requires '{' !in s
    ensures StripTokens(s) == s
  {
    StripClean(s);
  }

  lemma {:induction false} StripWords(t: string, rest: string)
    requires NoDelimiter(t)
    ensures StripTokens(t + rest) == t + StripTokens(rest)
    decreases |t|
  {
    if t == [] {
      assert t + rest == rest;
    } else {
      assert (t + rest)[0] == t[0] && (t + rest)[1..] == t[1..] + rest;
      assert NoDelimiter(t[1..]) by { assert forall i :: 0 <= i < |t| - 1 ==> t[1..][i] == t[i + 1]; }
      assert StripTokens(t + rest) == [t[0]] + StripTokens(t[1..] + rest);
      StripWords(t[1..], rest);
      ConcatAssoc([t[0]], t[1..], StripTokens(rest));
      assert [t[0]] + t[1..] == t;
    }
  }

  lemma StripSymbol(x: string, rest: string)
    requires NoDelimiter(x)
    ensures StripTokens("{" + x + "}" + rest) == StripTokens(rest)
  {
    var u := x + "}" + rest;
    var s := "{" + u;
    ConcatAssoc("{", x, "}");
    ConcatAssoc("{", x + "}", rest);
    assert "{" + x + "}" + rest == s;
    ConcatSuffix("{", u);
    assert '}' !in x;
    FirstIndexAfter(x, '}', rest);
    ConcatSuffix(x + "}", rest);
    assert s[|x| + 2..] == u[|x| + 1..];
  }

  /** Sanitizing well-formed card text leaves exactly its words, which are exactly the
      characters the matcher on the server may match. */
  lemma {:induction false} StripTokensOfWellFormed(ps: seq<Piece>)
    requires WellFormed(ps)
    ensures StripTokens(Source(ps)) == WordsOf(ps)
    ensures StripTokens(Source(ps)) == Visible(Source(ps))
  {
    VisibleOfWellFormed(ps);
    if ps != [] {
      assert WellFormed(ps[1..]) by {
        forall i | 0 <= i < |ps[1..]| ensures ps[1..][i] == ps[i + 1] { }
      }
      StripTokensOfWellFormed(ps[1..]);
      match ps[0]
      case Words(t) =>
        StripWords(t, Source(ps[1..]));
      case Symbol(x) =>
        StripSymbol(x, Source(ps[1..]));
    }
  }

  // ---- Encoding of the list parameters ----

  /** `list.sort().join(',')`. */
  function EncodeList(xs: seq<string>): string {
    Join(Sort(xs), ",")
  }

  /** The encoding does not depend on the order in which the boxes were ticked. */
  lemma EncodeListOrderFree(a: seq<string>, b: seq<string>)
    requires multiset(a) == multiset(b)
    ensures EncodeList(a) == EncodeList(b)
  {
    SortOrderFree(a, b);
  }

  /** Values are "clean" when non-empty and free of `,`. */
  predicate CleanValues(xs: seq<string>) {
    forall i :: 0 <= i < |xs| ==> xs[i] != "" && ',' !in xs[i]
  }

  lemma SortCleanValues(xs: seq<string>)
    requires CleanValues(xs)
    ensures CleanValues(Sort(xs))
  {
    var s := Sort(xs);
    forall i | 0 <= i < |s| ensures s[i] != "" && ',' !in s[i] {
      assert s[i] in multiset(xs);
    }
  }

  lemma JoinNonEmpty(parts: seq<string>, sep: string)
    requires |parts| >= 1 && parts[0] != ""
    ensures Join(parts, sep) != ""
  {
  }

  /** The server splits the encoding back into the sorted values. */
  lemma EncodeListSplits(xs: seq<string>)
    requires xs != [] && CleanValues(xs)
    ensures Split(EncodeList(xs), ',') == Sort(xs)
    ensures EncodeList(xs) != ""
  {
    var s := Sort(xs);
    assert |s| == |multiset(s)| == |multiset(xs)| == |xs|;
    SortCleanValues(xs);
    SplitJoin(s, ',');
    JoinNonEmpty(s, ",");
  }

  /** Ticked colors reach the query builder as the sorted values: in exact mode one
      parameter, the values joined by `", "`; otherwise one `%v%` pattern per value. */
  lemma EncodedListPart(column: string, xs: seq<string>)
    requires xs != [] && CleanValues(xs)
    ensures QueryBuilder.ListPart(column, EncodeList(xs), "true").args == [Sql.Text(Join(Sort(xs), ", "))]
    ensures QueryBuilder.ListPart(column, EncodeList(xs), "false").args == QueryBuilder.Patterns(Sort(xs))
  {
    EncodeListSplits(xs);
  }

  /** No ticked box: the parameter is empty, and the server adds no filter. */
  lemma EncodeListEmpty(column: string, exact: string)
    ensures EncodeList([]) == ""
    ensures QueryBuilder.ListPart(column, EncodeList([]), exact) == Sql.Empty
  {
  }

  lemma ExactColorsExample()
    ensures EncodeList(["R", "G"]) == "G,R"
  {
    assert !Below("R", "G");
    assert Sort(["G"]) == ["G"] by { assert ["G"][1..] == []; }
    assert Insert("R", ["G"]) == ["G", "R"] by { assert ["G"][1..] == []; }
    assert Sort(["R", "G"]) == ["G", "R"] by { assert ["R", "G"][1..] == ["G"]; }
    assert Join(["G", "R"], ",") == "G,R" by { assert ["G", "R"][1..] == ["R"]; }
  }

  /** `s.trim()` applied to every piece. */
  function TrimAll(ps: seq<string>): (r: seq<string>)
    ensures |r| == |ps| && forall i :: 0 <= i < |ps| ==> r[i] == Trim(ps[i])
  {
    seq(|ps|, i requires 0 <= i < |ps| => Trim(ps[i]))
  }

  /** `subtypes.split(' ').map(s => s.trim()).join(',')`. */
  function EncodeSubtypes(s: string): string {
    Join(TrimAll(Split(s, ' ')), ",")
  }

  predicate NoWhite(w: string) {
    forall i :: 0 <= i < |w| ==> !IsWhite(w[i])
  }

  lemma TrimNoWhite(w: string)
    requires NoWhite(w)
    ensures Trim(w) == w
  {
  }

  lemma {:induction false} JoinAvoids(parts: seq<string>, sep: string, c: char)
    requires c !in sep && forall i :: 0 <= i < |parts| ==> c !in parts[i]
    ensures c !in Join(parts, sep)
  {
    if |parts| > 1 {
      JoinAvoids(parts[1..], sep, c);
    }
  }

  /** The encoded subtypes hold no space. */
  lemma EncodeSubtypesNoSpace(s: string)
    ensures ' ' !in EncodeSubtypes(s)
  {
    var ps := TrimAll(Split(s, ' '));
    forall i | 0 <= i < |ps| ensures ' ' !in ps[i] {
      var p := Split(s, ' ')[i];
      var t := TrimStart(p);
      assert forall x :: x in t ==> x in p;
      assert forall x :: x in TrimEnd(t) ==> x in t;
    }
    JoinAvoids(ps, ",", ' ');
  }

  /** Words typed with single spaces are sent joined by `,`, and the server splits them
      back into the same words. */
  lemma EncodeSubtypesWords(words: seq<string>)
    requires |words| >= 1
    requires forall i :: 0 <= i < |words| ==> NoWhite(words[i]) && ',' !in words[i]
    ensures EncodeSubtypes(Join(words, " ")) == Join(words, ",")
    ensures Split(EncodeSubtypes(Join(words, " ")), ',') == words
  {
    forall i | 0 <= i < |words| ensures ' ' !in words[i] {
      assert forall k :: 0 <= k < |words[i]| ==> words[i][k] != ' ';
    }
    SplitJoin(words, ' ');
    forall i | 0 <= i < |words| ensures Trim(words[i]) == words[i] {
      TrimNoWhite(words[i]);
    }
    assert TrimAll(words) == words;
    SplitJoin(words, ',');
  }

  // ---- Checkbox toggles ----

  /** `xs.filter(x => x !== v)`. */
  function Without(xs: seq<string>, v: string): (r: seq<string>)
    ensures |r| <= |xs|
  {
    if xs == [] then [] else (if xs[0] == v then [] else [xs[0]]) + Without(xs[1..], v)
  }

  /** Filtering keeps the other values with their multiplicities and drops every `v`. */
  lemma {:induction false} WithoutCounts(xs: seq<string>, v: string)
    ensures multiset(Without(xs, v))[v] == 0
    ensures forall u :: u != v ==> multiset(Without(xs, v))[u] == multiset(xs)[u]
  {
    if xs != [] {
      WithoutCounts(xs[1..], v);
      assert xs == [xs[0]] + xs[1..];
    }
  }

  /** Filtering a concatenation filters each part: the kept values stay in order. */
  lemma {:induction false} WithoutConcat(a: seq<string>, b: seq<string>, v: string)
    ensures Without(a + b, v) == Without(a, v) + Without(b, v)
  {
    if a == [] {
      assert a + b == b;
    } else {
      assert (a + b)[0] == a[0] && (a + b)[1..] == a[1..] + b;
      WithoutConcat(a[1..], b, v);
    }
  }

  lemma {:induction false} WithoutAbsent(xs: seq<string>, v: string)
    requires v !in xs
    ensures Without(xs, v) == xs
  {
    if xs != [] {
      WithoutAbsent(xs[1..], v);
      assert xs == [xs[0]] + xs[1..];
    }
  }

  /** `handleColorChange`/`handleTypeChange`: a present value is removed with all its
      occurrences, an absent one appended. */
  function Toggle(xs: seq<string>, v: string): seq<string> {
    if v in xs then Without(xs, v) else xs + [v]
  }

  /** After a toggle `v` is present exactly when it was absent before, and every other
      value is present exactly as often as before. */
  lemma ToggleCounts(xs: seq<string>, v: string)
    ensures v in Toggle(xs, v) <==> v !in xs
    ensures v in xs ==> multiset(Toggle(xs, v))[v] == 0
    ensures v !in xs ==> multiset(Toggle(xs, v))[v] == 1
    ensures forall u :: u != v ==> multiset(Toggle(xs, v))[u] == multiset(xs)[u]
  {
    WithoutCounts(xs, v);
  }

  /** Toggling an absent value twice restores the list. */
  lemma ToggleTwice(xs: seq<string>, v: string)
    requires v !in xs
    ensures Toggle(Toggle(xs, v), v) == xs
  {
    WithoutConcat(xs, [v], v);
    WithoutAbsent(xs, v);
    assert Without([v], v) == [];
  }

  /** Toggling a present value twice leaves one copy of it, at the end. */
  lemma TogglePresentTwice(xs: seq<string>, v: string)
    requires v in xs
    ensures Toggle(Toggle(xs, v), v) == Without(xs, v) + [v]
  {
    WithoutCounts(xs, v);
  }

  // ---- Paging ----

  /** `handlePreviousPage`: a fetch of the page before, only past the first page. */
  function PreviousPage(page: int): (fetch: Option<int>) {
    if page > 1 then Some(page - 1) else None
  }

  /** Paging back never asks for a page before the first, and moves the offset
      back by one page. */
  lemma PreviousPageOffset(page: int)
    ensures PreviousPage(page).Some? <==> page > 1
    ensures PreviousPage(page).Some? ==>
      (PreviousPage(page).value >= 1 &&
       QueryBuilder.Offset(PreviousPage(page)) >= 0 &&
       QueryBuilder.Offset(PreviousPage(page)) == QueryBuilder.Offset(Some(page)) - QueryBuilder.Limit)
  {
  }

  /** `handleNextPage`: a fetch of the page after, with no guard of its own. */
  function NextPage(page: int): (fetch: Option<int>) {
    Some(page + 1)
  }

  /** Paging forward always fetches, moves the offset on by one page, and is undone by
      paging back. */
  lemma NextPageOffset(page: int)
    ensures NextPage(page).Some? && NextPage(page).value > page
    ensures QueryBuilder.Offset(NextPage(page)) == QueryBuilder.Offset(Some(page)) + QueryBuilder.Limit
    ensures page >= 1 ==> PreviousPage(NextPage(page).value) == Some(page)
  {
  }

  /** Paging back past the first page is undone by paging forward. */
  lemma PreviousThenNext(page: int)
    requires page > 1
    ensures PreviousPage(page).Some? && NextPage(PreviousPage(page).value) == Some(page)
  {
  }

  /** The Next button is shown only after a full page of results. */
  predicate NextOffered<T>(results: seq<T>) {
    |results| == QueryBuilder.Limit
  }

  /** The Previous button is shown only past the first page. */
  predicate PreviousOffered(page: int) {
    page > 1
  }

  /** The Previous button is shown exactly when its handler would fetch, so a click on it
      is never ignored. */
  lemma PreviousGuardsAgree(page: int)
    ensures PreviousOffered(page) <==> PreviousPage(page).Some?
  {
  }

  /** The server pages before the Sharpie pass: a candidate page of at most 50 rows on
      which the matcher drops any row comes back short, and the Next button is hidden
      even when later pages hold matches. */
  lemma SharpieDropHidesNext(rows: seq<Search.Row>, texts: seq<Option<string>>, text: string, i: nat)
    requires |rows| <= QueryBuilder.Limit && |texts| == |rows| && i < |rows|
    requires Search.Decide(texts[i], text).Dropped?
    ensures !NextOffered(Search.Survivors(rows, texts, text))
  {
    Search.SurvivorsDropped(rows, texts, text, i);
  }

  function BoolString(b: bool): string {
    if b then "true" else "false"
  }

  // ---- The form ----

  /** The form's state. */
  class SearchForm {
    var name: string
    var text: string
    var results: seq<Card>
    var page: int
    var colors: seq<string>
    var types: seq<string>
    var supertype: string
    var subtypes: string
    var matchColorsExactly: bool
    var matchTypesExactly: bool
    var lookupMode: bool
    var searchSubmitted: bool

    /** The initial state: every field empty, page 1, lookup mode on. */
    constructor ()
      ensures name == "" && text == "" && results == [] && page == 1
      ensures colors == [] && types == [] && supertype == "" && subtypes == ""
      ensures !matchColorsExactly && !matchTypesExactly && lookupMode && !searchSubmitted
    {
      name, text, results, page := "", "", [], 1;
      colors, types, supertype, subtypes := [], [], "", "";
      matchColorsExactly, matchTypesExactly, lookupMode, searchSubmitted := false, false, true, false;
    }

    /** Nothing to search for: no text field filled and no box ticked. */
    predicate IsEmpty()
      reads this
    {
      name == "" && text == "" && |colors| == 0 && |types| == 0 && supertype == "" && subtypes == ""
    }

    /** `handleSubmit`: an empty form changes nothing; otherwise a search is requested. */
    method HandleSubmit()
      modifies this
      ensures old(IsEmpty()) ==> searchSubmitted == old(searchSubmitted)
      ensures !old(IsEmpty()) ==> searchSubmitted
      ensures name == old(name) && text == old(text) && results == old(results) && page == old(page)
      ensures colors == old(colors) && types == old(types) && supertype == old(supertype)
      ensures subtypes == old(subtypes) && matchColorsExactly == old(matchColorsExactly)
      ensures matchTypesExactly == old(matchTypesExactly) && lookupMode == old(lookupMode)
    {
      if IsEmpty() {
        return;
      }
      searchSubmitted := true;
    }

    method HandleColorChange(value: string)
      modifies this`colors
      ensures colors == Toggle(old(colors), value)
    {
      colors := Toggle(colors, value);
    }

    method HandleTypeChange(value: string)
      modifies this`types
      ensures types == Toggle(old(types), value)
    {
      types := Toggle(types, value);
    }

    /** The request `fetchResults(page)` sends: the text sanitized, the ticked colors and
        types sorted in place and joined by `,`, the subtypes re-joined by `,`, the flags
        as "true" or "false". */
    method FetchRequest(fetchPage: int) returns (req: QueryBuilder.Request)
      modifies this`colors, this`types
      ensures colors == Sort(old(colors)) && types == Sort(old(types))
      ensures req.name == name && req.text == StripTokens(text)
      ensures req.colors == EncodeList(old(colors)) && req.types == EncodeList(old(types))
      ensures req.subtypes == EncodeSubtypes(subtypes) && req.supertype == supertype
      ensures req.matchColorsExactly == BoolString(matchColorsExactly)
      ensures req.matchTypesExactly == BoolString(matchTypesExactly)
      ensures req.lookupMode == BoolString(lookupMode) && req.page == Some(fetchPage)
    {
      var sanitizedText := StripTokens(text);
      colors := Sort(colors);
      types := Sort(types);
      req := QueryBuilder.Request(
        name, sanitizedText, Join(colors, ","), Join(types, ","),
        EncodeSubtypes(subtypes), supertype, BoolString(matchColorsExactly),
        BoolString(matchTypesExactly), BoolString(lookupMode), Some(fetchPage));
    }
  }

  /** Sorting the state in place does not change what a later fetch sends. */
  lemma SortInPlaceStable(xs: seq<string>)
    ensures EncodeList(Sort(xs)) == EncodeList(xs)
  {
    SortSorted(Sort(xs));
  }
}
