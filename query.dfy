/**
 * The query builder of the search endpoint: from the request's query parameters it
 * grows an SQL string with `+=` and a parameter list with `push`, one filter at a
 * time, and always ends with a fixed ordering and a 50-row page.
 */
module QueryBuilder {
  import opened Wrappers
  import opened Strings
  import opened Sql

  /** The query parameters of a search request. A missing string parameter is the empty
      string (both are falsy where the handler tests them); a missing `page` is `None`.
      The flags are compared with the string "true", as the handler does. */
  datatype Request = Request(
    name: string, text: string, colors: string, types: string, subtypes: string,
    supertype: string, matchColorsExactly: string, matchTypesExactly: string,
    lookupMode: string, page: Option<int>)

  const Limit := 50

  /** The row offset of a page: `(page - 1) * limit`, `page` defaulting to 1. */
  function Offset(page: Option<int>): int {
    var p := match page case None => 1 case Some(n) => n;
    (p - 1) * Limit
  }

  // The SELECT strings below are written as concatenations of short chunks, and the
  // empty-bodied lemmas about them (`ColumnNamesPlain`, `SelectPartsPlain`, `AppendPieces`,
  // `ParamsAssoc`, and `ConcatAssoc`, `ConcatEmpty` in Strings) exist only so
  // that the verifier unfolds one short piece at a time; they state nothing new.
  const Columns := "rowid, artID, name, faceName, " + "allText, supertypes, type, types, "
    + "subtypes, colors, power, toughness, " + "manaCost, rarity, layout, side"
  const LookupPrefix := "SELECT " + Columns + " FROM cards WHERE 1=1"
  const SharpiePrefix := "SELECT " + Columns + ", setCode FROM cards WHERE realText LIKE "
  const TextPrefix := " AND allText LIKE "
  const NameInner := "CASE WHEN faceName IS NOT NULL" + " THEN faceName ELSE name END"
  const NamePrefix := " AND " + "(" + NameInner + ")" + " LIKE "
  const OpenGroup := " AND " + "("
  const OrderPrefix := " ORDER BY LENGTH" + "(" + "realText" + ")" + " ASC LIMIT "
  const OrderBy := OrderPrefix + "?" + " OFFSET " + "?"
  const TextFilter := TextPrefix + "?"
  const NameFilter := NamePrefix + "?"
  const SupertypeIs := " AND supertypes = " + "?"
  const SupertypeLike := " AND supertypes LIKE " + "?"

  /** The `LIKE` pattern `%v%`. */
  function Contains(v: string): (p: string)
    ensures |p| == |v| + 2 && p[0] == '%' && p[|p| - 1] == '%' && p[1..|p| - 1] == v
  {
    "%" + v + "%"
  }

  /** `text.replace(/\s/g, '_')`. */
  function Underscored(t: string): (u: string)
    ensures |u| == |t|
    ensures forall k :: 0 <= k < |t| ==> u[k] == if IsWhite(t[k]) then '_' else t[k]
  {
    if t == [] then [] else [if IsWhite(t[0]) then '_' else t[0]] + Underscored(t[1..])
  }

  /** `s.split('')`: one piece per character. */
  function Chars(s: string): (parts: seq<string>)
    ensures |parts| == |s| && forall k :: 0 <= k < |s| ==> parts[k] == [s[k]]
  {
    seq(|s|, k requires 0 <= k < |s| => [s[k]])
  }

  /** The Sharpie-mode parameter: `%`, the underscored characters joined by `%`, `%`. */
  function SharpiePattern(text: string): string {
    "%" + Join(Chars(Underscored(text)), "%") + "%"
  }

  lemma {:induction false} JoinChars(u: string)
    requires u != []
    ensures |Join(Chars(u), "%")| == 2 * |u| - 1
    ensures forall k :: 0 <= k < |u| ==> Join(Chars(u), "%")[2 * k] == u[k]
    ensures forall k :: 0 <= k < |u| - 1 ==> Join(Chars(u), "%")[2 * k + 1] == '%'
  {
    if |u| > 1 {
      assert Chars(u)[1..] == Chars(u[1..]);
      JoinChars(u[1..]);
      var j := Join(Chars(u), "%");
      assert j == [u[0]] + "%" + Join(Chars(u[1..]), "%");
      forall k | 0 <= k < |u|
        ensures j[2 * k] == u[k]
      {
        if k > 0 {
          assert j[2 * k] == Join(Chars(u[1..]), "%")[2 * (k - 1)];
        }
      }
      forall k | 0 <= k < |u| - 1
        ensures j[2 * k + 1] == '%'
      {
        if k > 0 {
          assert j[2 * k + 1] == Join(Chars(u[1..]), "%")[2 * (k - 1) + 1];
        }
      }
    }
  }

  /** A search text of length n gives a Sharpie parameter of length 2n + 1 that holds
      `%` at every even position and the text's characters, whitespace turned into `_`,
      at the odd ones. */
  lemma SharpiePatternShape(text: string)
    requires text != []
    ensures |SharpiePattern(text)| == 2 * |text| + 1
    ensures forall k :: 0 <= k <= |text| ==> SharpiePattern(text)[2 * k] == '%'
    ensures forall k :: 0 <= k < |text| ==>
      SharpiePattern(text)[2 * k + 1] == if IsWhite(text[k]) then '_' else text[k]
  {
    var u := Underscored(text);
    JoinChars(u);
    var p := SharpiePattern(text);
    forall k | 0 <= k <= |text|
      ensures p[2 * k] == '%'
    {
      if 0 < k < |text| {
        assert p[2 * k] == Join(Chars(u), "%")[2 * (k - 1) + 1];
      }
    }
    forall k | 0 <= k < |text|
      ensures p[2 * k + 1] == if IsWhite(text[k]) then '_' else text[k]
    {
      assert p[2 * k + 1] == Join(Chars(u), "%")[2 * k];
    }
  }

  /** The search-text part: the lookup query with `allText LIKE ?`, or the Sharpie query
      that replaces it; without a text, the bare lookup query. */
  function SearchPart(text: string, lookupMode: string): Clause {
    if text == "" then Clause(LookupPrefix, [])
    else if lookupMode == "true" then Clause(LookupPrefix + TextFilter, [Text(Contains(text))])
    else Clause(SharpiePrefix + "?", [Text(SharpiePattern(text))])
  }

  function NamePart(name: string): Clause {
    if name == "" then Empty else Clause(NameFilter, [Text(Contains(name))])
  }

  /** One alternative of a partial-match group: ` column LIKE ?`. */
  function Like(column: string): string {
    " " + column + " LIKE ?"
  }

  /** The exact-match form ` AND column = ?`. */
  function Equals(column: string): string {
    " AND " + column + " = ?"
  }

  /** `n` copies of `s`, one after another. */
  function Repeat(s: string, n: nat): string {
    if n == 0 then "" else s + Repeat(s, n - 1)
  }

  lemma {:induction false} RepeatSnoc(s: string, n: nat)
    ensures Repeat(s, n + 1) == Repeat(s, n) + s
  {
    if n > 0 {
      RepeatSnoc(s, n - 1);
      ConcatAssoc(s, Repeat(s, n - 1), s);
    }
  }

  /** The body of a partial-match group of `n` alternatives: each alternative but the
      last followed by ` OR`, the last by the closing `)`. */
  function Alternatives(column: string, n: nat): string
    requires n >= 1
  {
    Repeat(Like(column) + " OR", n - 1) + Like(column) + ")"
  }

  /** The `%v%` parameters of a partial-match group, in input order. */
  function Patterns(vs: seq<string>): (ps: seq<Param>)
    ensures |ps| == |vs|
    ensures forall k :: 0 <= k < |vs| ==> ps[k] == Text(Contains(vs[k]))
  {
    if vs == [] then [] else Patterns(vs[..|vs| - 1]) + [Text(Contains(vs[|vs| - 1]))]
  }

  /** A comma-separated list filter on `column`: one `= ?` with the values re-joined by
      `", "` when `exact` is "true", otherwise an `OR` group of `LIKE ?` alternatives. */
  function ListPart(column: string, raw: string, exact: string): Clause {
    if raw == "" then Empty
    else
      var vs := Split(raw, ',');
      if exact == "true" then Clause(Equals(column), [Text(Join(vs, ", "))])
      else Clause(OpenGroup + Alternatives(column, |vs|), Patterns(vs))
  }

  function SupertypePart(supertype: string, exact: string): Clause {
    if supertype == "" then Empty
    else if exact == "true" then Clause(SupertypeIs, [Text(supertype)])
    else Clause(SupertypeLike, [Text(Contains(supertype))])
  }

  function PagePart(page: Option<int>): Clause {
    Clause(OrderBy, [Number(Limit), Number(Offset(page))])
  }

  /** The filters of a request, in the handler's order: the search text, the name, the
      colors (with their own exact flag), then the types, subtypes and supertype (the
      three sharing `matchTypesExactly`). */
  function Filters(req: Request): Clause {
    Then(Then(Then(Then(Then(
      SearchPart(req.text, req.lookupMode),
      NamePart(req.name)),
      ListPart("colors", req.colors, req.matchColorsExactly)),
      ListPart("types", req.types, req.matchTypesExactly)),
      ListPart("subtypes", req.subtypes, req.matchTypesExactly)),
      SupertypePart(req.supertype, req.matchTypesExactly))
  }

  /** The query and parameters of a request: its filters, then the page. */
  function Built(req: Request): Clause {
    Then(Filters(req), PagePart(req.page))
  }

  // ---- Structure of the pieces ----

  lemma ColumnsHeadPlain()
    ensures Plain("rowid, artID, name, faceName, " + "allText, supertypes, type, types, ")
  {
    assert Plain("rowid, artID, name, faceName, ");
    assert Plain("allText, supertypes, type, types, ");
    PlainConcat("rowid, artID, name, faceName, ", "allText, supertypes, type, types, ");
  }

  lemma ColumnsTailPlain()
    ensures Plain("subtypes, colors, power, toughness, " + "manaCost, rarity, layout, side")
  {
    assert Plain("subtypes, colors, power, toughness, ");
    assert Plain("manaCost, rarity, layout, side");
    PlainConcat("subtypes, colors, power, toughness, ", "manaCost, rarity, layout, side");
  }

  lemma ColumnsPlain()
    ensures Plain(Columns)
  {
    ColumnsHeadPlain();
    ColumnsTailPlain();
    var head := "rowid, artID, name, faceName, " + "allText, supertypes, type, types, ";
    PlainConcat(head, "subtypes, colors, power, toughness, " + "manaCost, rarity, layout, side");
    ConcatAssoc(head, "subtypes, colors, power, toughness, ", "manaCost, rarity, layout, side");
  }

  lemma SelectPartsPlain()
    ensures Plain("SELECT ") && Plain(" FROM cards WHERE 1=1")
    ensures Plain(", setCode FROM cards WHERE realText LIKE ")
  {
  }

  lemma SelectsPlain()
    ensures Plain(LookupPrefix) && Plain(SharpiePrefix) && Plain(TextPrefix)
  {
    ColumnsPlain();
    SelectPartsPlain();
    PlainConcat("SELECT ", Columns);
    PlainConcat("SELECT " + Columns, " FROM cards WHERE 1=1");
    PlainConcat("SELECT " + Columns, ", setCode FROM cards WHERE realText LIKE ");
    assert Plain(TextPrefix);
  }

  /** Text of the form `a(b)c` with `a`, `b`, `c` plain leaves the depth where it was
      and holds no placeholder. */
  lemma GroupedDepth(a: string, b: string, c: string, d: nat)
    requires Plain(a) && Plain(b) && Plain(c)
    ensures Depth(a + "(" + b + ")" + c, d) == Some(d)
    ensures Placeholders(a + "(" + b + ")" + c) == 0
  {
    PlainFacts(a, d);
    PlainFacts(b, d + 1);
    PlainFacts(c, d);
    DepthParens(d);
    DepthThen(a, "(", d, d);
    DepthThen(a + "(", b, d, d + 1);
    DepthThen(a + "(" + b, ")", d, d + 1);
    DepthThen(a + "(" + b + ")", c, d, d);
    GroupedPlaceholders(a, b, c);
  }

  lemma GroupedPlaceholders(a: string, b: string, c: string)
    requires Plain(a) && Plain(b) && Plain(c)
    ensures Placeholders(a + "(" + b + ")" + c) == 0
  {
    PlainFacts(a, 0);
    PlainFacts(b, 0);
    PlainFacts(c, 0);
    PlaceholdersConcat(a, "(");
    PlaceholdersConcat(a + "(", b);
    PlaceholdersConcat(a + "(" + b, ")");
    PlaceholdersConcat(a + "(" + b + ")", c);
  }

  lemma SearchPartWellFormed(text: string, lookupMode: string)
    ensures WellFormed(SearchPart(text, lookupMode))
  {
    SelectsPlain();
    if text == "" {
      PlainFacts(LookupPrefix, 0);
    } else if lookupMode == "true" {
      PlainConcat(LookupPrefix, TextPrefix);
      PlainHoleClause(LookupPrefix + TextPrefix, Text(Contains(text)));
      ConcatAssoc(LookupPrefix, TextPrefix, "?");
    } else {
      PlainHoleClause(SharpiePrefix, Text(SharpiePattern(text)));
    }
  }

  lemma NamePartWellFormed(name: string)
    ensures WellFormed(NamePart(name))
  {
    if name != "" {
      assert Plain("CASE WHEN faceName IS NOT NULL");
      assert Plain(" THEN faceName ELSE name END");
      PlainConcat("CASE WHEN faceName IS NOT NULL", " THEN faceName ELSE name END");
      assert Plain(" AND ") && Plain(" LIKE ");
      GroupedDepth(" AND ", NameInner, " LIKE ", 0);
      HoleClause(NamePrefix, Text(Contains(name)));
    } else {
      PlainFacts("", 0);
    }
  }

  lemma LikeFacts(column: string, d: nat)
    requires Plain(column)
    ensures Placeholders(Like(column)) == 1 && Depth(Like(column), d) == Some(d)
    ensures Placeholders(Like(column) + " OR") == 1 && Depth(Like(column) + " OR", d) == Some(d)
  {
    assert Plain(" ") && Plain(" LIKE ") && Plain(" OR");
    assert " LIKE ?" == " LIKE " + "?";
    PlainConcat(" ", column);
    PlainConcat(" " + column, " LIKE ");
    ConcatAssoc(" " + column, " LIKE ", "?");
    PlainFacts(" " + column + " LIKE ", d);
    PlaceholdersConcat(" " + column + " LIKE ", "?");
    DepthParens(d);
    DepthThen(" " + column + " LIKE ", "?", d, d);
    PlainFacts(" OR", d);
    PlaceholdersConcat(Like(column), " OR");
    DepthThen(Like(column), " OR", d, d);
  }

  lemma {:induction false} RepeatFacts(column: string, n: nat, d: nat)
    requires Plain(column)
    ensures Placeholders(Repeat(Like(column) + " OR", n)) == n
    ensures Depth(Repeat(Like(column) + " OR", n), d) == Some(d)
  {
    if n > 0 {
      var s := Like(column) + " OR";
      LikeFacts(column, d);
      RepeatFacts(column, n - 1, d);
      PlaceholdersConcat(s, Repeat(s, n - 1));
      DepthThen(s, Repeat(s, n - 1), d, d);
    } else {
      PlainFacts("", d);
    }
  }

  /** A group of `n` alternatives holds `n` placeholders and closes the one `(` that
      opened it. */
  lemma AlternativesFacts(column: string, n: nat)
    requires Plain(column) && n >= 1
    ensures Placeholders(Alternatives(column, n)) == n
    ensures Depth(Alternatives(column, n), 1) == Some(0)
  {
    var r := Repeat(Like(column) + " OR", n - 1);
    RepeatFacts(column, n - 1, 1);
    LikeFacts(column, 1);
    PlaceholdersConcat(r, Like(column));
    PlaceholdersConcat(r + Like(column), ")");
    DepthParens(0);
    DepthThen(r, Like(column), 1, 1);
    DepthThen(r + Like(column), ")", 1, 1);
  }

  lemma ListPartWellFormed(column: string, raw: string, exact: string)
    requires Plain(column)
    ensures WellFormed(ListPart(column, raw, exact))
  {
    if raw == "" {
      PlainFacts("", 0);
    } else if exact == "true" {
      assert Plain(" AND ") && Plain(" = ");
      assert " = ?" == " = " + "?";
      PlainConcat(" AND ", column);
      PlainConcat(" AND " + column, " = ");
      PlainHoleClause(" AND " + column + " = ", Text(Join(Split(raw, ','), ", ")));
      ConcatAssoc(" AND " + column, " = ", "?");
    } else {
      var n := |Split(raw, ',')|;
      AlternativesFacts(column, n);
      assert Plain(" AND ");
      PlainFacts(" AND ", 0);
      PlaceholdersConcat(" AND ", "(");
      PlaceholdersConcat(OpenGroup, Alternatives(column, n));
      DepthParens(0);
      DepthThen(" AND ", "(", 0, 0);
      DepthThen(OpenGroup, Alternatives(column, n), 0, 1);
    }
  }

  lemma SupertypePartWellFormed(supertype: string, exact: string)
    ensures WellFormed(SupertypePart(supertype, exact))
  {
    if supertype == "" {
      PlainFacts("", 0);
    } else if exact == "true" {
      assert Plain(" AND supertypes = ");
      PlainHoleClause(" AND supertypes = ", Text(supertype));
    } else {
      assert Plain(" AND supertypes LIKE ");
      PlainHoleClause(" AND supertypes LIKE ", Text(Contains(supertype)));
    }
  }

  lemma PagePartWellFormed(page: Option<int>)
    ensures WellFormed(PagePart(page))
  {
    assert Plain(" ORDER BY LENGTH") && Plain("realText") && Plain(" ASC LIMIT ");
    GroupedDepth(" ORDER BY LENGTH", "realText", " ASC LIMIT ", 0);
    HoleClause(OrderPrefix, Number(Limit));
    assert Plain(" OFFSET ");
    PlainHoleClause(" OFFSET ", Number(Offset(page)));
    ThenWellFormed(Clause(OrderPrefix + "?", [Number(Limit)]), Clause(" OFFSET " + "?", [Number(Offset(page))]));
    ConcatAssoc(OrderPrefix + "?", " OFFSET ", "?");
  }

  lemma ColumnNamesPlain()
    ensures Plain("colors") && Plain("types") && Plain("subtypes")
  {
  }

  lemma FiltersWellFormed(req: Request)
    ensures WellFormed(Filters(req))
  {
    SearchPartWellFormed(req.text, req.lookupMode);
    NamePartWellFormed(req.name);
    ColumnNamesPlain();
    ListPartWellFormed("colors", req.colors, req.matchColorsExactly);
    ListPartWellFormed("types", req.types, req.matchTypesExactly);
    ListPartWellFormed("subtypes", req.subtypes, req.matchTypesExactly);
    SupertypePartWellFormed(req.supertype, req.matchTypesExactly);
    var c1 := Then(SearchPart(req.text, req.lookupMode), NamePart(req.name));
    ThenWellFormed(SearchPart(req.text, req.lookupMode), NamePart(req.name));
    var c2 := Then(c1, ListPart("colors", req.colors, req.matchColorsExactly));
    ThenWellFormed(c1, ListPart("colors", req.colors, req.matchColorsExactly));
    var c3 := Then(c2, ListPart("types", req.types, req.matchTypesExactly));
    ThenWellFormed(c2, ListPart("types", req.types, req.matchTypesExactly));
    var c4 := Then(c3, ListPart("subtypes", req.subtypes, req.matchTypesExactly));
    ThenWellFormed(c3, ListPart("subtypes", req.subtypes, req.matchTypesExactly));
    ThenWellFormed(c4, SupertypePart(req.supertype, req.matchTypesExactly));
  }

  /** For every request, the query holds exactly one placeholder per parameter and its
      parentheses are balanced. */
  lemma BuiltWellFormed(req: Request)
    ensures Placeholders(Built(req).sql) == |Built(req).args|
    ensures Balanced(Built(req).sql)
  {
    FiltersWellFormed(req);
    PagePartWellFormed(req.page);
    ThenWellFormed(Filters(req), PagePart(req.page));
  }

  /** Pagination is fixed: the query always ends with the ordering and `LIMIT ? OFFSET ?`,
      and the last two parameters are 50 and `(page - 1) * 50`. */
  lemma BuiltEndsWithPage(req: Request)
    ensures |Built(req).sql| >= |OrderBy|
    ensures Built(req).sql[|Built(req).sql| - |OrderBy|..] == OrderBy
    ensures |Built(req).args| >= 2
    ensures Built(req).args[|Built(req).args| - 2..] == [Number(50), Number(Offset(req.page))]
  {
    ConcatSuffix(Filters(req).sql, OrderBy);
    assert Built(req).args[|Built(req).args| - 2..] == PagePart(req.page).args;
  }

  /** The whole query and its parameters begin with those of the search-text part. */
  lemma BuiltExtendsSearch(req: Request)
    ensures Extends(Built(req), SearchPart(req.text, req.lookupMode))
  {
    var s := SearchPart(req.text, req.lookupMode);
    var c1 := Then(s, NamePart(req.name));
    ThenExtends(s, NamePart(req.name), s);
    var c2 := Then(c1, ListPart("colors", req.colors, req.matchColorsExactly));
    ThenExtends(c1, ListPart("colors", req.colors, req.matchColorsExactly), s);
    var c3 := Then(c2, ListPart("types", req.types, req.matchTypesExactly));
    ThenExtends(c2, ListPart("types", req.types, req.matchTypesExactly), s);
    var c4 := Then(c3, ListPart("subtypes", req.subtypes, req.matchTypesExactly));
    ThenExtends(c3, ListPart("subtypes", req.subtypes, req.matchTypesExactly), s);
    ThenExtends(c4, SupertypePart(req.supertype, req.matchTypesExactly), s);
    ThenExtends(Filters(req), PagePart(req.page), s);
  }

  /** With a search text in lookup mode the first parameter is `%text%`. */
  lemma BuiltLookupParam(req: Request)
    requires req.text != "" && req.lookupMode == "true"
    ensures |Built(req).args| >= 1 && Built(req).args[0] == Text(Contains(req.text))
  {
    BuiltExtendsSearch(req);
    FirstOfPrefix(Built(req).args, SearchPart(req.text, req.lookupMode).args);
  }

  /** With a search text in Sharpie mode the query starts from the Sharpie `SELECT` on
      `realText` and the first parameter is the wildcard pattern of the text. */
  lemma BuiltSharpieParam(req: Request)
    requires req.text != "" && req.lookupMode != "true"
    ensures |Built(req).args| >= 1 && Built(req).args[0] == Text(SharpiePattern(req.text))
    ensures |SharpiePrefix| <= |Built(req).sql| && Built(req).sql[..|SharpiePrefix|] == SharpiePrefix
  {
    var s := SearchPart(req.text, req.lookupMode);
    BuiltExtendsSearch(req);
    FirstOfPrefix(Built(req).args, s.args);
    ConcatPrefix(SharpiePrefix, "?");
    PrefixOfPrefix(Built(req).sql, s.sql, SharpiePrefix);
  }

  /** Without a search text the query starts from the default lookup `SELECT`. */
  lemma BuiltNoText(req: Request)
    requires req.text == ""
    ensures |LookupPrefix| <= |Built(req).sql| && Built(req).sql[..|LookupPrefix|] == LookupPrefix
  {
    BuiltExtendsSearch(req);
  }

  lemma PrefixOfPrefix(s: string, t: string, u: string)
    requires |u| <= |t| <= |s| && s[..|t|] == t && t[..|u|] == u
    ensures |u| <= |s| && s[..|u|] == u
  {
    assert s[..|u|] == s[..|t|][..|u|];
  }

  lemma FirstOfPrefix(s: seq<Param>, t: seq<Param>)
    requires 1 <= |t| <= |s| && s[..|t|] == t
    ensures s[0] == t[0]
  {
    assert s[0] == s[..|t|][0];
  }

  /** The exact-mode parameter of a list filter is the list with every `,` turned into
      `, `: a reference definition of `split(',').join(', ')`. */
  function CommaSpaced(s: string): string {
    if s == [] then [] else (if s[0] == ',' then ", " else [s[0]]) + CommaSpaced(s[1..])
  }

  lemma {:induction false} CommaSpacedPlain(s: string)
    requires ',' !in s
    ensures CommaSpaced(s) == s
  {
    if s != [] {
      assert ',' !in s[1..] by { assert forall x :: x in s[1..] ==> x in s; }
      CommaSpacedPlain(s[1..]);
    }
  }

  lemma {:induction false} CommaSpacedConcat(a: string, b: string)
    ensures CommaSpaced(a + b) == CommaSpaced(a) + CommaSpaced(b)
  {
    if a == [] {
      assert a + b == b;
    } else {
      assert (a + b)[0] == a[0] && (a + b)[1..] == a[1..] + b;
      CommaSpacedConcat(a[1..], b);
    }
  }

  lemma {:induction false} ExactParamSpaced(raw: string)
    ensures Join(Split(raw, ','), ", ") == CommaSpaced(raw)
    decreases |raw|
  {
    match FirstIndex(raw, ',')
    case None =>
      CommaSpacedPlain(raw);
    case Some(j) =>
      var head, tail := raw[..j], raw[j + 1..];
      assert raw == head + [','] + tail;
      ExactParamSpaced(tail);
      SplitAtComma(head, tail);
      CommaSpacedAround(head, tail);
  }

  /** Splitting at the first `,` and re-joining with `", "`. */
  lemma SplitAtComma(head: string, tail: string)
    requires ',' !in head
    ensures Join(Split(head + [','] + tail, ','), ", ") == head + ", " + Join(Split(tail, ','), ", ")
  {
    var raw := head + [','] + tail;
    FirstIndexAfter(head, ',', tail);
    assert raw[..|head|] == head && raw[|head| + 1..] == tail;
    var parts := Split(raw, ',');
    assert parts == [head] + Split(tail, ',');
    assert parts[0] == head && parts[1..] == Split(tail, ',');
  }

  lemma CommaSpacedAround(head: string, tail: string)
    requires ',' !in head
    ensures CommaSpaced(head + [','] + tail) == head + ", " + CommaSpaced(tail)
  {
    CommaSpacedPlain(head);
    CommaSpacedConcat(head + [','], tail);
    CommaSpacedConcat(head, [',']);
    assert CommaSpaced([',']) == ", " by {
      assert [','][1..] == [];
      ConcatEmpty(", ");
    }
  }

  function Copies(s: string, n: nat): (r: seq<string>)
    ensures |r| == n && forall k :: 0 <= k < n ==> r[k] == s
  {
    seq(n, k => s)
  }

  lemma {:induction false} JoinCopies(s: string, sep: string, n: nat)
    requires n >= 1
    ensures Join(Copies(s, n), sep) == Repeat(s + sep, n - 1) + s
  {
    if n > 1 {
      assert Copies(s, n)[1..] == Copies(s, n - 1);
      JoinCopies(s, sep, n - 1);
      ConcatAssoc(s + sep, Repeat(s + sep, n - 2), s);
    }
  }

  /** A partial-match list filter of k values is one parenthesised group of k
      ` column LIKE ?` alternatives joined by ` OR`, with the parameters `%v%` in input
      order. */
  lemma PartialGroup(column: string, raw: string, exact: string)
    requires raw != "" && exact != "true"
    ensures var k := |Split(raw, ',')|;
      ListPart(column, raw, exact).sql == OpenGroup + Join(Copies(Like(column), k), " OR") + ")" &&
      |ListPart(column, raw, exact).args| == k &&
      forall i :: 0 <= i < k ==> ListPart(column, raw, exact).args[i] == Text(Contains(Split(raw, ',')[i]))
  {
    var k := |Split(raw, ',')|;
    JoinCopies(Like(column), " OR", k);
    ConcatAssoc(OpenGroup, Repeat(Like(column) + " OR", k - 1) + Like(column), ")");
  }

  // ---- The handler, step by step ----

  /** The group body after `i` of `n` alternatives have been written. */
  function GroupBody(column: string, n: nat, i: nat): string
    requires 1 <= n && i <= n
  {
    if i < n then Repeat(Like(column) + " OR", i) else Alternatives(column, n)
  }

  /** Writing one more alternative: ` OR` after it while more follow, `)` after the last. */
  lemma GroupStep(column: string, n: nat, i: nat)
    requires 1 <= n && i < n
    ensures GroupBody(column, n, i + 1) == GroupBody(column, n, i) + Like(column) + (if i + 1 < n then " OR" else ")")
  {
    if i + 1 < n {
      RepeatSnoc(Like(column) + " OR", i);
      ConcatAssoc(Repeat(Like(column) + " OR", i), Like(column), " OR");
    }
  }

  lemma AppendPieces(a: string, b: string, c: string, d: string)
    ensures a + b + c + d == a + (b + c + d)
  {
  }

  lemma ParamsAssoc(a: seq<Param>, b: seq<Param>, c: seq<Param>)
    ensures (a + b) + c == a + (b + c)
  {
  }

  lemma PatternsSnoc(vs: seq<string>, i: nat)
    requires i < |vs|
    ensures Patterns(vs[..i + 1]) == Patterns(vs[..i]) + [Text("%" + vs[i] + "%")]
  {
    assert vs[..i + 1][..i] == vs[..i];
  }

  /** The partial-match group of a list filter: the values walked in order with a
      countdown that decides between ` OR` and the closing `)`. */
  method AppendGroup(query0: string, params0: seq<Param>, column: string, values: seq<string>)
    returns (query: string, params: seq<Param>)
    requires |values| >= 1
    ensures query == query0 + OpenGroup + Alternatives(column, |values|)
    ensures params == params0 + Patterns(values)
  {
    query, params := query0 + OpenGroup, params0;
    ghost var start := query;
    Strings.ConcatEmpty(start);
    var count := |values|;
    var i := 0;
    while i < |values|
      invariant 0 <= i <= |values|
      invariant count == if i < |values| then |values| - i else 1
      invariant query == start + GroupBody(column, |values|, i)
      invariant params == params0 + Patterns(values[..i])
    {
      ghost var before := query;
      query := query + Like(column);
      if count > 1 {
        query := query + " OR";
        count := count - 1;
      } else {
        query := query + ")";
      }
      GroupStep(column, |values|, i);
      AppendPieces(start, GroupBody(column, |values|, i), Like(column), if i + 1 < |values| then " OR" else ")");
      PatternsSnoc(values, i);
      ParamsAssoc(params0, Patterns(values[..i]), [Text("%" + values[i] + "%")]);
      params := params + [Text("%" + values[i] + "%")];
      i := i + 1;
    }
    assert values[..i] == values;
  }

  /** One list filter, as the handler writes it for colors, types and subtypes. */
  method AppendList(query0: string, params0: seq<Param>, column: string, raw: string, exact: string)
    returns (query: string, params: seq<Param>)
    ensures Clause(query, params) == Then(Clause(query0, params0), ListPart(column, raw, exact))
  {
    query, params := query0, params0;
    if raw == "" {
      ThenEmpty(Clause(query0, params0));
    } else {
      var exactly := exact == "true";
      var values := Split(raw, ',');
      if exactly {
        query := query + Equals(column);
        params := params + [Text(Join(values, ", "))];
      } else {
        query, params := AppendGroup(query, params, column, values);
        ConcatAssoc(query0, OpenGroup, Alternatives(column, |values|));
      }
    }
  }

  /** The start of the query: the default lookup `SELECT`, extended by the lookup text
      filter, or replaced by the Sharpie `SELECT` on `realText`. */
  method SearchQuery(text: string, lookupMode: string) returns (query: string, params: seq<Param>)
    ensures Clause(query, params) == SearchPart(text, lookupMode)
  {
    query := LookupPrefix;
    params := [];
    if text != "" {
      if lookupMode == "true" {
        query := query + TextFilter;
        params := params + [Text("%" + text + "%")];
      } else {
        var noSpaceText := Underscored(text);
        query := SharpiePrefix + "?";
        var param := "%" + Join(Chars(noSpaceText), "%") + "%";
        params := params + [Text(param)];
      }
    }
  }

  /** The filters of the handler, one block after another. */
  method BuildFilters(req: Request) returns (query: string, params: seq<Param>)
    ensures Clause(query, params) == Filters(req)
  {
    query, params := SearchQuery(req.text, req.lookupMode);
    ghost var built := SearchPart(req.text, req.lookupMode);
    if req.name != "" {
      query := query + NameFilter;
      params := params + [Text("%" + req.name + "%")];
    } else {
      ThenEmpty(built);
    }
    built := Then(built, NamePart(req.name));
    assert Clause(query, params) == built;
    query, params := AppendList(query, params, "colors", req.colors, req.matchColorsExactly);
    built := Then(built, ListPart("colors", req.colors, req.matchColorsExactly));
    query, params := AppendList(query, params, "types", req.types, req.matchTypesExactly);
    built := Then(built, ListPart("types", req.types, req.matchTypesExactly));
    query, params := AppendList(query, params, "subtypes", req.subtypes, req.matchTypesExactly);
    built := Then(built, ListPart("subtypes", req.subtypes, req.matchTypesExactly));
    assert Clause(query, params) == built;
    if req.supertype != "" {
      if req.matchTypesExactly == "true" {
        query := query + SupertypeIs;
        params := params + [Text(req.supertype)];
      } else {
        query := query + SupertypeLike;
        params := params + [Text("%" + req.supertype + "%")];
      }
    } else {
      ThenEmpty(built);
    }
    built := Then(built, SupertypePart(req.supertype, req.matchTypesExactly));
    assert Clause(query, params) == built;
  }

  /** The `/endpoint` handler's construction of the query and its parameters: the
      filters, then the ordering and the page. */
  method BuildQuery(req: Request) returns (query: string, params: seq<Param>)
    ensures Clause(query, params) == Built(req)
    ensures Placeholders(query) == |params| && Balanced(query)
    ensures |params| >= 2 && params[|params| - 2..] == [Number(50), Number(Offset(req.page))]
  {
    var limit := Limit;
    var page := match req.page case None => 1 case Some(n) => n;
    var offset := (page - 1) * limit;
    query, params := BuildFilters(req);
    query := query + OrderBy;
    params := params + [Number(limit), Number(offset)];
    assert offset == Offset(req.page);
    BuiltWellFormed(req);
    BuiltEndsWithPage(req);
  }
}
