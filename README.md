# SharpiEvolve search core, modelled in Dafny

SharpiEvolve is a card-search web application. This project models its two pieces of real logic and proves properties of them.

**The `/endpoint` search handler of the backend.**
- It builds an SQL string and an ordered parameter list from the request's query parameters. There are two kinds of search text:
  - lookup mode adds a `LIKE %text%` filter;
  - Sharpie mode uses a `%`-interleaved pattern on `realText`.
- Name, colors, types, subtypes and supertype each add an exact (`=`) filter or a partial one (a group of `LIKE` alternatives joined by `OR`).
- It always ends with a fixed ordering and a 50-row page.
- In Sharpie mode, every candidate row is then re-checked by the "Sharpie" matcher. This is a two-state scan: inside or outside a `{…}` symbol code. A needle cursor advances through the search text.
  - A row is kept when the search text is found case-insensitively, in order, among the row's visible characters. A space in the search text stands for any one character.
  - A kept row's text is rewritten in place into highlighted markup.

**The text helpers of the search form in the frontend.**
- The renderer that turns `{X}` symbol codes into `<img>` tags, and literal backslash-`n` outside codes into `<br>`.
- The card picture path built from the row id, padded to five digits.
- The search-text sanitizer and the encoding of the request parameters. Colors and types are sorted in place, then joined.
- The checkbox toggles.
- The guards on submitting and on paging.

Modules, one file each:

| file | module | contents |
|---|---|---|
| `wrappers.dfy` | `Wrappers` | `Option` |
| `strings.dfy` | `Strings` | JavaScript string primitives: `\s` whitespace, `toLowerCase`, `split`, `join`, `trim`, `padStart`, decimal `toString` |
| `ordering.dfy` | `Ordering` | the default order of `Array.prototype.sort`, on scalar values, and a sort proved unique |
| `tokens.dfy` | `Tokens` | the brace scanner, the visible characters, well-formed card text |
| `sql.dfy` | `Sql` | query text with its bound values, placeholder count, parenthesis depth |
| `query.dfy` | `QueryBuilder` | the query builder: a reference definition (`Built`) and the handler's imperative construction (`BuildQuery`) |
| `matcher.dfy` | `Matcher` | the Sharpie scan as a state machine (`Walk`), the declarative wildcard-subsequence match, and the lemmas tying them together |
| `markup.dfy` | `Markup` | the highlight markup and its tag-stripping round trip |
| `search.dfy` | `Search` | the matcher loop (`SharpieScan`), the `rows.filter` callback that rewrites `Row` objects in place, and the response |
| `symbols.dfy` | `Symbols` | `replaceSymbolsWithSVGs`: the token pass and the line-break loop |
| `form.dfy` | `Form` | the picture path, sanitizer, encoding, toggles, paging and the `SearchForm` class holding the form's state |

Where the handler changes state step by step, the model does too:
- the query string grows with `+=` and the parameter list with `push` (`QueryBuilder.AppendGroup`, `AppendList`, `BuildFilters`, `BuildQuery`);
- the matcher is a `while` loop over the row's text (`Search.SharpieScan`);
- the filter rewrites `Row.allText` in place (`Search.KeepRow`, `FilterRows`);
- the form's state is a class whose handlers update its fields (`Form.SearchForm`).

Each of these methods is proved against a function that defines its result, and the properties are proved about that function.

The Next and Previous buttons are shown under the conditions given by the predicates `Form.NextOffered` (exactly 50 results) and `Form.PreviousOffered` (page above 1). The Previous guard agrees with its handler's own guard. Because the server pages before the Sharpie pass, a page on which the matcher drops a row hides the Next button (`Form.SharpieDropHidesNext`).

## Model

| member | source | states |
|---|---|---|
| QueryBuilder.BuildQuery | backend/src/server.js:26-146 | The handler's query and parameters equal the reference construction `Built`. The query has one `?` per parameter and balanced parentheses. The last two parameters are 50 and `(page - 1) * 50`. |
| QueryBuilder.BuildFilters | backend/src/server.js:45-144 | The filter blocks, run one after another, produce exactly the concatenation of the clauses for search text, name, colors, types, subtypes and supertype, in that order. Colors take their exact flag from `matchColorsExactly`; types, subtypes and supertype take theirs from `matchTypesExactly`. |
| QueryBuilder.SearchQuery | backend/src/server.js:45-62 | The start of the query is the lookup `SELECT`. Lookup mode extends it with `allText LIKE ?` and `%text%`. Sharpie mode replaces it with the `realText` `SELECT` and the interleaved pattern. An empty text leaves the bare lookup `SELECT`. |
| QueryBuilder.AppendList | backend/src/server.js:69-133 | One list filter appends its clause to the query so far: nothing for an empty value, `= ?` with the values re-joined by `", "` in exact mode, otherwise the `OR` group. |
| QueryBuilder.AppendGroup | backend/src/server.js:76-87 | The `forEach` with its countdown writes `" AND ("`, then one ` column LIKE ?` per value, with ` OR` after each but the last and `)` after the last. It pushes the `%v%` parameters in input order. |
| QueryBuilder.BuiltWellFormed | backend/src/server.js:45-146 | For every request, the number of `?` placeholders equals the number of parameters, and the parentheses are balanced. |
| QueryBuilder.FiltersWellFormed | backend/src/server.js:45-144 | The filters alone already bind one value per placeholder and balance their `OR` groups. |
| QueryBuilder.BuiltEndsWithPage | backend/src/server.js:28-29 | The query always ends with `ORDER BY LENGTH(realText) ASC LIMIT ? OFFSET ?`. The last two parameters are exactly 50 and the offset. |
| QueryBuilder.PagePartWellFormed | backend/src/server.js:145-146 | The page clause has two placeholders, two values and no parentheses left open. |
| QueryBuilder.BuiltExtendsSearch | backend/src/server.js:45-62 | The whole query and its parameters begin with the search-text clause. |
| QueryBuilder.BuiltLookupParam | backend/src/server.js:50-54 | With a search text in lookup mode, the first parameter is `%text%`. |
| QueryBuilder.BuiltSharpieParam | backend/src/server.js:55-60 | With a search text in Sharpie mode, the query starts with the `realText` `SELECT`, and the first parameter is the Sharpie pattern of the text. |
| QueryBuilder.BuiltNoText | backend/src/server.js:45-48 | Without a search text, the query starts with the default lookup `SELECT`. |
| QueryBuilder.SharpiePatternShape | backend/src/server.js:56-58 | A text of length n gives a pattern of length 2n+1. It has `%` at every even position. Odd position 2k+1 holds character k of the text, with whitespace turned into `_`. |
| QueryBuilder.ExactParamSpaced | backend/src/server.js:74 | The exact-mode parameter `value.split(',').join(', ')` is the value with every `,` replaced by `", "`. |
| QueryBuilder.PartialGroup | backend/src/server.js:76-87 | A partial list filter of k values is one group of k ` column LIKE ?` alternatives joined by ` OR`, closed by `)`. It has exactly k parameters, `%v_i%` in input order. |
| QueryBuilder.ListPartWellFormed | backend/src/server.js:69-133 | Every list filter, exact or partial, binds one value per placeholder and is balanced. |
| QueryBuilder.SupertypePartWellFormed | backend/src/server.js:135-144 | The supertype filter binds one value to its one placeholder in both modes. |
| QueryBuilder.NamePartWellFormed | backend/src/server.js:64-67 | The name filter binds one value to its one placeholder, and its parenthesised `CASE` is balanced. |
| QueryBuilder.SearchPartWellFormed | backend/src/server.js:45-62 | The search-text clause binds one value per placeholder in both modes, and none without a text. |
| QueryBuilder.Underscored | backend/src/server.js:56 | Exactly the whitespace characters become `_`; every other character and the length are kept. |
| QueryBuilder.Patterns | backend/src/server.js:86 | One `%v%` text parameter per value, in input order. |
| Search.SharpieScan | backend/src/server.js:165-208 | The loop accepts iff the search text is a wildcard subsequence of the row's visible characters, i.e. the greedy scan `Sharpie` accepts. On acceptance the markup is the highlighted text: the scanned prefix rendered, then the rest copied unchanged. |
| Search.ScanChar | backend/src/server.js:178-201 | The five branches of the loop body update the brace state, the cursor and the markup exactly as one step of the scan. |
| Search.DecideMeaning | backend/src/server.js:161-216 | An empty search text keeps every row unchanged. A missing row text, or an empty one with a non-empty search text, is dropped. Otherwise a row is kept iff the search text is a wildcard subsequence of its visible text. A kept row's new text strips back to the old one when the text holds no `<`. |
| Search.KeepRow | backend/src/server.js:161-217 | The callback returns the verdict of `Decide`, and writes the highlighted text into `row.allText` only on acceptance. A rejected row's text is unchanged. |
| Search.FilterStep | backend/src/server.js:161-217 | One callback on row i appends the row to the kept rows exactly when it is kept, and sets its text to its verdict's new text. |
| Search.FilterRows | backend/src/server.js:161-217 | `rows.filter` returns the kept rows in their original order. Every row's text becomes its verdict's new text. |
| Search.SurvivorsDropped | backend/src/server.js:161-217 | A row the filter callback drops leaves fewer kept rows than candidates. |
| Search.Respond | backend/src/server.js:158-223 | Lookup mode returns the candidate rows untouched. Sharpie mode returns the kept rows, never more than the candidates, and every row's `allText` is rewritten by its verdict: highlighted markup in each kept row. |
| Matcher.SharpieDecides | backend/src/server.js:186-208 | The greedy scan accepts exactly when the needle, with a space matching any visible character, is a case-insensitive subsequence of the visible characters. |
| Matcher.WalkDecides | backend/src/server.js:186-208 | The same equivalence from any cursor and brace state: the scan from cursor k accepts iff the rest of the needle fits into the rest of the visible text. |
| Matcher.TakeFitting | backend/src/server.js:186-193 | When the next visible character fits the current needle character, consuming it loses no match. This is why the greedy choice is complete. |
| Matcher.PassMisfit | backend/src/server.js:197-201 | A visible character that fits neither way can be passed over without losing a match. |
| Matcher.NothingFitsNothing | backend/src/server.js:172-216 | A non-empty needle never fits an empty visible text. |
| Matcher.WalkConsumesNeedle | backend/src/server.js:186-196 | On acceptance there is exactly one consuming mark per needle character: `matchedChar` spans plus skipped spaces equal the needle length. A mark is a hit iff the characters agree ignoring case. A skip occurs only for a needle space. |
| Matcher.WalkOpacity | backend/src/server.js:178-186 | A character of the accepted prefix is passed through opaque iff it is a brace or lies inside a symbol code. Such characters never match and never advance the cursor. |
| Matcher.WalkMarksPrefix | backend/src/server.js:173-208 | An accepted scan marks a non-empty prefix of the text, one mark per character. The last mark is the one that completed the needle. |
| Matcher.WalkPrefixes | backend/src/server.js:202-208 | The scan reads nothing past the completing character. Shorter prefixes reject; longer ones give the same marks. |
| Matcher.EarliestCompletion | backend/src/server.js:202-208 | The scan stops at the end of the shortest prefix in which the needle can be found at all. |
| Markup.HighlightStrips | backend/src/server.js:167-206 | Deleting the tags from the highlighted text gives back the original text. |
| Markup.StripRenderedAll | backend/src/server.js:186-201 | The rendered marks strip back to their characters, in order. |
| Markup.OpaqueSpanCopied | backend/src/server.js:178-185 | The marks of the characters of a symbol code render as exactly those characters: codes are copied verbatim. |
| Markup.RenderUnhit | backend/src/server.js:192-201 | Marks without a hit render as their own characters. |
| Tokens.VisibleIsMatchable | backend/src/server.js:178-186 | The characters the scan lets a needle see are exactly those at positions that are neither braces nor inside a code. |
| Tokens.InsideIffLastDelimiterOpens | backend/src/server.js:178-185 | The scanner is inside a code exactly when the last brace read is `{`; no nesting is tracked. |
| Tokens.VisibleOfWellFormed | backend/src/server.js:178-186 | On well-formed card text the visible characters are exactly the words, outside all codes. |
| Symbols.ReplaceSymbolsWithSvgs | frontend/src/Form.js:91-122 | A missing or empty text gives `""`. Otherwise the result is the token pass followed by the line-break pass. |
| Symbols.BreakLines | frontend/src/Form.js:103-118 | The `for` loop, with its `i++` skip, computes the line-break pass `Breaks` of the whole text. |
| Symbols.ReplaceTokensOfWellFormed | frontend/src/Form.js:97-100 | On well-formed text each `{X}` becomes `<img src="/assets/symbols/X.svg" alt="X" …/>` with `X` copied unchanged, and the words are kept. |
| Symbols.ReplaceFirstSelf | frontend/src/Form.js:98 | Replacing `'/'` by `'/'` leaves the code unchanged. |
| Symbols.ReplaceTokensPlain | frontend/src/Form.js:97-100 | Text without `{` passes the token pass unchanged. |
| Symbols.BreaksJoin | frontend/src/Form.js:112-114 | Lines without backslashes or braces, joined by literal backslash-`n`, come out joined by `<br>`: the `n` is consumed. |
| Symbols.BreaksKeepsCode | frontend/src/Form.js:106-111 | Inside `{…}` a backslash-`n` is kept. The pass resumes outside braces after the code. |
| Symbols.BreaksPlain | frontend/src/Form.js:115-117 | Text without backslashes is copied unchanged, character by character. |
| Symbols.BreaksInside | frontend/src/Form.js:106-117 | After an unclosed `{` nothing is rewritten. |
| Form.ImagePathDigits | frontend/src/Form.js:130-135 | For a row id from 1 to 99999, the three directory levels are its ten-thousands, thousands and hundreds digits. The file is the unpadded id with `.jpg`. |
| Form.ImagePathLong | frontend/src/Form.js:130-135 | From 100000 on, the directories are the first three digits of the id. |
| Form.ImagePathDefault | frontend/src/Form.js:125-128 | The default picture is returned exactly for a missing card, a missing row id or row id 0. |
| Form.ImagePathExample | frontend/src/Form.js:124-137 | An illustration on one input: row id 123 lives at `/assets/cards/0/0/1/123.jpg`. |
| Form.PaddedReadsBack | frontend/src/Form.js:131 | The padded id is all digits and reads back as the id. It is five characters long for ids of fewer than five digits, and unpadded otherwise. |
| Form.StripTokensClean | frontend/src/Form.js:41 | The sanitized text has no `{` followed later by a `}`. |
| Form.StripTokensIdempotent | frontend/src/Form.js:41 | Sanitizing twice is sanitizing once. |
| Form.StripTokensPlain | frontend/src/Form.js:41 | Text without `{` is unchanged. |
| Form.StripTokensOfWellFormed | frontend/src/Form.js:41 | Sanitizing well-formed card text leaves exactly its words. These are the characters the server's matcher can see. |
| Form.EncodeListOrderFree | frontend/src/Form.js:42 | The encoding of colors and types depends only on which boxes are ticked, not on the order of ticking. |
| Form.EncodeListSplits | frontend/src/Form.js:42 | The server's `split(',')` of the encoding gives back the sorted values. |
| Form.EncodedListPart | frontend/src/Form.js:42 | The ticked values reach the query builder sorted. In exact mode they form one parameter, joined by `", "`. Otherwise there is one `%v%` per value. |
| Form.EncodeListEmpty | frontend/src/Form.js:42 | No ticked box sends `""`, and the server adds no filter. |
| Form.ExactColorsExample | frontend/src/Form.js:42 | An illustration on one input: the colors `R`, then `G`, are sent as `G,R`. |
| Form.EncodeSubtypesNoSpace | frontend/src/Form.js:42 | The encoded subtypes hold no space. |
| Form.EncodeSubtypesWords | frontend/src/Form.js:42 | Words typed with single spaces are sent joined by `,`, and the server splits them back into the same words. |
| Form.SortInPlaceStable | frontend/src/Form.js:42 | Sorting the state arrays in place does not change what a later fetch sends. |
| Form.SearchForm.FetchRequest | frontend/src/Form.js:40-42 | The fetch sorts `colors` and `types` in place. The request carries the sanitized text, the sorted lists joined by `,`, the re-joined subtypes and the flags as `"true"`/`"false"`. |
| Form.SearchForm.HandleSubmit | frontend/src/Form.js:21-31 | An empty form (no name, text, supertype or subtypes, nothing ticked) changes nothing. Otherwise a search is requested. No other field changes. |
| Form.SearchForm.HandleColorChange | frontend/src/Form.js:144-149 | The `colors` list is toggled by the value, and no other field changes. |
| Form.SearchForm.HandleTypeChange | frontend/src/Form.js:151-156 | The `types` list is toggled by the value, and no other field changes. |
| Form.ToggleCounts | frontend/src/Form.js:144-156 | After a toggle the value is present iff it was absent: all its occurrences are removed, or one is added. Every other value keeps its count. |
| Form.WithoutConcat | frontend/src/Form.js:147 | The filter keeps the other values in their order. |
| Form.ToggleTwice | frontend/src/Form.js:144-156 | Toggling an absent value twice restores the list. |
| Form.TogglePresentTwice | frontend/src/Form.js:144-156 | Toggling a present value twice leaves the other values in order with one copy of it at the end. |
| Form.PreviousPageOffset | frontend/src/Form.js:84-89 | Paging back fetches only when the page is above 1. It never asks for a page before the first, and moves the offset back by exactly 50. |
| Form.NextPageOffset | frontend/src/Form.js:79-82 | Paging forward always fetches a later page, moves the offset on by exactly 50, and from any page from 1 on is undone by paging back. |
| Form.PreviousThenNext | frontend/src/Form.js:79-89 | Past the first page, paging back then forward returns to the same page. |
| Form.PreviousGuardsAgree | frontend/src/Form.js:434-435 | The Previous button is shown exactly when its handler would fetch. |
| Form.SharpieDropHidesNext | frontend/src/Form.js:437-438 | On a candidate page of at most 50 rows, a row dropped by the matcher leaves fewer than 50 results, so the Next button is hidden. |
| Ordering.Sort | frontend/src/Form.js:42 | `sort()` returns a permutation of its input, sorted in scalar-value order, character by character with a proper prefix first. |
| Ordering.SortOrderFree | frontend/src/Form.js:42 | Two lists with the same elements sort to the same list, because the sorted permutation is unique. |
| Ordering.SortSorted | frontend/src/Form.js:42 | Sorting a sorted list changes nothing. |
| Strings.JoinSplit | backend/src/server.js:71 | Joining the pieces of a split with the separator gives back the string. |
| Strings.SplitJoin | backend/src/server.js:71 | Splitting a join of pieces that hold no separator gives back the pieces. |

## Left out

- Express, cors and body-parser setup, the sqlite connection and the `db.all` callback are I/O. The candidate rows are an input sequence of `Row` objects.
- The model does not evaluate SQL. The query string and its parameters are data, and what `LIKE` and `=` select is not modelled.
- `sanitizeHtml` is a foreign library taken as the identity: `name`, `text` and `subtypes` arrive already sanitized. With its defaults the library also entity-encodes `&`, `<` and `>` in the text it keeps, so a search text holding one of them reaches the `LIKE` pattern and the matcher changed. The model does not capture that change. A missing query parameter is the empty string, which the handler treats the same way.
- The `chalk` import, `console.log`/`console.time` and the `matchedText`/`charactersEvaluated` counters are logging only.
- The `matches == limit` break in the matcher loop is dead, because `matches` is never incremented. It is absent from the model.
- React hooks, JSX rendering, `fetch`, the `keypress` listener and the effect that fetches page 1 after a submit are UI and network code left out. So are `totalResults` and the supertype and subtypes change handlers, which only store a value. `fetchResults` is modelled up to the request it sends (`Form.SearchForm.FetchRequest`).
- The `URLSearchParams` percent-encoding of the request is not modelled. The server is taken to receive the strings the form encodes.
- The download scripts under `backend/src/` are not part of this model. They are HTTP calls, file writes and retries.
- Strings are sequences of Unicode scalar values (Dafny `char`), not of the UTF-16 code units JavaScript indexes. A character above U+FFFF is one element in the model and two in JavaScript, so `row.allText[i]`, `split('')` and `padStart` may split or count it differently. `sort()` compares code units: a character above U+FFFF sorts before one in U+E000..U+FFFF in JavaScript and after it in `Ordering.Below`. Lone surrogates cannot be represented. `toLowerCase` is modelled on ASCII letters only.
- Strings.Lower: does not model Unicode case mapping beyond ASCII. A non-ASCII letter compares as itself.
- QueryBuilder.Offset: `page` is modelled as an integer. A non-numeric page, which JavaScript turns into `NaN`, is not modelled.
- Markup.HighlightStrips: the round trip needs the row text to hold no `<`. With one, tag boundaries in the markup become ambiguous.
- Search.FilterRows: requires the candidate rows to be distinct objects, as the driver returns them. Aliased rows are not modelled.
- Symbols.ReplaceTokensOfWellFormed: stated for well-formed card text. On other text the token pass is defined by `Symbols.ReplaceTokens`, which follows the regex's first-`}` rule but carries no separate lemma.
- Form.EncodeSubtypesWords: stated for words separated by single spaces. Doubled spaces send empty pieces, which the definition `Form.EncodeSubtypes` still models.
- Form.ImagePathDigits: stated for positive ids. A negative id is padded on the left of its minus sign, as `padStart` does (−5 gives `000-5`), by `Form.CardImagePath`, but no lemma describes those paths.
