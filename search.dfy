/**
 * The Sharpie pass of the search endpoint: every candidate row is re-checked by
 * the matcher, an accepted row's text is rewritten into highlighted markup in
 * place, and rejected rows are dropped. In lookup mode rows pass unchanged.
 */
module Search {
  import opened Wrappers
  import opened Tokens
  import opened Matcher
  import opened Markup

  /** The body of the matcher's loop for one haystack character `c` against the needle
      character `n`: the brace state, the cursor and the markup, updated branch by branch. */
  method ScanChar(c: char, n: char, inCurlyBraces0: bool, textIndex0: nat, formattedMatch0: string)
    returns (inCurlyBraces: bool, textIndex: nat, formattedMatch: string)
    ensures inCurlyBraces == Next(c, inCurlyBraces0)
    ensures textIndex == if Consumes(Step(c, n, inCurlyBraces0)) then textIndex0 + 1 else textIndex0
    ensures formattedMatch == formattedMatch0 + Render(Step(c, n, inCurlyBraces0))
  {
    inCurlyBraces, textIndex, formattedMatch := inCurlyBraces0, textIndex0, formattedMatch0;
    if c == '{' {
      inCurlyBraces := true;
      formattedMatch := formattedMatch + [c];
    } else if c == '}' {
      inCurlyBraces := false;
      formattedMatch := formattedMatch + [c];
    } else if !inCurlyBraces && Strings.Lower(c) == Strings.Lower(n) {
      textIndex := textIndex + 1;
      formattedMatch := formattedMatch + MatchedChar(c);
    } else if !inCurlyBraces && Strings.Lower(c) != Strings.Lower(n) && n == ' ' {
      textIndex := textIndex + 1;
      formattedMatch := formattedMatch + [c];
    } else {
      formattedMatch := formattedMatch + [c];
    }
  }

  /** The scan's verdict, split at position `i`: the marks so far, then the walk of the
      rest from the current cursor and brace state. */
  ghost predicate ScanAt(h: string, needle: string, i: nat, k: nat, inside: bool, marks: seq<Mark>)
    requires needle != []
  {
    i <= |h| && k < |needle| && |marks| == i &&
    Sharpie(h, needle) == Prepend(marks, Walk(h[i..], needle, k, inside))
  }

  /** A step that does not complete the needle moves the split one character on. */
  lemma ScanContinues(h: string, needle: string, i: nat, k: nat, inside: bool, marks: seq<Mark>)
    requires needle != [] && i < |h| && ScanAt(h, needle, i, k, inside, marks)
    requires var m := Step(h[i], needle[k], inside);
      (if Consumes(m) then k + 1 else k) < |needle|
    ensures var m := Step(h[i], needle[k], inside);
      ScanAt(h, needle, i + 1, if Consumes(m) then k + 1 else k, Next(h[i], inside), marks + [m])
  {
    var m := Step(h[i], needle[k], inside);
    var k' := if Consumes(m) then k + 1 else k;
    WalkStep(h, needle, i, k, inside);
    PrependPrepend(marks, [m], Walk(h[i + 1..], needle, k', Next(h[i], inside)));
  }

  /** A step that completes the needle ends the scan with acceptance. */
  lemma ScanAccepts(h: string, needle: string, i: nat, k: nat, inside: bool, marks: seq<Mark>)
    requires needle != [] && i < |h| && ScanAt(h, needle, i, k, inside, marks)
    requires var m := Step(h[i], needle[k], inside);
      (if Consumes(m) then k + 1 else k) == |needle|
    ensures Sharpie(h, needle) == Accept(marks + [Step(h[i], needle[k], inside)])
  {
    WalkStep(h, needle, i, k, inside);
  }

  /** The matcher's loop over one row's text: the brace state, the needle cursor
      `textIndex` and the markup accumulated so far. */
  method SharpieScan(allText: string, text: string) returns (accepted: bool, formattedMatch: string)
    requires text != []
    ensures accepted <==> WildSubsequence(text, Visible(allText))
    ensures accepted == Sharpie(allText, text).Accept?
    ensures accepted ==> |Sharpie(allText, text).marks| <= |allText|
    ensures accepted ==> formattedMatch == Highlighted(allText, Sharpie(allText, text).marks)
  {
    var inCurlyBraces := false;
    var textIndex := 0;
    formattedMatch := Strike;
    ghost var marks: seq<Mark> := [];
    Strings.ConcatEmpty(Strike);
    assert allText[0..] == allText;
    SharpieDecides(allText, text);
    var i := 0;
    while i < |allText|
      invariant ScanAt(allText, text, i, textIndex, inCurlyBraces, marks)
      invariant formattedMatch == Strike + RenderAll(marks)
    {
      ghost var m := Step(allText[i], text[textIndex], inCurlyBraces);
      ghost var state, cursor := inCurlyBraces, textIndex;
      inCurlyBraces, textIndex, formattedMatch := ScanChar(allText[i], text[textIndex], inCurlyBraces, textIndex, formattedMatch);
      RenderAllSnoc(marks, m);
      Strings.ConcatAssoc(Strike, RenderAll(marks), Render(m));
      if textIndex == |text| {
        ScanAccepts(allText, text, i, cursor, state, marks);
        marks := marks + [m];
        formattedMatch := formattedMatch + allText[i + 1..] + EndSpan;
        return true, formattedMatch;
      }
      ScanContinues(allText, text, i, cursor, state, marks);
      marks := marks + [m];
      i := i + 1;
    }
    return false, formattedMatch;
  }

  /** What the filter callback decides for a row: kept with its new text, or dropped. */
  datatype RowVerdict = Kept(allText: Option<string>) | Dropped

  /** The filter callback's verdict on a row whose text is `allText`, for search text `text`. */
  function Decide(allText: Option<string>, text: string): RowVerdict {
    if text == [] then Kept(allText)
    else if allText.None? then Dropped
    else
      var h := allText.value;
      match Sharpie(h, text)
      case Reject => Dropped
      case Accept(ms) =>
        if |ms| <= |h| then Kept(Some(Highlighted(h, ms))) else Dropped
  }

  /** With a search text, a row is kept exactly when the search text fits as a wildcard
      subsequence into the row's visible characters, and an empty or missing text is
      dropped; without one, every row is kept as it is. A kept row's new text strips back
      to the old one. */
  lemma DecideMeaning(allText: Option<string>, text: string)
    ensures text == [] ==> Decide(allText, text) == Kept(allText)
    ensures text != [] && allText.None? ==> Decide(allText, text) == Dropped
    ensures text != [] && allText == Some([]) ==> Decide(allText, text) == Dropped
    ensures text != [] && allText.Some? ==>
      (Decide(allText, text).Kept? <==> WildSubsequence(text, Visible(allText.value)))
    ensures text != [] && Decide(allText, text).Kept? && allText.Some? && NoChar(allText.value, '<') ==>
      Decide(allText, text).allText.Some? && StripTags(Decide(allText, text).allText.value) == allText.value
  {
    if text != [] && allText.Some? {
      var h := allText.value;
      SharpieDecides(h, text);
      NothingFitsNothing(text);
      if Sharpie(h, text).Accept? {
        WalkMarksPrefix(h, text, 0, false);
        if NoChar(h, '<') {
          HighlightStrips(h, Sharpie(h, text).marks);
        }
      }
    }
  }

  /** The new text of a row after the callback: the highlighted text when kept with a
      search text, the old text otherwise. */
  function NewText(allText: Option<string>, text: string): Option<string> {
    match Decide(allText, text)
    case Kept(t) => t
    case Dropped => allText
  }

  /** A candidate row as the storage layer returns it; only its text matters here. */
  class Row {
    var allText: Option<string>

    constructor (allText: Option<string>)
      ensures this.allText == allText
    {
      this.allText := allText;
    }
  }

  /** The `rows.filter` callback: decides on one row and, on acceptance, rewrites its text
      in place. */
  method KeepRow(row: Row, text: string) returns (keep: bool)
    modifies row
    ensures keep == Decide(old(row.allText), text).Kept?
    ensures row.allText == NewText(old(row.allText), text)
    ensures !keep ==> row.allText == old(row.allText)
  {
    if text == [] {
      return true;
    }
    if row.allText.Some? {
      var accepted, formattedMatch := SharpieScan(row.allText.value, text);
      if accepted {
        row.allText := Some(formattedMatch);
        return true;
      }
    }
    return false;
  }

  function Texts(rows: seq<Row>): (t: seq<Option<string>>)
    reads rows
    ensures |t| == |rows| && forall i :: 0 <= i < |rows| ==> t[i] == rows[i].allText
  {
    if rows == [] then [] else Texts(rows[..|rows| - 1]) + [rows[|rows| - 1].allText]
  }

  /** The rows whose recorded text the callback keeps, in their original order. */
  function Survivors(rows: seq<Row>, texts: seq<Option<string>>, text: string): (r: seq<Row>)
    requires |texts| == |rows|
    ensures |r| <= |rows|
  {
    if rows == [] then []
    else
      var n := |rows| - 1;
      Survivors(rows[..n], texts[..n], text) + (if Decide(texts[n], text).Kept? then [rows[n]] else [])
  }

  /** A dropped row makes the survivors fewer than the candidates. */
  lemma {:induction false} SurvivorsDropped(rows: seq<Row>, texts: seq<Option<string>>, text: string, i: nat)
    requires |texts| == |rows| && i < |rows| && Decide(texts[i], text).Dropped?
    ensures |Survivors(rows, texts, text)| < |rows|
    decreases |rows|
  {
    var n := |rows| - 1;
    if i < n {
      assert texts[..n][i] == texts[i];
      SurvivorsDropped(rows[..n], texts[..n], text, i);
    }
  }

  /** Taking one more row into account appends it exactly when the callback keeps it. */
  lemma SurvivorsSnoc(rows: seq<Row>, texts: seq<Option<string>>, text: string, i: nat)
    requires |texts| == |rows| && i < |rows|
    ensures Survivors(rows[..i + 1], texts[..i + 1], text) ==
      Survivors(rows[..i], texts[..i], text) + (if Decide(texts[i], text).Kept? then [rows[i]] else [])
  {
    assert rows[..i + 1][..i] == rows[..i];
    assert texts[..i + 1][..i] == texts[..i];
  }

  /** One call of the `rows.filter` callback, on row `i`, and the kept rows after it. */
  method FilterStep(rows: seq<Row>, text: string, i: nat, ghost before: seq<Option<string>>, matchedRows0: seq<Row>)
    returns (matchedRows: seq<Row>)
    requires i < |rows| == |before| && rows[i].allText == before[i]
    requires matchedRows0 == Survivors(rows[..i], before[..i], text)
    modifies rows[i]
    ensures matchedRows == Survivors(rows[..i + 1], before[..i + 1], text)
    ensures rows[i].allText == NewText(before[i], text)
  {
    var keep := KeepRow(rows[i], text);
    SurvivorsSnoc(rows, before, text, i);
    matchedRows := matchedRows0;
    if keep {
      matchedRows := matchedRows + [rows[i]];
    }
  }

  /** `rows.filter(...)` over the candidate page: the kept rows in order, each row's text
      rewritten by its verdict. */
  method FilterRows(rows: seq<Row>, text: string) returns (matchedRows: seq<Row>)
    requires forall i, j :: 0 <= i < j < |rows| ==> rows[i] != rows[j]
    modifies set r | r in rows
    ensures matchedRows == Survivors(rows, old(Texts(rows)), text)
    ensures forall i :: 0 <= i < |rows| ==> rows[i].allText == NewText(old(rows[i].allText), text)
  {
    ghost var before := Texts(rows);
    matchedRows := [];
    for i := 0 to |rows|
      invariant matchedRows == Survivors(rows[..i], before[..i], text)
      invariant forall j :: 0 <= j < i ==> rows[j].allText == NewText(before[j], text)
      invariant forall j :: i <= j < |rows| ==> rows[j].allText == before[j]
    {
      matchedRows := FilterStep(rows, text, i, before, matchedRows);
    }
    assert rows[..|rows|] == rows && before[..|rows|] == before;
  }

  /** The response body: the candidate rows unchanged in lookup mode, the Sharpie
      survivors otherwise. */
  method Respond(lookupMode: bool, rows: seq<Row>, text: string) returns (body: seq<Row>)
    requires forall i, j :: 0 <= i < j < |rows| ==> rows[i] != rows[j]
    modifies set r | r in rows
    ensures lookupMode ==> body == rows && forall i :: 0 <= i < |rows| ==> rows[i].allText == old(rows[i].allText)
    ensures !lookupMode ==> body == Survivors(rows, old(Texts(rows)), text)
    ensures !lookupMode ==> forall i :: 0 <= i < |rows| ==> rows[i].allText == NewText(old(rows[i].allText), text)
    ensures |body| <= |rows|
  {
    if !lookupMode {
      body := FilterRows(rows, text);
    } else {
      body := rows;
    }
  }
}
