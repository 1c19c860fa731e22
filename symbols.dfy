/**
 * The card-text renderer of the search form: every `{X}` symbol code becomes an
 * `<img>` of the symbol's picture, then every literal backslash-`n` outside a code
 * becomes a `<br>` line break.
 */
module Symbols {
  import opened Wrappers
  import opened Strings
  import opened Tokens

  const ImgOpen := "<img src=\"/assets/symbols/"
  const ImgMiddle := ".svg\" alt=\""
  const ImgClose := "\" style=\"width: 1em; height: 1em; vertical-align: middle;\" />"
  const LineBreak := "<br>"

  /** The picture of a symbol: `src` names the file, `alt` repeats the code. */
  function ImgTag(src: string, alt: string): string {
    ImgOpen + src + ImgMiddle + alt + ImgClose
  }

  /** `s.replace(from, to)` for a one-character pattern: the first occurrence only. */
  function ReplaceFirst(s: string, from: char, to: string): (r: string)
    ensures from !in s ==> r == s
  {
    match FirstIndex(s, from)
    case None => s
    case Some(k) => s[..k] + to + s[k + 1..]
  }

  /** Replacing a character by itself leaves the text as it was: the `'/'` rewrite of
      a symbol code never changes it. */
  lemma ReplaceFirstSelf(s: string, c: char)
    ensures ReplaceFirst(s, c, [c]) == s
  {
    match FirstIndex(s, c)
    case None =>
    case Some(k) =>
      assert s == s[..k] + [c] + s[k + 1..];
  }

  /** `text.replace(/\{([^}]+)\}/g, ...)`: at a `{` the match runs up to the first `}`
      after it and needs at least one character in between; anywhere else, and at a
      `{` that does not match, the character is copied. */
  function ReplaceTokens(s: string): string
    decreases |s|
  {
    if s == [] then []
    else if s[0] == '{' then
      match FirstIndex(s[1..], '}')
      case Some(k) =>
        if k >= 1 then
          var p1 := s[1..k + 1];
          ImgTag(ReplaceFirst(p1, '/', "/"), p1) + ReplaceTokens(s[k + 2..])
        else [s[0]] + ReplaceTokens(s[1..])
      case None => [s[0]] + ReplaceTokens(s[1..])
    else [s[0]] + ReplaceTokens(s[1..])
  }

  /** The rendering of well-formed card text: words kept, each code `X` turned into the
      picture whose file and description are `X` itself. */
  function Pictured(ps: seq<Piece>): string {
    if ps == [] then []
    else
      (match ps[0]
       case Words(t) => t
       case Symbol(x) => ImgTag(x, x)) + Pictured(ps[1..])
  }

  /** Text without `{` is copied by the token pass. */
  lemma {:induction false} ReplaceTokensPlain(s: string)
    requires '{' !in s
    ensures ReplaceTokens(s) == s
    decreases |s|
  {
    if s != [] {
      assert '{' !in s[1..] by { assert forall x :: x in s[1..] ==> x in s; }
      ReplaceTokensPlain(s[1..]);
    }
  }

  lemma {:induction false} ReplaceTokensWords(t: string, rest: string)
    requires NoDelimiter(t)
    ensures ReplaceTokens(t + rest) == t + ReplaceTokens(rest)
    decreases |t|
  {
    if t != [] {
      assert (t + rest)[0] == t[0] && (t + rest)[1..] == t[1..] + rest;
      assert NoDelimiter(t[1..]) by { assert forall i :: 0 <= i < |t| - 1 ==> t[1..][i] == t[i + 1]; }
      assert ReplaceTokens(t + rest) == [t[0]] + ReplaceTokens(t[1..] + rest);
      ReplaceTokensWords(t[1..], rest);
      ConcatAssoc([t[0]], t[1..], ReplaceTokens(rest));
      assert [t[0]] + t[1..] == t;
    } else {
      assert t + rest == rest;
    }
  }

  lemma ReplaceTokensSymbol(x: string, rest: string)
    requires x != [] && NoDelimiter(x)
    ensures ReplaceTokens("{" + x + "}" + rest) == ImgTag(x, x) + ReplaceTokens(rest)
  {
    var u := x + "}" + rest;
    var s := "{" + u;
    ConcatAssoc("{", x, "}");
    ConcatAssoc("{", x + "}", rest);
    assert "{" + x + "}" + rest == s;
    ConcatSuffix("{", u);
    assert '}' !in x;
    FirstIndexAfter(x, '}', rest);
    ConcatAssoc(x, "}", rest);
    ConcatPrefix(x, "}" + rest);
    ConcatSuffix(x + "}", rest);
    assert s[1..|x| + 1] == u[..|x|];
    assert s[|x| + 2..] == u[|x| + 1..];
    ReplaceFirstSelf(x, '/');
  }

  /** On well-formed card text the token pass turns each symbol code `X` into the
      picture of `X`, the code copied unchanged into both the file name and the
      description, and keeps the words. */
  lemma {:induction false} ReplaceTokensOfWellFormed(ps: seq<Piece>)
    requires WellFormed(ps)
    ensures ReplaceTokens(Source(ps)) == Pictured(ps)
  {
    if ps != [] {
      assert WellFormed(ps[1..]) by {
        forall i | 0 <= i < |ps[1..]| ensures ps[1..][i] == ps[i + 1] { }
      }
      ReplaceTokensOfWellFormed(ps[1..]);
      match ps[0]
      case Words(t) =>
        ReplaceTokensWords(t, Source(ps[1..]));
      case Symbol(x) =>
        ReplaceTokensSymbol(x, Source(ps[1..]));
    }
  }

  /** The line-break pass as a function of the text left and the brace state before it:
      the state is updated first, then a backslash outside braces followed by `n`
      becomes `<br>` and the `n` is consumed. */
  function Breaks(t: string, inside: bool): string
    decreases |t|
  {
    if t == [] then []
    else
      var state := Next(t[0], inside);
      if t[0] == '\\' && !state && |t| > 1 && t[1] == 'n' then LineBreak + Breaks(t[2..], state)
      else [t[0]] + Breaks(t[1..], state)
  }

  /** The `for` loop of the line-break pass. */
  method BreakLines(text: string) returns (result: string)
    ensures result == Breaks(text, false)
  {
    result := "";
    var insideBraces := false;
    var i := 0;
    while i < |text|
      invariant 0 <= i <= |text|
      invariant result + Breaks(text[i..], insideBraces) == Breaks(text, false)
    {
      ghost var before, state := result, insideBraces;
      if text[i] == '{' {
        insideBraces := true;
      } else if text[i] == '}' {
        insideBraces := false;
      }
      if text[i] == '\\' && !insideBraces && i + 1 < |text| && text[i + 1] == 'n' {
        result := result + LineBreak;
        assert text[i..][2..] == text[i + 2..];
        ConcatAssoc(before, LineBreak, Breaks(text[i + 2..], insideBraces));
        i := i + 1;
      } else {
        result := result + [text[i]];
        assert text[i..][1..] == text[i + 1..];
        ConcatAssoc(before, [text[i]], Breaks(text[i + 1..], insideBraces));
      }
      i := i + 1;
    }
    ConcatEmpty(result);
  }

  /** `replaceSymbolsWithSVGs`: nothing for a missing or empty text, otherwise the token
      pass followed by the line-break pass. */
  method ReplaceSymbolsWithSvgs(text: Option<string>) returns (r: string)
    ensures text.None? || text == Some("") ==> r == ""
    ensures text.Some? && text.value != "" ==> r == Breaks(ReplaceTokens(text.value), false)
  {
    if text.None? || text.value == "" {
      return "";
    }
    var replaced := ReplaceTokens(text.value);
    r := BreakLines(replaced);
  }

  /** Text without backslashes goes through the line-break pass unchanged. */
  lemma {:induction false} BreaksPlain(t: string, inside: bool)
    requires '\\' !in t
    ensures Breaks(t, inside) == t
    decreases |t|
  {
    if t != [] {
      assert '\\' !in t[1..] by { assert forall x :: x in t[1..] ==> x in t; }
      BreaksPlain(t[1..], Next(t[0], inside));
    }
  }

  /** Inside a symbol code that never closes, nothing is rewritten. */
  lemma {:induction false} BreaksInside(t: string)
    requires '}' !in t
    ensures Breaks(t, true) == t
    decreases |t|
  {
    if t != [] {
      assert '}' !in t[1..] by { assert forall x :: x in t[1..] ==> x in t; }
      BreaksInside(t[1..]);
    }
  }

  /** A symbol code is copied as it is, backslash-`n` included, and the pass resumes
      outside braces after it. */
  lemma BreaksKeepsCode(x: string, rest: string)
    requires '}' !in x
    ensures Breaks("{" + x + "}" + rest, false) == "{" + x + "}" + Breaks(rest, false)
  {
    BreaksRun(x, "}" + rest);
    var s := "{" + x + "}" + rest;
    assert s[1..] == x + ("}" + rest);
    assert ("}" + rest)[1..] == rest;
    ConcatAssoc("{", x, "}" + Breaks(rest, false));
    ConcatAssoc("{" + x, "}", Breaks(rest, false));
  }

  lemma {:induction false} BreaksRun(x: string, rest: string)
    requires '}' !in x
    ensures Breaks(x + rest, true) == x + Breaks(rest, true)
    decreases |x|
  {
    if x != [] {
      assert (x + rest)[0] == x[0] && (x + rest)[1..] == x[1..] + rest;
      assert '}' !in x[1..] by { assert forall c :: c in x[1..] ==> c in x; }
      assert Breaks(x + rest, true) == [x[0]] + Breaks(x[1..] + rest, true);
      BreaksRun(x[1..], rest);
      ConcatAssoc([x[0]], x[1..], Breaks(rest, true));
      assert [x[0]] + x[1..] == x;
    } else {
      assert x + rest == rest;
    }
  }

  /** Text free of backslashes and braces passes through unchanged in front of the rest. */
  lemma {:induction false} BreaksCopy(a: string, rest: string)
    requires '\\' !in a && NoDelimiter(a)
    ensures Breaks(a + rest, false) == a + Breaks(rest, false)
    decreases |a|
  {
    if a != [] {
      assert (a + rest)[0] == a[0] && (a + rest)[1..] == a[1..] + rest;
      assert '\\' !in a[1..] by { assert forall c :: c in a[1..] ==> c in a; }
      assert NoDelimiter(a[1..]) by { assert forall i :: 0 <= i < |a| - 1 ==> a[1..][i] == a[i + 1]; }
      assert Breaks(a + rest, false) == [a[0]] + Breaks(a[1..] + rest, false);
      BreaksCopy(a[1..], rest);
      ConcatAssoc([a[0]], a[1..], Breaks(rest, false));
      assert [a[0]] + a[1..] == a;
    } else {
      assert a + rest == rest;
    }
  }

  /** Lines free of backslashes and braces, joined by literal backslash-`n`, come out
      joined by `<br>`. */
  lemma {:induction false} BreaksJoin(lines: seq<string>)
    requires forall i :: 0 <= i < |lines| ==> '\\' !in lines[i] && NoDelimiter(lines[i])
    ensures Breaks(Join(lines, "\\n"), false) == Join(lines, LineBreak)
  {
    if |lines| == 1 {
      BreaksPlain(lines[0], false);
    } else if |lines| > 1 {
      var rest := Join(lines[1..], "\\n");
      BreaksJoin(lines[1..]);
      ConcatAssoc(lines[0], "\\n", rest);
      BreaksCopy(lines[0], "\\n" + rest);
      var s := "\\n" + rest;
      assert s[2..] == rest;
      ConcatAssoc(lines[0], LineBreak, Join(lines[1..], LineBreak));
    }
  }
}
