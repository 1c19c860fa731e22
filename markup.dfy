/**
 * The highlighted markup the matcher writes into an accepted row's text: the
 * whole text sits in a `strikethrough` span, and each matched character is
 * lifted out into a `matchedChar` span of its own.
 */
module Markup {
  import opened Matcher
  import Strings

  /** The tags, each written as `<` + its inside + `>`. */
  const StrikeInside := "span class=\"strikethrough\""
  const EndInside := "/span"
  const MatchedInside := "span class=\"matchedChar\""
  const Strike := "<" + StrikeInside + ">"
  const EndSpan := "<" + EndInside + ">"
  const MatchedOpen := "<" + MatchedInside + ">"

  /** The markup that lifts a matched character out of the `strikethrough` span. */
  function MatchedChar(c: char): string {
    EndSpan + MatchedOpen + [c] + EndSpan + Strike
  }

  /** The markup of one scanned character. */
  function Render(m: Mark): string {
    if m.Hit? then MatchedChar(m.c) else [m.c]
  }

  /** The markup of the scanned characters, in order. */
  function RenderAll(ms: seq<Mark>): string {
    if ms == [] then [] else RenderAll(ms[..|ms| - 1]) + Render(ms[|ms| - 1])
  }

  lemma RenderAllSnoc(ms: seq<Mark>, m: Mark)
    ensures RenderAll(ms + [m]) == RenderAll(ms) + Render(m)
  {
    assert (ms + [m])[..|ms|] == ms;
  }

  /** The new text of an accepted row: the marked prefix, then the remaining characters
      copied unchanged, all in the `strikethrough` span. */
  function Highlighted(h: string, ms: seq<Mark>): string
    requires |ms| <= |h|
  {
    Strike + RenderAll(ms) + h[|ms|..] + EndSpan
  }

  /** What is left after dropping everything up to and including the first `>`. */
  function AfterTag(s: string): (r: string)
    ensures |r| <= |s|
  {
    if s == [] then [] else if s[0] == '>' then s[1..] else AfterTag(s[1..])
  }

  /** Deletes every `<...>` tag. */
  function StripTags(s: string): string
    decreases |s|
  {
    if s == [] then []
    else if s[0] == '<' then StripTags(AfterTag(s[1..]))
    else [s[0]] + StripTags(s[1..])
  }

  predicate NoChar(s: string, c: char) {
    forall i :: 0 <= i < |s| ==> s[i] != c
  }

  lemma {:induction false} AfterTagPast(x: string, rest: string)
    requires NoChar(x, '>')
    ensures AfterTag(x + ">" + rest) == rest
  {
    if x == [] {
      assert x + ">" + rest == ">" + rest;
    } else {
      assert (x + ">" + rest)[1..] == x[1..] + ">" + rest;
      AfterTagPast(x[1..], rest);
    }
  }

  lemma StripTag(x: string, rest: string)
    requires NoChar(x, '>')
    ensures StripTags("<" + x + ">" + rest) == StripTags(rest)
  {
    var s := "<" + x + ">" + rest;
    assert s[1..] == x + ">" + rest;
    AfterTagPast(x, rest);
  }

  lemma {:induction false} StripPlain(a: string, rest: string)
    requires NoChar(a, '<')
    ensures StripTags(a + rest) == a + StripTags(rest)
  {
    if a == [] {
      assert a + rest == rest;
    } else {
      assert (a + rest)[0] == a[0] && (a + rest)[1..] == a[1..] + rest;
      StripPlain(a[1..], rest);
    }
  }

  lemma StripSpanTags(rest: string)
    ensures StripTags(Strike + rest) == StripTags(rest)
    ensures StripTags(EndSpan + rest) == StripTags(rest)
    ensures StripTags(MatchedOpen + rest) == StripTags(rest)
  {
    assert NoChar(StrikeInside, '>');
    StripTag(StrikeInside, rest);
    assert NoChar(EndInside, '>');
    StripTag(EndInside, rest);
    assert NoChar(MatchedInside, '>');
    StripTag(MatchedInside, rest);
  }

  lemma StripRendered(m: Mark, rest: string)
    requires m.c != '<'
    ensures StripTags(Render(m) + rest) == [m.c] + StripTags(rest)
  {
    if m.Hit? {
      var tail := EndSpan + (Strike + rest);
      assert Render(m) + rest == EndSpan + (MatchedOpen + ([m.c] + tail));
      calc {
        StripTags(Render(m) + rest);
        { StripSpanTags(MatchedOpen + ([m.c] + tail)); }
        StripTags(MatchedOpen + ([m.c] + tail));
        { StripSpanTags([m.c] + tail); }
        StripTags([m.c] + tail);
        { assert NoChar([m.c], '<'); StripPlain([m.c], tail); }
        [m.c] + StripTags(tail);
        { StripSpanTags(Strike + rest); StripSpanTags(rest); }
        [m.c] + StripTags(rest);
      }
    } else {
      StripPlain([m.c], rest);
    }
  }

  lemma {:induction false} StripRenderedAll(ms: seq<Mark>, rest: string)
    requires forall j :: 0 <= j < |ms| ==> ms[j].c != '<'
    ensures StripTags(RenderAll(ms) + rest) == CharsOf(ms) + StripTags(rest)
    decreases |ms|
  {
    if ms != [] {
      var init, last := ms[..|ms| - 1], ms[|ms| - 1];
      assert ms == init + [last];
      assert forall j :: 0 <= j < |init| ==> init[j] == ms[j];
      StripRenderedAll(init, Render(last) + rest);
      StripRenderedSnoc(init, last, rest);
    } else {
      assert RenderAll(ms) + rest == rest;
    }
  }

  /** The induction step of `StripRenderedAll`: one more mark at the end. */
  lemma StripRenderedSnoc(init: seq<Mark>, last: Mark, rest: string)
    requires last.c != '<'
    requires StripTags(RenderAll(init) + (Render(last) + rest)) == CharsOf(init) + StripTags(Render(last) + rest)
    ensures StripTags(RenderAll(init + [last]) + rest) == CharsOf(init + [last]) + StripTags(rest)
  {
    RenderAllSnoc(init, last);
    Strings.ConcatAssoc(RenderAll(init), Render(last), rest);
    StripRendered(last, rest);
    CharsOfConcat(init, [last]);
    assert CharsOf([last]) == [last.c];
    Strings.ConcatAssoc(CharsOf(init), [last.c], StripTags(rest));
  }

  lemma {:induction false} CharsOfPrefix(ms: seq<Mark>, h: string)
    requires |ms| <= |h| && forall j :: 0 <= j < |ms| ==> ms[j].c == h[j]
    ensures CharsOf(ms) == h[..|ms|]
  {
    if ms != [] {
      CharsOfPrefix(ms[1..], h[1..]);
      assert h[..|ms|] == [h[0]] + h[1..][..|ms| - 1];
    }
  }

  /** Deleting the tags from the markup of marks `ms` followed by plain `tail` leaves the
      marks' characters followed by `tail`. */
  lemma StripMarkup(ms: seq<Mark>, tail: string)
    requires forall j :: 0 <= j < |ms| ==> ms[j].c != '<'
    requires NoChar(tail, '<')
    ensures StripTags(Strike + (RenderAll(ms) + (tail + EndSpan))) == CharsOf(ms) + tail
  {
    calc {
      StripTags(Strike + (RenderAll(ms) + (tail + EndSpan)));
      { StripSpanTags(RenderAll(ms) + (tail + EndSpan)); }
      StripTags(RenderAll(ms) + (tail + EndSpan));
      { StripRenderedAll(ms, tail + EndSpan); }
      CharsOf(ms) + StripTags(tail + EndSpan);
      { StripPlain(tail, EndSpan); }
      CharsOf(ms) + (tail + StripTags(EndSpan));
      { assert EndSpan == EndSpan + []; StripSpanTags([]); }
      CharsOf(ms) + tail;
    }
  }

  /** Deleting the tags from highlighted text gives back the row's text, provided the text
      holds no `<` of its own (with one, tag boundaries would be ambiguous). */
  lemma HighlightStrips(h: string, ms: seq<Mark>)
    requires |ms| <= |h| && forall j :: 0 <= j < |ms| ==> ms[j].c == h[j]
    requires NoChar(h, '<')
    ensures StripTags(Highlighted(h, ms)) == h
  {
    var tail := h[|ms|..];
    assert Highlighted(h, ms) == Strike + (RenderAll(ms) + (tail + EndSpan));
    assert forall j :: 0 <= j < |ms| ==> ms[j].c != '<';
    assert NoChar(tail, '<') by {
      forall i | 0 <= i < |tail| ensures tail[i] != '<' {
        assert tail[i] == h[|ms| + i];
      }
    }
    StripMarkup(ms, tail);
    CharsOfPrefix(ms, h);
    assert h[..|ms|] + tail == h;
  }

  /** Marks with no hit render as their own characters: symbol codes and unmatched
      characters are copied verbatim. */
  lemma {:induction false} RenderUnhit(ms: seq<Mark>)
    requires forall j :: 0 <= j < |ms| ==> !ms[j].Hit?
    ensures RenderAll(ms) == CharsOf(ms)
    decreases |ms|
  {
    if ms != [] {
      var init, last := ms[..|ms| - 1], ms[|ms| - 1];
      RenderUnhit(init);
      assert ms == init + [last];
      CharsOfConcat(init, [last]);
    }
  }

  lemma {:induction false} RenderAllConcat(a: seq<Mark>, b: seq<Mark>)
    ensures RenderAll(a + b) == RenderAll(a) + RenderAll(b)
    decreases |b|
  {
    if b == [] {
      assert a + b == a;
    } else {
      var init := b[..|b| - 1];
      assert (a + b)[..|a + b| - 1] == a + init;
      RenderAllConcat(a, init);
    }
  }

  /** Token opacity in the markup: the marks of a symbol code span of an accepted row render
      as exactly the span's own characters. */
  lemma OpaqueSpanCopied(h: string, needle: string, a: nat, b: nat)
    requires needle != [] && Sharpie(h, needle).Accept?
    requires a <= b <= |Sharpie(h, needle).marks| && b <= |h|
    requires forall j :: a <= j < b ==> Tokens.IsDelimiter(h[j]) || Tokens.StateAfter(h[..j], false)
    ensures RenderAll(Sharpie(h, needle).marks[a..b]) == h[a..b]
  {
    var ms := Sharpie(h, needle).marks;
    WalkOpacity(h, needle, 0, false);
    WalkMarksPrefix(h, needle, 0, false);
    var span := ms[a..b];
    forall j | 0 <= j < |span| ensures !span[j].Hit? && span[j].c == h[a..b][j] {
      assert span[j] == ms[a + j];
    }
    RenderUnhit(span);
    CharsOfPrefix(span, h[a..b]);
  }
}
