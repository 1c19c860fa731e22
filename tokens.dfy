/**
 * The token-aware scanner shared by the matcher and the renderer: `{` opens an
 * opaque symbol code, `}` closes it, and nothing tracks nesting.
 */
module Tokens {
  predicate IsDelimiter(c: char) {
    c == '{' || c == '}'
  }

  /** The scanner's state after reading `c` in state `inside`. */
  function Next(c: char, inside: bool): bool {
    if c == '{' then true else if c == '}' then false else inside
  }

  /** The scanner's state after reading all of `s`, starting in state `inside`. */
  function StateAfter(s: string, inside: bool): bool
    decreases |s|
  {
    if s == [] then inside else StateAfter(s[1..], Next(s[0], inside))
  }

  lemma {:induction false} StateAfterConcat(a: string, b: string, inside: bool)
    ensures StateAfter(a + b, inside) == StateAfter(b, StateAfter(a, inside))
  {
    if a == [] {
      assert a + b == b;
    } else {
      assert (a + b)[0] == a[0] && (a + b)[1..] == a[1..] + b;
      StateAfterConcat(a[1..], b, Next(a[0], inside));
    }
  }

  /** Starting outside any token, the scanner is inside one exactly when the last
      delimiter read so far is a `{`. */
  lemma {:induction false} InsideIffLastDelimiterOpens(p: string)
    ensures StateAfter(p, false) <==>
      exists q :: 0 <= q < |p| && p[q] == '{' && forall r :: q < r < |p| ==> p[r] != '}'
    decreases |p|
  {
    if p != [] {
      var n := |p| - 1;
      var init, c := p[..n], p[n];
      assert p == init + [c];
      StateAfterConcat(init, [c], false);
      assert StateAfter(p, false) == Next(c, StateAfter(init, false));
      InsideIffLastDelimiterOpens(init);
      if c == '{' {
        assert p[n] == '{';
      } else if c == '}' {
        forall q | 0 <= q < |p| && p[q] == '{'
          ensures exists r :: q < r < |p| && p[r] == '}'
        {
          assert p[n] == '}';
        }
      } else {
        forall q | 0 <= q < |p|
          ensures (p[q] == '{' && forall r :: q < r < |p| ==> p[r] != '}') <==>
                  (q < n && init[q] == '{' && forall r :: q < r < n ==> init[r] != '}')
        {
          if q < n {
            assert p[q] == init[q];
            assert forall r :: q < r < n ==> p[r] == init[r];
          }
        }
      }
    }
  }

  /** A position is matchable when it is neither a delimiter nor inside a token. */
  predicate Matchable(h: string, j: nat)
    requires j < |h|
  {
    !IsDelimiter(h[j]) && !StateAfter(h[..j], false)
  }

  /** The characters of `s` a needle may match, starting in state `inside`. */
  function VisibleFrom(s: string, inside: bool): string
    decreases |s|
  {
    if s == [] then []
    else (if IsDelimiter(s[0]) || inside then [] else [s[0]]) + VisibleFrom(s[1..], Next(s[0], inside))
  }

  /** The matchable characters of a haystack, in order. */
  function Visible(s: string): string {
    VisibleFrom(s, false)
  }

  lemma {:induction false} VisibleConcat(a: string, b: string, inside: bool)
    ensures VisibleFrom(a + b, inside) == VisibleFrom(a, inside) + VisibleFrom(b, StateAfter(a, inside))
  {
    if a == [] {
      assert a + b == b;
    } else {
      assert (a + b)[0] == a[0] && (a + b)[1..] == a[1..] + b;
      VisibleConcat(a[1..], b, Next(a[0], inside));
    }
  }

  /** The characters at the matchable positions of `h`, position by position. */
  function MatchableChars(h: string): string
    decreases |h|
  {
    if h == [] then []
    else MatchableChars(h[..|h| - 1]) + (if Matchable(h, |h| - 1) then [h[|h| - 1]] else [])
  }

  /** What the scanner lets a needle see is exactly the characters at matchable positions. */
  lemma {:induction false} VisibleIsMatchable(h: string)
    ensures Visible(h) == MatchableChars(h)
    decreases |h|
  {
    if h != [] {
      var n := |h| - 1;
      assert h == h[..n] + [h[n]];
      VisibleConcat(h[..n], [h[n]], false);
      VisibleIsMatchable(h[..n]);
    }
  }

  /** One run of well-formed card text: plain words, or a symbol code such as `{G}`. */
  datatype Piece = Words(text: string) | Symbol(code: string)

  predicate NoDelimiter(s: string) {
    forall i :: 0 <= i < |s| ==> !IsDelimiter(s[i])
  }

  /** Card text is well-formed: words hold no braces, codes are non-empty and hold no braces. */
  predicate WellFormed(ps: seq<Piece>) {
    forall i :: 0 <= i < |ps| ==>
      match ps[i]
      case Words(t) => NoDelimiter(t)
      case Symbol(x) => x != [] && NoDelimiter(x)
  }

  /** The raw text a list of pieces stands for. */
  function Source(ps: seq<Piece>): string {
    if ps == [] then []
    else
      (match ps[0]
       case Words(t) => t
       case Symbol(x) => "{" + x + "}") + Source(ps[1..])
  }

  /** The words of a list of pieces, without the symbol codes. */
  function WordsOf(ps: seq<Piece>): string {
    if ps == [] then []
    else (if ps[0].Words? then ps[0].text else "") + WordsOf(ps[1..])
  }

  lemma {:induction false} PlainRun(t: string, inside: bool)
    requires NoDelimiter(t)
    ensures VisibleFrom(t, inside) == (if inside then "" else t)
    ensures StateAfter(t, inside) == inside
  {
    if t != [] {
      PlainRun(t[1..], inside);
    }
  }

  /** On well-formed card text the matchable characters are exactly the words:
      no character of a symbol code can ever be matched. */
  lemma {:induction false} VisibleOfWellFormed(ps: seq<Piece>)
    requires WellFormed(ps)
    ensures Visible(Source(ps)) == WordsOf(ps)
    ensures !StateAfter(Source(ps), false)
  {
    if ps != [] {
      var head := match ps[0] case Words(t) => t case Symbol(x) => "{" + x + "}";
      assert Source(ps) == head + Source(ps[1..]);
      VisibleConcat(head, Source(ps[1..]), false);
      StateAfterConcat(head, Source(ps[1..]), false);
      assert WellFormed(ps[1..]) by {
        forall i | 0 <= i < |ps[1..]| ensures ps[1..][i] == ps[i + 1] { }
      }
      VisibleOfWellFormed(ps[1..]);
      match ps[0]
      case Words(t) =>
        PlainRun(t, false);
      case Symbol(x) =>
        PlainRun(x, true);
        assert head == "{" + (x + "}");
        VisibleConcat("{", x + "}", false);
        StateAfterConcat("{", x + "}", false);
        VisibleConcat(x, "}", true);
        StateAfterConcat(x, "}", true);
    }
  }
}
