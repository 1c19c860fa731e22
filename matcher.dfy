/**
 * The Sharpie ordered-subsequence matcher: a greedy left-to-right scan of a
 * card's text that consumes the needle one character at a time, skipping
 * symbol codes, and lets a needle space be satisfied by any matchable character.
 */
module Matcher {
  import opened Strings
  import opened Tokens

  /** Needle character `n` is satisfied by haystack character `c`: case-insensitively
      equal, or `n` is a space. */
  predicate Fits(n: char, c: char) {
    n == ' ' || Lower(n) == Lower(c)
  }

  /** `idx` places every needle character on its own position of `vis`, in order,
      on a character it fits. */
  ghost predicate IsAlignment(needle: string, vis: string, idx: seq<int>) {
    && |idx| == |needle|
    && (forall k :: 0 <= k < |idx| ==> 0 <= idx[k] < |vis| && Fits(needle[k], vis[idx[k]]))
    && (forall k, l :: 0 <= k < l < |idx| ==> idx[k] < idx[l])
  }

  /** The needle, with a space standing for any character, is a case-insensitive
      subsequence of `vis`. */
  ghost predicate WildSubsequence(needle: string, vis: string) {
    exists idx :: IsAlignment(needle, vis, idx)
  }

  function Shift(idx: seq<int>, d: int): (r: seq<int>)
    ensures |r| == |idx| && forall k :: 0 <= k < |idx| ==> r[k] == idx[k] + d
  {
    seq(|idx|, k requires 0 <= k < |idx| => idx[k] + d)
  }

  lemma EmptyNeedleFits(vis: string)
    ensures WildSubsequence([], vis)
  {
    assert IsAlignment([], vis, []);
  }

  lemma NothingFitsNothing(needle: string)
    requires needle != []
    ensures !WildSubsequence(needle, [])
  {
    forall idx ensures !IsAlignment(needle, [], idx) {
      if |idx| == |needle| {
        assert !(0 <= idx[0] < |""|);
      }
    }
  }

  /** An alignment into `[c] + rest`, without its first position, aligns the rest of the
      needle into `rest`. */
  lemma AlignmentTail(needle: string, c: char, rest: string, idx: seq<int>)
    requires needle != [] && IsAlignment(needle, [c] + rest, idx)
    ensures IsAlignment(needle[1..], rest, Shift(idx[1..], -1))
  {
    var vis := [c] + rest;
    var idx' := Shift(idx[1..], -1);
    forall k | 0 <= k < |idx'| ensures 0 <= idx'[k] < |rest| && Fits(needle[1..][k], rest[idx'[k]]) {
      assert idx[0] < idx[k + 1];
      assert vis[idx[k + 1]] == rest[idx'[k]];
    }
    forall k, l | 0 <= k < l < |idx'| ensures idx'[k] < idx'[l] {
      assert idx[k + 1] < idx[l + 1];
    }
  }

  /** An alignment of the rest of the needle into `rest`, preceded by position 0, aligns
      the needle into `[c] + rest` when `c` fits its first character. */
  lemma AlignmentCons(needle: string, c: char, rest: string, idx': seq<int>)
    requires needle != [] && Fits(needle[0], c) && IsAlignment(needle[1..], rest, idx')
    ensures IsAlignment(needle, [c] + rest, Pushed(idx'))
  {
    var vis := [c] + rest;
    var idx := Pushed(idx');
    forall k | 0 <= k < |idx| ensures 0 <= idx[k] < |vis| && Fits(needle[k], vis[idx[k]]) {
      if k > 0 {
        assert vis[idx[k]] == rest[idx'[k - 1]];
      }
    }
  }

  /** Position 0 followed by the positions of `idx'` moved one on. */
  function Pushed(idx': seq<int>): (r: seq<int>)
    ensures |r| == |idx'| + 1 && r[0] == 0
    ensures forall k :: 1 <= k < |r| ==> r[k] == idx'[k - 1] + 1
  {
    seq(|idx'| + 1, k requires 0 <= k <= |idx'| => if k == 0 then 0 else idx'[k - 1] + 1)
  }

  /** When the next visible character fits the first needle character, taking it loses
      nothing: any alignment can be moved to start there. */
  lemma TakeFitting(needle: string, c: char, rest: string)
    requires needle != [] && Fits(needle[0], c)
    ensures WildSubsequence(needle, [c] + rest) <==> WildSubsequence(needle[1..], rest)
  {
    if WildSubsequence(needle, [c] + rest) {
      var idx :| IsAlignment(needle, [c] + rest, idx);
      AlignmentTail(needle, c, rest, idx);
    }
    if WildSubsequence(needle[1..], rest) {
      var idx' :| IsAlignment(needle[1..], rest, idx');
      AlignmentCons(needle, c, rest, idx');
    }
  }

  /** When the next visible character does not fit the first needle character, no
      alignment uses it. */
  lemma PassMisfit(needle: string, c: char, rest: string)
    requires needle != [] && !Fits(needle[0], c)
    ensures WildSubsequence(needle, [c] + rest) <==> WildSubsequence(needle, rest)
  {
    var vis := [c] + rest;
    if WildSubsequence(needle, vis) {
      var idx :| IsAlignment(needle, vis, idx);
      var idx' := Shift(idx, -1);
      forall k | 0 <= k < |idx'| ensures 0 <= idx'[k] < |rest| && Fits(needle[k], rest[idx'[k]]) {
        assert idx[0] != 0;
        if k > 0 {
          assert idx[0] < idx[k];
        }
        assert vis[idx[k]] == rest[idx'[k]];
      }
      assert IsAlignment(needle, rest, idx');
    }
    if WildSubsequence(needle, rest) {
      var idx' :| IsAlignment(needle, rest, idx');
      var idx := Shift(idx', 1);
      forall k | 0 <= k < |idx| ensures 0 <= idx[k] < |vis| && Fits(needle[k], vis[idx[k]]) {
        assert vis[idx[k]] == rest[idx'[k]];
      }
      assert IsAlignment(needle, vis, idx);
    }
  }

  /** How the scan treats one haystack character: passed through inside or on a token
      delimiter, matched, taken by a needle space, or left unmatched. */
  datatype Mark = Opaque(c: char) | Hit(c: char) | Skip(c: char) | Miss(c: char)

  /** A mark that uses up one needle character. */
  predicate Consumes(m: Mark) {
    m.Hit? || m.Skip?
  }

  /** The scan's verdict: the marks of the characters read up to and including the one
      that completed the needle, or rejection. */
  datatype Verdict = Accept(marks: seq<Mark>) | Reject

  /** The mark of haystack character `c`, against needle character `n`, when the scanner
      is in state `inside` before `c`. */
  function Step(c: char, n: char, inside: bool): Mark {
    if IsDelimiter(c) || inside then Opaque(c)
    else if Lower(c) == Lower(n) then Hit(c)
    else if n == ' ' then Skip(c)
    else Miss(c)
  }

  /** The scan as a state machine: haystack `h` still to read, needle cursor `k`,
      scanner state `inside`. */
  function Walk(h: string, needle: string, k: nat, inside: bool): Verdict
    requires k < |needle|
    decreases |h|
  {
    if h == [] then Reject
    else
      var m := Step(h[0], needle[k], inside);
      var k' := if Consumes(m) then k + 1 else k;
      if k' == |needle| then Accept([m])
      else Prepend([m], Walk(h[1..], needle, k', Next(h[0], inside)))
  }

  function Prepend(ms: seq<Mark>, v: Verdict): Verdict {
    match v
    case Accept(rest) => Accept(ms + rest)
    case Reject => Reject
  }

  /** One step of the scan at position `i` of the haystack. */
  lemma WalkStep(h: string, needle: string, i: nat, k: nat, inside: bool)
    requires i < |h| && k < |needle|
    ensures var m := Step(h[i], needle[k], inside);
      var k' := if Consumes(m) then k + 1 else k;
      Walk(h[i..], needle, k, inside) ==
        if k' == |needle| then Accept([m]) else Prepend([m], Walk(h[i + 1..], needle, k', Next(h[i], inside)))
  {
    assert h[i..][0] == h[i] && h[i..][1..] == h[i + 1..];
  }

  lemma PrependPrepend(a: seq<Mark>, b: seq<Mark>, v: Verdict)
    ensures Prepend(a, Prepend(b, v)) == Prepend(a + b, v)
  {
    if v.Accept? {
      assert a + (b + v.marks) == (a + b) + v.marks;
    }
  }

  /** The verdict of the scan of a row's text against a non-empty needle. */
  function Sharpie(h: string, needle: string): Verdict
    requires needle != []
  {
    Walk(h, needle, 0, false)
  }

  /** The scan accepts exactly when the rest of the needle is a wildcard subsequence of
      the visible rest of the haystack: the greedy scan decides the declarative match. */
  lemma {:induction false} WalkDecides(h: string, needle: string, k: nat, inside: bool)
    requires k < |needle|
    ensures Walk(h, needle, k, inside).Accept? <==> WildSubsequence(needle[k..], VisibleFrom(h, inside))
    decreases |h|
  {
    if h == [] {
      NothingFitsNothing(needle[k..]);
    } else {
      var c := h[0];
      var m := Step(c, needle[k], inside);
      var rest := VisibleFrom(h[1..], Next(c, inside));
      if IsDelimiter(c) || inside {
        assert VisibleFrom(h, inside) == rest;
        assert Walk(h, needle, k, inside) == Prepend([m], Walk(h[1..], needle, k, Next(c, inside)));
        WalkDecides(h[1..], needle, k, Next(c, inside));
      } else {
        assert VisibleFrom(h, inside) == [c] + rest;
        assert Next(c, inside) == inside;
        if Fits(needle[k], c) {
          WalkDecidesFit(h, needle, k, inside);
        } else {
          assert Walk(h, needle, k, inside) == Prepend([m], Walk(h[1..], needle, k, inside));
          PassMisfit(needle[k..], c, rest);
          WalkDecides(h[1..], needle, k, inside);
        }
      }
    }
  }

  /** The step of `WalkDecides` where the next visible character is taken. */
  lemma {:induction false} WalkDecidesFit(h: string, needle: string, k: nat, inside: bool)
    requires k < |needle| && h != [] && !IsDelimiter(h[0]) && !inside && Fits(needle[k], h[0])
    ensures Walk(h, needle, k, inside).Accept? <==> WildSubsequence(needle[k..], VisibleFrom(h, inside))
    decreases |h|, 0
  {
    var c := h[0];
    var m := Step(c, needle[k], inside);
    var rest := VisibleFrom(h[1..], inside);
    assert Consumes(m) && Next(c, inside) == inside;
    assert VisibleFrom(h, inside) == [c] + rest;
    TakeFitting(needle[k..], c, rest);
    assert needle[k..][1..] == needle[k + 1..];
    if k + 1 == |needle| {
      assert Walk(h, needle, k, inside) == Accept([m]);
      assert needle[k + 1..] == [];
      EmptyNeedleFits(rest);
    } else {
      assert Walk(h, needle, k, inside) == Prepend([m], Walk(h[1..], needle, k + 1, inside));
      WalkDecides(h[1..], needle, k + 1, inside);
    }
  }

  /** The Sharpie verdict is the declarative one: accept exactly when the needle, with
      spaces as wildcards, is a case-insensitive subsequence of the visible text. */
  lemma SharpieDecides(h: string, needle: string)
    requires needle != []
    ensures Sharpie(h, needle).Accept? <==> WildSubsequence(needle, Visible(h))
  {
    WalkDecides(h, needle, 0, false);
    assert needle[0..] == needle;
  }

  /** The consuming marks of a mark list, in order. */
  function Consumed(ms: seq<Mark>): seq<Mark> {
    if ms == [] then [] else (if Consumes(ms[0]) then [ms[0]] else []) + Consumed(ms[1..])
  }

  function CharsOf(ms: seq<Mark>): string {
    if ms == [] then [] else [ms[0].c] + CharsOf(ms[1..])
  }

  lemma CharsOfConcat(a: seq<Mark>, b: seq<Mark>)
    ensures CharsOf(a + b) == CharsOf(a) + CharsOf(b)
  {
    if a == [] {
      assert a + b == b;
    } else {
      assert (a + b)[1..] == a[1..] + b;
    }
  }

  lemma {:induction false} ConsumedConcat(a: seq<Mark>, b: seq<Mark>)
    ensures Consumed(a + b) == Consumed(a) + Consumed(b)
    decreases |a|
  {
    if a == [] {
      assert a + b == b;
    } else {
      var x := if Consumes(a[0]) then [a[0]] else [];
      assert (a + b)[0] == a[0] && (a + b)[1..] == a[1..] + b;
      assert Consumed(a + b) == x + Consumed(a[1..] + b);
      ConsumedConcat(a[1..], b);
      assert x + (Consumed(a[1..]) + Consumed(b)) == (x + Consumed(a[1..])) + Consumed(b);
    }
  }

  /** An accepted scan marks a non-empty prefix of the haystack, one mark per character,
      and its last character is the one that completed the needle. */
  lemma {:induction false} WalkMarksPrefix(h: string, needle: string, k: nat, inside: bool)
    requires k < |needle| && Walk(h, needle, k, inside).Accept?
    ensures 1 <= |Walk(h, needle, k, inside).marks| <= |h|
    ensures forall j :: 0 <= j < |Walk(h, needle, k, inside).marks| ==>
      Walk(h, needle, k, inside).marks[j].c == h[j]
    ensures Consumes(Walk(h, needle, k, inside).marks[|Walk(h, needle, k, inside).marks| - 1])
    decreases |h|
  {
    var m := Step(h[0], needle[k], inside);
    var k' := if Consumes(m) then k + 1 else k;
    if k' == |needle| {
      assert Walk(h, needle, k, inside) == Accept([m]);
    } else {
      var tail := Walk(h[1..], needle, k', Next(h[0], inside));
      assert Walk(h, needle, k, inside) == Prepend([m], tail);
      WalkMarksPrefix(h[1..], needle, k', Next(h[0], inside));
      var ms := [m] + tail.marks;
      assert Walk(h, needle, k, inside).marks == ms;
      assert ms[|ms| - 1] == tail.marks[|tail.marks| - 1];
      forall j | 1 <= j < |ms| ensures ms[j].c == h[j] {
        assert ms[j] == tail.marks[j - 1];
      }
    }
  }

  /** The consuming marks of an accepted scan line up with the rest of the needle: one per
      needle character, a `Hit` where the characters are equal ignoring case, a `Skip`
      only for a needle space that met a different character. */
  lemma {:induction false} WalkConsumesNeedle(h: string, needle: string, k: nat, inside: bool)
    requires k < |needle| && Walk(h, needle, k, inside).Accept?
    ensures var cs := Consumed(Walk(h, needle, k, inside).marks);
      && |cs| == |needle| - k
      && forall t :: 0 <= t < |cs| ==>
           && Fits(needle[k + t], cs[t].c)
           && (cs[t].Hit? <==> Lower(cs[t].c) == Lower(needle[k + t]))
           && (cs[t].Skip? ==> needle[k + t] == ' ')
    decreases |h|
  {
    var m := Step(h[0], needle[k], inside);
    var k' := if Consumes(m) then k + 1 else k;
    if k' < |needle| {
      var tail := Walk(h[1..], needle, k', Next(h[0], inside));
      WalkConsumesNeedle(h[1..], needle, k', Next(h[0], inside));
      ConsumedConcat([m], tail.marks);
    }
  }

  /** Token opacity: a character of an accepted prefix gets an `Opaque` mark exactly when it
      is a brace or lies inside a symbol code, so a code's characters never match and
      never move the needle cursor. */
  lemma {:induction false} WalkOpacity(h: string, needle: string, k: nat, inside: bool)
    requires k < |needle| && Walk(h, needle, k, inside).Accept?
    ensures var ms := Walk(h, needle, k, inside).marks;
      |ms| <= |h| && forall j :: 0 <= j < |ms| ==>
        (ms[j].Opaque? <==> IsDelimiter(h[j]) || StateAfter(h[..j], inside))
    decreases |h|
  {
    var m := Step(h[0], needle[k], inside);
    var k' := if Consumes(m) then k + 1 else k;
    AcceptedMarksBound(h, needle, k, inside);
    if k' == |needle| {
      assert Walk(h, needle, k, inside) == Accept([m]);
      assert h[..0] == [];
    } else {
      var tail := Walk(h[1..], needle, k', Next(h[0], inside));
      assert Walk(h, needle, k, inside) == Prepend([m], tail);
      WalkOpacity(h[1..], needle, k', Next(h[0], inside));
      var ms := [m] + tail.marks;
      assert h[..0] == [];
      forall j | 1 <= j < |ms|
        ensures ms[j].Opaque? <==> IsDelimiter(h[j]) || StateAfter(h[..j], inside)
      {
        assert ms[j] == tail.marks[j - 1];
        assert h[..j] == [h[0]] + h[1..][..j - 1];
        assert h[..j][1..] == h[1..][..j - 1];
      }
    }
  }

  /** The scan reads nothing past the completing character: on every prefix that stops
      short of it the scan rejects, and on every longer prefix it gives the same marks. */
  lemma {:induction false} WalkPrefixes(h: string, needle: string, k: nat, inside: bool, n: nat)
    requires k < |needle| && n <= |h|
    ensures Walk(h, needle, k, inside).Reject? ==> Walk(h[..n], needle, k, inside).Reject?
    ensures Walk(h, needle, k, inside).Accept? ==>
      Walk(h[..n], needle, k, inside) ==
        (if n < |Walk(h, needle, k, inside).marks| then Reject else Walk(h, needle, k, inside))
    decreases |h|
  {
    AcceptedMarksBound(h, needle, k, inside);
    if n > 0 {
      var m := Step(h[0], needle[k], inside);
      var k' := if Consumes(m) then k + 1 else k;
      assert h[..n][0] == h[0];
      assert h[..n][1..] == h[1..][..n - 1];
      if k' < |needle| {
        WalkPrefixes(h[1..], needle, k', Next(h[0], inside), n - 1);
      }
    }
  }

  lemma AcceptedMarksBound(h: string, needle: string, k: nat, inside: bool)
    requires k < |needle|
    ensures Walk(h, needle, k, inside).Accept? ==> 1 <= |Walk(h, needle, k, inside).marks| <= |h|
  {
    if Walk(h, needle, k, inside).Accept? {
      WalkMarksPrefix(h, needle, k, inside);
    }
  }

  /** Greedy leftmost: an accepted scan stops at the end of the shortest prefix of the
      haystack in which the needle can be found at all. */
  lemma EarliestCompletion(h: string, needle: string, n: nat)
    requires needle != [] && Sharpie(h, needle).Accept? && n <= |h|
    ensures WildSubsequence(needle, Visible(h[..n])) <==> n >= |Sharpie(h, needle).marks|
  {
    WalkPrefixes(h, needle, 0, false, n);
    SharpieDecides(h[..n], needle);
  }
}
