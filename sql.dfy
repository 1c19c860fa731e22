/**
 * SQL text as data: a fragment of query text together with the values bound to
 * its `?` placeholders, and the two structural facts the search endpoint relies
 * on: one bound value per placeholder, and balanced parentheses.
 */
module Sql {
  import opened Wrappers
  import opened Strings

  /** A value bound to a placeholder: the driver receives strings and numbers. */
  datatype Param = Text(s: string) | Number(n: int)

  /** A piece of query text and the values of its placeholders, in order. */
  datatype Clause = Clause(sql: string, args: seq<Param>)

  const Empty := Clause("", [])

  /** Appending one clause after another: the texts and the value lists concatenate. */
  function Then(a: Clause, b: Clause): (c: Clause)
    ensures |c.args| == |a.args| + |b.args|
  {
    Clause(a.sql + b.sql, a.args + b.args)
  }

  lemma ThenEmpty(c: Clause)
    ensures Then(c, Empty) == c
  {
    assert c.sql + "" == c.sql && c.args + [] == c.args;
  }

  /** Number of `?` placeholders. */
  function Placeholders(s: string): nat {
    Occurrences(s, '?')
  }

  /** The parenthesis depth reached after `s`, starting at depth `d`; `None` when a `)`
      closes more than was opened. */
  function Depth(s: string, d: nat): Option<nat> {
    if s == [] then Some(d)
    else if s[0] == '(' then Depth(s[1..], d + 1)
    else if s[0] == ')' then (if d == 0 then None else Depth(s[1..], d - 1))
    else Depth(s[1..], d)
  }

  predicate Balanced(s: string) {
    Depth(s, 0) == Some(0)
  }

  /** SQL text without placeholders or parentheses. */
  predicate Plain(s: string) {
    forall i :: 0 <= i < |s| ==> s[i] != '?' && s[i] != '(' && s[i] != ')'
  }

  /** A clause is well formed when it binds exactly one value per placeholder and its
      parentheses are balanced. */
  predicate WellFormed(c: Clause) {
    Placeholders(c.sql) == |c.args| && Balanced(c.sql)
  }

  /** Once `a` has taken depth `d` to `e`, the rest of the text continues from `e`. */
  lemma {:induction false} DepthThen(a: string, b: string, d: nat, e: nat)
    requires Depth(a, d) == Some(e)
    ensures Depth(a + b, d) == Depth(b, e)
  {
    if a == [] {
      assert a + b == b;
    } else {
      assert (a + b)[0] == a[0] && (a + b)[1..] == a[1..] + b;
      if a[0] == '(' {
        DepthThen(a[1..], b, d + 1, e);
      } else if a[0] == ')' {
        DepthThen(a[1..], b, d - 1, e);
      } else {
        DepthThen(a[1..], b, d, e);
      }
    }
  }

  lemma DepthParens(d: nat)
    ensures Depth("(", d) == Some(d + 1) && Depth(")", d + 1) == Some(d) && Depth("?", d) == Some(d)
  {
    assert "("[1..] == [] && ")"[1..] == [] && "?"[1..] == [];
  }

  /** Text without placeholders and parentheses changes neither count. */
  lemma {:induction false} PlainFacts(s: string, d: nat)
    requires Plain(s)
    ensures Placeholders(s) == 0 && Depth(s, d) == Some(d)
  {
    OccurrencesAbsent(s, '?');
    if s != [] {
      assert Plain(s[1..]) by { assert forall i :: 0 <= i < |s| - 1 ==> s[1..][i] == s[i + 1]; }
      PlainFacts(s[1..], d);
    }
  }

  lemma PlainConcat(a: string, b: string)
    requires Plain(a) && Plain(b)
    ensures Plain(a + b)
  {
    assert forall i :: 0 <= i < |a + b| ==> (a + b)[i] == if i < |a| then a[i] else b[i - |a|];
  }

  lemma PlaceholdersConcat(a: string, b: string)
    ensures Placeholders(a + b) == Placeholders(a) + Placeholders(b)
  {
    OccurrencesConcat(a, b, '?');
  }

  /** Balanced text followed by balanced text is balanced. */
  lemma BalancedConcat(a: string, b: string)
    requires Balanced(a) && Balanced(b)
    ensures Balanced(a + b)
  {
    DepthThen(a, b, 0, 0);
  }

  /** Well-formed clauses stay well formed when appended. */
  lemma ThenWellFormed(a: Clause, b: Clause)
    requires WellFormed(a) && WellFormed(b)
    ensures WellFormed(Then(a, b))
  {
    PlaceholdersConcat(a.sql, b.sql);
    BalancedConcat(a.sql, b.sql);
  }

  /** A clause of one placeholder and one value, `sql` being `prefix?` for a balanced
      prefix without placeholders. */
  lemma HoleClause(prefix: string, v: Param)
    requires Placeholders(prefix) == 0 && Balanced(prefix)
    ensures WellFormed(Clause(prefix + "?", [v]))
  {
    PlaceholdersConcat(prefix, "?");
    DepthParens(0);
    DepthThen(prefix, "?", 0, 0);
  }

  lemma PlainHoleClause(prefix: string, v: Param)
    requires Plain(prefix)
    ensures WellFormed(Clause(prefix + "?", [v]))
  {
    PlainFacts(prefix, 0);
    HoleClause(prefix, v);
  }

  /** `c` begins with `a`: its text and its parameters. */
  predicate Extends(c: Clause, a: Clause) {
    |a.sql| <= |c.sql| && c.sql[..|a.sql|] == a.sql && |a.args| <= |c.args| && c.args[..|a.args|] == a.args
  }

  lemma ThenExtends(a: Clause, b: Clause, c: Clause)
    requires Extends(a, c)
    ensures Extends(Then(a, b), c)
  {
    assert (a.sql + b.sql)[..|a.sql|] == a.sql;
    assert (a.args + b.args)[..|a.args|] == a.args;
  }
}
