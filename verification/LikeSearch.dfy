/** Searching usernames for a literal text with an escaped, case-insensitive LIKE. */
module LikeSearch {
  const ESCAPE: char := '\\'

  predicate Meta(c: char) {
    c == '%' || c == '_' || c == ESCAPE
  }

  /** SQL's LIKE with the escape character. A pattern that ends in a lone escape
      matches nothing here; the database refuses it. */
  predicate Like(pattern: string, s: string)
    decreases |pattern| + |s|
  {
    if pattern == "" then s == ""
    else if pattern[0] == '%' then Like(pattern[1..], s) || (s != "" && Like(pattern, s[1..]))
    else if pattern[0] == ESCAPE then
      |pattern| >= 2 && s != "" && s[0] == pattern[1] && Like(pattern[2..], s[1..])
    else s != "" && (pattern[0] == '_' || pattern[0] == s[0]) && Like(pattern[1..], s[1..])
  }

  /** likeEscaper: an escape before each character LIKE would interpret. */
  function Escaped(q: string): string {
    if q == "" then ""
    else (if Meta(q[0]) then [ESCAPE, q[0]] else [q[0]]) + Escaped(q[1..])
  }

  function Folded(fold: char -> char, s: string): string {
    seq(|s|, i requires 0 <= i < |s| => fold(s[i]))
  }

  /** Folding case neither makes nor unmakes a LIKE metacharacter. */
  ghost predicate KeepsMeta(fold: char -> char) {
    forall c :: (Meta(c) ==> fold(c) == c) && (Meta(fold(c)) ==> Meta(c))
  }

  /** ILIKE folds both sides. */
  predicate ILike(fold: char -> char, pattern: string, s: string) {
    Like(Folded(fold, pattern), Folded(fold, s))
  }

  predicate PartAt(s: string, part: string, i: nat) {
    i + |part| <= |s| && s[i..i + |part|] == part
  }

  predicate Contains(s: string, part: string) {
    exists i | 0 <= i <= |s| :: PartAt(s, part, i)
  }

  lemma {:induction false} EscapedIsLiteral(q: string, rest: string, s: string)
    ensures Like(Escaped(q) + rest, s) <==> |q| <= |s| && s[..|q|] == q && Like(rest, s[|q|..])
  {
    if q == "" {
      assert Escaped(q) + rest == rest && s[0..] == s;
    } else {
      var pattern := Escaped(q) + rest;
      assert pattern[if Meta(q[0]) then 2 else 1..] == Escaped(q[1..]) + rest;
      if s != "" {
        EscapedIsLiteral(q[1..], rest, s[1..]);
        if |q| <= |s| {
          assert s[..|q|] == [s[0]] + s[1..][..|q| - 1] && q == [q[0]] + q[1..];
          assert s[1..][|q| - 1..] == s[|q|..];
        }
      }
    }
  }

  lemma {:induction false} PercentSkips(pattern: string, s: string)
    ensures Like("%" + pattern, s) <==> exists i | 0 <= i <= |s| :: Like(pattern, s[i..])
    decreases |s|
  {
    assert ("%" + pattern)[1..] == pattern && s[0..] == s;
    if s != "" {
      PercentSkips(pattern, s[1..]);
      assert forall i | 1 <= i <= |s| :: s[i..] == s[1..][i - 1..];
      if i :| 0 <= i <= |s| - 1 && Like(pattern, s[1..][i..]) {
        assert s[i + 1..] == s[1..][i..];
      }
    }
  }

  lemma {:induction false} PercentMatchesAll(s: string)
    ensures Like("%", s)
    decreases |s|
  {
    if s != "" {
      PercentMatchesAll(s[1..]);
    }
  }

  lemma {:induction false} FoldingEscaped(fold: char -> char, q: string)
    requires KeepsMeta(fold)
    ensures Folded(fold, Escaped(q)) == Escaped(Folded(fold, q))
  {
    if q != "" {
      FoldingEscaped(fold, q[1..]);
      assert Folded(fold, q)[1..] == Folded(fold, q[1..]);
      assert Meta(ESCAPE) && (Meta(q[0]) ==> fold(q[0]) == q[0]);
      assert Meta(fold(q[0])) <==> Meta(q[0]);
      var head := if Meta(q[0]) then [ESCAPE, q[0]] else [q[0]];
      assert Folded(fold, Escaped(q)) == Folded(fold, head) + Folded(fold, Escaped(q[1..]));
    }
  }

  /** SearchUsersByUsername finds exactly the names that contain the query as plain
      text, case folded, whatever characters the query has. */
  lemma SearchIsLiteral(fold: char -> char, query: string, name: string)
    requires KeepsMeta(fold)
    ensures ILike(fold, "%" + Escaped(query) + "%", name) <==> Contains(Folded(fold, name), Folded(fold, query))
  {
    var s, q := Folded(fold, name), Folded(fold, query);
    FoldingEscaped(fold, query);
    hide Like, Escaped;
    assert Meta('%');
    assert Folded(fold, "%" + Escaped(query) + "%") == "%" + (Escaped(q) + "%");
    PercentSkips(Escaped(q) + "%", s);
    forall i | 0 <= i <= |s|
      ensures Like(Escaped(q) + "%", s[i..]) <==> PartAt(s, q, i)
    {
      FoundHere(q, s, i);
    }
  }

  lemma FoundHere(q: string, s: string, i: nat)
    requires i <= |s|
    ensures Like(Escaped(q) + "%", s[i..]) <==> PartAt(s, q, i)
  {
    EscapedIsLiteral(q, "%", s[i..]);
    if i + |q| <= |s| {
      PercentMatchesAll(s[i..][|q|..]);
      assert s[i..][..|q|] == s[i..i + |q|];
    }
  }
}
