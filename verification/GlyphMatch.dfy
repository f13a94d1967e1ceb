/** Which letters of the shown text a new text keeps: a longest common subsequence,
    found with a table of 16-bit cells. */
module GlyphMatch {
  import opened Prelude

  datatype Glyph = Glyph(key: nat, letter: char)

  /** Cells are 16-bit: 65535 + 1 wraps to 0. */
  const WORD: nat := 0x1_0000

  function Cell(a: string, b: string, i: nat, j: nat): nat
    requires i <= |a| && j <= |b|
    decreases |a| - i + |b| - j
  {
    if i == |a| || j == |b| then 0
    else if a[i] == b[j] then (Cell(a, b, i + 1, j + 1) + 1) % WORD
    else Max(Cell(a, b, i + 1, j), Cell(a, b, i, j + 1))
  }

  /** For each letter of b from j on, the letter of a from i on it reuses, if any. */
  function Walk(a: string, b: string, i: nat, j: nat): (picks: seq<Option<nat>>)
    requires i <= |a| && j <= |b|
    ensures |picks| == |b| - j
    decreases |a| - i + |b| - j
  {
    if j == |b| then []
    else if i < |a| && a[i] == b[j] then [Some(i)] + Walk(a, b, i + 1, j + 1)
    else if i < |a| && Cell(a, b, i + 1, j) >= Cell(a, b, i, j + 1) then Walk(a, b, i + 1, j)
    else [None] + Walk(a, b, i, j + 1)
  }

  function NoPicks(n: nat): seq<Option<nat>> {
    seq(n, i => None)
  }

  /** Two texts with too little in common share nothing. */
  function Picks(a: string, b: string): (picks: seq<Option<nat>>)
    ensures |picks| == |b|
  {
    if a == "" || b == "" || 2 * Cell(a, b, 0, 0) < Min(|a|, |b|) then NoPicks(|b|) else Walk(a, b, 0, 0)
  }

  function Chars(glyphs: seq<Glyph>): string {
    seq(|glyphs|, i requires 0 <= i < |glyphs| => glyphs[i].letter)
  }

  function Reused(picks: seq<Option<nat>>): nat {
    if picks == [] then 0 else (if picks[0].Some? then 1 else 0) + Reused(picks[1..])
  }

  /** The glyphs the picks stand for; new letters take the next keys in turn. */
  function Glyphs(previous: seq<Glyph>, text: string, picks: seq<Option<nat>>, nextKey: nat): seq<Glyph>
    requires |picks| == |text| && forall k | 0 <= k < |picks| :: picks[k].Some? ==> picks[k].value < |previous|
  {
    if picks == [] then []
    else if picks[0].Some? then [previous[picks[0].value]] + Glyphs(previous, text[1..], picks[1..], nextKey)
    else [Glyph(nextKey, text[0])] + Glyphs(previous, text[1..], picks[1..], nextKey + 1)
  }

  // --- What the walk keeps -----------------------------------------------------------

  /** The picks for b from j on: equal letters of a from i on, in increasing order. */
  predicate Ascending(a: string, b: string, i: nat, j: nat, picks: seq<Option<nat>>) {
    && j + |picks| == |b|
    && (forall k | 0 <= k < |picks| :: picks[k].Some? ==> i <= picks[k].value < |a| && a[picks[k].value] == b[j + k])
    && (forall k, l | 0 <= k < l < |picks| :: picks[k].Some? && picks[l].Some? ==> picks[k].value < picks[l].value)
  }

  lemma PickFirst(a: string, b: string, i: nat, j: nat, pick: Option<nat>, rest: seq<Option<nat>>, next: nat)
    requires j < |b| && i <= next && Ascending(a, b, next, j + 1, rest)
    requires pick.Some? ==> i <= pick.value < next <= |a| && a[pick.value] == b[j]
    ensures Ascending(a, b, i, j, [pick] + rest)
  {
    var picks := [pick] + rest;
    assert forall k | 1 <= k < |picks| :: picks[k] == rest[k - 1] && b[j + k] == b[j + 1 + (k - 1)];
  }

  lemma {:induction false} WalkIsCommon(a: string, b: string, i: nat, j: nat)
    requires i <= |a| && j <= |b|
    ensures Ascending(a, b, i, j, Walk(a, b, i, j))
    decreases |a| - i + |b| - j
  {
    if j == |b| {
    } else if i < |a| && a[i] == b[j] {
      WalkIsCommon(a, b, i + 1, j + 1);
      PickFirst(a, b, i, j, Some(i), Walk(a, b, i + 1, j + 1), i + 1);
    } else if i < |a| && Cell(a, b, i + 1, j) >= Cell(a, b, i, j + 1) {
      WalkIsCommon(a, b, i + 1, j);
    } else {
      WalkIsCommon(a, b, i, j + 1);
      PickFirst(a, b, i, j, None, Walk(a, b, i, j + 1), i);
    }
  }

  /** Reused letters match, and keep their order. */
  lemma PicksAreCommon(a: string, b: string)
    ensures Ascending(a, b, 0, 0, Picks(a, b))
  {
    WalkIsCommon(a, b, 0, 0);
  }

  lemma {:induction false} GlyphsShowText(previous: seq<Glyph>, text: string, picks: seq<Option<nat>>, nextKey: nat)
    requires |picks| == |text|
    requires forall k | 0 <= k < |picks| :: picks[k].Some? ==>
        picks[k].value < |previous| && previous[picks[k].value].letter == text[k]
    ensures Chars(Glyphs(previous, text, picks, nextKey)) == text
  {
    if picks != [] {
      var rest, key := picks[1..], if picks[0].Some? then nextKey else nextKey + 1;
      assert forall k | 0 <= k < |rest| :: rest[k] == picks[k + 1];
      GlyphsShowText(previous, text[1..], rest, key);
      var out := Glyphs(previous, text, picks, nextKey);
      assert out[1..] == Glyphs(previous, text[1..], rest, key);
      assert Chars(out) == [out[0].letter] + Chars(out[1..]);
    }
  }

  // --- Longest common subsequences ------------------------------------------------------

  datatype Match = Match(left: nat, right: nat)

  /** Equal letters of a from i on and b from j on, in increasing order on both sides. */
  predicate Common(a: string, b: string, i: nat, j: nat, s: seq<Match>) {
    && (forall k | 0 <= k < |s| :: i <= s[k].left < |a| && j <= s[k].right < |b| && a[s[k].left] == b[s[k].right])
    && (forall k, l | 0 <= k < l < |s| :: s[k].left < s[l].left && s[k].right < s[l].right)
  }

  function Lcs(a: string, b: string, i: nat, j: nat): nat
    requires i <= |a| && j <= |b|
    decreases |a| - i + |b| - j
  {
    if i == |a| || j == |b| then 0
    else if a[i] == b[j] then Lcs(a, b, i + 1, j + 1) + 1
    else Max(Lcs(a, b, i + 1, j), Lcs(a, b, i, j + 1))
  }

  lemma {:induction false} NoLonger(a: string, b: string, i: nat, j: nat, s: seq<Match>)
    requires i <= |a| && j <= |b| && Common(a, b, i, j, s)
    ensures |s| <= Lcs(a, b, i, j)
    decreases |a| - i + |b| - j
  {
    if s == [] { return; }
    var first, rest := s[0], s[1..];
    assert i <= first.left < |a| && j <= first.right < |b|;
    if a[i] == b[j] {
      assert forall k | 0 <= k < |rest| :: rest[k] == s[k + 1];
      NoLonger(a, b, i + 1, j + 1, rest);
    } else if first.left > i {
      NoLonger(a, b, i + 1, j, s);
    } else {
      NoLonger(a, b, i, j + 1, s);
    }
  }

  lemma {:induction false} LongestExists(a: string, b: string, i: nat, j: nat) returns (s: seq<Match>)
    requires i <= |a| && j <= |b|
    ensures Common(a, b, i, j, s) && |s| == Lcs(a, b, i, j)
    decreases |a| - i + |b| - j
  {
    if i == |a| || j == |b| {
      s := [];
    } else if a[i] == b[j] {
      var rest := LongestExists(a, b, i + 1, j + 1);
      s := [Match(i, j)] + rest;
    } else if Lcs(a, b, i + 1, j) >= Lcs(a, b, i, j + 1) {
      s := LongestExists(a, b, i + 1, j);
    } else {
      s := LongestExists(a, b, i, j + 1);
    }
  }

  ghost predicate IsLongest(a: string, b: string, n: nat) {
    && (exists s :: Common(a, b, 0, 0, s) && |s| == n)
    && (forall s :: Common(a, b, 0, 0, s) ==> |s| <= n)
  }

  lemma LcsIsLongest(a: string, b: string)
    ensures forall n: nat :: IsLongest(a, b, n) <==> n == Lcs(a, b, 0, 0)
  {
    var best := LongestExists(a, b, 0, 0);
    forall s | Common(a, b, 0, 0, s)
      ensures |s| <= Lcs(a, b, 0, 0)
    {
      NoLonger(a, b, 0, 0, s);
    }
    assert IsLongest(a, b, |best|);
    forall n: nat | IsLongest(a, b, n)
      ensures n == |best|
    {
      var s :| Common(a, b, 0, 0, s) && |s| == n;
    }
  }

  lemma {:induction false} LcsBounded(a: string, b: string, i: nat, j: nat)
    requires i <= |a| && j <= |b|
    ensures Lcs(a, b, i, j) <= Min(|a| - i, |b| - j)
    decreases |a| - i + |b| - j
  {
    if i == |a| || j == |b| {
    } else if a[i] == b[j] {
      LcsBounded(a, b, i + 1, j + 1);
    } else {
      LcsBounded(a, b, i + 1, j);
      LcsBounded(a, b, i, j + 1);
    }
  }

  /** A cell is exact while it does not have to wrap. */
  lemma {:induction false} CellIsLcs(a: string, b: string, i: nat, j: nat)
    requires i <= |a| && j <= |b| && Lcs(a, b, i, j) < WORD
    ensures Cell(a, b, i, j) == Lcs(a, b, i, j)
    decreases |a| - i + |b| - j
  {
    if i == |a| || j == |b| {
    } else if a[i] == b[j] {
      CellIsLcs(a, b, i + 1, j + 1);
    } else {
      CellIsLcs(a, b, i + 1, j);
      CellIsLcs(a, b, i, j + 1);
    }
  }

  lemma {:induction false} WalkReusesLcs(a: string, b: string, i: nat, j: nat)
    requires i <= |a| && j <= |b| && Lcs(a, b, i, j) < WORD
    ensures Reused(Walk(a, b, i, j)) == Lcs(a, b, i, j)
    decreases |a| - i + |b| - j
  {
    if j == |b| {
    } else if i < |a| && a[i] == b[j] {
      WalkReusesLcs(a, b, i + 1, j + 1);
    } else if i < |a| {
      CellIsLcs(a, b, i + 1, j);
      CellIsLcs(a, b, i, j + 1);
      if Cell(a, b, i + 1, j) >= Cell(a, b, i, j + 1) {
        WalkReusesLcs(a, b, i + 1, j);
      } else {
        WalkReusesLcs(a, b, i, j + 1);
      }
    } else {
      WalkReusesLcs(a, b, i, j + 1);
    }
  }

  lemma {:induction false} NoneReused(n: nat)
    ensures Reused(NoPicks(n)) == 0
  {
    if n > 0 {
      assert NoPicks(n)[1..] == NoPicks(n - 1);
      NoneReused(n - 1);
    }
  }

  /** Whenever letters are reused, as many are as the texts can share. */
  predicate ReusesAll(a: string, b: string) {
    Reused(Picks(a, b)) > 0 ==> Reused(Picks(a, b)) == Lcs(a, b, 0, 0)
  }

  lemma ShortReusesAll(a: string, b: string)
    requires Lcs(a, b, 0, 0) < WORD
    ensures ReusesAll(a, b)
  {
    NoneReused(|b|);
    WalkReusesLcs(a, b, 0, 0);
  }
}
