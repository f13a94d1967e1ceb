/** The matcher and the rolling digit as the page runs them. */
module GlyphMorph {
  import opened Prelude
  import opened GlyphMatch

  lemma {:induction false} GlyphsSnoc(previous: seq<Glyph>, text: string, picks: seq<Option<nat>>, pick: Option<nat>,
                                      nextKey: nat)
    requires |text| == |picks| + 1
    requires forall k | 0 <= k < |picks| :: picks[k].Some? ==> picks[k].value < |previous|
    requires pick.Some? ==> pick.value < |previous|
    ensures
      var key := nextKey + |picks| - Reused(picks);
      key >= nextKey
      && Glyphs(previous, text, picks + [pick], nextKey)
         == Glyphs(previous, text[..|picks|], picks, nextKey)
            + [if pick.Some? then previous[pick.value] else Glyph(key, text[|picks|])]
      && Reused(picks + [pick]) == Reused(picks) + if pick.Some? then 1 else 0
  {
    if picks != [] {
      var rest := picks[1..];
      assert (picks + [pick])[1..] == rest + [pick];
      assert text[..|picks|][1..] == text[1..][..|rest|];
      GlyphsSnoc(previous, text[1..], rest, pick, if picks[0].Some? then nextKey else nextKey + 1);
    }
  }

  /** Every letter new. */
  method AllFresh(text: string, previous: seq<Glyph>, nextKey: nat) returns (out: seq<Glyph>, key: nat)
    ensures out == Glyphs(previous, text, NoPicks(|text|), nextKey) && key == nextKey + |text|
  {
    out, key := [], nextKey;
    for j := 0 to |text|
      invariant key == nextKey + j && out == Glyphs(previous, text[..j], NoPicks(j), nextKey)
    {
      NoneReused(j);
      GlyphsSnoc(previous, text[..j + 1], NoPicks(j), None, nextKey);
      assert text[..j + 1][..j] == text[..j] && NoPicks(j + 1) == NoPicks(j) + [None];
      out, key := out + [Glyph(key, text[j])], key + 1;
    }
    assert text[..|text|] == text;
  }

  /** Row i of the table is filled. */
  ghost predicate RowFilled(a: string, b: string, dp: array2<nat>, i: nat)
    requires i <= |a| && dp.Length0 == |a| + 1 && dp.Length1 == |b| + 1
    reads dp
  {
    forall j | 0 <= j <= |b| :: dp[i, j] == Cell(a, b, i, j)
  }

  method FillRow(a: string, b: string, dp: array2<nat>, i: nat)
    requires dp.Length0 == |a| + 1 && dp.Length1 == |b| + 1
    requires i < |a| && RowFilled(a, b, dp, i + 1) && dp[i, |b|] == 0
    modifies dp
    ensures RowFilled(a, b, dp, i)
    ensures forall k, l | 0 <= k <= |a| && 0 <= l <= |b| && k != i :: dp[k, l] == old(dp[k, l])
  {
    var j := |b|;
    while j > 0
      invariant 0 <= j <= |b|
      invariant forall l | j <= l <= |b| :: dp[i, l] == Cell(a, b, i, l)
      invariant forall k, l | 0 <= k <= |a| && 0 <= l <= |b| && k != i :: dp[k, l] == old(dp[k, l])
    {
      j := j - 1;
      assert dp[i + 1, j] == Cell(a, b, i + 1, j) && dp[i + 1, j + 1] == Cell(a, b, i + 1, j + 1);
      dp[i, j] := if a[i] == b[j] then (dp[i + 1, j + 1] + 1) % WORD else Max(dp[i + 1, j], dp[i, j + 1]);
    }
  }

  /** Fills the table from the far corner. */
  method FillTable(a: string, b: string) returns (dp: array2<nat>)
    ensures fresh(dp) && dp.Length0 == |a| + 1 && dp.Length1 == |b| + 1
    ensures forall i | 0 <= i <= |a| :: RowFilled(a, b, dp, i)
  {
    dp := new nat[|a| + 1, |b| + 1]((i, j) => 0);
    var i := |a|;
    while i > 0
      invariant 0 <= i <= |a| && fresh(dp) && dp.Length0 == |a| + 1 && dp.Length1 == |b| + 1
      invariant forall k | i <= k <= |a| :: RowFilled(a, b, dp, k)
      invariant forall k | 0 <= k < i :: dp[k, |b|] == 0
    {
      i := i - 1;
      label before:
      FillRow(a, b, dp, i);
      forall k | i < k <= |a|
        ensures RowFilled(a, b, dp, k)
      {
        assert old@before(RowFilled(a, b, dp, k));
      }
    }
  }

  predicate InRange(picks: seq<Option<nat>>, n: nat) {
    forall k | 0 <= k < |picks| :: picks[k].Some? ==> picks[k].value < n
  }

  method WalkTable(previous: seq<Glyph>, text: string, dp: array2<nat>, nextKey: nat)
    returns (out: seq<Glyph>, key: nat)
    requires dp.Length0 == |previous| + 1 && dp.Length1 == |text| + 1
    requires forall i | 0 <= i <= |previous| :: RowFilled(Chars(previous), text, dp, i)
    ensures
      var picks := Walk(Chars(previous), text, 0, 0);
      InRange(picks, |previous|) && out == Glyphs(previous, text, picks, nextKey)
      && key == nextKey + |text| - Reused(picks)
  {
    hide Cell, Reused, Glyphs, Walk;
    var a := Chars(previous);
    var i, j := 0, 0;
    out, key := [], nextKey;
    ghost var done: seq<Option<nat>> := [];
    GlyphsNone(previous, nextKey);
    WalkEnds(a, text);
    while j < |text|
      invariant i <= |a| && j <= |text| && |done| == j && InRange(done, |previous|)
      invariant Walk(a, text, 0, 0) == done + Walk(a, text, i, j)
      invariant out == Glyphs(previous, text[..j], done, nextKey) && key == nextKey + j - Reused(done)
      decreases |a| - i + |text| - j
    {
      ghost var was := done;
      WalkStep(a, text, i, j);
      if i < |a| && a[i] == text[j] {
        out := out + [previous[i]];
        done := done + [Some(i)];
        i, j := i + 1, j + 1;
      } else {
        if i < |a| {
          assert RowFilled(a, text, dp, i) && RowFilled(a, text, dp, i + 1);
          if dp[i + 1, j] >= dp[i, j + 1] {
            i := i + 1;
            continue;
          }
        }
        out, key := out + [Glyph(key, text[j])], key + 1;
        done := done + [None];
        j := j + 1;
      }
      GlyphsSnoc(previous, text[..j], was, done[j - 1], nextKey);
      assert text[..j][..j - 1] == text[..j - 1];
    }
    assert done == Walk(a, text, 0, 0) && text[..j] == text;
  }

  lemma WalkStep(a: string, b: string, i: nat, j: nat)
    requires i <= |a| && j < |b|
    ensures Walk(a, b, i, j) ==
            if i < |a| && a[i] == b[j] then [Some(i)] + Walk(a, b, i + 1, j + 1)
            else if i < |a| && Cell(a, b, i + 1, j) >= Cell(a, b, i, j + 1) then Walk(a, b, i + 1, j)
            else [None] + Walk(a, b, i, j + 1)
  {
  }

  lemma WalkEnds(a: string, b: string)
    ensures forall i: nat | i <= |a| :: Walk(a, b, i, |b|) == []
  {
  }

  lemma GlyphsNone(previous: seq<Glyph>, nextKey: nat)
    ensures Glyphs(previous, "", [], nextKey) == [] && Reused([]) == 0
  {
  }

  method MatchGlyphs(previous: seq<Glyph>, text: string, nextKey: nat) returns (out: seq<Glyph>, key: nat)
    ensures
      var picks := Picks(Chars(previous), text);
      Ascending(Chars(previous), text, 0, 0, picks)
      && out == Glyphs(previous, text, picks, nextKey) && key == nextKey + |text| - Reused(picks)
    ensures Chars(out) == text
  {
    PicksAreCommon(Chars(previous), text);
    GlyphsShowText(previous, text, Picks(Chars(previous), text), nextKey);
    NoneReused(|text|);
    if |previous| == 0 || |text| == 0 {
      out, key := AllFresh(text, previous, nextKey);
      return;
    }
    var dp := FillTable(Chars(previous), text);
    assert RowFilled(Chars(previous), text, dp, 0);
    if 2 * dp[0, 0] < Min(|previous|, |text|) {
      out, key := AllFresh(text, previous, nextKey);
    } else {
      out, key := WalkTable(previous, text, dp, nextKey);
    }
  }

  // --- The rolling digit ---------------------------------------------------------------------

  const SETS: int := 5
  const MIDDLE: int := 20

  /** The remainder of a JavaScript %, which has the sign of its left side. */
  function Rem(x: int, n: nat): int
    requires n > 0
  {
    if x >= 0 then x % n else -((-x) % n)
  }

  /** Math.round(x / 10): halves go up. */
  function RoundTenth(x: int): int {
    (x + 5) / 10
  }

  class Digit {
    var pos: int

    /** The column stays on the strip, with room for a roll either way. */
    ghost predicate Valid()
      reads this
    {
      10 <= pos <= SETS * 10 - 11
    }

    ghost function Showing(): int
      reads this
    {
      pos % 10
    }

    constructor (digit: int)
      requires 0 <= digit <= 9
      ensures Valid() && Showing() == digit
    {
      pos := MIDDLE + digit;
    }

    /** Re-centres after a roll, showing the same digit. */
    method Settle()
      requires Valid()
      modifies this
      ensures Valid() && Showing() == old(Showing()) && MIDDLE <= pos <= MIDDLE + 9
    {
      DigitShown(pos);
      pos := MIDDLE + Rem(Rem(pos, 10) + 10, 10);
    }

    /** Rolls to a digit. `moved` is how far the column travels, in the direction the
        number moved; the jump before it is by whole sets, which look the same. */
    method Roll(next: int, trend: int, reduced: bool) returns (moved: int)
      requires Valid() && 0 <= next <= 9
      modifies this
      ensures Valid() && Showing() == next
      ensures !reduced ==> (pos - old(pos) - moved) % 10 == 0 && -9 <= moved <= 9
      ensures !reduced && trend > 0 ==> moved >= 0
      ensures !reduced && trend < 0 ==> moved <= 0
      ensures !reduced && trend == 0 ==> moved == next - old(Showing())
      ensures old(Showing()) == next ==> pos == old(pos)
    {
      DigitShown(pos);
      hide Rem, RoundTenth;
      var showing := Rem(Rem(pos, 10) + 10, 10);
      if showing == next { return 0; }
      if reduced {
        pos := MIDDLE + next;
        return 0;
      }
      var up := trend > 0 || (trend == 0 && next > showing);
      moved := if up then Rem(next - showing + 10, 10) else -Rem(showing - next + 10, 10);
      var target := pos + moved;
      ghost var sets := Turn(pos, next, moved, up);
      OnSets(sets, next);
      Jump(sets, next);
      OnSets(if next >= 5 then 1 else 2, next);
      SameSets(if next >= 5 then 1 else 2, sets);
      if target < 10 || target > SETS * 10 - 11 {
        var shift := RoundTenth(target - MIDDLE) * 10;
        target := target - shift;
      }
      pos := target;
    }
  }

  lemma DigitShown(pos: int)
    ensures Rem(Rem(pos, 10) + 10, 10) == pos % 10
  {
  }

  /** A turn of the column ends on the digit, less than a set away. */
  lemma Turn(pos: int, next: int, moved: int, up: bool) returns (sets: int)
    requires 10 <= pos <= 39 && 0 <= next <= 9 && next != pos % 10
    requires moved == if up then Rem(next - pos % 10 + 10, 10) else -Rem(pos % 10 - next + 10, 10)
    ensures -9 <= moved <= 9 && (if up then moved > 0 else moved < 0)
    ensures (up == (next > pos % 10)) ==> moved == next - pos % 10
    ensures pos + moved == 10 * sets + next
  {
    var showing := pos % 10;
    assert moved == next - showing + if up == (next > showing) then 0 else if up then 10 else -10;
    sets := pos / 10 + if up == (next > showing) then 0 else if up then 1 else -1;
  }

  /** The rounded jump brings any target back to the middle by whole sets. */
  lemma Jump(sets: int, next: int)
    requires 0 <= next <= 9
    ensures
      var target := 10 * sets + next;
      var shift := RoundTenth(target - MIDDLE) * 10;
      10 <= target - shift <= 39 && target - shift == 10 * (if next >= 5 then 1 else 2) + next
  {
    assert RoundTenth(10 * sets + next - MIDDLE) == sets - 2 + if next >= 5 then 1 else 0;
  }

  lemma OnSets(sets: int, next: int)
    requires 0 <= next <= 9
    ensures (10 * sets + next) % 10 == next
  {
  }

  lemma SameSets(a: int, b: int)
    ensures (10 * a - 10 * b) % 10 == 0
  {
    OnSets(a - b, 0);
  }
}
