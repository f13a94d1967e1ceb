/** For which text lengths the 16-bit table always reuses as many letters as it can. */
module GlyphWrap {
  import opened Prelude
  import opened GlyphMatch

  /** No text pair of these lengths is matched short: the shorter has fewer than 65536
      letters, or is so long that nothing is ever reused, or both have exactly 65536. */
  predicate LengthsSafe(n: nat, m: nat) {
    Min(n, m) < WORD || Min(n, m) > 2 * (WORD - 1) || (n == WORD && m == WORD)
  }

  lemma {:induction false} CellFits(a: string, b: string, i: nat, j: nat)
    requires i <= |a| && j <= |b|
    ensures Cell(a, b, i, j) < WORD
    decreases |a| - i + |b| - j
  {
    if i < |a| && j < |b| && a[i] != b[j] {
      CellFits(a, b, i + 1, j);
      CellFits(a, b, i, j + 1);
    }
  }

  lemma {:induction false} FullLcsIsEqual(a: string, b: string, i: nat, j: nat)
    requires i <= |a| && j <= |b| && |a| - i == |b| - j == Lcs(a, b, i, j)
    ensures a[i..] == b[j..]
    decreases |a| - i
  {
    if i < |a| {
      LcsBounded(a, b, i + 1, j);
      LcsBounded(a, b, i, j + 1);
      FullLcsIsEqual(a, b, i + 1, j + 1);
      assert a[i..] == [a[i]] + a[i + 1..] && b[j..] == [b[j]] + b[j + 1..];
    }
  }

  lemma {:induction false} EqualCells(a: string, i: nat)
    requires i <= |a|
    ensures Cell(a, a, i, i) == (|a| - i) % WORD
    decreases |a| - i
  {
    if i < |a| {
      EqualCells(a, i + 1);
    }
  }

  lemma SafeReusesAll(a: string, b: string)
    requires LengthsSafe(|a|, |b|)
    ensures ReusesAll(a, b)
  {
    LcsBounded(a, b, 0, 0);
    NoneReused(|b|);
    if Lcs(a, b, 0, 0) < WORD {
      ShortReusesAll(a, b);
    } else if Min(|a|, |b|) > 2 * (WORD - 1) {
      CellFits(a, b, 0, 0);
    } else {
      FullLcsIsEqual(a, b, 0, 0);
      assert a == a[0..] == b[0..] == b;
      EqualCells(a, 0);
    }
  }

  // --- Texts the table gets wrong -------------------------------------------------------

  /** `extra` letters of one kind, then 65536 x's. */
  function Tail(letter: char, extra: nat): string {
    seq(extra + WORD, k => if k < extra then letter else 'x')
  }

  lemma {:induction false} TailCells(p: nat, q: nat, i: nat, j: nat)
    requires i <= p + WORD && j <= q + WORD
    ensures
      var a, b := Tail('z', p), Tail('y', q);
      Cell(a, b, i, j) == if i == p && j == q then 0 else Min(Min(p + WORD - i, q + WORD - j), WORD - 1)
    decreases p + WORD - i + q + WORD - j
  {
    var a, b := Tail('z', p), Tail('y', q);
    if i < |a| && j < |b| {
      if a[i] == b[j] {
        TailCells(p, q, i + 1, j + 1);
      } else {
        TailCells(p, q, i + 1, j);
        TailCells(p, q, i, j + 1);
      }
    }
  }

  lemma {:induction false} TailLcs(p: nat, q: nat, i: nat, j: nat)
    requires i <= p + WORD && j <= q + WORD
    ensures Lcs(Tail('z', p), Tail('y', q), i, j) == Min(Min(p + WORD - i, q + WORD - j), WORD)
    decreases p + WORD - i + q + WORD - j
  {
    var a, b := Tail('z', p), Tail('y', q);
    if i < |a| && j < |b| {
      if a[i] == b[j] {
        TailLcs(p, q, i + 1, j + 1);
      } else {
        TailLcs(p, q, i + 1, j);
        TailLcs(p, q, i, j + 1);
      }
    }
  }

  lemma {:induction false} TailRest(p: nat, q: nat, i: nat, j: nat)
    requires p <= i <= p + WORD && q <= j <= q + WORD
    ensures Reused(Walk(Tail('z', p), Tail('y', q), i, j)) == Min(p + WORD - i, q + WORD - j)
    decreases p + WORD - i + q + WORD - j
  {
    if j < q + WORD {
      if i < p + WORD {
        TailRest(p, q, i + 1, j + 1);
      } else {
        TailRest(p, q, i, j + 1);
      }
    }
  }

  /** Where the walk goes: it steps around the one cell that wrapped to 0. */
  predicate OnPath(p: nat, q: nat, i: nat, j: nat) {
    if q > 0 then (i <= p && j == 0) || (i == p + 1 && j <= q)
    else (i < p && j == 0) || (p - 1 <= i <= p && j == 1)
  }

  lemma {:induction false} TailPath(p: nat, q: nat, i: nat, j: nat)
    requires OnPath(p, q, i, j)
    ensures Reused(Walk(Tail('z', p), Tail('y', q), i, j)) == WORD - 1
    decreases p + q + 2 - i - j
  {
    if i >= p && j >= q {
      TailRest(p, q, i, j);
    } else {
      TailCells(p, q, i + 1, j);
      TailCells(p, q, i, j + 1);
      if Cell(Tail('z', p), Tail('y', q), i + 1, j) >= Cell(Tail('z', p), Tail('y', q), i, j + 1) {
        TailPath(p, q, i + 1, j);
      } else {
        TailPath(p, q, i, j + 1);
      }
    }
  }

  lemma UnsafeFails(n: nat, m: nat) returns (a: string, b: string)
    requires !LengthsSafe(n, m)
    ensures |a| == n && |b| == m && !ReusesAll(a, b)
  {
    var p, q := n - WORD, m - WORD;
    a, b := Tail('z', p), Tail('y', q);
    TailCells(p, q, 0, 0);
    TailLcs(p, q, 0, 0);
    TailPath(p, q, 0, 0);
  }

  /** The matcher reuses a longest common subsequence, when it reuses any letters, for
      all texts of given lengths if and only if the lengths are safe. */
  lemma ReusesAllExactly(n: nat, m: nat)
    ensures (forall a: string, b: string | |a| == n && |b| == m :: ReusesAll(a, b)) <==> LengthsSafe(n, m)
  {
    if LengthsSafe(n, m) {
      forall a: string, b: string | |a| == n && |b| == m
        ensures ReusesAll(a, b)
      {
        SafeReusesAll(a, b);
      }
    } else {
      var a, b := UnsafeFails(n, m);
    }
  }
}
