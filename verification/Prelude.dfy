/** Types and small facts shared by the modules of this project. */
module Prelude {
  datatype Option<+T> = None | Some(value: T)

  type Byte = b: int | 0 <= b < 256

  type Bytes = seq<Byte>

  function Max(a: int, b: int): int {
    if a < b then b else a
  }

  function Min(a: int, b: int): int {
    if a < b then a else b
  }

  /** The parts joined in index order. */
  function Concat(parts: seq<Bytes>): Bytes {
    if parts == [] then [] else Concat(parts[..|parts| - 1]) + parts[|parts| - 1]
  }

  lemma ConcatTake(parts: seq<Bytes>, k: nat)
    requires k < |parts|
    ensures Concat(parts[..k + 1]) == Concat(parts[..k]) + parts[k]
  {
    assert parts[..k + 1][..k] == parts[..k];
  }

  /** The numbers below n, as a set. */
  function Below(n: nat): (s: set<nat>)
    ensures forall i: nat :: i in s <==> i < n
    ensures |s| == n
  {
    if n == 0 then {} else Below(n - 1) + {n - 1}
  }

  lemma SubsetSize<T>(a: set<T>, b: set<T>)
    requires a <= b
    ensures |a| <= |b|
    ensures |a| == |b| ==> a == b
  {
    assert b == a + (b - a);
  }

  method Choose<T>(s: set<T>) returns (x: T)
    requires s != {}
    ensures x in s
  {
    x :| x in s;
  }

  /** One of the requests from a up to b fails. */
  predicate Faulty(fails: nat -> bool, a: nat, b: nat) {
    exists k | a <= k < b :: fails(k)
  }

  lemma FaultyNext(fails: nat -> bool, a: nat, b: nat)
    requires a <= b
    ensures Faulty(fails, a, b + 1) <==> Faulty(fails, a, b) || fails(b)
    ensures !Faulty(fails, a, a)
  {
  }

  lemma FaultyJoins(fails: nat -> bool, a: nat, b: nat)
    requires a <= b
    ensures forall c | c >= b :: Faulty(fails, a, c) <==> Faulty(fails, a, b) || Faulty(fails, b, c)
  {
  }
}
