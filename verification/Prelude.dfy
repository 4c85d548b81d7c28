/** Stock datatypes and machine limits shared by the model. */
module Prelude {
  datatype Option<+T> = None | Some(value: T) {
    function GetOr(default: T): T {
      match this
      case Some(v) => v
      case None => default
    }
  }

  /** How an admin request ends. */
  datatype ApiError = BadRequest | NotFound | Conflict

  datatype Outcome<T> = Done(value: T) | Refused(error: ApiError)

  /** The range of the source's `i64`. */
  const I64_MAX: int := 0x7fff_ffff_ffff_ffff
  const I64_MIN: int := -0x8000_0000_0000_0000

  function Max(a: int, b: int): int { if a < b then b else a }

  function Min(a: int, b: int): int { if a < b then a else b }

  lemma Regroup<T>(a: seq<T>, b: seq<T>, c: seq<T>)
    ensures a + (b + c) == (a + b) + c
  {
  }

  lemma Around<T>(s: seq<T>, i: nat)
    requires i < |s|
    ensures s == s[..i] + [s[i]] + s[i + 1..]
  {
  }

  /** The concatenation of a sequence of sequences. */
  function Flatten<T>(xs: seq<seq<T>>): seq<T> {
    if xs == [] then [] else xs[0] + Flatten(xs[1..])
  }

  lemma {:induction false} FlattenSplit<T>(xs: seq<seq<T>>, k: nat)
    requires k <= |xs|
    ensures Flatten(xs) == Flatten(xs[..k]) + Flatten(xs[k..])
  {
    if k == 0 {
      assert xs[..0] == [] && xs[0..] == xs;
    } else {
      FlattenSplit(xs[1..], k - 1);
      assert xs[..k][1..] == xs[1..][..k - 1] && xs[1..][k - 1..] == xs[k..];
    }
  }

  lemma {:induction false} FlattenSnoc<T>(xs: seq<seq<T>>)
    requires xs != []
    ensures Flatten(xs) == Flatten(xs[..|xs| - 1]) + xs[|xs| - 1]
  {
    FlattenSplit(xs, |xs| - 1);
    assert xs[|xs| - 1..] == [xs[|xs| - 1]];
    assert Flatten([xs[|xs| - 1]]) == xs[|xs| - 1];
  }

  /** `n * x` by repeated addition. */
  function Times(n: nat, x: int): (r: int)
    ensures 0 <= x ==> 0 <= r
  {
    if n == 0 then 0 else x + Times(n - 1, x)
  }

  lemma {:induction false} TimesMonotone(j: nat, k: nat, x: int)
    requires j <= k && 0 <= x
    ensures Times(j, x) <= Times(k, x)
  {
    if j < k {
      TimesMonotone(j, k - 1, x);
    }
  }

  lemma {:induction false} Least(s: set<int>, first: int) returns (m: int)
    requires first in s
    ensures m in s && forall x | x in s :: m <= x
  {
    m := first;
    var rest := s - {first};
    if next :| next in rest {
      var n := Least(rest, next);
      m := Min(first, n);
    }
    assert forall x | x in s :: x == first || x in rest;
  }

  lemma {:induction false} WithinRange(s: set<int>, lo: int, n: nat)
    requires forall x | x in s :: lo <= x < lo + n
    ensures |s| <= n
  {
    if n == 0 {
      assert forall x :: x !in s;
    } else {
      WithinRange(s - {lo + n - 1}, lo, n - 1);
    }
  }

  lemma {:induction false} TimesIsProduct(n: nat, x: int)
    ensures Times(n, x) == n * x
  {
    if n > 0 {
      TimesIsProduct(n - 1, x);
      assert n * x == (n - 1) * x + x;
    }
  }
}
