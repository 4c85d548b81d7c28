/** The two SQL statement forms the services use, over a table in row order. */
module Sql {
  /** SELECT ... WHERE. */
  function SelectWhere<T(!new)>(rows: seq<T>, p: T -> bool): (r: seq<T>)
    ensures forall x :: x in r <==> x in rows && p(x)
  {
    if rows == [] then []
    else if p(rows[0]) then [rows[0]] + SelectWhere(rows[1..], p)
    else SelectWhere(rows[1..], p)
  }

  /** UPDATE ... SET ... WHERE. */
  function UpdateWhere<T>(rows: seq<T>, p: T -> bool, set_: T -> T): (r: seq<T>)
    ensures |r| == |rows| && forall i | 0 <= i < |rows| :: r[i] == if p(rows[i]) then set_(rows[i]) else rows[i]
  {
    seq(|rows|, i requires 0 <= i < |rows| => if p(rows[i]) then set_(rows[i]) else rows[i])
  }

  /** No two rows have the same key. */
  predicate UniqueBy<T(!new)>(rows: seq<T>, key: T -> string) {
    forall i, j {:trigger rows[i], rows[j]} | 0 <= i < j < |rows| :: key(rows[i]) != key(rows[j])
  }

  lemma {:induction false} SelectUnique<T(!new)>(rows: seq<T>, p: T -> bool, key: T -> string)
    requires UniqueBy(rows, key)
    ensures UniqueBy(SelectWhere(rows, p), key)
  {
    if rows != [] {
      var first, others := rows[0], rows[1..];
      SelectUnique(others, p, key);
      var rest := SelectWhere(others, p);
      forall j | 0 <= j < |rest|
        ensures key(first) != key(rest[j])
      {
        assert rest[j] in rest;
        var k :| 0 <= k < |others| && others[k] == rest[j];
        assert rows[k + 1] == others[k];
      }
      var all := SelectWhere(rows, p);
      assert p(first) ==> all[0] == first && forall j | 0 < j < |all| :: all[j] == rest[j - 1];
    }
  }

  lemma SameByKey<T(!new)>(rows: seq<T>, key: T -> string, a: T, b: T)
    requires UniqueBy(rows, key) && a in rows && b in rows && key(a) == key(b)
    ensures a == b
  {
    var i :| 0 <= i < |rows| && rows[i] == a;
    var j :| 0 <= j < |rows| && rows[j] == b;
    assert i == j;
  }

  lemma {:induction false} SelectNone<T(!new)>(rows: seq<T>, p: T -> bool)
    requires forall i | 0 <= i < |rows| :: !p(rows[i])
    ensures SelectWhere(rows, p) == []
  {
    if rows != [] {
      SelectNone(rows[1..], p);
    }
  }

  /** How many rows an UPDATE changed. */
  function Changed<T(==)>(before: seq<T>, after: seq<T>): nat
    requires |before| == |after|
  {
    if before == [] then 0 else (if before[0] != after[0] then 1 else 0) + Changed(before[1..], after[1..])
  }

  /** The rows an UPDATE matches are those it changes, if its SET changes each of them. */
  lemma {:induction false} MatchedAreChanged<T(!new)>(before: seq<T>, after: seq<T>, p: T -> bool)
    requires |before| == |after| && forall i | 0 <= i < |before| :: p(before[i]) <==> before[i] != after[i]
    ensures |SelectWhere(before, p)| == Changed(before, after)
  {
    if before != [] {
      MatchedAreChanged(before[1..], after[1..], p);
    }
  }
}
