/** Datatypes and helpers for finite sets and sequences shared by the other modules. */
module Prelude {

  datatype Option<+T> = None | Some(value: T) {
    function GetOr(default: T): T {
      match this
      case Some(v) => v
      case None => default
    }
  }

  datatype Result<+T, +E> = Ok(value: T) | Err(error: E)

  /** m is the lowest identifier of ids: the first row of a scan in rowid order. */
  ghost predicate IsLowest(m: nat, ids: set<nat>) {
    m in ids && forall i :: i in ids ==> m <= i
  }

  lemma LowestExists(ids: set<nat>)
    requires ids != {}
    ensures exists m :: IsLowest(m, ids)
  {
    var x :| x in ids;
    var rest := ids - {x};
    if rest == {} {
      forall i | i in ids ensures x <= i { assert i == x || i in rest; }
      assert IsLowest(x, ids);
    } else {
      LowestExists(rest);
      var m :| IsLowest(m, rest);
      var low := if x <= m then x else m;
      forall i | i in ids ensures low <= i { assert i == x || i in rest; }
      assert IsLowest(low, ids);
    }
  }

  ghost function Lowest(ids: set<nat>): (m: nat)
    requires ids != {}
    ensures IsLowest(m, ids)
  {
    LowestExists(ids);
    var m :| IsLowest(m, ids);
    m
  }

  /** The scan that finds it. */
  method ComputeLowest(ids: set<nat>) returns (m: nat)
    requires ids != {}
    ensures m == Lowest(ids)
  {
    m :| m in ids;
    var rest := ids - {m};
    while rest != {}
      invariant rest <= ids && IsLowest(m, ids - rest)
      decreases rest
    {
      var x :| x in rest;
      ghost var before := ids - rest;
      rest := rest - {x};
      assert ids - rest == before + {x};
      if x < m { m := x; }
    }
    assert ids - rest == ids;
  }

  /** id is SQLite's next rowid: one above the highest in use, 1 in an empty table. */
  ghost predicate IsNextRowId(id: nat, ids: set<nat>) {
    id >= 1 && (forall i :: i in ids ==> i < id) && (id == 1 || id - 1 in ids)
  }

  /** The scan that computes the next rowid. */
  method ComputeNextRowId(ids: set<nat>) returns (id: nat)
    ensures id == NextRowId(ids)
  {
    var rest := ids;
    id := 1;
    while rest != {}
      invariant rest <= ids
      invariant IsNextRowId(id, ids - rest)
      decreases rest
    {
      var x :| x in rest;
      ghost var before := ids - rest;
      rest := rest - {x};
      assert ids - rest == before + {x};
      if x >= id { id := x + 1; }
    }
    assert ids - rest == ids;
  }

  lemma NextRowIdExists(ids: set<nat>)
    ensures exists id :: IsNextRowId(id, ids)
  {
    if ids == {} {
      assert IsNextRowId(1, ids);
    } else {
      var x :| x in ids;
      NextRowIdExists(ids - {x});
      var b :| IsNextRowId(b, ids - {x});
      var id := if x < b then b else x + 1;
      forall i | i in ids ensures i < id { assert i == x || i in ids - {x}; }
      assert IsNextRowId(id, ids);
    }
  }

  ghost function NextRowId(ids: set<nat>): (id: nat)
    ensures IsNextRowId(id, ids) && id !in ids
  {
    NextRowIdExists(ids);
    var id :| IsNextRowId(id, ids);
    id
  }

  lemma SubsetOfSameSize<T>(a: set<T>, b: set<T>)
    requires a <= b && |a| == |b|
    ensures a == b
  {
    assert |b - a| == 0 by { assert b == a + (b - a); }
  }

  // Concatenation facts the solver is better told than left to find.

  lemma Regroup<T>(a: seq<T>, b: seq<T>, c: seq<T>)
    ensures (a + b) + c == a + (b + c)
  {
  }

  lemma EmptyFirst<T>(s: seq<T>)
    ensures [] + s == s
  {
  }
}
