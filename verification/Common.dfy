/** Small shared vocabulary: optional values, results of a transaction, and the
    `ORDER BY id` listing of a finite set of identifiers. */
module Common {

  datatype Option<+T> = None | Some(value: T)

  /** A transaction either commits a value or rolls back with an error. */
  datatype Result<+T, +E> = Ok(value: T) | Err(error: E) {
    predicate IsFailure() {
      Err?
    }

    function PropagateFailure<U>(): Result<U, E>
      requires Err?
    {
      Err(error)
    }

    function Extract(): T
      requires Ok?
    {
      value
    }
  }

  function Max(a: int, b: int): (m: int)
    ensures m >= a && m >= b && (m == a || m == b)
  {
    if a >= b then a else b
  }

  predicate IsLeast(s: set<nat>, m: nat) {
    m in s && forall x :: x in s ==> m <= x
  }

  lemma LeastExists(s: set<nat>)
    requires s != {}
    ensures exists m :: IsLeast(s, m)
  {
    var y :| y in s;
    var t := s - {y};
    assert s == t + {y};
    if t == {} {
      assert IsLeast(s, y);
    } else {
      LeastExists(t);
      var m :| IsLeast(t, m);
      var k := if m <= y then m else y;
      assert forall x :: x in s ==> x == y || x in t;
      assert IsLeast(s, k);
    }
  }

  /** The smallest member of a non-empty set. */
  function Least(s: set<nat>): (m: nat)
    requires s != {}
    ensures m in s && forall x :: x in s ==> m <= x
  {
    LeastExists(s);
    var m :| IsLeast(s, m);
    m
  }

  /** The members of `s`, each once, in increasing order. */
  function SortedIds(s: set<nat>): (q: seq<nat>)
    ensures |q| == |s|
    ensures forall x :: x in q <==> x in s
    ensures forall i, j :: 0 <= i < j < |q| ==> q[i] < q[j]
    decreases |s|
  {
    if s == {} then
      []
    else
      var m := Least(s);
      [m] + SortedIds(s - {m})
  }

  /** The largest member of a set, 0 for the empty set. */
  function Largest(s: set<nat>): (m: nat)
    ensures forall x :: x in s ==> x <= m
    ensures m == 0 || m in s
    decreases |s|
  {
    if s == {} then
      0
    else
      var least := Least(s);
      var rest := s - {least};
      assert forall x :: x in s ==> x == least || x in rest;
      Max(least, Largest(rest))
  }

  /** No value occurs twice. */
  predicate Distinct<T(==)>(q: seq<T>) {
    forall i, j :: 0 <= i < j < |q| ==> q[i] != q[j]
  }

  /** A duplicate-free list has as many entries as its set of entries. */
  lemma {:induction false} DistinctLength<T>(q: seq<T>)
    requires Distinct(q)
    ensures |set x | x in q| == |q|
  {
    if q == [] {
      assert (set x | x in q) == {};
    } else {
      var front := q[..|q| - 1];
      var last := q[|q| - 1];
      DistinctLength(front);
      assert q == front + [last];
      assert (set x | x in q) == (set x | x in front) + {last};
      assert last !in front;
    }
  }
}
