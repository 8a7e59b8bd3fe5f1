/** The two shapes of SQL statement the services rely on, executed row by row: an UPDATE of
    the rows a condition selects, and a self-join that asks for one matching pair. */
module Statements {
  import opened Common

  /** What `UPDATE .. SET .. WHERE ..` leaves. */
  function Updated<V>(rows: map<nat, V>, hit: (nat, V) -> bool, change: V -> V): map<nat, V> {
    map k | k in rows :: if hit(k, rows[k]) then change(rows[k]) else rows[k]
  }

  method UpdateRows<V>(rows: map<nat, V>, hit: (nat, V) -> bool, change: V -> V) returns (after: map<nat, V>)
    ensures after == Updated(rows, hit, change)
  {
    var unvisited := rows.Keys;
    after := rows;
    while unvisited != {}
      invariant unvisited <= rows.Keys == after.Keys
      invariant forall k :: k in unvisited ==> after[k] == rows[k]
      invariant forall k :: k in rows && k !in unvisited ==> after[k] == Updated(rows, hit, change)[k]
    {
      var k :| k in unvisited;
      if hit(k, after[k]) {
        after := after[k := change(after[k])];
      }
      unvisited := unvisited - {k};
    }
  }

  /** The same over a table kept in insertion order. */
  method UpdateList<V>(rows: seq<V>, hit: V -> bool, change: V -> V) returns (after: seq<V>)
    ensures |after| == |rows|
    ensures forall i :: 0 <= i < |rows| ==> after[i] == if hit(rows[i]) then change(rows[i]) else rows[i]
  {
    after := rows;
    for i := 0 to |rows|
      invariant |after| == |rows|
      invariant forall j :: 0 <= j < i ==> after[j] == if hit(rows[j]) then change(rows[j]) else rows[j]
      invariant forall j :: i <= j < |rows| ==> after[j] == rows[j]
    {
      if hit(after[i]) {
        after := after[i := change(after[i])];
      }
    }
  }

  function Selected<V>(rows: map<nat, V>, hit: V -> bool): set<nat> {
    set k | k in rows && hit(rows[k])
  }

  /** `SELECT COUNT(*) FROM .. WHERE ..`. */
  method CountRows<V>(rows: map<nat, V>, hit: V -> bool) returns (n: nat)
    ensures n == |Selected(rows, hit)|
  {
    var unvisited, found := rows.Keys, {};
    n := 0;
    while unvisited != {}
      invariant unvisited <= rows.Keys && n == |found|
      invariant found == Selected(rows, hit) - unvisited
    {
      var k :| k in unvisited;
      if hit(rows[k]) {
        n, found := n + 1, found + {k};
      }
      unvisited := unvisited - {k};
    }
    assert found == Selected(rows, hit);
  }

  /** `SELECT .. FROM t a JOIN t b ON .. LIMIT 1`: whether any two rows match. */
  method Join<V>(rows: seq<V>, on: (V, V) -> bool) returns (found: bool)
    ensures found <==> exists i, j :: 0 <= i < |rows| && 0 <= j < |rows| && on(rows[i], rows[j])
  {
    for i := 0 to |rows|
      invariant forall k, j :: 0 <= k < i && 0 <= j < |rows| ==> !on(rows[k], rows[j])
    {
      for j := 0 to |rows|
        invariant forall l :: 0 <= l < j ==> !on(rows[i], rows[l])
      {
        if on(rows[i], rows[j]) {
          return true;
        }
      }
    }
    return false;
  }

  /** The join of a table with itself by its keys. */
  method JoinKeys(keys: set<nat>, on: (nat, nat) -> bool) returns (found: bool)
    ensures found <==> exists a, b :: a in keys && b in keys && on(a, b)
  {
    var rows := SortedIds(keys);
    found := Join(rows, on);
    if a, b :| a in keys && b in keys && on(a, b) {
      var i :| 0 <= i < |rows| && rows[i] == a;
      var j :| 0 <= j < |rows| && rows[j] == b;
      assert on(rows[i], rows[j]);
    }
  }
}
