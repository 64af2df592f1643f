/** Reading a table: the rows of a map from ids to records, in ascending id order,
    and order-preserving selection of rows. */
module Tables {

  datatype Row<T> = Row(id: int, val: T)

  /** The ids that occur in a sequence of rows. */
  function Ids<T>(rows: seq<Row<T>>): set<int> {
    if rows == [] then {} else {rows[0].id} + Ids(rows[1..])
  }

  /** An id of the sequence sits at some position. */
  lemma {:induction false} IdsMember<T>(rows: seq<Row<T>>, k: int)
    requires k in Ids(rows)
    ensures exists i :: 0 <= i < |rows| && rows[i].id == k
  {
    if rows[0].id != k {
      IdsMember(rows[1..], k);
      var i :| 0 <= i < |rows[1..]| && rows[1..][i].id == k;
      assert rows[i + 1].id == k;
    }
  }

  /** Ids strictly increase along the sequence. */
  predicate Increasing<T>(rows: seq<Row<T>>) {
    forall i, j :: 0 <= i < j < |rows| ==> rows[i].id < rows[j].id
  }

  /** Every row agrees with the table. */
  predicate RowsOf<T(==)>(rows: seq<Row<T>>, m: map<int, T>) {
    forall i :: 0 <= i < |rows| ==> rows[i].id in m && m[rows[i].id] == rows[i].val
  }

  /** A set that is not empty has a member. */
  lemma NonEmptyHasMember(s: set<int>)
    requires s != {}
    ensures exists x :: x in s
  {
    if forall x :: x !in s { assert false; }
  }

  /** `k` is the least element of `s`. */
  predicate IsMin(s: set<int>, k: int) {
    k in s && forall j :: j in s ==> k <= j
  }

  /** A non-empty finite set of ints has a least element. */
  lemma {:induction false} MinExists(s: set<int>)
    requires s != {}
    ensures exists k :: IsMin(s, k)
  {
    NonEmptyHasMember(s);
    var x :| x in s;
    var rest := s - {x};
    if rest == {} {
      forall j | j in s ensures x <= j { assert j == x || j in rest; }
      assert IsMin(s, x);
    } else {
      MinExists(rest);
      var m :| IsMin(rest, m);
      var least := if x < m then x else m;
      forall j | j in s ensures least <= j {
        if j != x { assert j in rest; }
      }
      assert IsMin(s, least);
    }
  }

  /** The least id of a non-empty set of ids. */
  function MinOf(s: set<int>): (k: int)
    requires s != {}
    ensures k in s && forall j :: j in s ==> k <= j
  {
    MinExists(s);
    var k :| IsMin(s, k);
    k
  }

  /** The least id's row followed by the rows of the rest of the table are the rows
      of the whole table. */
  lemma ConsRow<T>(m: map<int, T>, k: int, tail: seq<Row<T>>)
    requires k in m && forall j :: j in m ==> k <= j
    requires RowsOf(tail, m - {k}) && Increasing(tail) && Ids(tail) == m.Keys - {k}
    ensures RowsOf([Row(k, m[k])] + tail, m)
    ensures Increasing([Row(k, m[k])] + tail)
    ensures Ids([Row(k, m[k])] + tail) == m.Keys
  {
    var r := [Row(k, m[k])] + tail;
    assert r[1..] == tail;
    assert forall i :: 0 <= i < |tail| ==> tail[i].id in m - {k};
  }

  /** All rows of a table, in ascending id order (the order of a table scan). */
  function Rows<T(==)>(m: map<int, T>): (r: seq<Row<T>>)
    ensures RowsOf(r, m)
    ensures Increasing(r)
    ensures Ids(r) == m.Keys
    decreases |m|
  {
    if m == map[] then []
    else
      var k := MinOf(m.Keys);
      var rest := m - {k};
      assert rest.Keys == m.Keys - {k};
      ConsRow(m, k, Rows(rest));
      [Row(k, m[k])] + Rows(rest)
  }

  /** The rows that satisfy `p`, in their original order. */
  function Select<T(!new,==)>(rows: seq<Row<T>>, p: Row<T> -> bool): (r: seq<Row<T>>)
    ensures forall x :: x in r <==> x in rows && p(x)
    ensures |r| <= |rows|
    ensures Increasing(rows) ==> Increasing(r)
  {
    if rows == [] then []
    else
      var tail := Select(rows[1..], p);
      assert forall x :: x in rows <==> x == rows[0] || x in rows[1..];
      if p(rows[0]) then
        assert Increasing(rows) ==> forall x :: x in tail ==> rows[0].id < x.id by {
          if Increasing(rows) {
            forall x | x in tail ensures rows[0].id < x.id {
              var i :| 0 <= i < |rows[1..]| && rows[1..][i] == x;
              assert rows[i + 1] == x;
            }
          }
        }
        [rows[0]] + tail
      else tail
  }

  /** Selecting from a whole table yields exactly the table's rows that satisfy `p`. */
  lemma {:induction false} SelectRowsExact<T(!new)>(m: map<int, T>, p: Row<T> -> bool)
    ensures forall x :: x in Select(Rows(m), p) <==> x.id in m && m[x.id] == x.val && p(x)
  {
    var rows := Rows(m);
    forall x ensures x in Select(rows, p) <==> x.id in m && m[x.id] == x.val && p(x) {
      if x.id in m && m[x.id] == x.val && p(x) {
        assert x.id in Ids(rows);
        IdsMember(rows, x.id);
        var i :| 0 <= i < |rows| && rows[i].id == x.id;
        assert rows[i] == x;
      }
    }
  }

  /** Selecting with a predicate that always holds keeps every row. */
  lemma {:induction false} SelectAll<T(!new)>(rows: seq<Row<T>>)
    ensures Select(rows, (x: Row<T>) => true) == rows
  {
    if rows != [] {
      SelectAll(rows[1..]);
      assert rows == [rows[0]] + rows[1..];
    }
  }
}
