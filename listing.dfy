/** The order in which `GET /api/cards` returns rows: `ORDER BY status,
    order_idx`. SQLite compares TEXT with its default BINARY collation, which
    on UTF-8 is the lexicographic order of code points. */
module Listing {
  import opened Model

  /** `a` sorts strictly before `b` under BINARY collation. */
  predicate TextBefore(a: string, b: string)
  {
    if |a| == 0 then |b| > 0
    else if |b| == 0 then false
    else if a[0] != b[0] then a[0] < b[0]
    else TextBefore(a[1..], b[1..])
  }

  lemma {:induction false} TextBeforeTransitive(a: string, b: string, c: string)
    requires TextBefore(a, b) && TextBefore(b, c)
    ensures TextBefore(a, c)
  {
    if |a| > 0 && a[0] == b[0] && b[0] == c[0] {
      TextBeforeTransitive(a[1..], b[1..], c[1..]);
    }
  }

  lemma {:induction false} TextBeforeTotal(a: string, b: string)
    requires a != b
    ensures TextBefore(a, b) || TextBefore(b, a)
  {
    if |a| > 0 && |b| > 0 && a[0] == b[0] {
      assert a == [a[0]] + a[1..] && b == [b[0]] + b[1..];
      TextBeforeTotal(a[1..], b[1..]);
    }
  }

  /** Row `x` may come before row `y`. */
  predicate RowLeq(x: CardView, y: CardView)
  {
    TextBefore(x.status, y.status) || (x.status == y.status && x.orderIdx <= y.orderIdx)
  }

  lemma RowLeqTransitive(x: CardView, y: CardView, z: CardView)
    requires RowLeq(x, y) && RowLeq(y, z)
    ensures RowLeq(x, z)
  {
    if TextBefore(x.status, y.status) && TextBefore(y.status, z.status) {
      TextBeforeTransitive(x.status, y.status, z.status);
    }
  }

  lemma RowLeqTotal(x: CardView, y: CardView)
    ensures RowLeq(x, y) || RowLeq(y, x)
  {
    if x.status != y.status {
      TextBeforeTotal(x.status, y.status);
    }
  }

  predicate Sorted(rows: seq<CardView>)
  {
    forall i, j :: 0 <= i < j < |rows| ==> RowLeq(rows[i], rows[j])
  }

  /** Places `v` into a result sorted so far, before the first row it may
      precede. */
  function Insert(v: CardView, rows: seq<CardView>): (r: seq<CardView>)
    ensures multiset(r) == multiset(rows) + multiset{v}
    decreases |rows|
  {
    if |rows| == 0 then [v]
    else if RowLeq(v, rows[0]) then
      assert rows == [rows[0]] + rows[1..];
      [v] + rows
    else
      assert rows == [rows[0]] + rows[1..];
      [rows[0]] + Insert(v, rows[1..])
  }

  lemma ConsSorted(x: CardView, rows: seq<CardView>)
    requires Sorted(rows)
    requires forall j :: 0 <= j < |rows| ==> RowLeq(x, rows[j])
    ensures Sorted([x] + rows)
  {
    var r := [x] + rows;
    forall i, j | 0 <= i < j < |r| ensures RowLeq(r[i], r[j]) {
      if i > 0 {
        assert r[i] == rows[i - 1] && r[j] == rows[j - 1];
      }
    }
  }

  /** Inserting into a sorted result keeps it sorted. */
  lemma {:induction false} InsertSorted(v: CardView, rows: seq<CardView>)
    requires Sorted(rows)
    ensures Sorted(Insert(v, rows))
    decreases |rows|
  {
    if |rows| == 0 {
    } else if RowLeq(v, rows[0]) {
      forall j | 0 <= j < |rows| ensures RowLeq(v, rows[j]) {
        if j > 0 {
          RowLeqTransitive(v, rows[0], rows[j]);
        }
      }
      ConsSorted(v, rows);
    } else {
      RowLeqTotal(v, rows[0]);
      var tail := rows[1..];
      assert Sorted(tail) by {
        forall i, j | 0 <= i < j < |tail| ensures RowLeq(tail[i], tail[j]) {
          assert tail[i] == rows[i + 1] && tail[j] == rows[j + 1];
        }
      }
      InsertSorted(v, tail);
      var rest := Insert(v, tail);
      forall j | 0 <= j < |rest| ensures RowLeq(rows[0], rest[j]) {
        assert rest[j] in multiset(rest);
        if rest[j] != v {
          assert rest[j] in multiset(tail);
          var k :| 0 <= k < |tail| && tail[k] == rest[j];
          assert rows[k + 1] == rest[j];
        }
      }
      ConsSorted(rows[0], rest);
    }
  }

  /** The rows of the cards with ids in `ids`, as the API returns them. */
  ghost function ViewsOf(t: Table, ids: set<Id>): set<CardView>
  {
    set k | k in ids && k in t :: ToView(k, t[k])
  }
}
