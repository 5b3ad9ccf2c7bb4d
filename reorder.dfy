/** `POST /api/reorder`: what the table becomes when a client submits, per
    column key, the ids in the order it now shows them. */
module Reordering {
  import opened Model

  /** The `orders` object: column keys with their id lists, in payload order. */
  type Orders = seq<(Status, seq<Id>)>

  /** A reorder body: the `orders` form, or the older `column`/`order` pair. */
  datatype Payload = Payload(orders: Option<Orders>, column: Option<Status>, order: Option<seq<Id>>)

  /** Every id of the request, column after column. */
  function AllIds(orders: Orders): seq<Id>
  {
    if |orders| == 0 then []
    else AllIds(orders[..|orders| - 1]) + orders[|orders| - 1].1
  }

  predicate Distinct(ids: seq<Id>)
  {
    forall i, j :: 0 <= i < j < |ids| ==> ids[i] != ids[j]
  }

  /** Status of every requested id found in the table, read once before any
      column is processed. */
  function Snapshot(t: Table, ids: seq<Id>): map<Id, Status>
  {
    map cid | cid in ids && cid in t :: t[cid].status
  }

  /** The snapshot says `cid` was already in column `key`; an id missing from
      the table never is. */
  predicate WasIn(rows: map<Id, Status>, key: Status, cid: Id)
  {
    cid in rows && rows[cid] == key
  }

  /** The listed ids that were already in the column, in list order. */
  function Existing(rows: map<Id, Status>, key: Status, ids: seq<Id>): (ex: seq<Id>)
    ensures forall x :: x in ex <==> x in ids && WasIn(rows, key, x)
    ensures Distinct(ids) ==> Distinct(ex)
  {
    if |ids| == 0 then []
    else
      var rest := Existing(rows, key, ids[1..]);
      assert forall x :: x in ids <==> x == ids[0] || x in ids[1..];
      if WasIn(rows, key, ids[0]) then [ids[0]] + rest else rest
  }

  /** The listed ids that move into the column (unknown ids included), in
      list order. */
  function MovedHere(rows: map<Id, Status>, key: Status, ids: seq<Id>): (mv: seq<Id>)
    ensures forall x :: x in mv <==> x in ids && !WasIn(rows, key, x)
    ensures Distinct(ids) ==> Distinct(mv)
  {
    if |ids| == 0 then []
    else
      var rest := MovedHere(rows, key, ids[1..]);
      assert forall x :: x in ids <==> x == ids[0] || x in ids[1..];
      if WasIn(rows, key, ids[0]) then rest else [ids[0]] + rest
  }

  /** `UPDATE cards SET status = key, order_idx = idx WHERE id = cid`. */
  function Place(t: Table, cid: Id, key: Status, idx: int): Table
  {
    if cid in t then t[cid := t[cid].(status := key, orderIdx := idx)] else t
  }

  /** One UPDATE per id of `ids`, with consecutive indices from `start`. */
  function PlaceFrom(t: Table, key: Status, ids: seq<Id>, start: int): Table
  {
    if |ids| == 0 then t
    else Place(PlaceFrom(t, key, ids[..|ids| - 1], start), ids[|ids| - 1], key, start + |ids| - 1)
  }

  /** Where the moved-in ids start: after the renumbered existing ids and
      after the column's current maximum. */
  ghost function AppendStart(live: Table, key: Status, existingCount: nat): int
  {
    Max(existingCount + 1, ColumnMax(live, key) + 1)
  }

  /** One column of the request. */
  ghost function ProcessColumn(rows: map<Id, Status>, t: Table, key: Status, ids: seq<Id>): Table
  {
    var ex := Existing(rows, key, ids);
    var live := PlaceFrom(t, key, ex, 1);
    PlaceFrom(live, key, MovedHere(rows, key, ids), AppendStart(live, key, |ex|))
  }

  /** The columns one after the other, each seeing the previous ones' writes. */
  ghost function ProcessColumns(rows: map<Id, Status>, t: Table, orders: Orders): Table
  {
    if |orders| == 0 then t
    else
      var last := orders[|orders| - 1];
      ProcessColumn(rows, ProcessColumns(rows, t, orders[..|orders| - 1]), last.0, last.1)
  }

  /** `process_orders`. */
  ghost function Apply(t: Table, orders: Orders): Table
  {
    var all := AllIds(orders);
    if |all| == 0 then t else ProcessColumns(Snapshot(t, all), t, orders)
  }

  /** The table as column `i` sees it when it reads the column maximum: after
      the earlier columns and after its own existing ids were renumbered. */
  ghost function LiveAt(t: Table, orders: Orders, i: nat): Table
    requires i < |orders|
  {
    var rows := Snapshot(t, AllIds(orders));
    var ex := Existing(rows, orders[i].0, orders[i].1);
    PlaceFrom(ProcessColumns(rows, t, orders[..i]), orders[i].0, ex, 1)
  }

  /** SQLite's limit on the host parameters of one statement
      (`SQLITE_MAX_VARIABLE_NUMBER`, 32766 since SQLite 3.32). */
  const MaxVariables: nat := 32766

  /** Every index a run of `n` UPDATEs from `start` binds is a SQLite INTEGER. */
  predicate RunFits(start: int, n: nat)
  {
    n == 0 || (FitsInteger(start) && FitsInteger(start + n - 1))
  }

  /** Some UPDATE of the column binds an index outside the INTEGER range and
      raises, either while renumbering the existing ids or while appending. */
  ghost predicate ColumnFails(rows: map<Id, Status>, t: Table, key: Status, ids: seq<Id>)
  {
    var ex := Existing(rows, key, ids);
    var live := PlaceFrom(t, key, ex, 1);
    !RunFits(1, |ex|) || !RunFits(AppendStart(live, key, |ex|), |MovedHere(rows, key, ids)|)
  }

  /** Some column of `orders`, seeing the earlier ones' writes, raises. */
  ghost predicate ColumnsFail(rows: map<Id, Status>, t: Table, orders: Orders)
  {
    if |orders| == 0 then false
    else
      var front := orders[..|orders| - 1];
      var last := orders[|orders| - 1];
      ColumnsFail(rows, t, front) || ColumnFails(rows, ProcessColumns(rows, t, front), last.0, last.1)
  }

  /** `process_orders` raises: the status query names more ids than one
      statement may bind, or some UPDATE overflows. The request then fails
      with 500 and none of its UPDATEs is committed. */
  ghost predicate Fails(t: Table, orders: Orders)
  {
    var all := AllIds(orders);
    |all| > 0 && (|all| > MaxVariables || ColumnsFail(Snapshot(t, all), t, orders))
  }

  // ---------------------------------------------------------------------
  // Facts about the UPDATE sequences

  lemma {:induction false} PlaceFromKeys(t: Table, key: Status, ids: seq<Id>, start: int)
    ensures PlaceFrom(t, key, ids, start).Keys == t.Keys
  {
    if |ids| > 0 {
      PlaceFromKeys(t, key, ids[..|ids| - 1], start);
    }
  }

  lemma {:induction false} PlaceFromOutside(t: Table, key: Status, ids: seq<Id>, start: int, cid: Id)
    requires cid in t && cid !in ids
    ensures cid in PlaceFrom(t, key, ids, start)
    ensures PlaceFrom(t, key, ids, start)[cid] == t[cid]
  {
    if |ids| > 0 {
      assert cid !in ids[..|ids| - 1];
      PlaceFromOutside(t, key, ids[..|ids| - 1], start, cid);
    }
  }

  lemma {:induction false} PlaceFromAt(t: Table, key: Status, ids: seq<Id>, start: int, j: nat)
    requires Distinct(ids) && j < |ids| && ids[j] in t
    ensures ids[j] in PlaceFrom(t, key, ids, start)
    ensures PlaceFrom(t, key, ids, start)[ids[j]] == t[ids[j]].(status := key, orderIdx := start + j)
  {
    var n := |ids|;
    var front := ids[..n - 1];
    PlaceFromKeys(t, key, front, start);
    if j < n - 1 {
      assert front[j] == ids[j];
      PlaceFromAt(t, key, front, start, j);
    } else {
      assert ids[j] !in front;
      PlaceFromOutside(t, key, front, start, ids[j]);
    }
  }

  // ---------------------------------------------------------------------
  // Facts about columns

  lemma ProcessColumnKeys(rows: map<Id, Status>, t: Table, key: Status, ids: seq<Id>)
    ensures ProcessColumn(rows, t, key, ids).Keys == t.Keys
  {
    var ex := Existing(rows, key, ids);
    var live := PlaceFrom(t, key, ex, 1);
    PlaceFromKeys(t, key, ex, 1);
    PlaceFromKeys(live, key, MovedHere(rows, key, ids), AppendStart(live, key, |ex|));
  }

  lemma ProcessColumnOutside(rows: map<Id, Status>, t: Table, key: Status, ids: seq<Id>, cid: Id)
    requires cid in t && cid !in ids
    ensures cid in ProcessColumn(rows, t, key, ids)
    ensures ProcessColumn(rows, t, key, ids)[cid] == t[cid]
  {
    var ex := Existing(rows, key, ids);
    var live := PlaceFrom(t, key, ex, 1);
    PlaceFromOutside(t, key, ex, 1, cid);
    PlaceFromOutside(live, key, MovedHere(rows, key, ids), AppendStart(live, key, |ex|), cid);
  }

  lemma {:induction false} ProcessColumnsKeys(rows: map<Id, Status>, t: Table, orders: Orders)
    ensures ProcessColumns(rows, t, orders).Keys == t.Keys
  {
    if |orders| > 0 {
      var last := orders[|orders| - 1];
      ProcessColumnsKeys(rows, t, orders[..|orders| - 1]);
      ProcessColumnKeys(rows, ProcessColumns(rows, t, orders[..|orders| - 1]), last.0, last.1);
    }
  }

  lemma {:induction false} ProcessColumnsOutside(rows: map<Id, Status>, t: Table, orders: Orders, cid: Id)
    requires cid in t && cid !in AllIds(orders)
    ensures cid in ProcessColumns(rows, t, orders)
    ensures ProcessColumns(rows, t, orders)[cid] == t[cid]
  {
    if |orders| > 0 {
      var front := orders[..|orders| - 1];
      var last := orders[|orders| - 1];
      ProcessColumnsOutside(rows, t, front, cid);
      ProcessColumnOutside(rows, ProcessColumns(rows, t, front), last.0, last.1, cid);
    }
  }

  /** The ids after column `i` are those after it up to the last column,
      then the last column's. */
  lemma AllIdsAfterSplit(orders: Orders, i: nat)
    requires i + 1 < |orders|
    ensures AllIds(orders[i + 1..]) == AllIds(orders[..|orders| - 1][i + 1..]) + orders[|orders| - 1].1
  {
    var tail := orders[i + 1..];
    var n := |tail|;
    assert tail[..n - 1] == orders[..|orders| - 1][i + 1..];
    assert tail[n - 1] == orders[|orders| - 1];
  }

  /** A card listed in column `i` only is settled once column `i` is done. */
  lemma {:induction false} ProcessColumnsSettled(rows: map<Id, Status>, t: Table, orders: Orders, i: nat, cid: Id)
    requires i < |orders|
    requires cid in ProcessColumns(rows, t, orders[..i + 1])
    requires cid !in AllIds(orders[i + 1..])
    ensures cid in ProcessColumns(rows, t, orders)
    ensures ProcessColumns(rows, t, orders)[cid] == ProcessColumns(rows, t, orders[..i + 1])[cid]
  {
    var n := |orders|;
    if n == i + 1 {
      assert orders[..i + 1] == orders;
    } else {
      var front := orders[..n - 1];
      var last := orders[n - 1];
      assert front[..i + 1] == orders[..i + 1];
      AllIdsAfterSplit(orders, i);
      ProcessColumnsSettled(rows, t, front, i, cid);
      ProcessColumnOutside(rows, ProcessColumns(rows, t, front), last.0, last.1, cid);
    }
  }

  lemma {:induction false} AllIdsSplit(a: Orders, b: Orders)
    ensures AllIds(a + b) == AllIds(a) + AllIds(b)
  {
    if |b| > 0 {
      var n := |b|;
      assert (a + b)[..|a + b| - 1] == a + b[..n - 1];
      AllIdsSplit(a, b[..n - 1]);
    } else {
      assert a + b == a;
    }
  }

  /** The request's ids are those before column `i`, then column `i`'s, then
      those after it. */
  lemma AllIdsAround(orders: Orders, i: nat)
    requires i < |orders|
    ensures AllIds(orders) == AllIds(orders[..i]) + orders[i].1 + AllIds(orders[i + 1..])
  {
    AllIdsSplitAt(orders, i + 1);
    AllIdsPrefix(orders, i);
  }

  /** The request's ids are those before position `k`, then those from it. */
  lemma AllIdsSplitAt(orders: Orders, k: nat)
    requires k <= |orders|
    ensures AllIds(orders) == AllIds(orders[..k]) + AllIds(orders[k..])
  {
    assert orders[..k] + orders[k..] == orders;
    AllIdsSplit(orders[..k], orders[k..]);
  }

  /** Extending a prefix of the request by one column adds that column's ids. */
  lemma AllIdsPrefix(orders: Orders, i: nat)
    requires i < |orders|
    ensures AllIds(orders[..i + 1]) == AllIds(orders[..i]) + orders[i].1
  {
    var pre := orders[..i + 1];
    assert pre[..|pre| - 1] == orders[..i];
  }

  lemma DistinctMiddle(a: seq<Id>, b: seq<Id>, c: seq<Id>, x: Id)
    requires Distinct(a + b + c) && x in b
    ensures Distinct(b) && x !in a && x !in c
  {
    var all := a + b + c;
    forall p, q | 0 <= p < q < |b| ensures b[p] != b[q] {
      assert all[|a| + p] == b[p] && all[|a| + q] == b[q];
    }
    var k :| 0 <= k < |b| && b[k] == x;
    assert all[|a| + k] == x;
    assert forall p :: 0 <= p < |a| ==> all[p] == a[p];
    assert forall p :: 0 <= p < |c| ==> all[|a| + |b| + p] == c[p];
  }

  /** The ids of column `i` are disjoint from the ids before and after it. */
  lemma ColumnIsolated(orders: Orders, i: nat, cid: Id)
    requires Distinct(AllIds(orders)) && i < |orders| && cid in orders[i].1
    ensures cid in AllIds(orders)
    ensures cid !in AllIds(orders[..i])
    ensures cid !in AllIds(orders[i + 1..])
    ensures Distinct(orders[i].1)
  {
    AllIdsAround(orders, i);
    DistinctMiddle(AllIds(orders[..i]), orders[i].1, AllIds(orders[i + 1..]), cid);
  }

  /** Column `i` applied to the table the earlier columns left. */
  lemma ColumnStep(rows: map<Id, Status>, t: Table, orders: Orders, i: nat)
    requires i < |orders|
    ensures ProcessColumns(rows, t, orders[..i + 1])
         == ProcessColumn(rows, ProcessColumns(rows, t, orders[..i]), orders[i].0, orders[i].1)
  {
    assert orders[..i + 1][..i] == orders[..i];
  }

  /** A failure in the first `k` columns is a failure of the request. */
  lemma {:induction false} ColumnsFailExtend(rows: map<Id, Status>, t: Table, orders: Orders, k: nat)
    requires k <= |orders| && ColumnsFail(rows, t, orders[..k])
    ensures ColumnsFail(rows, t, orders)
    decreases |orders| - k
  {
    if k == |orders| {
      assert orders[..k] == orders;
    } else {
      var front := orders[..|orders| - 1];
      assert front[..k] == orders[..k];
      ColumnsFailExtend(rows, t, front, k);
    }
  }

  lemma {:induction false} PlaceFromFits(t: Table, key: Status, ids: seq<Id>, start: int)
    requires IndicesFit(t) && RunFits(start, |ids|)
    ensures IndicesFit(PlaceFrom(t, key, ids, start))
  {
    if |ids| > 0 {
      PlaceFromFits(t, key, ids[..|ids| - 1], start);
    }
  }

  lemma ProcessColumnFits(rows: map<Id, Status>, t: Table, key: Status, ids: seq<Id>)
    requires IndicesFit(t) && !ColumnFails(rows, t, key, ids)
    ensures IndicesFit(ProcessColumn(rows, t, key, ids))
  {
    var ex := Existing(rows, key, ids);
    var live := PlaceFrom(t, key, ex, 1);
    PlaceFromFits(t, key, ex, 1);
    PlaceFromFits(live, key, MovedHere(rows, key, ids), AppendStart(live, key, |ex|));
  }

  lemma {:induction false} ProcessColumnsFits(rows: map<Id, Status>, t: Table, orders: Orders)
    requires IndicesFit(t) && !ColumnsFail(rows, t, orders)
    ensures IndicesFit(ProcessColumns(rows, t, orders))
  {
    if |orders| > 0 {
      var front := orders[..|orders| - 1];
      var last := orders[|orders| - 1];
      ProcessColumnsFits(rows, t, front);
      ProcessColumnFits(rows, ProcessColumns(rows, t, front), last.0, last.1);
    }
  }

  // ---------------------------------------------------------------------
  // What a reorder request promises

  /** No card is created or removed: unknown ids stay unknown. */
  lemma ApplyKeepsIds(t: Table, orders: Orders)
    ensures Apply(t, orders).Keys == t.Keys
  {
    var all := AllIds(orders);
    if |all| > 0 {
      ProcessColumnsKeys(Snapshot(t, all), t, orders);
    }
  }

  /** A card listed in no column is left exactly as it was. */
  lemma ApplyKeepsUnlisted(t: Table, orders: Orders, cid: Id)
    requires cid in t && cid !in AllIds(orders)
    ensures cid in Apply(t, orders) && Apply(t, orders)[cid] == t[cid]
  {
    var all := AllIds(orders);
    if |all| > 0 {
      ProcessColumnsOutside(Snapshot(t, all), t, orders, cid);
    }
  }

  /** A request that does not fail leaves every order index a SQLite
      INTEGER, so the next request can bind it again. */
  lemma ApplyFits(t: Table, orders: Orders)
    requires IndicesFit(t) && !Fails(t, orders)
    ensures IndicesFit(Apply(t, orders))
  {
    var all := AllIds(orders);
    if |all| > 0 {
      ProcessColumnsFits(Snapshot(t, all), t, orders);
    }
  }

  /** Processing columns whose lists are all empty changes nothing, so the
      early return for an empty request is only a shortcut. */
  lemma {:induction false} EmptyOrdersChangeNothing(rows: map<Id, Status>, t: Table, orders: Orders)
    requires AllIds(orders) == []
    ensures ProcessColumns(rows, t, orders) == t
  {
    if |orders| > 0 {
      var front := orders[..|orders| - 1];
      assert AllIds(front) == [] && orders[|orders| - 1].1 == [];
      EmptyOrdersChangeNothing(rows, t, front);
    }
  }

  /** An id that already had status `key` before the request and is listed
      under `key` gets that status and, as `order_idx`, its 1-based position
      among such ids of the list; its other columns are untouched. */
  lemma ApplyExisting(t: Table, orders: Orders, i: nat, j: nat)
    requires Distinct(AllIds(orders)) && i < |orders|
    requires j < |Existing(Snapshot(t, AllIds(orders)), orders[i].0, orders[i].1)|
    ensures var cid := Existing(Snapshot(t, AllIds(orders)), orders[i].0, orders[i].1)[j];
      && cid in t && t[cid].status == orders[i].0
      && cid in Apply(t, orders)
      && Apply(t, orders)[cid] == t[cid].(orderIdx := j + 1)
  {
    var all := AllIds(orders);
    var rows := Snapshot(t, all);
    var key, ids := orders[i].0, orders[i].1;
    var ex := Existing(rows, key, ids);
    var cid := ex[j];
    assert cid in ex;
    ColumnIsolated(orders, i, cid);
    var before := ProcessColumns(rows, t, orders[..i]);
    ProcessColumnsOutside(rows, t, orders[..i], cid);
    ProcessColumnsKeys(rows, t, orders[..i]);
    PlaceFromAt(before, key, ex, 1, j);
    var live := PlaceFrom(before, key, ex, 1);
    var mv := MovedHere(rows, key, ids);
    PlaceFromOutside(live, key, mv, AppendStart(live, key, |ex|), cid);
    ColumnStep(rows, t, orders, i);
    ProcessColumnsSettled(rows, t, orders, i, cid);
  }

  /** A listed id that was not in the column (and is in the table) gets the
      column's status and the `j`-th index counted from the append start,
      which exceeds every index in the column at the moment the column is
      processed, unlisted cards included, and every renumbered existing one. */
  lemma ApplyMovedIn(t: Table, orders: Orders, i: nat, j: nat)
    requires Distinct(AllIds(orders)) && i < |orders|
    requires j < |MovedHere(Snapshot(t, AllIds(orders)), orders[i].0, orders[i].1)|
    requires MovedHere(Snapshot(t, AllIds(orders)), orders[i].0, orders[i].1)[j] in t
    ensures var rows := Snapshot(t, AllIds(orders));
      var key := orders[i].0;
      var cid := MovedHere(rows, key, orders[i].1)[j];
      var live := LiveAt(t, orders, i);
      var idx := AppendStart(live, key, |Existing(rows, key, orders[i].1)|) + j;
      && t[cid].status != key
      && cid in Apply(t, orders)
      && Apply(t, orders)[cid] == t[cid].(status := key, orderIdx := idx)
      && idx > |Existing(rows, key, orders[i].1)|
      && forall k :: k in live && live[k].status == key ==> live[k].orderIdx < idx
  {
    var all := AllIds(orders);
    var rows := Snapshot(t, all);
    var key, ids := orders[i].0, orders[i].1;
    var ex := Existing(rows, key, ids);
    var mv := MovedHere(rows, key, ids);
    var cid := mv[j];
    assert cid in mv;
    ColumnIsolated(orders, i, cid);
    assert cid in rows;
    var before := ProcessColumns(rows, t, orders[..i]);
    ProcessColumnsOutside(rows, t, orders[..i], cid);
    ProcessColumnsKeys(rows, t, orders[..i]);
    PlaceFromKeys(before, key, ex, 1);
    PlaceFromOutside(before, key, ex, 1, cid);
    var live := PlaceFrom(before, key, ex, 1);
    PlaceFromAt(live, key, mv, AppendStart(live, key, |ex|), j);
    ColumnStep(rows, t, orders, i);
    ProcessColumnsSettled(rows, t, orders, i, cid);
  }

  /** Every listed id present in the table ends in the column it is listed
      under, whether it was already there or moved in. */
  lemma ApplyListedStatus(t: Table, orders: Orders, i: nat, cid: Id)
    requires Distinct(AllIds(orders)) && i < |orders|
    requires cid in orders[i].1 && cid in t
    ensures cid in Apply(t, orders) && Apply(t, orders)[cid].status == orders[i].0
  {
    var rows := Snapshot(t, AllIds(orders));
    var key, ids := orders[i].0, orders[i].1;
    if WasIn(rows, key, cid) {
      var ex := Existing(rows, key, ids);
      assert cid in ex;
      var j :| 0 <= j < |ex| && ex[j] == cid;
      ApplyExisting(t, orders, i, j);
    } else {
      var mv := MovedHere(rows, key, ids);
      assert cid in mv;
      var j :| 0 <= j < |mv| && mv[j] == cid;
      ApplyMovedIn(t, orders, i, j);
    }
  }

  /** A JSON object has each key once. */
  predicate DistinctKeys(orders: Orders)
  {
    forall i, j :: 0 <= i < j < |orders| ==> orders[i].0 != orders[j].0
  }

  lemma {:induction false} ListedSomewhere(orders: Orders, cid: Id) returns (i: nat)
    requires cid in AllIds(orders)
    ensures i < |orders| && cid in orders[i].1
  {
    var n := |orders|;
    if cid in orders[n - 1].1 {
      i := n - 1;
    } else {
      i := ListedSomewhere(orders[..n - 1], cid);
      assert orders[..n - 1][i] == orders[i];
    }
  }

  /** Where a listed card present in the table ends up: at its 1-based
      position among the existing ids, or past them at its position among the
      moved-in ids counted from a start shared by the whole column. */
  lemma ListedFinal(t: Table, orders: Orders, i: nat, cid: Id) returns (moved: bool, j: nat, start: int)
    requires Distinct(AllIds(orders)) && i < |orders|
    requires cid in orders[i].1 && cid in t
    ensures cid in Apply(t, orders)
    ensures Apply(t, orders)[cid].status == orders[i].0
    ensures !moved ==> j < |Existing(Snapshot(t, AllIds(orders)), orders[i].0, orders[i].1)|
    ensures !moved ==> Existing(Snapshot(t, AllIds(orders)), orders[i].0, orders[i].1)[j] == cid
    ensures !moved ==> Apply(t, orders)[cid].orderIdx == j + 1
    ensures moved ==> j < |MovedHere(Snapshot(t, AllIds(orders)), orders[i].0, orders[i].1)|
    ensures moved ==> MovedHere(Snapshot(t, AllIds(orders)), orders[i].0, orders[i].1)[j] == cid
    ensures moved ==> Apply(t, orders)[cid].orderIdx == start + j
    ensures start == AppendStart(LiveAt(t, orders, i), orders[i].0,
                                 |Existing(Snapshot(t, AllIds(orders)), orders[i].0, orders[i].1)|)
    ensures start > |Existing(Snapshot(t, AllIds(orders)), orders[i].0, orders[i].1)|
  {
    var rows := Snapshot(t, AllIds(orders));
    var key, ids := orders[i].0, orders[i].1;
    var ex := Existing(rows, key, ids);
    start := AppendStart(LiveAt(t, orders, i), key, |ex|);
    if WasIn(rows, key, cid) {
      assert cid in ex;
      moved := false;
      j :| j < |ex| && ex[j] == cid;
      ApplyExisting(t, orders, i, j);
    } else {
      var mv := MovedHere(rows, key, ids);
      assert cid in mv;
      moved := true;
      j :| j < |mv| && mv[j] == cid;
      ApplyMovedIn(t, orders, i, j);
    }
  }

  lemma KeyNamesOneColumn(orders: Orders, i: nat, k: nat)
    requires DistinctKeys(orders) && i < |orders| && k < |orders|
    requires orders[i].0 == orders[k].0
    ensures i == k
  {
  }

  /** Two different ids of one column never get the same index. */
  lemma SlotsDiffer(ex: seq<Id>, mv: seq<Id>, start: int,
                    a: Id, movedA: bool, ja: nat, idxA: int,
                    b: Id, movedB: bool, jb: nat, idxB: int)
    requires Distinct(ex) && Distinct(mv) && start > |ex| && a != b
    requires !movedA ==> ja < |ex| && ex[ja] == a && idxA == ja + 1
    requires movedA ==> ja < |mv| && mv[ja] == a && idxA == start + ja
    requires !movedB ==> jb < |ex| && ex[jb] == b && idxB == jb + 1
    requires movedB ==> jb < |mv| && mv[jb] == b && idxB == start + jb
    ensures idxA != idxB
  {
  }

  /** When the request lists every card of the table exactly once, as the
      board always sends it, no two cards of a column share an `order_idx`
      afterwards. */
  lemma ApplyNoCollisions(t: Table, orders: Orders, a: Id, b: Id)
    requires Distinct(AllIds(orders)) && DistinctKeys(orders)
    requires forall k :: k in t ==> k in AllIds(orders)
    requires a in t && b in t && a != b
    ensures a in Apply(t, orders) && b in Apply(t, orders)
    ensures Apply(t, orders)[a].status == Apply(t, orders)[b].status ==>
            Apply(t, orders)[a].orderIdx != Apply(t, orders)[b].orderIdx
  {
    var final := Apply(t, orders);
    var ia := ListedSomewhere(orders, a);
    var ib := ListedSomewhere(orders, b);
    var movedA, ja, startA := ListedFinal(t, orders, ia, a);
    var movedB, jb, startB := ListedFinal(t, orders, ib, b);
    if final[a].status == final[b].status {
      KeyNamesOneColumn(orders, ia, ib);
      ColumnIsolated(orders, ia, a);
      var rows := Snapshot(t, AllIds(orders));
      var ex := Existing(rows, orders[ia].0, orders[ia].1);
      var mv := MovedHere(rows, orders[ia].0, orders[ia].1);
      SlotsDiffer(ex, mv, startA, a, movedA, ja, final[a].orderIdx, b, movedB, jb, final[b].orderIdx);
    }
  }
}
