/** The REST endpoints of the board over the `cards` table. The card id a
    new card gets when the client supplies none, and the creation time, come
    in as parameters. */
module App {
  import opened Model
  import Listing
  import Patch
  import Reordering

  /** The JSON object `create_card` receives and hands to `add_card_to_db`. */
  datatype CardData = CardData(
    id: Option<Id>,
    title: Option<string>,
    description: Option<string>,
    status: Option<Status>,
    priority: Option<string>,
    tags: Option<TagsValue>,
    dueDate: Option<string>,
    orderIdx: Option<int>)

  /** The INSERT succeeds: `title` is present (the column is NOT NULL),
      `tags`, if present, is a string (SQLite cannot bind a list),
      `order_idx` is a SQLite INTEGER, and the id is not taken (it is the
      PRIMARY KEY). */
  predicate Insertable(t: Table, data: CardData, id: Id)
  {
    && data.title.Some?
    && (data.tags.None? || data.tags.value.TagText?)
    && FitsInteger(data.orderIdx.GetOr(0))
    && id !in t
  }

  /** The row `add_card_to_db` inserts, absent keys taking their defaults. */
  function NewRow(data: CardData, now: string): Card
    requires data.title.Some?
  {
    Card(
      data.title.value,
      data.description.GetOr(""),
      data.status.GetOr("todo"),
      data.priority.GetOr("medium"),
      if data.tags.Some? && data.tags.value.TagText? then data.tags.value.text else "",
      now,
      data.dueDate.GetOr(""),
      data.orderIdx.GetOr(0))
  }

  /** Once a column holds the largest SQLite INTEGER, creating a card in it
      cannot succeed: the next index does not fit. */
  lemma FullColumnRefusesCreate(t: Table, payload: CardData, id: Id, cid: Id)
    requires cid in t && t[cid].orderIdx == MaxInteger
    ensures var key := t[cid].status;
      !Insertable(t, payload.(status := Some(key), orderIdx := Some(ColumnMax(t, key) + 1)), id)
  {
    assert ColumnMax(t, t[cid].status) >= MaxInteger;
  }

  class CardStore {
    var cards: Table

    /** An empty `cards` table. */
    constructor ()
      ensures cards == map[]
    {
      cards := map[];
    }

    /** `SELECT COALESCE(MAX(order_idx), 0) FROM cards WHERE status = key`. */
    method ColumnMaxOf(key: Status) returns (m: int)
      ensures m == ColumnMax(cards, key)
    {
      var found := false;
      m := 0;
      var remaining := cards.Keys;
      while remaining != {}
        invariant remaining <= cards.Keys
        invariant found <==> exists k :: k in cards && k !in remaining && cards[k].status == key
        invariant forall k :: k in cards && k !in remaining && cards[k].status == key ==> cards[k].orderIdx <= m
        invariant found ==> exists k :: k in cards && k !in remaining && cards[k].status == key && cards[k].orderIdx == m
        invariant !found ==> m == 0
        decreases remaining
      {
        var k :| k in remaining;
        if cards[k].status == key {
          if !found || m < cards[k].orderIdx {
            m := cards[k].orderIdx;
          }
          found := true;
        }
        remaining := remaining - {k};
      }
      ColumnMaxUnique(cards, key, m);
    }

    /** `GET /api/cards`: every card exactly once, as its decoded row, in
        `ORDER BY status, order_idx` order. */
    method ListCards() returns (r: Response)
      ensures r.Ok? && r.body.CardsJson?
      ensures Listing.Sorted(r.body.cards)
      ensures multiset(r.body.cards) == multiset(Listing.ViewsOf(cards, cards.Keys))
    {
      var rows: seq<CardView> := [];
      var remaining := cards.Keys;
      while remaining != {}
        invariant remaining <= cards.Keys
        invariant Listing.Sorted(rows)
        invariant multiset(rows) == multiset(Listing.ViewsOf(cards, cards.Keys - remaining))
        decreases remaining
      {
        var k :| k in remaining;
        var v := ToView(k, cards[k]);
        ghost var done := cards.Keys - remaining;
        assert v !in Listing.ViewsOf(cards, done);
        assert Listing.ViewsOf(cards, done + {k}) == Listing.ViewsOf(cards, done) + {v};
        assert cards.Keys - (remaining - {k}) == done + {k};
        Listing.InsertSorted(v, rows);
        rows := Listing.Insert(v, rows);
        remaining := remaining - {k};
      }
      r := Ok(CardsJson(rows));
    }

    /** `add_card_to_db`: inserts one row, or fails with the table unchanged. */
    method AddCard(data: CardData, freshId: Id, now: string) returns (added: Option<Id>)
      modifies this
      ensures var id := data.id.GetOr(freshId);
        if Insertable(old(cards), data, id)
        then added == Some(id) && cards == old(cards)[id := NewRow(data, now)]
        else added == None && cards == old(cards)
    {
      var id := data.id.GetOr(freshId);
      if !Insertable(cards, data, id) {
        return None;
      }
      cards := cards[id := NewRow(data, now)];
      added := Some(id);
    }

    /** `POST /api/card`: appends a card at the end of its column (status
        `todo` unless given) and returns its row with status 201; a database
        error, an index past the INTEGER range included, leaves the table
        unchanged. */
    method CreateCard(payload: CardData, freshId: Id, now: string) returns (r: Response)
      modifies this
      ensures var id := payload.id.GetOr(freshId);
        var key := payload.status.GetOr("todo");
        var data := payload.(status := Some(key), orderIdx := Some(ColumnMax(old(cards), key) + 1));
        if Insertable(old(cards), data, id) then
          && cards.Keys == old(cards).Keys + {id}
          && (forall k :: k in old(cards) ==> cards[k] == old(cards)[k])
          && cards[id].title == payload.title.value
          && cards[id].description == payload.description.GetOr("")
          && cards[id].status == key
          && cards[id].priority == payload.priority.GetOr("medium")
          && cards[id].tags == (if payload.tags.Some? then payload.tags.value.text else "")
          && cards[id].createdAt == now
          && cards[id].dueDate == payload.dueDate.GetOr("")
          && cards[id].orderIdx == ColumnMax(old(cards), key) + 1
          && (forall k :: k in old(cards) && old(cards)[k].status == key ==>
                old(cards)[k].orderIdx < cards[id].orderIdx)
          && r == Created(CardJson(ToView(id, cards[id])))
        else
          r == ServerError && cards == old(cards)
    {
      var key := payload.status.GetOr("todo");
      var m := ColumnMaxOf(key);
      var data := payload.(status := Some(key), orderIdx := Some(m + 1));
      var added := AddCard(data, freshId, now);
      if added.None? {
        return ServerError;
      }
      r := Created(CardJson(ToView(added.value, cards[added.value])));
    }

    /** `PATCH /api/card/<id>`: writes the whitelisted columns the payload
        names and nothing else; 400 when it names none, 500 when the UPDATE
        cannot bind `order_idx` (whether or not the id exists), 404 for an
        unknown id. */
    method UpdateCard(id: Id, p: Patch.Payload) returns (r: Response)
      modifies this
      ensures !Patch.Updatable(p) ==> r == BadRequest("nothing to update") && cards == old(cards)
      ensures Patch.Updatable(p) && !Patch.Bindable(p) ==> r == ServerError && cards == old(cards)
      ensures Patch.Updatable(p) && Patch.Bindable(p) && id !in old(cards) ==>
        r == NotFound("not found") && cards == old(cards)
      ensures Patch.Updatable(p) && Patch.Bindable(p) && id in old(cards) ==>
        && cards == old(cards)[id := Patch.Merged(old(cards)[id], p)]
        && r == Ok(CardJson(ToView(id, cards[id])))
    {
      var sets := Patch.CollectAssignments(p);
      if sets == [] {
        return BadRequest("nothing to update");
      }
      if !Patch.Bindable(p) {
        return ServerError;
      }
      if id in cards {
        cards := cards[id := Patch.AssignAll(cards[id], sets)];
      }
      if id !in cards {
        return NotFound("not found");
      }
      r := Ok(CardJson(ToView(id, cards[id])));
    }

    /** `DELETE /api/card/<id>`: removes that card if present and reports
        success either way. */
    method DeleteCard(id: Id) returns (r: Response)
      modifies this
      ensures cards == old(cards) - {id}
      ensures r == Ok(DeletedJson)
    {
      cards := cards - {id};
      r := Ok(DeletedJson);
    }

    /** `UPDATE cards SET status = ?, order_idx = ? WHERE id = ?`. */
    method SetPlace(cid: Id, key: Status, idx: int)
      modifies this
      ensures cards == Reordering.Place(old(cards), cid, key, idx)
    {
      if cid in cards {
        cards := cards[cid := cards[cid].(status := key, orderIdx := idx)];
      }
    }

    /** One UPDATE per id of `ids`, with an index counter starting at
        `start`; returns the counter's final value and whether every UPDATE
        could bind its index. The first index past the INTEGER range raises
        and stops the run, the earlier UPDATEs having been executed. */
    method PlaceEach(key: Status, ids: seq<Id>, start: int) returns (next: int, ok: bool)
      modifies this
      ensures ok <==> Reordering.RunFits(start, |ids|)
      ensures ok ==> next == start + |ids| && cards == Reordering.PlaceFrom(old(cards), key, ids, start)
      ensures !ok ==> start <= next < start + |ids| && !FitsInteger(next)
      ensures !ok ==> cards == Reordering.PlaceFrom(old(cards), key, ids[..next - start], start)
    {
      next := start;
      var j := 0;
      while j < |ids|
        invariant 0 <= j <= |ids|
        invariant next == start + j
        invariant Reordering.RunFits(start, j)
        invariant cards == Reordering.PlaceFrom(old(cards), key, ids[..j], start)
      {
        if !FitsInteger(next) {
          return next, false;
        }
        assert ids[..j + 1][..j] == ids[..j];
        SetPlace(ids[j], key, next);
        next := next + 1;
        j := j + 1;
      }
      assert ids[..j] == ids;
      ok := true;
    }

    /** The body of the per-column loop of `process_orders`; `ok` is false
        when an UPDATE raised, and the caller then discards the table. */
    method ProcessColumn(rows: map<Id, Status>, key: Status, ids: seq<Id>) returns (ok: bool)
      modifies this
      ensures ok <==> !Reordering.ColumnFails(rows, old(cards), key, ids)
      ensures ok ==> cards == Reordering.ProcessColumn(rows, old(cards), key, ids)
    {
      var existing := Reordering.Existing(rows, key, ids);
      var movedHere := Reordering.MovedHere(rows, key, ids);
      var idx;
      idx, ok := PlaceEach(key, existing, 1);
      if !ok {
        return;
      }
      var currentMax := ColumnMaxOf(key);
      var appendIdx := Max(idx, currentMax + 1);
      appendIdx, ok := PlaceEach(key, movedHere, appendIdx);
    }

    /** `process_orders`, inside the request's transaction: when a statement
        raises, none of the request's UPDATEs is committed. */
    method ProcessOrders(orders: Reordering.Orders) returns (ok: bool)
      modifies this
      ensures ok <==> !Reordering.Fails(old(cards), orders)
      ensures ok ==> cards == Reordering.Apply(old(cards), orders)
      ensures !ok ==> cards == old(cards)
    {
      var allIds := Reordering.AllIds(orders);
      if |allIds| == 0 {
        return true;
      }
      if |allIds| > Reordering.MaxVariables {
        return false;
      }
      var rows := Reordering.Snapshot(cards, allIds);
      var saved := cards;
      var i := 0;
      while i < |orders|
        invariant 0 <= i <= |orders|
        invariant !Reordering.ColumnsFail(rows, saved, orders[..i])
        invariant cards == Reordering.ProcessColumns(rows, saved, orders[..i])
      {
        assert orders[..i + 1][..i] == orders[..i];
        var columnOk := ProcessColumn(rows, orders[i].0, orders[i].1);
        if !columnOk {
          Reordering.ColumnsFailExtend(rows, saved, orders, i + 1);
          cards := saved;
          return false;
        }
        i := i + 1;
      }
      assert orders[..i] == orders;
      ok := true;
    }

    /** `POST /api/reorder`: the `orders` form, else the `column`/`order`
        form as a single-column `orders`, else 400 with the table unchanged;
        a request that raises replies 500 with the table unchanged. */
    method Reorder(p: Reordering.Payload) returns (r: Response)
      modifies this
      ensures p.orders.Some? && !Reordering.Fails(old(cards), p.orders.value) ==>
        r == Ok(OkJson) && cards == Reordering.Apply(old(cards), p.orders.value)
      ensures p.orders.Some? && Reordering.Fails(old(cards), p.orders.value) ==>
        r == ServerError && cards == old(cards)
      ensures p.orders.None? && p.column.Some? && p.order.Some? &&
              !Reordering.Fails(old(cards), [(p.column.value, p.order.value)]) ==>
        r == Ok(OkJson) && cards == Reordering.Apply(old(cards), [(p.column.value, p.order.value)])
      ensures p.orders.None? && p.column.Some? && p.order.Some? &&
              Reordering.Fails(old(cards), [(p.column.value, p.order.value)]) ==>
        r == ServerError && cards == old(cards)
      ensures p.orders.None? && !(p.column.Some? && p.order.Some?) ==>
        r == BadRequest("invalid payload") && cards == old(cards)
    {
      var ok;
      if p.orders.Some? {
        ok := ProcessOrders(p.orders.value);
      } else if p.column.Some? && p.order.Some? {
        ok := ProcessOrders([(p.column.value, p.order.value)]);
      } else {
        return BadRequest("invalid payload");
      }
      r := if ok then Ok(OkJson) else ServerError;
    }
  }
}
