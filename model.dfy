/** The `cards` table and the values the endpoints exchange with clients. */
module Model {
  import Tags

  datatype Option<T> = None | Some(value: T)
  {
    /** `d.get(key, default)` on a JSON object. */
    function GetOr(default: T): T
    {
      if Some? then value else default
    }
  }

  type Id = string
  type Status = string

  /** One row of the `cards` table, without its primary key `id`. */
  datatype Card = Card(
    title: string,
    description: string,
    status: Status,
    priority: string,
    tags: string,        // comma-joined
    createdAt: string,
    dueDate: string,
    orderIdx: int)

  /** The table, keyed by its primary key. */
  type Table = map<Id, Card>

  /** A `tags` value in a JSON payload: a list of strings or a plain string. */
  datatype TagsValue = TagList(items: seq<string>) | TagText(text: string)

  /** A row as the API returns it: the stored fields with `tags` decoded. */
  datatype CardView = CardView(
    id: Id,
    title: string,
    description: string,
    status: Status,
    priority: string,
    tags: seq<string>,
    createdAt: string,
    dueDate: string,
    orderIdx: int)

  /** `row_to_dict`. */
  function ToView(id: Id, c: Card): CardView
  {
    CardView(id, c.title, c.description, c.status, c.priority,
             Tags.Decode(c.tags), c.createdAt, c.dueDate, c.orderIdx)
  }

  datatype Body =
    | CardJson(card: CardView)
    | CardsJson(cards: seq<CardView>)
    | DeletedJson
    | OkJson

  /** HTTP outcomes: 200, 201, 400, 404, and 500 for a database error. */
  datatype Response =
    | Ok(body: Body)
    | Created(body: Body)
    | BadRequest(error: string)
    | NotFound(error: string)
    | ServerError

  function Max(a: int, b: int): int
  {
    if a < b then b else a
  }

  /** The range of a SQLite INTEGER (64-bit signed). Python's `sqlite3`
      raises `OverflowError` when a statement binds an int outside it. */
  const MinInteger: int := -0x8000_0000_0000_0000
  const MaxInteger: int := 0x7FFF_FFFF_FFFF_FFFF

  predicate FitsInteger(x: int)
  {
    MinInteger <= x <= MaxInteger
  }

  /** Every order index in the table is a SQLite INTEGER. */
  predicate IndicesFit(t: Table)
  {
    forall k :: k in t ==> FitsInteger(t[k].orderIdx)
  }

  /** `m` is what `SELECT COALESCE(MAX(order_idx), 0) ... WHERE status = key`
      yields: the largest order index in the column, or 0 for an empty column. */
  ghost predicate IsColumnMax(t: Table, key: Status, m: int)
  {
    && (forall k :: k in t && t[k].status == key ==> t[k].orderIdx <= m)
    && if exists k :: k in t && t[k].status == key
       then exists k :: k in t && t[k].status == key && t[k].orderIdx == m
       else m == 0
  }

  lemma HasElement(s: set<int>)
    requires s != {}
    ensures exists x :: x in s
  {
    if forall x :: x !in s {
      assert false;
    }
  }

  ghost function SetMax(s: set<int>): (m: int)
    requires s != {}
    ensures m in s
    ensures forall x :: x in s ==> x <= m
    decreases s
  {
    HasElement(s);
    var x :| x in s;
    if s == {x} then
      x
    else
      var y := SetMax(s - {x});
      assert forall z :: z in s ==> z == x || z in s - {x};
      if x < y then y else x
  }

  ghost function ColumnOrders(t: Table, key: Status): set<int>
  {
    set k | k in t && t[k].status == key :: t[k].orderIdx
  }

  /** The column maximum as a value. */
  ghost function ColumnMax(t: Table, key: Status): (m: int)
    ensures IsColumnMax(t, key, m)
  {
    var vals := ColumnOrders(t, key);
    if vals == {} then
      assert forall k :: k in t && t[k].status == key ==> t[k].orderIdx in vals;
      0
    else
      var m := SetMax(vals);
      assert forall k :: k in t && t[k].status == key ==> t[k].orderIdx in vals;
      assert exists k :: k in t && t[k].status == key && t[k].orderIdx == m;
      m
  }

  /** The query has only one possible answer. */
  lemma ColumnMaxUnique(t: Table, key: Status, m: int)
    requires IsColumnMax(t, key, m)
    ensures m == ColumnMax(t, key)
  {
    var n := ColumnMax(t, key);
    if exists k :: k in t && t[k].status == key {
      var a :| a in t && t[a].status == key && t[a].orderIdx == m;
      var b :| b in t && t[b].status == key && t[b].orderIdx == n;
      assert t[b].orderIdx <= m && t[a].orderIdx <= n;
    }
  }
}
