/** `PATCH /api/card/<id>`: the whitelist of updatable columns and the SET
    list built from a payload. */
module Patch {
  import opened Model
  import Tags

  /** A PATCH body; `None` means the key is absent. */
  datatype Payload = Payload(
    title: Option<string>,
    description: Option<string>,
    status: Option<Status>,
    priority: Option<string>,
    tags: Option<TagsValue>,
    dueDate: Option<string>,
    orderIdx: Option<int>)

  datatype Field = TitleField | DescriptionField | StatusField | PriorityField
                 | TagsField | DueDateField | OrderIdxField

  /** The columns a PATCH may write, in the order the SET list names them. */
  const Allowed: seq<Field> :=
    [TitleField, DescriptionField, StatusField, PriorityField, TagsField, DueDateField, OrderIdxField]

  /** One `column = ?` of the SET list with its bound value. */
  datatype Assignment =
    | SetTitle(title: string)
    | SetDescription(description: string)
    | SetStatus(status: Status)
    | SetPriority(priority: string)
    | SetTags(tags: string)
    | SetDueDate(dueDate: string)
    | SetOrderIdx(orderIdx: int)

  /** The string a `tags` value is stored as: a list is comma-joined, a
      string is stored as it is. */
  function StoredTags(v: TagsValue): string
  {
    match v
    case TagList(items) => Tags.Join(items)
    case TagText(text) => text
  }

  /** `k in payload`. */
  predicate Present(p: Payload, f: Field)
  {
    match f
    case TitleField => p.title.Some?
    case DescriptionField => p.description.Some?
    case StatusField => p.status.Some?
    case PriorityField => p.priority.Some?
    case TagsField => p.tags.Some?
    case DueDateField => p.dueDate.Some?
    case OrderIdxField => p.orderIdx.Some?
  }

  /** The payload names at least one whitelisted column. */
  predicate Updatable(p: Payload)
  {
    exists f :: f in Allowed && Present(p, f)
  }

  /** Every value the UPDATE binds can be bound: `order_idx`, the one
      integer column, must be a SQLite INTEGER. */
  predicate Bindable(p: Payload)
  {
    p.orderIdx.None? || FitsInteger(p.orderIdx.value)
  }

  /** The SET entry one whitelisted key contributes, if present. */
  function AssignmentFor(p: Payload, f: Field): Option<Assignment>
  {
    match f
    case TitleField => if p.title.Some? then Some(SetTitle(p.title.value)) else None
    case DescriptionField => if p.description.Some? then Some(SetDescription(p.description.value)) else None
    case StatusField => if p.status.Some? then Some(SetStatus(p.status.value)) else None
    case PriorityField => if p.priority.Some? then Some(SetPriority(p.priority.value)) else None
    case TagsField => if p.tags.Some? then Some(SetTags(StoredTags(p.tags.value))) else None
    case DueDateField => if p.dueDate.Some? then Some(SetDueDate(p.dueDate.value)) else None
    case OrderIdxField => if p.orderIdx.Some? then Some(SetOrderIdx(p.orderIdx.value)) else None
  }

  function Assign(c: Card, a: Assignment): Card
  {
    match a
    case SetTitle(v) => c.(title := v)
    case SetDescription(v) => c.(description := v)
    case SetStatus(v) => c.(status := v)
    case SetPriority(v) => c.(priority := v)
    case SetTags(v) => c.(tags := v)
    case SetDueDate(v) => c.(dueDate := v)
    case SetOrderIdx(v) => c.(orderIdx := v)
  }

  /** The row after `UPDATE cards SET <sets> WHERE id = ?`. */
  function AssignAll(c: Card, sets: seq<Assignment>): Card
  {
    if |sets| == 0 then c
    else Assign(AssignAll(c, sets[..|sets| - 1]), sets[|sets| - 1])
  }

  /** Reference meaning of a PATCH on one row: every whitelisted column
      whose key is present takes the payload's value (a tag list its
      comma-join); every other column, `created_at` included, keeps its value. */
  function Merged(c: Card, p: Payload): Card
  {
    Card(
      p.title.GetOr(c.title),
      p.description.GetOr(c.description),
      p.status.GetOr(c.status),
      p.priority.GetOr(c.priority),
      if p.tags.Some? then StoredTags(p.tags.value) else c.tags,
      c.createdAt,
      p.dueDate.GetOr(c.dueDate),
      p.orderIdx.GetOr(c.orderIdx))
  }

  /** The row after visiting `fields` of the whitelist in order, applying the
      SET entry of each present key. */
  function MergedOn(c: Card, p: Payload, fields: seq<Field>): Card
  {
    if |fields| == 0 then c
    else
      var d := MergedOn(c, p, fields[..|fields| - 1]);
      var a := AssignmentFor(p, fields[|fields| - 1]);
      if a.Some? then Assign(d, a.value) else d
  }

  /** Visiting the whole whitelist gives the reference row. */
  lemma MergedOnAllowed(c: Card, p: Payload)
    ensures MergedOn(c, p, Allowed) == Merged(c, p)
  {
    assert MergedOn(c, p, Allowed[..0]) == c;
    var d1 := MergedOn(c, p, Allowed[..1]);
    assert Allowed[..1][..0] == Allowed[..0] && |Allowed[..1]| == 1 && Allowed[..1][0] == TitleField;
    assert d1 == c.(title := p.title.GetOr(c.title));
    var d2 := MergedOn(c, p, Allowed[..2]);
    assert Allowed[..2][..1] == Allowed[..1] && |Allowed[..2]| == 2 && Allowed[..2][1] == DescriptionField;
    assert d2 == d1.(description := p.description.GetOr(c.description));
    var d3 := MergedOn(c, p, Allowed[..3]);
    assert Allowed[..3][..2] == Allowed[..2] && |Allowed[..3]| == 3 && Allowed[..3][2] == StatusField;
    assert d3 == d2.(status := p.status.GetOr(c.status));
    var d4 := MergedOn(c, p, Allowed[..4]);
    assert Allowed[..4][..3] == Allowed[..3] && |Allowed[..4]| == 4 && Allowed[..4][3] == PriorityField;
    assert d4 == d3.(priority := p.priority.GetOr(c.priority));
    var d5 := MergedOn(c, p, Allowed[..5]);
    assert Allowed[..5][..4] == Allowed[..4] && |Allowed[..5]| == 5 && Allowed[..5][4] == TagsField;
    assert d5 == d4.(tags := if p.tags.Some? then StoredTags(p.tags.value) else c.tags);
    var d6 := MergedOn(c, p, Allowed[..6]);
    assert Allowed[..6][..5] == Allowed[..5] && |Allowed[..6]| == 6 && Allowed[..6][5] == DueDateField;
    assert d6 == d5.(dueDate := p.dueDate.GetOr(c.dueDate));
    assert Allowed[..7] == Allowed && Allowed[..7][..6] == Allowed[..6] && Allowed[6] == OrderIdxField;
    assert MergedOn(c, p, Allowed) == d6.(orderIdx := p.orderIdx.GetOr(c.orderIdx));
  }

  /** Builds the SET list from the payload by walking the whitelist in
      order; the result is empty exactly when nothing is to be updated, and
      applying it to any row yields `Merged`. */
  method CollectAssignments(p: Payload) returns (sets: seq<Assignment>)
    ensures sets == [] <==> !Updatable(p)
    ensures forall c :: AssignAll(c, sets) == Merged(c, p)
  {
    sets := [];
    var i := 0;
    while i < |Allowed|
      invariant 0 <= i <= |Allowed|
      invariant sets == [] <==> forall f :: f in Allowed[..i] ==> !Present(p, f)
      invariant forall c :: AssignAll(c, sets) == MergedOn(c, p, Allowed[..i])
    {
      var f := Allowed[i];
      assert Allowed[..i + 1] == Allowed[..i] + [f];
      assert Allowed[..i + 1][..i] == Allowed[..i];
      assert forall g :: g in Allowed[..i + 1] <==> g in Allowed[..i] || g == f;
      var a := AssignmentFor(p, f);
      assert a.Some? <==> Present(p, f) by { match f case _ => }
      if a.Some? {
        assert (sets + [a.value])[..|sets|] == sets;
        sets := sets + [a.value];
      }
      i := i + 1;
    }
    assert Allowed[..i] == Allowed;
    forall c ensures AssignAll(c, sets) == Merged(c, p) {
      MergedOnAllowed(c, p);
    }
  }

  /** A tag list sent in a PATCH is stored as its comma-join and reads back as
      the same list, when no tag holds a comma and the list is not `[""]`. */
  lemma PatchedTagsReadBack(id: Id, c: Card, p: Payload, items: seq<string>)
    requires p.tags == Some(TagList(items))
    requires Tags.CommaFree(items) && items != [""]
    ensures Merged(c, p).tags == Tags.Join(items)
    ensures ToView(id, Merged(c, p)).tags == items
  {
    Tags.DecodeJoin(items);
  }
}
