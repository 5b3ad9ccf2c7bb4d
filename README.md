# Kanban board backend: the `cards` table and its endpoints

This project models the server side of a three-column kanban board
(`app.py`). The server keeps one SQLite table, `cards`, keyed by card id.
Each row holds a title, description, status (the column key), priority,
tags (one comma-joined string), creation time, due date and `order_idx`
(the position inside the column). Five endpoints read or change the table:

- `GET /api/cards` lists every card ordered by `(status, order_idx)`, with tags decoded.
- `POST /api/card` creates a card with defaults and appends it at the end of its column.
- `PATCH /api/card/<id>` writes only whitelisted columns.
- `DELETE /api/card/<id>` removes one card.
- `POST /api/reorder` takes, per column key, the ids in display order.
  Ids that were already in the column are renumbered 1..k in list order.
  Ids moving in from elsewhere are appended after both those and the column's current maximum.

The table is a `map<Id, Card>` held in the field `cards` of the class
`App.CardStore`. Each endpoint is a method that changes that field. The
pure parts of the source are functions:

- `row_to_dict` and the tag decoding (`Model.ToView`, module `Tags`);
- the existing/moved-in list comprehensions (`Reordering.Existing`, `Reordering.MovedHere`).

The reorder loop is specified by the functions of module `Reordering`,
and the lemmas there prove what a request promises. Responses are the
datatype `Model.Response`: `Ok` (200), `Created` (201), `BadRequest`
(400), `NotFound` (404) and `ServerError` (500, a database error).

Modules:
- `Tags` (tags.dfy): `",".join`, `str.split(",")`, decoding, and the round trips between them.
- `Model` (model.dfy): rows, API views, responses, and the column maximum query.
- `Listing` (listing.dfy): the `ORDER BY status, order_idx` order and the insertion that builds the sorted list.
- `Patch` (patch.dfy): the PATCH whitelist, the SET list built from a payload, and its meaning.
- `Reordering` (reorder.dfy): the reorder request as functions over the table, with its properties.
- `App` (app.dfy): the class `CardStore` with one method per endpoint.

What the server does, and so what the model does:
- A moved-in card is appended at the end of its column, whatever its position in the submitted list.
- The server does not reject empty titles or check status and priority values.
- `order_idx` is a SQLite INTEGER, a 64-bit signed number. A statement that binds an index outside that range raises, the reply is 500 and the table is unchanged. This covers a created card after a column maximum of 2^63 - 1, a PATCH with such an `order_idx`, and a reorder whose append index runs past the range.
- The reorder's status query binds one parameter per requested id. Past SQLite's limit of 32766 parameters it raises, the reply is 500 and nothing changes.

## Model

| member | source | states |
|---|---|---|
| Tags.Join | app.py:110 | `",".join(items)`: the items separated by single commas |
| Tags.Split | app.py:67 | splitting on "," yields at least one piece, and a single piece only when the string holds no comma |
| Tags.Decode | app.py:67 | a stored tags string reads as no tags when empty, else as its comma-separated pieces |
| Tags.SplitJoin | app.py:110 | splitting the comma-join of a non-empty list of comma-free tags gives the list back |
| Tags.JoinSplit | app.py:67 | joining the pieces of any split string with "," gives the string back |
| Tags.DecodeJoin | app.py:67 | a tag list stored by joining reads back unchanged when no tag holds a comma and the list is not `[""]`; the empty list reads back as itself |
| Tags.JoinDecode | app.py:67 | re-joining the decoded tags of any stored string, the default "" included, gives the stored string |
| Model.ToView | app.py:64-68 | `row_to_dict`: the row's columns with `tags` decoded |
| Model.FitsInteger | app.py:34 | the range of a SQLite INTEGER, -2^63 to 2^63 - 1, which every bound `order_idx` must lie in |
| Model.SetMax | app.py:173 | the maximum of a non-empty set of order indices belongs to the set and bounds every element |
| Model.ColumnMax | app.py:90 | `COALESCE(MAX(order_idx), 0)` for a column: bounds every card of that status, is attained by one of them, and is 0 for an empty column |
| Model.ColumnMaxUnique | app.py:173-174 | any value meeting that description equals the column maximum |
| Listing.TextBefore | app.py:79 | BINARY collation of TEXT: lexicographic order of code points, a proper prefix first |
| Listing.RowLeq | app.py:79 | row `x` may precede row `y` under `ORDER BY status, order_idx` |
| Listing.TextBeforeTransitive | app.py:79 | BINARY collation of statuses is transitive |
| Listing.TextBeforeTotal | app.py:79 | two different statuses are always ordered one way or the other |
| Listing.RowLeqTransitive | app.py:79 | the `(status, order_idx)` row order is transitive |
| Listing.RowLeqTotal | app.py:79 | any two rows are comparable under `(status, order_idx)` |
| Listing.Insert | app.py:79-81 | inserting a row adds exactly that row to the result (multiset) |
| Listing.InsertSorted | app.py:79 | inserting a row into a sorted result keeps it sorted |
| Patch.StoredTags | app.py:109-112 | a `tags` list is stored as its comma-join, any other value as it is |
| Patch.Bindable | app.py:112-118 | the UPDATE can bind its values: a present `order_idx` is a SQLite INTEGER |
| Patch.AssignAll | app.py:117-118 | the row after `UPDATE cards SET <list> WHERE id = ?`, the entries written left to right |
| Patch.Merged | app.py:104-118 | the reference PATCH: each whitelisted key present takes the payload's value (a tag list its join); every other column, `created_at` included, keeps its value |
| Patch.MergedOnAllowed | app.py:104-113 | applying the SET entries of the whitelist in order writes each present key's value (a tag list as its join) and keeps every other column, `created_at` included |
| Patch.CollectAssignments | app.py:104-115 | the SET list is empty exactly when the payload names no whitelisted key, and applying it to any row gives the reference merge |
| Patch.PatchedTagsReadBack | app.py:109-110 | a tag list sent in a PATCH is stored as its comma-join and reads back as the same list (no commas, list not `[""]`) |
| Reordering.AllIds | app.py:151 | every requested id, column after column in payload order |
| Reordering.Snapshot | app.py:155-157 | the status of each requested id found in the table, read once before any column is processed |
| Reordering.Existing | app.py:163 | the ids kept are exactly the listed ids whose pre-request status equals the key; distinct lists give distinct results |
| Reordering.MovedHere | app.py:164 | the ids kept are exactly the other listed ids, unknown ids included; distinct lists give distinct results |
| Reordering.Place | app.py:169 | one `UPDATE ... SET status, order_idx WHERE id`: a present id takes the key and index, an absent one changes nothing |
| Reordering.PlaceFrom | app.py:166-170 | one UPDATE per id of a run, with consecutive indices from a start |
| Reordering.AppendStart | app.py:172-177 | moved-in ids start after the renumbered ids and after the column's maximum as it stands then |
| Reordering.ProcessColumn | app.py:162-181 | one column: renumber the existing ids from 1, read the column maximum, append the moved-in ids |
| Reordering.ProcessColumns | app.py:162 | the columns in payload order, each seeing the earlier ones' writes |
| Reordering.Apply | app.py:149-181 | `process_orders`: nothing for an empty request, else the columns over one status snapshot |
| Reordering.RunFits | app.py:166-181 | every index a run of UPDATEs binds is a SQLite INTEGER |
| Reordering.ColumnFails | app.py:166-181 | some UPDATE of the column, renumbering or appending, binds an index outside the INTEGER range |
| Reordering.Fails | app.py:155-181 | the request raises: more ids than one statement may bind, or an UPDATE overflows |
| Reordering.ColumnsFailExtend | app.py:162-181 | a failure in the first columns is a failure of the whole request |
| Reordering.PlaceFromAt | app.py:179-181 | the j-th id of a run of UPDATEs gets the key and index start + j, other columns untouched |
| Reordering.ApplyKeepsIds | app.py:156-181 | a reorder neither creates nor deletes a card, so unknown ids create nothing |
| Reordering.ApplyKeepsUnlisted | app.py:162-181 | a card listed under no key is left exactly as it was |
| Reordering.ApplyFits | app.py:162-181 | a request that does not fail leaves every order index a SQLite INTEGER |
| Reordering.EmptyOrdersChangeNothing | app.py:152-153 | processing only empty lists changes nothing, so the early return for an empty request is only a shortcut |
| Reordering.ApplyExisting | app.py:162-170 | an id already in column `key` before the request ends with `order_idx` equal to its 1-based position among such ids of the list, everything else of the card unchanged |
| Reordering.ApplyMovedIn | app.py:172-181 | a moved-in id gets status `key` and index start + j, where start = max(k + 1, live column max + 1); it exceeds every index in the column when the column is processed, unlisted cards included |
| Reordering.ApplyListedStatus | app.py:162-181 | every listed id present in the table ends with its list's key as status |
| Reordering.ListedFinal | app.py:162-181 | a listed card ends at its existing position or past all existing ones at start + its moved-in position |
| Reordering.ApplyNoCollisions | app.py:175-177 | when every card is listed exactly once, no two cards of a column share an `order_idx` afterwards |
| App.Insertable | app.py:52-61 | the INSERT succeeds: title present (NOT NULL), tags not a list, `order_idx` a SQLite INTEGER, id not taken (PRIMARY KEY) |
| App.NewRow | app.py:55-61 | the inserted row: defaults description "", status "todo", priority "medium", tags "", due date "", order 0 |
| App.FullColumnRefusesCreate | app.py:90-93 | once a column holds 2^63 - 1, creating a card in it fails |
| App.CardStore.ColumnMaxOf | app.py:90-91 | the scan of the column returns its maximum order index, 0 when empty |
| App.CardStore.ListCards | app.py:76-82 | returns each card exactly once as its decoded row, sorted by `(status, order_idx)` |
| App.CardStore.AddCard | app.py:52-62 | inserts the new row, or fails with no change when title is missing, tags is a list, `order_idx` is out of INTEGER range or the id is taken |
| App.CardStore.CreateCard | app.py:84-97 | the new card gets status "todo" unless given, the defaults, `order_idx` = column max + 1 (greater than every card of its column), other cards unchanged, reply 201; a database error, that index past 2^63 - 1 included, returns 500 with no change |
| App.CardStore.UpdateCard | app.py:99-124 | 400 and no change when no whitelisted key is present; 500 and no change when `order_idx` is out of INTEGER range; 404 and no change for an unknown id; otherwise only that card changes, to the merged row |
| App.CardStore.DeleteCard | app.py:126-131 | removes exactly that id, all else unchanged, and replies `deleted: true` even when the id was absent |
| App.CardStore.SetPlace | app.py:169 | one UPDATE of status and `order_idx` by id; an absent id changes nothing |
| App.CardStore.PlaceEach | app.py:166-170 | a counter loop writes consecutive indices from its start and ends at start + count, or stops at the first index out of INTEGER range |
| App.CardStore.ProcessColumn | app.py:162-181 | one column of the request, as specified by `Reordering.ProcessColumn`, failing exactly when `Reordering.ColumnFails` |
| App.CardStore.ProcessOrders | app.py:149-181 | the whole request over one status snapshot; on failure no UPDATE is kept |
| App.CardStore.Reorder | app.py:183-191 | the `orders` form; else the `column`/`order` form as a one-key `orders`; else 400 with no change; a failing request replies 500 with no change |

## Left out

- HTTP routing, `request.json`, `jsonify`, CORS, templates and static files: responses are the `Response` datatype only.
- SQLite connections, commits and the `CREATE TABLE` statement: the table is a map, and every endpoint's changes take effect at once.
- `uuid.uuid4()` and `datetime.utcnow()`: the id used when the client sends none, and the creation time, are parameters of `CreateCard`.
- `setup_once` seeding and the startup block: startup I/O only.
- JSON values of the wrong type (a null, a number where a string is expected, a non-string inside a tag list): payload fields are typed, so an absent key is `None`.
- A fractional `order_idx` in a PATCH, which SQLite stores as REAL: `order_idx` is an integer in the model.
- `Reordering.MaxVariables`: the host-parameter limit depends on how SQLite was built (999 before version 3.32); the model fixes it at 32766.
- SQLite NULLs in `order_idx` or `tags`: the model's columns always hold a value.
- The order among rows with equal `(status, order_idx)`: SQLite leaves it open, so `App.CardStore.ListCards` promises only sortedness and that every card appears exactly once.
- Reordering.Apply: an `orders` object is modelled as a sequence of key/list pairs. A JSON object has each key once; only `Reordering.ApplyNoCollisions` needs that (`DistinctKeys`). The other reorder lemmas assume only that no id is listed twice, which holds for the board's snapshots.
- The browser client (rendering, escaping, priority badges, drag and drop) is not part of this model.
