/** backend/src/services/itemService.ts: the catalogue table. */
module ItemService {
  import opened Wrappers
  import opened Schema
  import opened ItemValidation
  import Sql

  /** The `WHERE id = ?` clause. */
  function HasId(id: int): Item -> bool {
    (i: Item) => i.id == id
  }

  function RowId(i: Item): int { i.id }

  /** The `SET` list `update` assembles: one assignment per supplied field. */
  function Patched(patch: UpdateItemInput): Item -> Item {
    (i: Item) =>
      i.(name := patch.name.GetOr(i.name),
         description := patch.description.GetOr(i.description),
         price := patch.price.GetOr(i.price),
         itemTypeId := patch.itemTypeId.GetOr(i.itemTypeId),
         imageUrl := patch.imageUrl.GetOr(i.imageUrl))
  }

  /** No field supplied: `update` has nothing to set. */
  predicate IsEmptyPatch(patch: UpdateItemInput) {
    patch.name.None? && patch.description.None? && patch.price.None? && patch.itemTypeId.None? && patch.imageUrl.None?
  }

  /** `getById`: the item with that id, or null. */
  function GetById(rows: seq<Item>, id: int): (r: Option<Item>)
    ensures r.Some? ==> r.value in rows && r.value.id == id
    ensures r.None? <==> forall k :: 0 <= k < |rows| ==> rows[k].id != id
  {
    Sql.First(rows, HasId(id))
  }

  /** The row `create` inserts: the next rowid, and `''` for a missing (or
      empty) description; `imageUrl || ''` keeps the URL as given. */
  function NewRow(rows: seq<Item>, input: CreateItemInput): (r: Item)
    ensures r.id !in set k | 0 <= k < |rows| :: rows[k].id
    ensures r.name == input.name && r.price == input.price && r.itemTypeId == input.itemTypeId
    ensures r.imageUrl == input.imageUrl
    ensures r.description == if input.description.Some? then input.description.value else ""
  {
    Item(Sql.NextId(rows, RowId), input.name, input.description.GetOr(""), input.price, input.itemTypeId,
         input.imageUrl)
  }

  /** The table after a non-empty `update` of item `id`: that row takes the
      supplied fields and keeps the others, every other item is untouched. */
  function ApplyPatch(rows: seq<Item>, id: int, patch: UpdateItemInput): (r: seq<Item>)
    ensures |r| == |rows|
    ensures forall k :: 0 <= k < |rows| && rows[k].id != id ==> r[k] == rows[k]
    ensures forall k :: 0 <= k < |rows| && rows[k].id == id ==>
      && r[k].id == id
      && r[k].name == (if patch.name.Some? then patch.name.value else rows[k].name)
      && r[k].description == (if patch.description.Some? then patch.description.value else rows[k].description)
      && r[k].price == (if patch.price.Some? then patch.price.value else rows[k].price)
      && r[k].itemTypeId == (if patch.itemTypeId.Some? then patch.itemTypeId.value else rows[k].itemTypeId)
      && r[k].imageUrl == (if patch.imageUrl.Some? then patch.imageUrl.value else rows[k].imageUrl)
  {
    Sql.UpdateWhere(rows, HasId(id), Patched(patch))
  }

  /** The table after `delete`: the item is gone, the others stay in order. */
  function DeleteById(rows: seq<Item>, id: int): (r: seq<Item>)
    ensures forall i :: i in r <==> i in rows && i.id != id
    ensures GetById(r, id).None?
  {
    Sql.DeleteWhere(rows, HasId(id))
  }

  /** `create`: inserts the row and resolves with its id. */
  method Create(db: Store, input: CreateItemInput) returns (newId: int)
    modifies db`items
    ensures newId == NewRow(old(db.items), input).id
    ensures db.items == old(db.items) + [NewRow(old(db.items), input)]
  {
    newId := Sql.NextId(db.items, RowId);
    var description := if input.description.Some? && input.description.value != "" then input.description.value else "";
    db.items := db.items + [Item(newId, input.name, description, input.price, input.itemTypeId, input.imageUrl)];
  }

  /** `update`: an empty patch resolves false and writes nothing; otherwise
      the patch is applied and the result says whether the item existed. */
  method Update(db: Store, id: int, patch: UpdateItemInput) returns (changed: bool)
    modifies db`items
    ensures IsEmptyPatch(patch) ==> !changed && db.items == old(db.items)
    ensures !IsEmptyPatch(patch) ==> db.items == ApplyPatch(old(db.items), id, patch)
    ensures !IsEmptyPatch(patch) ==> (changed <==> GetById(old(db.items), id).Some?)
  {
    if IsEmptyPatch(patch) {
      return false;
    }
    changed := Sql.AnyRow(db.items, HasId(id));
    db.items := Sql.UpdateWhere(db.items, HasId(id), Patched(patch));
  }

  /** `delete`: removes the item and says whether it existed. */
  method Delete(db: Store, id: int) returns (deleted: bool)
    modifies db`items
    ensures db.items == DeleteById(old(db.items), id)
    ensures deleted <==> GetById(old(db.items), id).Some?
  {
    deleted := Sql.AnyRow(db.items, HasId(id));
    db.items := Sql.DeleteWhere(db.items, HasId(id));
  }

  /** Reading an item back after a non-empty `update` finds the old item
      with the patch applied; an absent item stays absent. */
  lemma ReadBackPatched(rows: seq<Item>, id: int, patch: UpdateItemInput)
    ensures var before := GetById(rows, id);
            GetById(ApplyPatch(rows, id, patch), id)
              == if before.Some? then Some(Patched(patch)(before.value)) else None
  {
    Sql.FirstAfterUpdate(rows, HasId(id), Patched(patch));
  }

  /** `create` then reading the new id back finds the inserted item, and
      deleting it gives back the table as it was. */
  lemma CreateReadDelete(rows: seq<Item>, input: CreateItemInput)
    ensures GetById(rows + [NewRow(rows, input)], NewRow(rows, input).id) == Some(NewRow(rows, input))
    ensures DeleteById(rows + [NewRow(rows, input)], NewRow(rows, input).id) == rows
  {
    var x := NewRow(rows, input);
    Sql.FirstAppended(rows, x, HasId(x.id));
    Sql.DeleteAppended(rows, [x], HasId(x.id));
  }
}
