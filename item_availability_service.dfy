/** backend/src/services/itemAvailabilityService.ts: the stock table, one
    row per (item, size) pair the admin has stocked. Reads are functions of
    the table; writes are methods on the database. */
module ItemAvailabilityService {
  import opened Wrappers
  import opened Schema
  import opened ItemValidation
  import Sql

  /** The `WHERE id = ?` clause. */
  function HasId(id: int): ItemAvailability -> bool {
    (a: ItemAvailability) => a.id == id
  }

  /** The `WHERE itemId = ?` clause. */
  function HasItem(itemId: int): ItemAvailability -> bool {
    (a: ItemAvailability) => a.itemId == itemId
  }

  /** The `WHERE itemId = ? AND sizeId = ?` clause. */
  predicate Stocks(a: ItemAvailability, itemId: int, sizeId: int) {
    a.itemId == itemId && a.sizeId == sizeId
  }

  /** The `SET` list `update` assembles: one assignment per supplied field. */
  function Patched(patch: AvailabilityPatch): ItemAvailability -> ItemAvailability {
    (a: ItemAvailability) =>
      a.(itemId := patch.itemId.GetOr(a.itemId),
         sizeId := patch.sizeId.GetOr(a.sizeId),
         quantityInStock := patch.quantityInStock.GetOr(a.quantityInStock))
  }

  function RowId(a: ItemAvailability): int { a.id }

  /** No two rows stock the same (item, size) pair. */
  ghost predicate UniquePairs(rows: seq<ItemAvailability>) {
    forall j, k :: 0 <= j < k < |rows| ==>
      !(rows[j].itemId == rows[k].itemId && rows[j].sizeId == rows[k].sizeId)
  }

  /** `getById`: the row with that id, or null. */
  function GetById(rows: seq<ItemAvailability>, id: int): (r: Option<ItemAvailability>)
    ensures r.Some? ==> r.value in rows && r.value.id == id
    ensures r.None? <==> forall k :: 0 <= k < |rows| ==> rows[k].id != id
  {
    Sql.First(rows, HasId(id))
  }

  /** `getByItemId`: exactly the rows of that item, in table order. */
  function GetByItemId(rows: seq<ItemAvailability>, itemId: int): (r: seq<ItemAvailability>)
    ensures forall a :: a in r <==> a in rows && a.itemId == itemId
    ensures Sql.Subsequence(r, rows)
  {
    Sql.Select(rows, HasItem(itemId))
  }

  /** The position of the first row at or after `from` that stocks the
      pair, or `|rows|` when none does. */
  function PairIndex(rows: seq<ItemAvailability>, itemId: int, sizeId: int, from: int): (k: int)
    requires 0 <= from <= |rows|
    ensures from <= k <= |rows|
    ensures k < |rows| ==> Stocks(rows[k], itemId, sizeId)
    ensures forall j :: from <= j < k ==> !Stocks(rows[j], itemId, sizeId)
    decreases |rows| - from
  {
    if from == |rows| || Stocks(rows[from], itemId, sizeId) then from else PairIndex(rows, itemId, sizeId, from + 1)
  }

  /** `getByItemAndSize`: the first row stocking that pair, or null when
      none does. */
  function GetByItemAndSize(rows: seq<ItemAvailability>, itemId: int, sizeId: int): (r: Option<ItemAvailability>)
    ensures r.Some? ==> r.value in rows && r.value.itemId == itemId && r.value.sizeId == sizeId
    ensures r.None? <==> forall k :: 0 <= k < |rows| ==> !(rows[k].itemId == itemId && rows[k].sizeId == sizeId)
  {
    var k := PairIndex(rows, itemId, sizeId, 0);
    if k < |rows| then Some(rows[k]) else None
  }

  /** The table after `updateStock`: every row of the pair holds `quantity`,
      every other row is untouched. */
  function SetStock(rows: seq<ItemAvailability>, itemId: int, sizeId: int, quantity: int): (r: seq<ItemAvailability>)
    ensures |r| == |rows|
    ensures forall k :: 0 <= k < |rows| ==>
      r[k] == if Stocks(rows[k], itemId, sizeId) then rows[k].(quantityInStock := quantity) else rows[k]
  {
    seq(|rows|, k requires 0 <= k < |rows| =>
      if Stocks(rows[k], itemId, sizeId) then rows[k].(quantityInStock := quantity) else rows[k])
  }

  /** The table after a non-empty `update` of row `id`: that row takes the
      supplied fields and keeps the others, every other row is untouched. */
  function ApplyPatch(rows: seq<ItemAvailability>, id: int, patch: AvailabilityPatch): (r: seq<ItemAvailability>)
    ensures |r| == |rows|
    ensures forall k :: 0 <= k < |rows| && rows[k].id != id ==> r[k] == rows[k]
    ensures forall k :: 0 <= k < |rows| && rows[k].id == id ==>
      && r[k].id == id
      && r[k].itemId == (if patch.itemId.Some? then patch.itemId.value else rows[k].itemId)
      && r[k].sizeId == (if patch.sizeId.Some? then patch.sizeId.value else rows[k].sizeId)
      && r[k].quantityInStock == (if patch.quantityInStock.Some? then patch.quantityInStock.value else rows[k].quantityInStock)
  {
    Sql.UpdateWhere(rows, HasId(id), Patched(patch))
  }

  /** The table after `delete`: the row with that id is gone, the others stay
      in order. */
  function DeleteById(rows: seq<ItemAvailability>, id: int): (r: seq<ItemAvailability>)
    ensures forall a :: a in r <==> a in rows && a.id != id
    ensures GetById(r, id).None?
    ensures Sql.Subsequence(r, rows)
  {
    Sql.DeleteWhere(rows, HasId(id))
  }

  /** The row `create` inserts: the next rowid and the three given fields. */
  function NewRow(rows: seq<ItemAvailability>, input: AvailabilityInput): ItemAvailability {
    ItemAvailability(Sql.NextId(rows, RowId), input.itemId, input.sizeId, input.quantityInStock)
  }

  /** `create`: inserts the row and resolves with its id. */
  method Create(db: Store, input: AvailabilityInput) returns (newId: int)
    modifies db`availability
    ensures newId == Sql.NextId(old(db.availability), RowId)
    ensures db.availability == old(db.availability) + [NewRow(old(db.availability), input)]
  {
    newId := Sql.NextId(db.availability, RowId);
    db.availability := db.availability + [ItemAvailability(newId, input.itemId, input.sizeId, input.quantityInStock)];
  }

  /** `update`: an empty patch resolves false and writes nothing; otherwise
      the patch is applied to row `id` and the result says whether it
      existed. */
  method Update(db: Store, id: int, patch: AvailabilityPatch) returns (changed: bool)
    modifies db`availability
    ensures patch.IsEmpty() ==> !changed && db.availability == old(db.availability)
    ensures !patch.IsEmpty() ==> db.availability == ApplyPatch(old(db.availability), id, patch)
    ensures !patch.IsEmpty() ==> (changed <==> GetById(old(db.availability), id).Some?)
  {
    if patch.IsEmpty() {
      return false;
    }
    changed := Sql.AnyRow(db.availability, HasId(id));
    db.availability := Sql.UpdateWhere(db.availability, HasId(id), Patched(patch));
  }

  /** `updateStock`: overwrites the pair's stock and says whether any row
      held the pair. */
  method UpdateStock(db: Store, itemId: int, sizeId: int, quantity: int) returns (changed: bool)
    modifies db`availability
    ensures db.availability == SetStock(old(db.availability), itemId, sizeId, quantity)
    ensures changed <==> GetByItemAndSize(old(db.availability), itemId, sizeId).Some?
  {
    changed := PairIndex(db.availability, itemId, sizeId, 0) < |db.availability|;
    db.availability := SetStock(db.availability, itemId, sizeId, quantity);
  }

  /** `delete`: removes the row and says whether it existed. */
  method Delete(db: Store, id: int) returns (deleted: bool)
    modifies db`availability
    ensures db.availability == DeleteById(old(db.availability), id)
    ensures deleted <==> GetById(old(db.availability), id).Some?
  {
    deleted := Sql.AnyRow(db.availability, HasId(id));
    db.availability := Sql.DeleteWhere(db.availability, HasId(id));
  }

  /** Two tables whose rows stock the same pairs position by position find
      each pair at the same position. */
  lemma PairIndexSamePairs(a: seq<ItemAvailability>, b: seq<ItemAvailability>, itemId: int, sizeId: int)
    requires |a| == |b|
    requires forall k :: 0 <= k < |a| ==> a[k].itemId == b[k].itemId && a[k].sizeId == b[k].sizeId
    ensures PairIndex(a, itemId, sizeId, 0) == PairIndex(b, itemId, sizeId, 0)
  {
    var ka, kb := PairIndex(a, itemId, sizeId, 0), PairIndex(b, itemId, sizeId, 0);
    assert !(ka < kb) && !(kb < ka);
  }

  /** Reading the pair back after `updateStock` finds the row that was there
      before, now holding the new quantity: an overwrite, not a delta. */
  lemma StockAfterSetStock(rows: seq<ItemAvailability>, itemId: int, sizeId: int, quantity: int)
    ensures var before := GetByItemAndSize(rows, itemId, sizeId);
            GetByItemAndSize(SetStock(rows, itemId, sizeId, quantity), itemId, sizeId)
              == if before.Some? then Some(before.value.(quantityInStock := quantity)) else None
  {
    PairIndexSamePairs(SetStock(rows, itemId, sizeId, quantity), rows, itemId, sizeId);
  }

  /** `updateStock` on one pair leaves what every other pair reads unchanged. */
  lemma OtherPairsAfterSetStock(rows: seq<ItemAvailability>, itemId: int, sizeId: int, quantity: int, otherItem: int, otherSize: int)
    requires (otherItem, otherSize) != (itemId, sizeId)
    ensures GetByItemAndSize(SetStock(rows, itemId, sizeId, quantity), otherItem, otherSize)
              == GetByItemAndSize(rows, otherItem, otherSize)
  {
    PairIndexSamePairs(SetStock(rows, itemId, sizeId, quantity), rows, otherItem, otherSize);
  }

  /** `updateStock` is idempotent: the same overwrite twice is the overwrite
      once. */
  lemma SetStockIdempotent(rows: seq<ItemAvailability>, itemId: int, sizeId: int, quantity: int)
    ensures SetStock(SetStock(rows, itemId, sizeId, quantity), itemId, sizeId, quantity)
              == SetStock(rows, itemId, sizeId, quantity)
  {
  }

  /** `create` hands out an id no row has, so reading that id back finds the
      new row. */
  lemma ReadBackCreated(rows: seq<ItemAvailability>, input: AvailabilityInput)
    ensures GetById(rows + [NewRow(rows, input)], NewRow(rows, input).id) == Some(NewRow(rows, input))
  {
    var x := NewRow(rows, input);
    Sql.FirstAppended(rows, x, HasId(x.id));
  }

  /** Reading row `id` back after a non-empty `update` finds the old row with
      the patch applied (a patch never changes the id). */
  lemma ReadBackPatched(rows: seq<ItemAvailability>, id: int, patch: AvailabilityPatch)
    ensures var before := GetById(rows, id);
            GetById(ApplyPatch(rows, id, patch), id)
              == if before.Some? then Some(Patched(patch)(before.value)) else None
  {
    Sql.FirstAfterUpdate(rows, HasId(id), Patched(patch));
  }

  /** Deleting the row `create` just inserted gives back the table as it was. */
  lemma DeleteCreated(rows: seq<ItemAvailability>, input: AvailabilityInput)
    ensures DeleteById(rows + [NewRow(rows, input)], NewRow(rows, input).id) == rows
  {
    Sql.DeleteAppended(rows, [NewRow(rows, input)], HasId(NewRow(rows, input).id));
  }

  /** Inserting a pair no row stocks keeps the pairs unique. */
  lemma CreateKeepsPairsUnique(rows: seq<ItemAvailability>, input: AvailabilityInput)
    requires UniquePairs(rows)
    requires GetByItemAndSize(rows, input.itemId, input.sizeId).None?
    ensures UniquePairs(rows + [NewRow(rows, input)])
  {
    var r := rows + [NewRow(rows, input)];
    forall j, k | 0 <= j < k < |r|
      ensures !(r[j].itemId == r[k].itemId && r[j].sizeId == r[k].sizeId)
    {
      if k == |rows| {
        assert r[j] == rows[j];
      } else {
        assert r[j] == rows[j] && r[k] == rows[k];
      }
    }
  }
}
