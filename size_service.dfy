/** backend/src/services/sizeService.ts: the size table and the unguarded
    ItemType-to-Size association table. */
module SizeService {
  import opened Wrappers
  import opened Schema
  import Sql

  /** The `WHERE id = ?` clause. */
  function HasId(id: int): Size -> bool {
    (s: Size) => s.id == id
  }

  /** The `WHERE itemTypeId = ? AND sizeId = ?` clause. */
  function IsPair(itemTypeId: int, sizeId: int): ItemTypeSize -> bool {
    (m: ItemTypeSize) => m.itemTypeId == itemTypeId && m.sizeId == sizeId
  }

  function WithName(name: string): Size -> Size {
    (s: Size) => s.(name := name)
  }

  /** How many association rows link the item type to the size. */
  function PairCount(mappings: seq<ItemTypeSize>, itemTypeId: int, sizeId: int): nat {
    multiset(mappings)[ItemTypeSize(itemTypeId, sizeId)]
  }

  /** `getById`: the size with that id, or null. */
  function GetById(rows: seq<Size>, id: int): (r: Option<Size>)
    ensures r.Some? ==> r.value in rows && r.value.id == id
    ensures r.None? <==> forall k :: 0 <= k < |rows| ==> rows[k].id != id
  {
    Sql.First(rows, HasId(id))
  }

  /** `getSizesByItemType`: the inner join of the association rows of the
      item type with the size table. Every size comes back once per
      association row that links it to the type, so duplicated rows give
      duplicated sizes; SQL fixes no order, so only the multiset is stated. */
  function GetSizesByItemType(sizes: seq<Size>, mappings: seq<ItemTypeSize>, itemTypeId: int): (r: seq<Size>)
    ensures forall s :: multiset(r)[s] == multiset(sizes)[s] * PairCount(mappings, itemTypeId, s.id)
    decreases |mappings|
  {
    if mappings == [] then []
    else
      var m := mappings[0];
      var rest := GetSizesByItemType(sizes, mappings[1..], itemTypeId);
      var here := if m.itemTypeId == itemTypeId then Sql.Select(sizes, HasId(m.sizeId)) else [];
      JoinStep(sizes, mappings, itemTypeId, here, rest);
      here + rest
  }

  /** One association row's share of the join. */
  lemma JoinStep(sizes: seq<Size>, mappings: seq<ItemTypeSize>, itemTypeId: int, here: seq<Size>, rest: seq<Size>)
    requires mappings != []
    requires here == if mappings[0].itemTypeId == itemTypeId then Sql.Select(sizes, HasId(mappings[0].sizeId)) else []
    requires forall s :: multiset(rest)[s] == multiset(sizes)[s] * PairCount(mappings[1..], itemTypeId, s.id)
    ensures forall s :: multiset(here + rest)[s] == multiset(sizes)[s] * PairCount(mappings, itemTypeId, s.id)
  {
    forall s: Size ensures multiset(here + rest)[s] == multiset(sizes)[s] * PairCount(mappings, itemTypeId, s.id) {
      JoinStepAt(sizes, mappings, itemTypeId, here, rest, s);
    }
  }

  /** One link of the join, for one row: the row is counted once more when
      the link pairs it with the key, and as before otherwise. */
  lemma JoinStepAt(sizes: seq<Size>, mappings: seq<ItemTypeSize>, itemTypeId: int, here: seq<Size>, rest: seq<Size>, s: Size)
    requires mappings != []
    requires here == if mappings[0].itemTypeId == itemTypeId then Sql.Select(sizes, HasId(mappings[0].sizeId)) else []
    requires multiset(rest)[s] == multiset(sizes)[s] * PairCount(mappings[1..], itemTypeId, s.id)
    ensures multiset(here + rest)[s] == multiset(sizes)[s] * PairCount(mappings, itemTypeId, s.id)
  {
    var m := mappings[0];
    assert mappings == [m] + mappings[1..];
    var n := multiset(sizes)[s];
    var c := PairCount(mappings[1..], itemTypeId, s.id);
    if m == ItemTypeSize(itemTypeId, s.id) {
      assert PairCount(mappings, itemTypeId, s.id) == c + 1;
      assert multiset(here)[s] == n;
    } else {
      assert PairCount(mappings, itemTypeId, s.id) == c;
      assert multiset(here)[s] == 0;
    }
    Sql.CountStep(multiset(here)[s], multiset(rest)[s], n, c, PairCount(mappings, itemTypeId, s.id));
  }

  /** The table after `update`: the size with that id takes the new name,
      every other size is untouched. */
  function Rename(rows: seq<Size>, id: int, name: string): (r: seq<Size>)
    ensures |r| == |rows|
    ensures forall k :: 0 <= k < |rows| ==> r[k] == if rows[k].id == id then Size(id, name) else rows[k]
  {
    Sql.UpdateWhere(rows, HasId(id), WithName(name))
  }

  /** The table after `delete`: the size is gone, the others stay in order. */
  function DeleteById(rows: seq<Size>, id: int): (r: seq<Size>)
    ensures forall s :: s in r <==> s in rows && s.id != id
    ensures GetById(r, id).None?
  {
    Sql.DeleteWhere(rows, HasId(id))
  }

  /** The association table after `itemTypeSizeService.delete`: every row of
      the pair is gone, the others stay in order. */
  function Unlinked(mappings: seq<ItemTypeSize>, itemTypeId: int, sizeId: int): (r: seq<ItemTypeSize>)
    ensures forall m :: m in r <==> m in mappings && m != ItemTypeSize(itemTypeId, sizeId)
    ensures PairCount(r, itemTypeId, sizeId) == 0
  {
    Sql.DeleteWhere(mappings, IsPair(itemTypeId, sizeId))
  }

  /** `update`: renames the size and says whether it existed. */
  method Update(db: Store, id: int, name: string) returns (changed: bool)
    modifies db`sizes
    ensures db.sizes == Rename(old(db.sizes), id, name)
    ensures changed <==> GetById(old(db.sizes), id).Some?
  {
    changed := Sql.AnyRow(db.sizes, HasId(id));
    db.sizes := Sql.UpdateWhere(db.sizes, HasId(id), WithName(name));
  }

  /** `delete`: removes the size and says whether it existed. */
  method Delete(db: Store, id: int) returns (deleted: bool)
    modifies db`sizes
    ensures db.sizes == DeleteById(old(db.sizes), id)
    ensures deleted <==> GetById(old(db.sizes), id).Some?
  {
    deleted := Sql.AnyRow(db.sizes, HasId(id));
    db.sizes := Sql.DeleteWhere(db.sizes, HasId(id));
  }

  /** `itemTypeSizeService.create`: always inserts, even a pair already
      present, and reports one changed row. */
  method LinkSize(db: Store, itemTypeId: int, sizeId: int) returns (created: bool)
    modifies db`itemTypeSizes
    ensures created
    ensures db.itemTypeSizes == old(db.itemTypeSizes) + [ItemTypeSize(itemTypeId, sizeId)]
  {
    db.itemTypeSizes := db.itemTypeSizes + [ItemTypeSize(itemTypeId, sizeId)];
    created := true;
  }

  /** `itemTypeSizeService.delete`: removes every row of the pair and says
      whether there was one. */
  method UnlinkSize(db: Store, itemTypeId: int, sizeId: int) returns (deleted: bool)
    modifies db`itemTypeSizes
    ensures db.itemTypeSizes == Unlinked(old(db.itemTypeSizes), itemTypeId, sizeId)
    ensures deleted <==> PairCount(old(db.itemTypeSizes), itemTypeId, sizeId) > 0
  {
    deleted := Sql.AnyRow(db.itemTypeSizes, IsPair(itemTypeId, sizeId));
    db.itemTypeSizes := Sql.DeleteWhere(db.itemTypeSizes, IsPair(itemTypeId, sizeId));
  }

  /** Reading a size back after `update` finds it under the new name. */
  lemma RenamedReadBack(rows: seq<Size>, id: int, name: string)
    ensures GetById(Rename(rows, id, name), id) == if GetById(rows, id).Some? then Some(Size(id, name)) else None
  {
    Sql.FirstAfterUpdate(rows, HasId(id), WithName(name));
  }

  /** Linking a pair adds exactly one association row for it, whether or not
      one was already there. */
  lemma LinkCounts(mappings: seq<ItemTypeSize>, itemTypeId: int, sizeId: int)
    ensures PairCount(mappings + [ItemTypeSize(itemTypeId, sizeId)], itemTypeId, sizeId)
              == PairCount(mappings, itemTypeId, sizeId) + 1
  {
  }
}
