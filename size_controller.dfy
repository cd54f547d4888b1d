/** backend/src/controllers/sizeController.ts: the update and delete
    handlers of sizes and the handlers of the ItemType-to-Size association.
    A path parameter is an `Option<int>` (`None` when `parseInt` gives
    NaN). */
module SizeController {
  import opened Wrappers
  import opened Schema
  import opened Http
  import opened ItemValidation
  import opened SizeService

  /** `sizeController.update`: 400 on a bad id or an empty name, 404 for an
      unknown size, otherwise 200 with the renamed size. */
  method Update(db: Store, id: Option<int>, name: string) returns (resp: Response<Size>)
    modifies db`sizes
    ensures id.None? ==> resp == Err(400, Error("Invalid ID format"))
    ensures id.Some? && !ValidName(name) ==> resp == Err(400, Error("Validation failed"))
    ensures id.Some? && ValidName(name) && GetById(old(db.sizes), id.value).None? ==>
      resp == Err(404, Error("Size not found"))
    ensures id.Some? && ValidName(name) && GetById(old(db.sizes), id.value).Some? ==> resp.Ok?
    ensures resp.Err? ==> db.sizes == old(db.sizes)
    ensures resp.Ok? ==>
      && id.Some? && GetById(old(db.sizes), id.value).Some?
      && db.sizes == Rename(old(db.sizes), id.value, name)
      && resp == Ok(200, Size(id.value, name))
  {
    if id.None? {
      return Err(400, Error("Invalid ID format"));
    }
    if !ValidName(name) {
      return Err(400, Error("Validation failed"));
    }
    var size := GetById(db.sizes, id.value);
    if size.None? {
      return Err(404, Error("Size not found"));
    }
    ghost var before := db.sizes;
    var _ := SizeService.Update(db, id.value, name);
    RenamedReadBack(before, id.value, name);
    var updatedSize := GetById(db.sizes, id.value);
    resp := Ok(200, updatedSize.value);
  }

  /** `sizeController.delete`: 400 on a bad id, 404 for an unknown size,
      otherwise 204 with the size removed. */
  method Delete(db: Store, id: Option<int>) returns (resp: Response<()>)
    modifies db`sizes
    ensures id.None? ==> resp == Err(400, Error("Invalid ID format"))
    ensures id.Some? && GetById(old(db.sizes), id.value).None? ==> resp == Err(404, Error("Size not found"))
    ensures id.Some? && GetById(old(db.sizes), id.value).Some? ==> resp.Ok?
    ensures resp.Err? ==> db.sizes == old(db.sizes)
    ensures resp.Ok? ==>
      && id.Some? && GetById(old(db.sizes), id.value).Some?
      && resp == Ok(204, ()) && db.sizes == DeleteById(old(db.sizes), id.value)
  {
    if id.None? {
      return Err(400, Error("Invalid ID format"));
    }
    var size := GetById(db.sizes, id.value);
    if size.None? {
      return Err(404, Error("Size not found"));
    }
    var _ := SizeService.Delete(db, id.value);
    resp := Ok(204, ());
  }

  /** `itemTypeSizeController.create`: 400 when the ids are not positive,
      otherwise the pair is inserted, with no check that the type or the
      size exists or that the pair is new, and echoed with 201. */
  method CreateMapping(db: Store, input: ItemTypeSizeInput) returns (resp: Response<ItemTypeSize>)
    modifies db`itemTypeSizes
    ensures !ValidItemTypeSize(input) ==>
      resp == Err(400, Error("Validation failed")) && db.itemTypeSizes == old(db.itemTypeSizes)
    ensures ValidItemTypeSize(input) ==>
      && resp == Ok(201, ItemTypeSize(input.itemTypeId, input.sizeId))
      && db.itemTypeSizes == old(db.itemTypeSizes) + [ItemTypeSize(input.itemTypeId, input.sizeId)]
  {
    if !ValidItemTypeSize(input) {
      return Err(400, Error("Validation failed"));
    }
    var _ := LinkSize(db, input.itemTypeId, input.sizeId);
    resp := Ok(201, ItemTypeSize(input.itemTypeId, input.sizeId));
  }

  /** `itemTypeSizeController.delete`: 400 on a bad id, 404 when no row of
      the pair was removed, otherwise 204 with every row of the pair gone. */
  method DeleteMapping(db: Store, itemTypeId: Option<int>, sizeId: Option<int>) returns (resp: Response<()>)
    modifies db`itemTypeSizes
    ensures itemTypeId.None? || sizeId.None? ==>
      resp == Err(400, Error("Invalid ID format")) && db.itemTypeSizes == old(db.itemTypeSizes)
    ensures itemTypeId.Some? && sizeId.Some? ==>
      && db.itemTypeSizes == Unlinked(old(db.itemTypeSizes), itemTypeId.value, sizeId.value)
      && (resp == if PairCount(old(db.itemTypeSizes), itemTypeId.value, sizeId.value) > 0
                  then Ok(204, ()) else Err(404, Error("Mapping not found")))
  {
    if itemTypeId.None? || sizeId.None? {
      return Err(400, Error("Invalid ID format"));
    }
    var deleted := UnlinkSize(db, itemTypeId.value, sizeId.value);
    if !deleted {
      return Err(404, Error("Mapping not found"));
    }
    resp := Ok(204, ());
  }
}
