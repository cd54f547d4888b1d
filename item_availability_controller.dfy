/** backend/src/controllers/itemAvailabilityController.ts: the request
    handlers over the stock table. A path parameter is an `Option<int>`
    (`None` when `parseInt` gives NaN); a body field that is not a JSON
    number is `None`. */
module ItemAvailabilityController {
  import opened Wrappers
  import opened Schema
  import opened Http
  import opened ItemValidation
  import opened ItemAvailabilityService
  import Sql

  /** `create`: 400 on an invalid body, 409 with the existing id when the
      pair is already stocked, otherwise 201 with the inserted row. */
  method Create(db: Store, input: AvailabilityInput) returns (resp: Response<ItemAvailability>)
    modifies db`availability
    ensures !ValidAvailability(input) ==>
      resp == Err(400, Error("Validation failed")) && db.availability == old(db.availability)
    ensures ValidAvailability(input) && GetByItemAndSize(old(db.availability), input.itemId, input.sizeId).Some? ==>
      && resp == Err(409, Duplicate("A record for this item and size already exists",
                                    GetByItemAndSize(old(db.availability), input.itemId, input.sizeId).value.id))
      && db.availability == old(db.availability)
    ensures ValidAvailability(input) && GetByItemAndSize(old(db.availability), input.itemId, input.sizeId).None? ==>
      && db.availability == old(db.availability) + [NewRow(old(db.availability), input)]
      && resp == Ok(201, NewRow(old(db.availability), input))
    ensures UniquePairs(old(db.availability)) ==> UniquePairs(db.availability)
  {
    if !ValidAvailability(input) {
      return Err(400, Error("Validation failed"));
    }
    var existing := GetByItemAndSize(db.availability, input.itemId, input.sizeId);
    if existing.Some? {
      return Err(409, Duplicate("A record for this item and size already exists", existing.value.id));
    }
    ghost var before := db.availability;
    if UniquePairs(before) {
      CreateKeepsPairsUnique(before, input);
    }
    var newId := ItemAvailabilityService.Create(db, input);
    ReadBackCreated(before, input);
    var created := GetById(db.availability, newId);
    resp := Ok(201, created.value);
  }

  /** `update`: 400 on a bad id or body, 404 for an unknown row, 400 "No
      changes made" for an empty patch, otherwise 200 with the patched row.
      No check keeps the (item, size) pairs unique. */
  method Update(db: Store, id: Option<int>, patch: AvailabilityPatch) returns (resp: Response<ItemAvailability>)
    modifies db`availability
    ensures id.None? ==> resp == Err(400, Error("Invalid ID format"))
    ensures id.Some? && !ValidAvailabilityPatch(patch) ==> resp == Err(400, Error("Validation failed"))
    ensures id.Some? && ValidAvailabilityPatch(patch) && GetById(old(db.availability), id.value).None? ==>
      resp == Err(404, Error("Item availability record not found"))
    ensures id.Some? && ValidAvailabilityPatch(patch) && GetById(old(db.availability), id.value).Some? && patch.IsEmpty() ==>
      resp == Err(400, Error("No changes made"))
    ensures id.Some? && ValidAvailabilityPatch(patch) && GetById(old(db.availability), id.value).Some? ==>
      (resp.Ok? <==> !patch.IsEmpty())
    ensures resp.Err? ==> db.availability == old(db.availability)
    ensures resp.Ok? ==>
      && id.Some? && !patch.IsEmpty()
      && GetById(old(db.availability), id.value).Some?
      && db.availability == ApplyPatch(old(db.availability), id.value, patch)
      && resp == Ok(200, Patched(patch)(GetById(old(db.availability), id.value).value))
  {
    if id.None? {
      return Err(400, Error("Invalid ID format"));
    }
    if !ValidAvailabilityPatch(patch) {
      return Err(400, Error("Validation failed"));
    }
    var record := GetById(db.availability, id.value);
    if record.None? {
      return Err(404, Error("Item availability record not found"));
    }
    ghost var before := db.availability;
    var updated := ItemAvailabilityService.Update(db, id.value, patch);
    if !updated {
      return Err(400, Error("No changes made"));
    }
    ReadBackPatched(before, id.value, patch);
    var updatedRecord := GetById(db.availability, id.value);
    resp := Ok(200, updatedRecord.value);
  }

  /** `updateStock`: 400 on a bad id or a quantity that is not a number of
      zero or more, 404 when the pair has no row, otherwise 200 with the
      pair's row now holding exactly the requested quantity. */
  method UpdateStock(db: Store, itemId: Option<int>, sizeId: Option<int>, quantityInStock: Option<int>)
    returns (resp: Response<ItemAvailability>)
    modifies db`availability
    ensures itemId.None? || sizeId.None? ==> resp == Err(400, Error("Invalid ID format"))
    ensures itemId.Some? && sizeId.Some? && (quantityInStock.None? || quantityInStock.value < 0) ==>
      resp == Err(400, Error("Quantity must be a non-negative number"))
    ensures itemId.Some? && sizeId.Some? && quantityInStock.Some? && quantityInStock.value >= 0
            && GetByItemAndSize(old(db.availability), itemId.value, sizeId.value).None? ==>
      resp == Err(404, Error("No availability record found for this item and size"))
    ensures itemId.Some? && sizeId.Some? && quantityInStock.Some? && quantityInStock.value >= 0
            && GetByItemAndSize(old(db.availability), itemId.value, sizeId.value).Some? ==>
      resp.Ok?
    ensures resp.Err? ==> db.availability == old(db.availability)
    ensures resp.Ok? ==>
      && itemId.Some? && sizeId.Some? && quantityInStock.Some?
      && db.availability == SetStock(old(db.availability), itemId.value, sizeId.value, quantityInStock.value)
      && GetByItemAndSize(old(db.availability), itemId.value, sizeId.value).Some?
      && resp == Ok(200, GetByItemAndSize(old(db.availability), itemId.value, sizeId.value).value
                           .(quantityInStock := quantityInStock.value))
      && resp.body.itemId == itemId.value && resp.body.sizeId == sizeId.value
  {
    if itemId.None? || sizeId.None? {
      return Err(400, Error("Invalid ID format"));
    }
    if quantityInStock.None? || quantityInStock.value < 0 {
      return Err(400, Error("Quantity must be a non-negative number"));
    }
    var record := GetByItemAndSize(db.availability, itemId.value, sizeId.value);
    if record.None? {
      return Err(404, Error("No availability record found for this item and size"));
    }
    ghost var before := db.availability;
    var _ := ItemAvailabilityService.UpdateStock(db, itemId.value, sizeId.value, quantityInStock.value);
    StockAfterSetStock(before, itemId.value, sizeId.value, quantityInStock.value);
    var updatedRecord := GetByItemAndSize(db.availability, itemId.value, sizeId.value);
    resp := Ok(200, updatedRecord.value);
  }

  /** `delete`: 400 on a bad id, 404 for an unknown row, otherwise 204 with
      the row removed. */
  method Delete(db: Store, id: Option<int>) returns (resp: Response<()>)
    modifies db`availability
    ensures id.None? ==> resp == Err(400, Error("Invalid ID format"))
    ensures id.Some? && GetById(old(db.availability), id.value).None? ==>
      resp == Err(404, Error("Item availability record not found"))
    ensures id.Some? && GetById(old(db.availability), id.value).Some? ==> resp.Ok?
    ensures resp.Err? ==> db.availability == old(db.availability)
    ensures resp.Ok? ==>
      && id.Some? && GetById(old(db.availability), id.value).Some?
      && resp == Ok(204, ())
      && db.availability == DeleteById(old(db.availability), id.value)
  {
    if id.None? {
      return Err(400, Error("Invalid ID format"));
    }
    var record := GetById(db.availability, id.value);
    if record.None? {
      return Err(404, Error("Item availability record not found"));
    }
    var _ := ItemAvailabilityService.Delete(db, id.value);
    resp := Ok(204, ());
  }

  /** `update` can give two rows the same pair: moving row 2 onto size 1 of
      item 1, which row 1 already stocks, is accepted. */
  lemma UpdateCanDuplicatePair()
    ensures var rows := [ItemAvailability(1, 1, 1, 5), ItemAvailability(2, 1, 2, 3)];
            var patch := AvailabilityPatch(None, Some(1), None);
            && UniquePairs(rows)
            && ValidAvailabilityPatch(patch) && !patch.IsEmpty()
            && GetById(rows, 2).Some?
            && !UniquePairs(ApplyPatch(rows, 2, patch))
  {
    var rows := [ItemAvailability(1, 1, 1, 5), ItemAvailability(2, 1, 2, 3)];
    var r := ApplyPatch(rows, 2, AvailabilityPatch(None, Some(1), None));
    assert r[0] == rows[0];
    assert r[1].itemId == 1 && r[1].sizeId == 1;
  }
}
