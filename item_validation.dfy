/** The request schemas of backend/src/validation/itemValidation.ts as
    predicates over already-parsed request bodies. Prices are integer
    cents; the URL format check on `imageUrl` is not modelled (any string
    passes). */
module ItemValidation {
  import opened Wrappers

  datatype CreateItemInput = CreateItemInput(
    name: string, description: Option<string>, price: int, itemTypeId: int, imageUrl: string)

  /** `createItemSchema.partial()`: every field may be left out. */
  datatype UpdateItemInput = UpdateItemInput(
    name: Option<string>, description: Option<string>, price: Option<int>,
    itemTypeId: Option<int>, imageUrl: Option<string>)

  datatype ItemTypeSizeInput = ItemTypeSizeInput(itemTypeId: int, sizeId: int)

  datatype AvailabilityInput = AvailabilityInput(itemId: int, sizeId: int, quantityInStock: int)

  /** `itemAvailabilitySchema.partial()`, the body of an availability update. */
  datatype AvailabilityPatch = AvailabilityPatch(itemId: Option<int>, sizeId: Option<int>, quantityInStock: Option<int>)
  {
    /** No field supplied: the update has nothing to set. */
    predicate IsEmpty() { itemId.None? && sizeId.None? && quantityInStock.None? }
  }

  /** `z.string().min(1)`: the name schemas of item types and sizes. */
  predicate ValidName(name: string) { |name| >= 1 }

  /** `createItemSchema`: a non-empty name, a positive price and a positive
      item type id. */
  predicate ValidCreateItem(input: CreateItemInput) {
    ValidName(input.name) && input.price > 0 && input.itemTypeId > 0
  }

  /** `updateItemSchema`: each supplied field obeys the create rule for it. */
  predicate ValidUpdateItem(input: UpdateItemInput) {
    && (input.name.Some? ==> ValidName(input.name.value))
    && (input.price.Some? ==> input.price.value > 0)
    && (input.itemTypeId.Some? ==> input.itemTypeId.value > 0)
  }

  /** `itemTypeSizeSchema`: two positive ids. */
  predicate ValidItemTypeSize(input: ItemTypeSizeInput) {
    input.itemTypeId > 0 && input.sizeId > 0
  }

  /** `itemAvailabilitySchema`: positive ids and a stock count of zero or
      more. */
  predicate ValidAvailability(input: AvailabilityInput) {
    input.itemId > 0 && input.sizeId > 0 && input.quantityInStock >= 0
  }

  /** `itemAvailabilitySchema.partial()`: each supplied field obeys its rule. */
  predicate ValidAvailabilityPatch(patch: AvailabilityPatch) {
    && (patch.itemId.Some? ==> patch.itemId.value > 0)
    && (patch.sizeId.Some? ==> patch.sizeId.value > 0)
    && (patch.quantityInStock.Some? ==> patch.quantityInStock.value >= 0)
  }

  /** A create body with every field given, read as an update body. */
  function AsUpdate(input: CreateItemInput): UpdateItemInput {
    UpdateItemInput(Some(input.name), input.description, Some(input.price), Some(input.itemTypeId), Some(input.imageUrl))
  }

  /** The update schema is the create schema with every field made optional:
      a valid create body is a valid update body, the empty body is a valid
      update body, and an update body that supplies every required field is
      valid exactly when the create body it spells is. */
  lemma UpdateSchemaIsPartialCreate(input: CreateItemInput)
    ensures ValidCreateItem(input) ==> ValidUpdateItem(AsUpdate(input))
    ensures ValidUpdateItem(UpdateItemInput(None, None, None, None, None))
    ensures ValidUpdateItem(AsUpdate(input)) <==> ValidCreateItem(input)
  {
  }

  /** The availability update schema is the create schema made optional. */
  lemma AvailabilityPatchIsPartialCreate(input: AvailabilityInput)
    ensures var patch := AvailabilityPatch(Some(input.itemId), Some(input.sizeId), Some(input.quantityInStock));
            ValidAvailabilityPatch(patch) <==> ValidAvailability(input)
    ensures ValidAvailabilityPatch(AvailabilityPatch(None, None, None))
  {
  }
}
