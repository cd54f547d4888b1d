# Merch store: a verified model of the order ledger, the association tables and the shop front

This project models the core of an internal merchandise store, a TypeScript
system with two halves:

- an Express/SQLite backend of services and request handlers;
- a React shop front.

The SQLite tables are `seq` fields of one `Schema.Store` object. Each service
call and each request handler is one atomic step on those tables. Every
`UPDATE … WHERE` and `DELETE … WHERE` touches all matching rows, and a
service reports "changed" when at least one row matched.

**Backend**

- **Order and inventory ledger** (`OrderController`, `OrderService`,
  `ItemAvailabilityService`, `ItemAvailabilityController`).
  - Placing an order runs three steps:
    - every line is checked against the stock as it stood before the order;
    - the order row and its lines are inserted;
    - each line's (item, size) stock is re-read and overwritten.
  - Deleting an order fetches its lines, deletes them, and puts their
    quantities back.
  - Every refused request leaves the three tables unchanged.
  - Creating an order and then deleting it restores every stock level.
  - When no (item, size) pair appears twice in an order, no stock goes
    negative. With a repeated pair the check passes and stock does go
    negative: `OrderController.RepeatedPairOversells` exhibits this.
- **Association tables.**
  - Role↔permission (`RoleService`, `RoleController`) has existence and
    duplicate guards.
  - Item type↔size (`SizeService`, `SizeController`) has no guard. Its join
    returns a size once per linking row.
- **Users** (`UserService`, `UserController`). E-mail addresses stay unique
  through create and update.
- **Patch updates.** Only the supplied fields change, and an empty patch
  writes nothing.
- **Request schemas** (`OrderValidation`, `ItemValidation`) are predicates.

**Shop front**

- the cart store (`CartStore`), kept unique by (item, size) pair, with its
  totals;
- the item-type form's size diff and sync (`ItemTypesForm`);
- the catalogue filter and sort (`StorePage`);
- the product dialog's stock lookup, quantity clamp and add-to-cart guard
  (`StoreItemModal`);
- the checkout form and the order it submits (`CheckoutPage`);
- the admin user form (`UsersForm`);
- the confirmation page's countdown and clock text (`ConfirmPage`).

**Representation**

- Prices are integer cents.
- Path parameters are `Option<int>`, where `None` is what `parseInt` gives
  as NaN.
- Responses are `Http.Response`: `Ok(status, body)` or
  `Err(status, error)`.
- Shared building blocks:
  - `Sql` holds the WHERE-clause semantics;
  - `Sorting` is a stable insertion sort standing in for `Array.prototype.sort`;
  - `Text` covers trim, lower-case, `includes`, the string comparison and
    number formatting;
  - `EmailFormat` is the e-mail pattern.

## Model

| member | source | states |
|---|---|---|
| OrderController.StockProblem | backend/src/controllers/orderController.ts:93-115 | None exactly when every line's pair is stocked with at least the line's quantity, each line compared alone with the stock before the order; otherwise the 400 body of the first failing line (not available / not enough stock with requested and available) |
| OrderController.CheckStock | backend/src/controllers/orderController.ts:93-115 | the check loop returns the same verdict as `StockProblem` and writes nothing |
| OrderController.TakeStock | backend/src/controllers/orderController.ts:121-127 | the decrement loop leaves the stock table equal to `Withdraw` of the order's moves, each pass re-reading before it overwrites |
| OrderController.PutBackStock | backend/src/controllers/orderController.ts:203-209 | the restock loop leaves the stock table equal to `Restore` of the fetched lines' moves; unstocked pairs are skipped |
| OrderController.Place | backend/src/controllers/orderController.ts:117-136 | after the checks: an unknown item while pricing gives 500 with nothing written; otherwise the order and its lines are inserted, the stock is taken and 201 carries the new order and its line records |
| OrderController.Create | backend/src/controllers/orderController.ts:75-142 | 400 for a body outside `orderSchema`, 404 for an unknown user, 400 for the first unstocked or under-stocked line, 500 for an unknown item; every failure leaves orders, lines and stock unchanged; success is `Placed`; and when all guards pass, the response is a success |
| OrderController.GetById | backend/src/controllers/orderController.ts:20-50 | 400 for a malformed id, 404 for an unknown order, else 200 with the order, its user and exactly its line records; nothing changes |
| OrderController.GetByUserId | backend/src/controllers/orderController.ts:52-73 | 400 for a malformed id, 404 for an unknown user, else 200 with that user's orders, latest first |
| OrderController.UpdateStatus | backend/src/controllers/orderController.ts:144-177 | 400 for a malformed id, 400 for a missing or empty status, 404 for an unknown order; otherwise always 200 (never "No changes made"), and only that order's status changes, whatever its old value |
| OrderController.Delete | backend/src/controllers/orderController.ts:179-214 | 400 for a malformed id, 404 for an unknown order with nothing changed; otherwise the order and all its lines are gone and each fetched quantity is put back on its pair |
| OrderController.Moves | backend/src/controllers/orderController.ts:121-126 | one (item, size, quantity) move per request line, in order |
| OrderController.LineMoves | backend/src/controllers/orderController.ts:196-209 | one move per stored line row, in table order, copying its item, size and quantity |
| OrderController.FirstUncovered | backend/src/controllers/orderController.ts:93-115 | the first line the check rejects, with every earlier line accepted |
| OrderController.StockOfShifted | backend/src/controllers/orderController.ts:122-125 | overwriting a pair's row with its stock plus delta makes the pair read the old stock plus delta |
| OrderController.StockOfSame | backend/src/services/itemAvailabilityService.ts:52-64 | tables that return the same row for a pair read the same stock for it |
| OrderController.ShiftTwice | backend/src/controllers/orderController.ts:121-127 | two stock shifts compose into one shift by the sum |
| OrderController.ShiftChain | backend/src/controllers/orderController.ts:121-127 | a stock shifted by a and then by b is the original shifted by a + b |
| OrderController.ShiftZero | backend/src/controllers/orderController.ts:121-127 | a shift by zero leaves the stock reading unchanged |
| OrderController.AdjustOwnPair | backend/src/controllers/orderController.ts:122-125 | one re-read-and-overwrite moves its own pair's stock by exactly delta |
| OrderController.AdjustOtherPair | backend/src/controllers/orderController.ts:122-125 | one re-read-and-overwrite leaves what every other pair reads unchanged |
| OrderController.StockAfterAdjust | backend/src/controllers/orderController.ts:122-125 | both of the above at once, for every pair |
| OrderController.WithdrawLast | backend/src/controllers/orderController.ts:121-127 | the decrement loop's last pass touches only its own pair |
| OrderController.RestoreLast | backend/src/controllers/orderController.ts:203-209 | the restock loop's last pass touches only its own pair |
| OrderController.StockAfterWithdraw | backend/src/controllers/orderController.ts:121-127 | after the decrement loop every pair reads its old stock minus the total quantity the order's lines name for it, repeated pairs included |
| OrderController.StockAfterRestore | backend/src/controllers/orderController.ts:203-209 | after the restock loop every pair reads its old stock plus the total quantity the fetched lines name for it; unstocked pairs stay unstocked |
| OrderController.WithdrawThenRestore | backend/src/controllers/orderController.ts:203-209 | restocking the withdrawn moves gives every pair back its earlier stock |
| OrderController.StoredMovesAreRequestMoves | backend/src/services/orderService.ts:167-171 | the line rows stored under the new order name the same pairs and quantities as the request lines |
| OrderController.CreateThenDelete | backend/src/controllers/orderController.ts:117-209 | create followed by delete of the same order removes the order and its lines and restores every pair's stock |
| OrderController.NoOversellWithDistinctPairs | backend/src/controllers/orderController.ts:93-127 | when no pair appears on two lines, an order that passes the check leaves every named pair with non-negative stock |
| OrderController.WithdrawCovered | backend/src/controllers/orderController.ts:105-125 | a line the check accepted, on whose pair the order takes no more than the line's quantity, ends non-negative |
| OrderController.DemandOfOneLine | backend/src/controllers/orderController.ts:121-126 | with distinct pairs, the total taken from a line's pair is that line's quantity |
| OrderController.DemandSplit | backend/src/controllers/orderController.ts:121-126 | a pair named by one move only has that move's quantity as its demand |
| OrderController.DemandNone | backend/src/controllers/orderController.ts:121-126 | a pair no move names has no demand |
| OrderController.RepeatedPairOversells | backend/src/controllers/orderController.ts:93-127 | two lines of 3 on one pair with stock 5 both pass the check and leave the stock at -1 |
| OrderService.ResolvePrices | backend/src/services/orderService.ts:127-138 | succeeds exactly when every line without a price names an existing item; then each line keeps its item, size and quantity and takes its own price or the item's current price; a failure names an unpriceable item |
| OrderService.FirstUnpriceable | backend/src/services/orderService.ts:127-138 | the first line that has no price and no existing item, with all earlier lines priceable |
| OrderService.OrderTotal | backend/src/services/orderService.ts:141-142 | the supplied total when it is present and non-zero, else the sum of price times quantity over the lines |
| OrderService.TotalUnderSchema | backend/src/services/orderService.ts:141-142 | under `orderSchema` the line sum is used exactly when no total is supplied |
| OrderService.OrderDate | backend/src/services/orderService.ts:149 | the supplied non-empty date, else now |
| OrderService.OrderStatus | backend/src/services/orderService.ts:150 | the supplied non-empty status, else "Completed" |
| OrderService.LineRows | backend/src/services/orderService.ts:163-193 | one line row per priced line, in order, all carrying the new order id |
| OrderService.Create | backend/src/services/orderService.ts:125-199 | an unknown item fails with nothing written; otherwise exactly one order row and one line row per input line are appended, all under the returned id |
| OrderService.InsertOrder | backend/src/services/orderService.ts:149-193 | inserts the order row with its defaults, then the line rows, and returns the new id |
| OrderService.InsertLines | backend/src/services/orderService.ts:167-193 | the insert loop appends exactly `LineRows` for the order |
| OrderService.LineRowsSnoc | backend/src/services/orderService.ts:167-193 | the rows of one more line are the earlier rows plus that line's row |
| OrderService.GetAll | backend/src/services/orderService.ts:8-20 | every order as often as stored (a permutation of the table), latest date first |
| OrderService.GetById | backend/src/services/orderService.ts:23-35 | the order with that id, or None exactly when none has it |
| OrderService.GetByUserId | backend/src/services/orderService.ts:38-50 | exactly that user's orders, each as often as stored, latest date first |
| OrderService.NewestFirstAntisymmetric | backend/src/services/orderService.ts:10 | the date comparator flips sign when its arguments swap, so the stable sort orders by it |
| OrderService.ViewOf | backend/src/services/orderService.ts:86-117 | a line record attaches the item only when the join found a named item (defaults '' and 0), and the size only when it found a named size |
| OrderService.Views | backend/src/services/orderService.ts:86-117 | one record per row, in order |
| OrderService.GetOrderLines | backend/src/services/orderService.ts:53-123 | one record per line row of that order, in table order, and no other |
| OrderService.ApplyPatch | backend/src/services/orderService.ts:201-245 | the order with that id takes exactly the supplied fields; every other order is unchanged |
| OrderService.Update | backend/src/services/orderService.ts:201-248 | an empty patch returns false and writes nothing; otherwise the patch is applied and the result is true exactly when the order existed |
| OrderService.ReadBackPatched | backend/src/services/orderService.ts:201-245 | reading the order back after an update gives the old order with the patch applied |
| OrderService.Delete | backend/src/services/orderService.ts:250-281 | removes every line of the order and the order row; true exactly when the order existed |
| ItemAvailabilityService.GetById | backend/src/services/itemAvailabilityService.ts:22-34 | the row with that id, or None exactly when none has it |
| ItemAvailabilityService.GetByItemId | backend/src/services/itemAvailabilityService.ts:37-49 | exactly the rows of that item, in table order |
| ItemAvailabilityService.PairIndex | backend/src/services/itemAvailabilityService.ts:52-64 | the first row stocking the pair, with no earlier one |
| ItemAvailabilityService.GetByItemAndSize | backend/src/services/itemAvailabilityService.ts:52-64 | a row with both ids, or None exactly when no row has both |
| ItemAvailabilityService.SetStock | backend/src/services/itemAvailabilityService.ts:133-149 | every row of the pair holds the quantity; every other row is unchanged |
| ItemAvailabilityService.ApplyPatch | backend/src/services/itemAvailabilityService.ts:89-129 | row `id` takes exactly the supplied fields; other rows are unchanged |
| ItemAvailabilityService.DeleteById | backend/src/services/itemAvailabilityService.ts:152-164 | exactly the rows with another id remain, in order |
| ItemAvailabilityService.Create | backend/src/services/itemAvailabilityService.ts:67-86 | appends one row with the next id and the given fields, and returns that id |
| ItemAvailabilityService.Update | backend/src/services/itemAvailabilityService.ts:89-131 | an empty patch returns false and writes nothing; otherwise the patch is applied and the result is true exactly when the row existed |
| ItemAvailabilityService.UpdateStock | backend/src/services/itemAvailabilityService.ts:133-149 | overwrites the pair's stock on every matching row; true exactly when some row matched |
| ItemAvailabilityService.Delete | backend/src/services/itemAvailabilityService.ts:152-164 | removes the row; true exactly when it existed |
| ItemAvailabilityService.PairIndexSamePairs | backend/src/services/itemAvailabilityService.ts:52-64 | tables that agree on every row's pair find each pair at the same position |
| ItemAvailabilityService.StockAfterSetStock | backend/src/services/itemAvailabilityService.ts:133-149 | reading the pair back after `updateStock` gives the same row holding exactly the new quantity (an overwrite, not a delta) |
| ItemAvailabilityService.OtherPairsAfterSetStock | backend/src/services/itemAvailabilityService.ts:133-149 | `updateStock` leaves what every other pair reads unchanged |
| ItemAvailabilityService.SetStockIdempotent | backend/src/services/itemAvailabilityService.ts:135-139 | the same overwrite twice equals it once |
| ItemAvailabilityService.ReadBackCreated | backend/src/services/itemAvailabilityService.ts:67-86 | the created id reads back the created row |
| ItemAvailabilityService.ReadBackPatched | backend/src/services/itemAvailabilityService.ts:89-129 | reading row `id` after an update gives the old row with the patch applied |
| ItemAvailabilityService.DeleteCreated | backend/src/services/itemAvailabilityService.ts:152-164 | deleting the row just created restores the table |
| ItemAvailabilityService.CreateKeepsPairsUnique | backend/src/services/itemAvailabilityService.ts:67-86 | inserting a pair no row stocks keeps the pairs unique |
| ItemAvailabilityController.Create | backend/src/controllers/itemAvailabilityController.ts:57-90 | 400 for an invalid body; 409 with the existing row's id when the pair is already stocked, nothing written; otherwise 201 with the appended row; unique pairs stay unique |
| ItemAvailabilityController.Update | backend/src/controllers/itemAvailabilityController.ts:92-128 | 400 for a bad id or body, 404 for an unknown row, 400 "No changes made" for an empty patch, each with nothing written; otherwise (a non-empty patch on an existing row) 200 with the patched row |
| ItemAvailabilityController.UpdateCanDuplicatePair | backend/src/controllers/itemAvailabilityController.ts:100-119 | an accepted update can move a row onto a pair another row stocks, breaking uniqueness |
| ItemAvailabilityController.UpdateStock | backend/src/controllers/itemAvailabilityController.ts:130-164 | 400 for bad ids, 400 for a missing or negative quantity, 404 for an unstocked pair, each with nothing written; otherwise 200 with the pair's first row, re-read: the row as it was, holding exactly the requested quantity |
| ItemAvailabilityController.Delete | backend/src/controllers/itemAvailabilityController.ts:166-190 | 400 for a bad id, 404 for an unknown row, otherwise 204 with the row removed |
| ItemValidation.UpdateSchemaIsPartialCreate | backend/src/validation/itemValidation.ts:4-13 | the update schema is the create schema with every field optional: a valid create body is a valid update, the empty body is valid, and a full update body is valid exactly when the create body is |
| ItemValidation.AvailabilityPatchIsPartialCreate | backend/src/validation/itemValidation.ts:32-36 | the availability patch schema is the create schema made optional |
| ItemValidation.ValidName | backend/src/validation/itemValidation.ts:16-23 | the item-type and size name schemas: a name of at least one character |
| ItemValidation.ValidCreateItem | backend/src/validation/itemValidation.ts:4-10 | `createItemSchema`: a non-empty name, a positive price and a positive item type id; the description is optional and the URL format is not checked |
| ItemValidation.ValidUpdateItem | backend/src/validation/itemValidation.ts:13 | `createItemSchema.partial()`: each supplied field obeys its create rule, and a left-out field is never checked |
| ItemValidation.ValidItemTypeSize | backend/src/validation/itemValidation.ts:26-29 | `itemTypeSizeSchema`: two positive ids |
| ItemValidation.ValidAvailability | backend/src/validation/itemValidation.ts:32-36 | `itemAvailabilitySchema`: positive item and size ids and a stock of zero or more |
| ItemValidation.ValidAvailabilityPatch | backend/src/validation/itemValidation.ts:32-36 | the availability update body: each supplied field obeys its rule in `itemAvailabilitySchema` |
| OrderValidation.ValidOrderLine | backend/src/validation/orderValidation.ts:4-9 | `orderLineSchema`: positive item id, size id and quantity, and a positive price when one is given |
| OrderValidation.ValidOrder | backend/src/validation/orderValidation.ts:12-18 | `orderSchema`: a positive user id, a positive total when one is given, and at least one line, every line valid |
| OrderValidation.ValidLocation | backend/src/validation/orderValidation.ts:21-24 | `locationSchema`: a non-empty name and a non-empty address |
| ItemService.GetById | backend/src/services/itemService.ts:22-34 | the item with that id, or None exactly when none has it |
| ItemService.NewRow | backend/src/services/itemService.ts:37-56 | a fresh id, the given fields, and '' for a missing description |
| ItemService.ApplyPatch | backend/src/services/itemService.ts:59-110 | item `id` takes exactly the supplied fields; every other item is unchanged |
| ItemService.DeleteById | backend/src/services/itemService.ts:116-127 | exactly the items with another id remain |
| ItemService.Create | backend/src/services/itemService.ts:37-56 | appends `NewRow` and returns its id |
| ItemService.Update | backend/src/services/itemService.ts:59-114 | an empty patch returns false and writes nothing; otherwise the patch is applied and the result is true exactly when the item existed |
| ItemService.Delete | backend/src/services/itemService.ts:116-127 | removes the item; true exactly when it existed |
| ItemService.ReadBackPatched | backend/src/services/itemService.ts:59-114 | the item read back after an update is the old item with the patch applied |
| ItemService.CreateReadDelete | backend/src/services/itemService.ts:116-127 | the created id reads back the new item, and deleting it restores the table |
| RoleService.StoredDescription | backend/src/services/roleService.ts:138 | a missing or empty description is stored as '' |
| RoleService.GetRole | backend/src/services/roleService.ts:22-34 | the role with that id, or None exactly when none has it |
| RoleService.GetPermission | backend/src/services/roleService.ts:119-131 | the permission with that id, or None exactly when none has it |
| RoleService.Exists | backend/src/services/roleService.ts:196-208 | true exactly when some row holds both ids |
| RoleService.GetPermissions | backend/src/services/roleService.ts:82-100 | each permission appears once per row granting it to the role, duplicates included |
| RoleService.JoinStep | backend/src/services/roleService.ts:82-100 | one association row's share of the join |
| RoleService.JoinStepAt | backend/src/services/roleService.ts:82-100 | one link adds a permission once more exactly when it grants that permission to the role |
| RoleService.Revoked | backend/src/services/roleService.ts:226-238 | every row of the pair is gone; the others remain in order |
| RoleService.UpdateRole | backend/src/services/roleService.ts:52-64 | renames the role; true exactly when it existed |
| RoleService.DeleteRole | backend/src/services/roleService.ts:67-79 | removes the role; true exactly when it existed |
| RoleService.NewPermission | backend/src/services/roleService.ts:134-146 | an id no permission has, the action, and the stored description |
| RoleService.CreatePermission | backend/src/services/roleService.ts:134-146 | appends the permission with '' for a missing description, and returns its id |
| RoleService.UpdatePermission | backend/src/services/roleService.ts:149-161 | overwrites the action and the description ('' when missing); true exactly when the permission existed |
| RoleService.Grant | backend/src/services/roleService.ts:211-223 | appends the pair unconditionally |
| RoleService.Revoke | backend/src/services/roleService.ts:226-238 | removes every row of the pair; true exactly when one existed |
| RoleService.GrantThenRevoke | backend/src/services/roleService.ts:211-238 | granting an absent pair and then revoking it restores the table |
| RoleService.GrantKeepsUnique | backend/src/services/roleService.ts:211-223 | granting an absent pair keeps pairs unique and makes it exist |
| RoleService.RevokeKeepsUnique | backend/src/services/roleService.ts:226-238 | revoking keeps pairs unique |
| RoleController.GetById | backend/src/controllers/roleController.ts:18-44 | 400 for a bad id, 404 for an unknown role, else 200 with the role and one permission per granting row |
| RoleController.AddPermissionToRole | backend/src/controllers/roleController.ts:270-318 | 400 for a rejected body, 404 for an unknown role or permission, 409 for a granted pair, each with nothing written; otherwise 201 echoing the pair, appended once |
| RoleController.RemovePermissionFromRole | backend/src/controllers/roleController.ts:320-346 | 400 for a bad id, 404 for an absent pair, otherwise 204 with the pair gone |
| SizeService.GetById | backend/src/services/sizeService.ts:22-34 | the size with that id, or None exactly when none has it |
| SizeService.GetSizesByItemType | backend/src/services/sizeService.ts:82-100 | each size appears once per row linking it to the type, duplicates included |
| SizeService.JoinStep | backend/src/services/sizeService.ts:82-100 | one association row's share of the join |
| SizeService.JoinStepAt | backend/src/services/sizeService.ts:82-100 | one link adds a size once more exactly when it links that size to the type |
| SizeService.Rename | backend/src/services/sizeService.ts:52-64 | the size with that id takes the new name; others are unchanged |
| SizeService.DeleteById | backend/src/services/sizeService.ts:67-79 | exactly the sizes with another id remain |
| SizeService.Unlinked | backend/src/services/sizeService.ts:134-146 | every row of the pair is gone; the others remain in order |
| SizeService.Update | backend/src/services/sizeService.ts:52-64 | renames; true exactly when the size existed |
| SizeService.Delete | backend/src/services/sizeService.ts:67-79 | removes; true exactly when the size existed |
| SizeService.LinkSize | backend/src/services/sizeService.ts:119-131 | always appends the pair, even when present |
| SizeService.UnlinkSize | backend/src/services/sizeService.ts:134-146 | removes every row of the pair; true exactly when one existed |
| SizeService.RenamedReadBack | backend/src/services/sizeService.ts:52-64 | the size reads back under its new name |
| SizeService.LinkCounts | backend/src/services/sizeService.ts:119-131 | linking adds exactly one row for the pair, whether or not it was present |
| SizeController.Update | backend/src/controllers/sizeController.ts:62-98 | 400 for a bad id or empty name, 404 for an unknown size, otherwise 200 with the renamed size |
| SizeController.Delete | backend/src/controllers/sizeController.ts:100-126 | 400 for a bad id, 404 for an unknown size, otherwise 204 with it removed |
| SizeController.CreateMapping | backend/src/controllers/sizeController.ts:141-167 | 400 for non-positive ids; otherwise the pair is appended with no existence or duplicate check and echoed with 201 |
| SizeController.DeleteMapping | backend/src/controllers/sizeController.ts:169-188 | 400 for bad ids, 404 when no row was removed, otherwise 204 with every row of the pair gone |
| UserService.GetById | backend/src/services/userService.ts:22-34 | the user with that id, or None exactly when none has it |
| UserService.GetByEmail | backend/src/services/userService.ts:37-49 | a user with exactly that email, or None exactly when none has it |
| UserService.NewRow | backend/src/services/userService.ts:52-64 | a fresh id and the given name, email and role |
| UserService.ApplyPatch | backend/src/services/userService.ts:67-109 | user `id` takes exactly the supplied fields; others are unchanged |
| UserService.DeleteById | backend/src/services/userService.ts:114-126 | exactly the users with another id remain |
| UserService.Create | backend/src/services/userService.ts:52-64 | appends `NewRow` and returns its id |
| UserService.Update | backend/src/services/userService.ts:67-112 | an empty patch returns false and writes nothing; otherwise the patch is applied and the result is true exactly when the user existed |
| UserService.Delete | backend/src/services/userService.ts:114-126 | removes; true exactly when the user existed |
| UserService.ReadBackPatched | backend/src/services/userService.ts:67-109 | the user read back after an update is the old user with the patch applied |
| UserService.ReadBackCreated | backend/src/services/userService.ts:52-64 | the created id reads back the new user |
| UserService.CreateKeepsValid | backend/src/services/userService.ts:52-64 | inserting an unused email keeps ids and emails distinct |
| UserService.RowOfId | backend/src/services/userService.ts:22-34 | with distinct ids, the row holding an id is the one found |
| UserService.UpdateKeepsValid | backend/src/services/userService.ts:67-109 | a patch whose email is the user's own or unused keeps ids and emails distinct |
| UserService.DeleteKeepsValid | backend/src/services/userService.ts:114-126 | deleting keeps ids and emails distinct |
| UserController.GetById | backend/src/controllers/userController.ts:19-48 | 400 for a bad id, 404 for an unknown user, else the user with its role, looked up only when the role id is non-zero |
| UserController.Create | backend/src/controllers/userController.ts:50-82 | 400 for a rejected body, 409 when any user has the email, 400 for an unknown role, each with nothing written; otherwise 201 with the new user; emails stay distinct |
| UserController.Update | backend/src/controllers/userController.ts:84-136 | 400 for a bad id or body, 404 for an unknown user, 409 for a new email in use, 400 for an unknown non-zero role, 400 "No changes made" for an empty patch; otherwise 200 with the patched user; emails stay distinct unless the patch sets the email to '' |
| UserController.Save | backend/src/controllers/userController.ts:123-130 | an empty patch is "No changes made" with nothing written; otherwise the patch is applied and the user read back |
| UserController.Delete | backend/src/controllers/userController.ts:138-161 | 400 for a bad id, 404 for an unknown user, otherwise 204 with the user removed |
| CartStore.FindFrom | frontend/src/store/cartStore.ts:13-15 | the first line of the pair at or after a position, with none before it |
| CartStore.FindIndex | frontend/src/store/cartStore.ts:13-15 | the first line of the pair, or -1 exactly when the cart has none |
| CartStore.Cart.constructor | frontend/src/store/cartStore.ts:7-8 | an empty cart with the drawer closed |
| CartStore.Cart.AddItem | frontend/src/store/cartStore.ts:11-42 | the lines become `Added`: the pair's line grows by the quantity, or one line is appended |
| CartStore.Cart.RemoveItem | frontend/src/store/cartStore.ts:44-51 | the lines become `Removed`: every line of the pair is dropped |
| CartStore.Cart.UpdateQuantity | frontend/src/store/cartStore.ts:53-69 | a quantity of 0 or less removes the pair; otherwise the pair's lines take the new quantity |
| CartStore.Cart.ClearCart | frontend/src/store/cartStore.ts:71-73 | no lines left; the drawer is unchanged |
| CartStore.Cart.ToggleCart | frontend/src/store/cartStore.ts:75-77 | the drawer flips; the lines are unchanged |
| CartStore.Cart.SetIsOpen | frontend/src/store/cartStore.ts:79-81 | the drawer takes the given state |
| CartStore.AddToExistingLine | frontend/src/store/cartStore.ts:17-25 | adding a present pair grows its first line's quantity by the amount; length, order and other lines are unchanged |
| CartStore.AddNewLine | frontend/src/store/cartStore.ts:26-41 | adding an absent pair appends exactly one line at the end |
| CartStore.AddKeepsUnique | frontend/src/store/cartStore.ts:11-42 | `addItem` keeps pairs unique |
| CartStore.RemoveKeepsUnique | frontend/src/store/cartStore.ts:44-51 | `removeItem` keeps pairs unique |
| CartStore.RemoveDropsPair | frontend/src/store/cartStore.ts:44-51 | exactly the lines of the pair are dropped, others kept in order |
| CartStore.RemoveAbsentPair | frontend/src/store/cartStore.ts:44-51 | removing an absent pair changes nothing |
| CartStore.RequantifyLines | frontend/src/store/cartStore.ts:60-68 | a positive update sets the pair's quantity, leaves other lines and keeps uniqueness |
| CartStore.RequantifyIdempotent | frontend/src/store/cartStore.ts:60-68 | the same positive update twice equals it once |
| CartStore.TotalQuantityUpdate | frontend/src/store/cartStore.ts:84-86 | replacing one line moves the total quantity by the difference |
| CartStore.TotalPriceUpdate | frontend/src/store/cartStore.ts:88-93 | replacing one line moves the total price by the difference of the line amounts |
| CartStore.AddTotalQuantity | frontend/src/store/cartStore.ts:84-86 | after `addItem(q)` the total quantity grows by exactly q |
| CartStore.AddTotalPrice | frontend/src/store/cartStore.ts:88-93 | after `addItem(q)` the total price grows by q times the price of the line that took it |
| CartStore.TotalQuantity | frontend/src/store/cartStore.ts:84-86 | `totalQuantity`: the sum of the lines' quantities, added left to right |
| CartStore.TotalPrice | frontend/src/store/cartStore.ts:88-93 | `totalPrice`: the sum of price times quantity over the lines |
| ItemTypesForm.NameError | frontend/src/components/admin/forms/ItemTypesForm.tsx:62-73 | "Item type name is required" exactly when the name is blank after trimming |
| ItemTypesForm.HandleSizeChange | frontend/src/components/admin/forms/ItemTypesForm.tsx:76-84 | ticking appends the id; unticking drops every occurrence and keeps the rest in order |
| ItemTypesForm.SizesToAdd | frontend/src/components/admin/forms/ItemTypesForm.tsx:122-124 | exactly the ticked ids not currently linked |
| ItemTypesForm.SizesToRemove | frontend/src/components/admin/forms/ItemTypesForm.tsx:127-129 | exactly the linked ids no longer ticked |
| ItemTypesForm.DiffsDisjoint | frontend/src/components/admin/forms/ItemTypesForm.tsx:121-129 | the two diffs share no id |
| ItemTypesForm.Links | frontend/src/components/admin/forms/ItemTypesForm.tsx:140-144 | one row per ticked id, repeats included, in order |
| ItemTypesForm.AddAll | frontend/src/components/admin/forms/ItemTypesForm.tsx:140-144 | the create-mode loop appends exactly `Links` |
| ItemTypesForm.LinkEach | frontend/src/components/admin/forms/ItemTypesForm.tsx:132-134 | the add loop grows the type's linked set by the ids; no other type's rows change |
| ItemTypesForm.UnlinkEach | frontend/src/components/admin/forms/ItemTypesForm.tsx:137-139 | the remove loop shrinks the type's linked set by the ids; no other type's rows change |
| ItemTypesForm.LinkedAfterLink | backend/src/services/sizeService.ts:119-131 | linking adds the size to the type's linked set, others unchanged |
| ItemTypesForm.LinkedAfterUnlink | backend/src/services/sizeService.ts:134-146 | unlinking removes the size from the type's linked set, others unchanged |
| ItemTypesForm.Submit | frontend/src/components/admin/forms/ItemTypesForm.tsx:87-154 | a blank name returns the error with nothing written; create mode links every ticked id; edit mode adds then removes the diffs, ending with exactly the ticked sizes linked |
| ItemTypesForm.EditLinksSelection | frontend/src/components/admin/forms/ItemTypesForm.tsx:121-139 | starting from the actual links, adding then removing the diffs leaves exactly the ticked set |
| ItemTypesForm.TickThenUntick | frontend/src/components/admin/forms/ItemTypesForm.tsx:76-84 | unticking an id that was not ticked undoes ticking it |
| ItemTypesForm.SubmitAsWritten | frontend/src/components/admin/forms/ItemTypesForm.tsx:87-154 | as written: every submit ends in an error; a blank name gets the name error, any other name the create or update failure message, and nothing is written |
| ItemTypesForm.AsWrittenFailsValidName | frontend/src/components/admin/forms/ItemTypesForm.tsx:101-111 | a name that passes the check is still reported as a failure by the code as written |
| ItemTypesForm.ShirtsCounterexample | frontend/src/services/api.ts:101-111 | creating "Shirts" with size 1 ticked: the as-written form reports "Failed to create item type. Please try again." |
| StorePage.Keep | frontend/src/pages/StorePage.tsx:55-78 | kept exactly when the type matches (or all types), the price is within the limit, and the query is empty or found, lower-cased, in the name or the description |
| StorePage.FilteredItems | frontend/src/pages/StorePage.tsx:55-78 | a subsequence of the items holding each kept item as often as fetched and no other |
| StorePage.InStockOnlyIgnored | frontend/src/pages/StorePage.tsx:75 | the in-stock flag does not change the filtered list |
| StorePage.WiderPriceRangeKeeps | frontend/src/pages/StorePage.tsx:62-64 | raising the price limit never hides a shown item |
| StorePage.NoFilterKeepsAll | frontend/src/pages/StorePage.tsx:55-78 | with no type, no query and a high enough limit every item is shown in order |
| StorePage.ComparatorAntisymmetric | frontend/src/pages/StorePage.tsx:81-92 | each option's comparator flips sign when its arguments swap |
| StorePage.Comparator | frontend/src/pages/StorePage.tsx:82-93 | the `sort` callback: `localeCompare` of the names either way round, the price difference either way round, and 0 for any other option |
| StorePage.SortedItems | frontend/src/pages/StorePage.tsx:81-92 | a permutation of the filtered list, ordered by name or price as the option says; items the option ranks equal keep their filtered order (stable); an unknown option keeps the order |
| StorePage.ComparatorTiesTransitive | frontend/src/pages/StorePage.tsx:82-93 | each option's comparator ranks two items equal to a third equal to each other |
| StorePage.OrderedByOption | frontend/src/pages/StorePage.tsx:83-90 | ordering by each option's comparator means names or prices ascending or descending |
| StorePage.ShownItems | frontend/src/pages/StorePage.tsx:55-92 | the grid shows each kept item as often as fetched, whatever the sort |
| StoreItemModal.StockIndex | frontend/src/components/StoreItemModal.tsx:64-67 | the first availability row for the size, with none before it |
| StoreItemModal.GetStockForSize | frontend/src/components/StoreItemModal.tsx:64-67 | the first row's stock for the size, or 0 when there is none |
| StoreItemModal.IsSizeInStock | frontend/src/components/StoreItemModal.tsx:70-72 | `isSizeInStock`: the size's stock as `getStockForSize` reads it is positive |
| StoreItemModal.InStockIffFirstRowPositive | frontend/src/components/StoreItemModal.tsx:70-72 | in stock exactly when the first row for the size holds a positive stock |
| StoreItemModal.ClampQuantity | frontend/src/components/StoreItemModal.tsx:206-209 | within 1..stock when stock is at least 1, equal to the stock otherwise; a typed value in range is kept; no number or one below 1 gives 1 |
| StoreItemModal.SizeIndex | frontend/src/components/StoreItemModal.tsx:78-80 | the first size with the id, with none before it |
| StoreItemModal.AddOutcome | frontend/src/components/StoreItemModal.tsx:75-106 | ignored exactly when there is no item, no or zero size, or the size is not offered; refused with "Sorry, only N items available in this size." exactly when the quantity exceeds the stock; otherwise the offered size is added |
| StoreItemModal.HandleAddToCart | frontend/src/components/StoreItemModal.tsx:75-106 | the cart gains the quantity only when the decision is to add; otherwise it is unchanged |
| StoreItemModal.AddedWithinStock | frontend/src/components/StoreItemModal.tsx:82-87 | an added quantity never exceeds the size's stock |
| CheckoutPage.NameError | frontend/src/pages/CheckoutPage.tsx:37-43 | "Name is required" exactly when the name is blank, else empty |
| CheckoutPage.EmailError | frontend/src/pages/CheckoutPage.tsx:45-54 | "Email is required" exactly when blank; the format message exactly when non-blank and not matching; empty exactly when it matches |
| CheckoutPage.FormValidIff | frontend/src/pages/CheckoutPage.tsx:33-57 | the form is valid exactly when the name is not blank and the email matches the pattern |
| CheckoutPage.ValidEmailNotBlank | frontend/src/pages/CheckoutPage.tsx:45-54 | an email the pattern accepts is never blank |
| CheckoutPage.CheckoutUserId | frontend/src/pages/CheckoutPage.tsx:74-82 | the id of the user with that email, or 1 when no user has it |
| CheckoutPage.OrderLines | frontend/src/pages/CheckoutPage.tsx:85-90 | one line per cart line, in order, copying item, size, quantity and price |
| CheckoutPage.Payload | frontend/src/pages/CheckoutPage.tsx:93-98 | the user, those lines, and the cart's total price |
| CheckoutPage.PayloadPriced | frontend/src/pages/CheckoutPage.tsx:85-90 | every checkout line carries its price, so price resolution always succeeds |
| CheckoutPage.LineTotalSnoc | backend/src/services/orderService.ts:141-142 | the line sum of one more line adds that line's amount |
| CheckoutPage.LineTotalIsCartTotal | frontend/src/pages/CheckoutPage.tsx:85-98 | lines copying the cart's prices and quantities sum to the cart's total |
| CheckoutPage.StoredTotalIsCartTotal | frontend/src/pages/CheckoutPage.tsx:93-98 | the total the order row stores is the cart's total price |
| CheckoutPage.PlacedTotal | backend/src/controllers/orderController.ts:130-136 | the 201 body carries the stored total |
| CheckoutPage.Send | frontend/src/pages/CheckoutPage.tsx:100-118 | a failed create keeps the cart and the tables and shows the failure message; a created order empties the cart; when the backend guards pass, the order is confirmed |
| CheckoutPage.Checkout | frontend/src/pages/CheckoutPage.tsx:71-118 | confirmed exactly when the built order passes the backend's checks; then the cart is empty and the order's total is the cart's total |
| CheckoutPage.HandleSubmit | frontend/src/pages/CheckoutPage.tsx:60-122 | an invalid form shows both messages and changes nothing; a failure keeps the cart; a confirmation means a valid form, an empty cart and a placed order for the cart's total |
| UsersForm.ValidateForm | frontend/src/components/admin/forms/UsersForm.tsx:47-71 | name, then email, then role: the first failure is the message, and none exactly when all three pass |
| UsersForm.HandleSubmit | frontend/src/components/admin/forms/UsersForm.tsx:74-124 | an invalid form is rejected with its message; create is rejected when any user has the email; edit checks only a changed email; edit without a user sends nothing |
| UsersForm.RequestsAreWellFormed | frontend/src/components/admin/forms/UsersForm.tsx:77-80 | every request sent has a non-blank name and a matching email |
| UsersForm.CreatePassesEmailGuard | frontend/src/components/admin/forms/UsersForm.tsx:92-99 | a create sent never meets the backend's duplicate-email answer |
| UsersForm.UpdatePassesEmailGuard | frontend/src/components/admin/forms/UsersForm.tsx:104-112 | an update sent never meets the backend's email conflict, and its patch is never empty |
| EmailFormat.IsValidEmailMatchesPattern | frontend/src/pages/CheckoutPage.tsx:45 | the test accepts exactly the strings `^[^\s@]+@[^\s@]+\.[^\s@]+$` matches |
| EmailFormat.ValidEmailHasPattern | frontend/src/pages/CheckoutPage.tsx:45 | an accepted string splits into the three plain runs |
| EmailFormat.PatternIsValidEmail | frontend/src/pages/CheckoutPage.tsx:45 | three plain runs joined by '@' and '.' are accepted |
| EmailFormat.ValidEmailShape | frontend/src/components/admin/forms/UsersForm.tsx:58 | an accepted string has no white space and exactly one '@' |
| EmailFormat.PlainDomain | frontend/src/pages/CheckoutPage.tsx:45 | a domain of two plain runs has no white space and no '@' |
| EmailFormat.JoinedParts | frontend/src/pages/CheckoutPage.tsx:45 | where the '@' and '.' sit in a joined address |
| ConfirmPage.Redirect | frontend/src/pages/ConfirmPage.tsx:21-25 | home exactly when there is no order |
| ConfirmPage.Step | frontend/src/pages/ConfirmPage.tsx:31-38 | never negative; one less for a previous value of at least 1, else 0 |
| ConfirmPage.AfterTicks | frontend/src/pages/ConfirmPage.tsx:28-43 | n ticks from a start leave start - n, down to 0 and no further |
| ConfirmPage.CountdownReachesZero | frontend/src/pages/ConfirmPage.tsx:15-38 | from 120, n ticks leave 120 - n, and 0 from the 120th tick on |
| ConfirmPage.Countdown.constructor | frontend/src/pages/ConfirmPage.tsx:15 | starts at 120 seconds |
| ConfirmPage.Countdown.Tick | frontend/src/pages/ConfirmPage.tsx:31-38 | applies the step, stays within 0..120, and navigates home exactly when the previous value was at most 1 |
| ConfirmPage.LeadingZeroValue | frontend/src/pages/ConfirmPage.tsx:49 | a padding zero does not change the number |
| ConfirmPage.Pad2 | frontend/src/pages/ConfirmPage.tsx:49 | decimal digits only, with no leading zero from 10 on; reads back as the number, at least two digits, exactly two below 100 |
| ConfirmPage.FormatTime | frontend/src/pages/ConfirmPage.tsx:46-50 | minutes, ':', two-digit seconds, every other character a decimal digit and no leading zero on the minutes; read back, minutes = t / 60, seconds in 0..59, minutes × 60 + seconds = t |
| Text.Trim | frontend/src/pages/CheckoutPage.tsx:37 | `trim()`: no leading or trailing white space, and a contiguous slice of the input |
| Text.BlankIffAllSpace | frontend/src/pages/CheckoutPage.tsx:37 | the trimmed text is empty exactly when every character is white space |
| Text.ToLower | frontend/src/pages/StorePage.tsx:69-70 | `toLowerCase()` character by character, same length |
| Text.Contains | frontend/src/pages/StorePage.tsx:69-70 | `includes`: true exactly when the needle occurs at some position |
| Text.Compare | frontend/src/pages/StorePage.tsx:84-86 | the string comparison: in -1..1, and zero exactly for equal strings |
| Text.CompareAntisymmetric | frontend/src/pages/StorePage.tsx:84-86 | swapping the arguments flips the sign |
| Text.NatToString | frontend/src/pages/ConfirmPage.tsx:49 | `toString()` of a whole number: a non-empty string of decimal digits with no leading zero |
| Text.NatToStringValue | frontend/src/pages/ConfirmPage.tsx:49 | the digits read back as the number |
| Sorting.SortBy | frontend/src/pages/StorePage.tsx:81 | a permutation of the input, ordered by an antisymmetric comparator, and stable: when ranking equal is transitive, the elements ranked equal to any given one appear in their input order |
| Sorting.InsertTies | frontend/src/pages/StorePage.tsx:81 | inserting an element puts it ahead of every element ranked equal to it |
| Sorting.SortByNeutral | frontend/src/pages/StorePage.tsx:91-92 | a comparator that ranks every pair equal leaves the order unchanged |
| Sql.Select | backend/src/services/itemAvailabilityService.ts:37-49 | `SELECT … WHERE`: exactly the matching rows, each as often as stored, in order |
| Sql.UpdateWhere | backend/src/services/itemAvailabilityService.ts:133-149 | `UPDATE … WHERE`: every matching row is rewritten, every other row is unchanged |
| Sql.DeleteWhere | backend/src/services/itemAvailabilityService.ts:152-164 | `DELETE … WHERE`: exactly the non-matching rows remain, in order |
| Sql.NextId | backend/src/services/itemAvailabilityService.ts:67-86 | the inserted rowid: at least 1 and above every id in the table |
| Sql.First | backend/src/services/itemService.ts:22-34 | `db.get` of `SELECT … WHERE`: the first matching row, or none exactly when no row matches |

## Left out

- SQLite connection setup, `db.serialize` and the `BEGIN`/`COMMIT`/`ROLLBACK` callbacks in `orderService.create` are not modelled. Each service call is one atomic step, so the rollback on a failed line insert cannot arise.
- Races between concurrent requests are not modelled, because they are concurrency. This covers check-then-decrement across orders and concurrent grants of the same role permission.
- Express routing, the server, the axios client and its mock data, and the seed script are not modelled: they are wiring and I/O. Network failures of the client reduce to the backend's error responses.
- The item, item-type and location controllers and services are thin single-table CRUD already captured by the modelled handlers, so they are not modelled. The role and permission controllers' plain CRUD handlers are left out for the same reason.
- `userValidation.ts` (zod's email semantics) is not modelled. The user and role-permission handlers take `Option` bodies, where `None` means the schema rejected the body.
- The `.url()` check on `imageUrl` is not modelled: any string passes.
- Prices are integer cents. Floating point, `toFixed` and `parseFloat` display are not modelled.
- `localeCompare` is modelled as code-point comparison (`Text.Compare`). `toLowerCase` folds ASCII letters only.
- Branches that cannot be reached in a sequential model are omitted:
  - `updateStatus` "No changes made", because the status is always set (`OrderController.UpdateStatus` answers 200 whenever its guards pass);
  - `delete` "Failed to delete order" and the similar second-failure answers, because existence is checked just before.
- `getOrderLines`' LEFT JOINs are modelled as primary-key lookups.
- The `location` field of the checkout form is not modelled. The redirect when the cart is empty, and all React rendering, effects and timers, are not modelled either; the countdown is driven by explicit `Tick` calls.
- ItemTypesForm.Submit: models the intended submit (see Findings). The frontend `itemTypeApi` (frontend/src/services/api.ts:101-111) has only `getAll` and `getById`, so as written every submit past the name check fails with nothing written (`ItemTypesForm.SubmitAsWritten`). `Submit` syncs against the backend association endpoints the form targets (`SizeService.LinkSize`/`UnlinkSize`); the item type's own create/update is a parameter, the id it returns.
- The item-type form's `handleDelete` is not modelled. It calls `itemTypeApi.delete`, which the client lacks as well, so it always shows "Failed to delete item type. Please try again.".
- The "Failed to create/update user" message of the user form (a rejected network call) is not modelled. The form is modelled up to the request it sends.
- OrderService.Create: requires at least one order line. With none, the source's transaction never commits and the call never settles, so there is no result to model. `orderSchema` excludes that case anyway.
- OrderService.GetAll: the order between equal dates is the table order (a stable sort). SQL leaves it unspecified.
- RoleService.GetPermissions: only the multiset of the join is stated, because SQL fixes no row order. The same holds for SizeService.GetSizesByItemType.
- UserController.Update: e-mail uniqueness is preserved only when the patch does not set the email to the empty string. The source skips the conflict check for a falsy email and then writes it.
- ConfirmPage.FormatTime: stated for non-negative whole seconds only. The countdown never produces anything else.
- ItemAvailabilityController.UpdateStock: fractional stock values are not modelled. The source accepts any JavaScript number of zero or more, such as 2.5; the model's quantities are integers.
- StoreItemModal.ClampQuantity: `parseInt` of the typed text is a parameter (`None` for NaN). The parse itself is not modelled.

## Findings

| source | as written | input that shows it | evidently intended | confidence | as-written member | corrected member |
|---|---|---|---|---|---|---|
| frontend/src/components/admin/forms/ItemTypesForm.tsx:101-111 | calls `itemTypeApi.create`/`update`/`getSizes`/`addSize`/`removeSize`, none of which the client's `itemTypeApi` defines; the catch shows "Failed to create/update item type. Please try again." and nothing is written | create mode, name "Shirts", size 1 ticked | the item type is saved and linked to exactly the ticked sizes | not executed | ItemTypesForm.SubmitAsWritten | ItemTypesForm.Submit |
