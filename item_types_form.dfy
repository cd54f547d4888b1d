/** frontend/src/components/admin/forms/ItemTypesForm.tsx: the name check,
    the size check boxes and the submit that brings the item type's size
    associations in line with the boxes. The add and remove calls are the
    association table's `itemTypeSizeService.create` and `delete`. */
module ItemTypesForm {
  import opened Wrappers
  import opened Schema
  import Sql
  import Text
  import SizeService

  /** Create a new item type, or edit an existing one. */
  datatype Mode = CreateMode | EditMode

  function Is(sizeId: int): int -> bool {
    (id: int) => id == sizeId
  }

  function NotIn(ids: seq<int>): int -> bool {
    (id: int) => id !in ids
  }

  /** `validateForm`: the error a blank name (after trimming) raises. */
  function NameError(name: string): (error: Option<string>)
    ensures error.Some? <==> Text.AllSpace(name)
    ensures error.Some? ==> error.value == "Item type name is required"
  {
    Text.BlankIffAllSpace(name);
    if Text.Trim(name) == [] then Some("Item type name is required") else None
  }

  /** `handleSizeChange`: ticking appends the id, unticking drops every
      occurrence of it. */
  function HandleSizeChange(selected: seq<int>, sizeId: int, isChecked: bool): (r: seq<int>)
    ensures isChecked ==> r == selected + [sizeId]
    ensures !isChecked ==> (forall id :: id in r <==> id in selected && id != sizeId) && Sql.Subsequence(r, selected)
  {
    if isChecked then selected + [sizeId] else Sql.DeleteWhere(selected, Is(sizeId))
  }

  /** `sizesToAdd`: the ticked ids not linked yet, in tick order. */
  function SizesToAdd(selected: seq<int>, current: seq<int>): (r: seq<int>)
    ensures forall id :: id in r <==> id in selected && id !in current
  {
    Sql.Select(selected, NotIn(current))
  }

  /** `sizesToRemove`: the linked ids no longer ticked. */
  function SizesToRemove(current: seq<int>, selected: seq<int>): (r: seq<int>)
    ensures forall id :: id in r <==> id in current && id !in selected
  {
    Sql.Select(current, NotIn(selected))
  }

  /** The ids a list holds, as a set. */
  function Ids(ids: seq<int>): set<int> {
    set id | id in ids
  }

  lemma IdsSnoc(ids: seq<int>, k: int)
    requires 0 <= k < |ids|
    ensures Ids(ids[..k + 1]) == Ids(ids[..k]) + {ids[k]}
  {
    assert ids[..k + 1] == ids[..k] + [ids[k]];
  }

  /** The sizes the association table links to the item type. */
  ghost function Linked(mappings: seq<ItemTypeSize>, itemTypeId: int): set<int> {
    set m | m in mappings && m.itemTypeId == itemTypeId :: m.sizeId
  }

  /** The association rows of every other item type. */
  ghost function OthersOf(mappings: seq<ItemTypeSize>, itemTypeId: int): set<ItemTypeSize> {
    set m | m in mappings && m.itemTypeId != itemTypeId
  }

  /** The rows the create-mode loop appends: one per ticked id, repeats
      included, in tick order. */
  function Links(itemTypeId: int, ids: seq<int>): (r: seq<ItemTypeSize>)
    ensures |r| == |ids|
    ensures forall k :: 0 <= k < |ids| ==> r[k] == ItemTypeSize(itemTypeId, ids[k])
  {
    seq(|ids|, k requires 0 <= k < |ids| => ItemTypeSize(itemTypeId, ids[k]))
  }

  /** The create-mode loop: link every ticked id, once per occurrence. */
  method AddAll(db: Store, itemTypeId: int, ids: seq<int>)
    modifies db`itemTypeSizes
    ensures db.itemTypeSizes == old(db.itemTypeSizes) + Links(itemTypeId, ids)
  {
    var k := 0;
    while k < |ids|
      invariant 0 <= k <= |ids|
      invariant db.itemTypeSizes == old(db.itemTypeSizes) + Links(itemTypeId, ids[..k])
    {
      var _ := SizeService.LinkSize(db, itemTypeId, ids[k]);
      assert Links(itemTypeId, ids[..k + 1]) == Links(itemTypeId, ids[..k]) + [ItemTypeSize(itemTypeId, ids[k])];
      k := k + 1;
    }
    assert ids[..k] == ids;
  }

  /** The edit-mode add loop: link each id; the type's linked set grows by
      the ids and no other type's rows move. */
  method LinkEach(db: Store, itemTypeId: int, ids: seq<int>)
    modifies db`itemTypeSizes
    ensures Linked(db.itemTypeSizes, itemTypeId) == Linked(old(db.itemTypeSizes), itemTypeId) + Ids(ids)
    ensures OthersOf(db.itemTypeSizes, itemTypeId) == OthersOf(old(db.itemTypeSizes), itemTypeId)
  {
    var k := 0;
    while k < |ids|
      invariant 0 <= k <= |ids|
      invariant Linked(db.itemTypeSizes, itemTypeId) == Linked(old(db.itemTypeSizes), itemTypeId) + Ids(ids[..k])
      invariant OthersOf(db.itemTypeSizes, itemTypeId) == OthersOf(old(db.itemTypeSizes), itemTypeId)
    {
      ghost var before := db.itemTypeSizes;
      var _ := SizeService.LinkSize(db, itemTypeId, ids[k]);
      LinkedAfterLink(before, itemTypeId, ids[k]);
      IdsSnoc(ids, k);
      k := k + 1;
    }
    assert ids[..k] == ids;
  }

  /** The edit-mode remove loop: unlink each id; the type's linked set loses
      the ids and no other type's rows move. */
  method UnlinkEach(db: Store, itemTypeId: int, ids: seq<int>)
    modifies db`itemTypeSizes
    ensures Linked(db.itemTypeSizes, itemTypeId) == Linked(old(db.itemTypeSizes), itemTypeId) - Ids(ids)
    ensures OthersOf(db.itemTypeSizes, itemTypeId) == OthersOf(old(db.itemTypeSizes), itemTypeId)
  {
    var k := 0;
    while k < |ids|
      invariant 0 <= k <= |ids|
      invariant Linked(db.itemTypeSizes, itemTypeId) == Linked(old(db.itemTypeSizes), itemTypeId) - Ids(ids[..k])
      invariant OthersOf(db.itemTypeSizes, itemTypeId) == OthersOf(old(db.itemTypeSizes), itemTypeId)
    {
      ghost var before := db.itemTypeSizes;
      var _ := SizeService.UnlinkSize(db, itemTypeId, ids[k]);
      LinkedAfterUnlink(before, itemTypeId, ids[k]);
      IdsSnoc(ids, k);
      k := k + 1;
    }
    assert ids[..k] == ids;
  }

  /** `handleSubmit`, from the name check to the size sync. A blank name
      stops it with the error and writes nothing. In create mode every
      ticked id is linked to the new type (`itemTypeId` is the id the create
      call returned); in edit mode the ids to add are linked first, then the
      ids to remove are unlinked, `current` being the ids the type was
      linked to when the form read them. */
  method Submit(db: Store, mode: Mode, name: string, itemTypeId: int, selected: seq<int>, current: seq<int>)
    returns (error: Option<string>)
    modifies db`itemTypeSizes
    ensures error == NameError(name)
    ensures error.Some? ==> db.itemTypeSizes == old(db.itemTypeSizes)
    ensures error.None? && mode == CreateMode ==>
      db.itemTypeSizes == old(db.itemTypeSizes) + Links(itemTypeId, selected)
    ensures error.None? && mode == EditMode ==>
      && Linked(db.itemTypeSizes, itemTypeId)
           == (Linked(old(db.itemTypeSizes), itemTypeId) + Ids(SizesToAdd(selected, current)))
              - Ids(SizesToRemove(current, selected))
      && OthersOf(db.itemTypeSizes, itemTypeId) == OthersOf(old(db.itemTypeSizes), itemTypeId)
  {
    error := NameError(name);
    if error.Some? {
      return;
    }
    if mode == EditMode {
      var sizesToAdd := SizesToAdd(selected, current);
      var sizesToRemove := SizesToRemove(current, selected);
      LinkEach(db, itemTypeId, sizesToAdd);
      UnlinkEach(db, itemTypeId, sizesToRemove);
    } else {
      AddAll(db, itemTypeId, selected);
    }
  }

  /** The message the catch in `handleSubmit` shows when a call fails. */
  function SubmitFailure(mode: Mode): string {
    if mode == CreateMode then "Failed to create item type. Please try again."
    else "Failed to update item type. Please try again."
  }

  /** `handleSubmit` as written against the frontend API client, whose
      `itemTypeApi` offers only `getAll` and `getById`. Past the name check
      the first call (`create` in create mode, `update` in edit mode) is not
      a function, so the catch shows the failure message and no call that
      writes is ever made: the tables stay as they were. Every submit ends
      in an error, and only a blank name gets the name error. */
  function SubmitAsWritten(mode: Mode, name: string): (error: Option<string>)
    ensures error.Some?
    ensures error.value == "Item type name is required" <==> Text.AllSpace(name)
    ensures !Text.AllSpace(name) ==> error.value == SubmitFailure(mode)
  {
    var nameError := NameError(name);
    if nameError.Some? then nameError else Some(SubmitFailure(mode))
  }

  /** Where the two halves part: a name that passes the check is reported
      as a failure by the code as written, whereas `Submit` goes on to link
      the ticked sizes and reports no error. */
  lemma AsWrittenFailsValidName(mode: Mode, name: string)
    requires !Text.AllSpace(name)
    ensures NameError(name).None?
    ensures SubmitAsWritten(mode, name) != NameError(name)
  {
  }

  /** The input that shows it: creating "Shirts" with size 1 ticked.
      `Submit` reports no error and appends the one link row; the code as
      written reports the create failure. */
  lemma ShirtsCounterexample()
    ensures NameError("Shirts").None?
    ensures Links(7, [1]) == [ItemTypeSize(7, 1)]
    ensures SubmitAsWritten(CreateMode, "Shirts") == Some("Failed to create item type. Please try again.")
  {
    assert !Text.IsSpace("Shirts"[0]);
  }

  /** Linking a pair adds its size to the type's linked set and leaves the
      other types' rows as they were. */
  lemma LinkedAfterLink(mappings: seq<ItemTypeSize>, itemTypeId: int, sizeId: int)
    ensures Linked(mappings + [ItemTypeSize(itemTypeId, sizeId)], itemTypeId) == Linked(mappings, itemTypeId) + {sizeId}
    ensures OthersOf(mappings + [ItemTypeSize(itemTypeId, sizeId)], itemTypeId) == OthersOf(mappings, itemTypeId)
  {
    var r := mappings + [ItemTypeSize(itemTypeId, sizeId)];
    assert ItemTypeSize(itemTypeId, sizeId) in r;
  }

  /** Unlinking a pair removes its size from the type's linked set and
      leaves the other types' rows as they were. */
  lemma LinkedAfterUnlink(mappings: seq<ItemTypeSize>, itemTypeId: int, sizeId: int)
    ensures Linked(SizeService.Unlinked(mappings, itemTypeId, sizeId), itemTypeId) == Linked(mappings, itemTypeId) - {sizeId}
    ensures OthersOf(SizeService.Unlinked(mappings, itemTypeId, sizeId), itemTypeId) == OthersOf(mappings, itemTypeId)
  {
    var r := SizeService.Unlinked(mappings, itemTypeId, sizeId);
    forall s | s in Linked(mappings, itemTypeId) - {sizeId} ensures s in Linked(r, itemTypeId) {
      var m :| m in mappings && m.itemTypeId == itemTypeId && m.sizeId == s;
      assert m in r;
    }
  }

  /** The two diffs never share an id. */
  lemma DiffsDisjoint(selected: seq<int>, current: seq<int>)
    ensures forall id :: !(id in SizesToAdd(selected, current) && id in SizesToRemove(current, selected))
  {
  }

  /** An edit that starts from the type's actual links ends with the type
      linked to exactly the ticked sizes. */
  lemma EditLinksSelection(old_links: set<int>, selected: seq<int>, current: seq<int>)
    requires Ids(current) == old_links
    ensures (old_links + Ids(SizesToAdd(selected, current))) - Ids(SizesToRemove(current, selected)) == Ids(selected)
  {
  }

  /** Unticking an id that was not ticked before undoes ticking it. */
  lemma TickThenUntick(selected: seq<int>, sizeId: int)
    requires sizeId !in selected
    ensures HandleSizeChange(HandleSizeChange(selected, sizeId, true), sizeId, false) == selected
  {
    assert !Sql.AnyRow(selected, Is(sizeId));
    Sql.DeleteAppended(selected, [sizeId], Is(sizeId));
  }
}
