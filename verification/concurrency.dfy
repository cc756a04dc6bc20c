/** The `Version` concurrency token of shopping items: an update of an item is
    a conditional write that matches the stored row only while its version is
    still the one the writer read. */
module ItemConcurrency {
  import opened Wrappers
  import opened BaseEntity
  import opened Entities
  import opened Audit
  import opened Database

  /** A save whose only tracked change is one modified item. */
  function ItemChange(item: Row<ShoppingItem>): (cs: ChangeSet)
    ensures cs.items == [Entry(Modified, item)]
  {
    ChangeSet([], [], [], [], [], [Entry(Modified, item)], [])
  }

  /** Saves `item` over the stored row with its id. The update statement
      carries `Version = readVersion` as a condition: when the stored version
      differs (or the row is gone) no row matches and the save fails with a
      concurrency conflict, writing nothing. Otherwise the row is stamped and
      committed like any other modified entry. */
  function SaveItemUpdate(s: Store, item: Row<ShoppingItem>, readVersion: Int32, now: Timestamp): (r: Result<Store, DbError>)
    ensures (item.audit.id !in s.items || s.items[item.audit.id].data.version != readVersion)
      ==> r == Failure(ConcurrencyConflict)
    ensures r.Success? ==> item.audit.id in s.items && s.items[item.audit.id].data.version == readVersion
    ensures r.Success? ==> Valid(r.value)
    ensures r.Success? ==>
      && item.audit.id in r.value.items
      && r.value.items[item.audit.id].data == item.data
      && r.value.items[item.audit.id].audit.updatedAt == now
    ensures r.Success? ==> forall id :: id in s.items && id != item.audit.id ==> id in r.value.items && r.value.items[id] == s.items[id]
    ensures r.Success? ==>
      r.value == s.(items := s.items[item.audit.id := item.(audit := item.audit.(updatedAt := now, updatedBy := CurrentUserId))])
  {
    var id := item.audit.id;
    if id !in s.items || s.items[id].data.version != readVersion then Failure(ConcurrencyConflict)
    else
      var r := SaveChangesAsync(s, ItemChange(item), now);
      if r.Success? then
        ItemUpdateStored(s, item, now, r.value);
        r
      else r
  }

  /** What the committed item table holds after a successful single-item save. */
  lemma ItemUpdateStored(s: Store, item: Row<ShoppingItem>, now: Timestamp, s': Store)
    requires StoreReflects(s, s', InsertStatements(StampChangeSet(ItemChange(item), now, CurrentUserId)))
    ensures item.audit.id in s'.items && s'.items[item.audit.id].data == item.data
    ensures s'.items[item.audit.id].audit.updatedAt == now
    ensures forall id :: id in s.items && id != item.audit.id ==> id in s'.items && s'.items[id] == s.items[id]
    ensures s' == s.(items := s.items[item.audit.id := item.(audit := item.audit.(updatedAt := now, updatedBy := CurrentUserId))])
  {
    var cs := InsertStatements(StampChangeSet(ItemChange(item), now, CurrentUserId));
    var st := StampEntries([Entry(Modified, item)], now, CurrentUserId);
    var es := Inserted(st, ItemInserted);
    assert st[0] == StampEntry(Entry(Modified, item), now, CurrentUserId);
    assert es[0] == st[0];
    assert cs.items == es == [es[0]];
    ReflectsOneWrite(s.items, s'.items, es[0]);
    assert |cs.users| == |cs.groups| == |cs.members| == |cs.invitations| == |cs.lists| == |cs.histories| == 0;
    ReflectsNothing(s.users, s'.users);
    ReflectsNothing(s.groups, s'.groups);
    ReflectsNothing(s.members, s'.members);
    ReflectsNothing(s.invitations, s'.invitations);
    ReflectsNothing(s.lists, s'.lists);
    ReflectsNothing(s.histories, s'.histories);
  }

  /** Two writers read the item at the same version. If the first commits a
      row whose version differs from the one read, the second is refused with
      a concurrency conflict: the token lets at most one of them through. */
  lemma StaleWriterLoses(s: Store, first: Row<ShoppingItem>, second: Row<ShoppingItem>,
                         readVersion: Int32, now1: Timestamp, now2: Timestamp)
    requires first.audit.id == second.audit.id
    requires first.data.version != readVersion
    requires SaveItemUpdate(s, first, readVersion, now1).Success?
    ensures SaveItemUpdate(SaveItemUpdate(s, first, readVersion, now1).value, second, readVersion, now2)
      == Failure(ConcurrencyConflict)
  {
  }

  /** The token only guards writers that change the version. No code in the
      application increments it, and a writer that leaves it as read lets a
      second writer holding the same read version past the check. */
  lemma UnchangedVersionGuardsNothing(s: Store, first: Row<ShoppingItem>, second: Row<ShoppingItem>,
                                      readVersion: Int32, now1: Timestamp, now2: Timestamp)
    requires first.audit.id == second.audit.id
    requires first.data.version == readVersion
    requires SaveItemUpdate(s, first, readVersion, now1).Success?
    ensures SaveItemUpdate(SaveItemUpdate(s, first, readVersion, now1).value, second, readVersion, now2)
      != Failure(ConcurrencyConflict)
  {
    var s1 := SaveItemUpdate(s, first, readVersion, now1).value;
    assert second.audit.id in s1.items && s1.items[second.audit.id].data.version == readVersion;
    CommitFailsOnlyByConstraint(s1, second, now2);
  }

  /** Saving one modified item whose row exists can fail only on a constraint. */
  lemma CommitFailsOnlyByConstraint(s: Store, item: Row<ShoppingItem>, now: Timestamp)
    requires item.audit.id in s.items
    ensures var r := SaveChangesAsync(s, ItemChange(item), now);
      r.Failure? ==> r.error == ConstraintViolation
  {
    var cs := InsertStatements(StampChangeSet(ItemChange(item), now, CurrentUserId));
    var e := StampEntry(Entry(Modified, item), now, CurrentUserId);
    assert cs.items == [e];
    ApplyNothing(s.users);
    ApplyNothing(s.groups);
    ApplyNothing(s.members);
    ApplyNothing(s.invitations);
    ApplyNothing(s.lists);
    ApplyOneModified(s.items, e);
    ApplyNothing(s.histories);
    CommitRefusedOnlyByConstraint(s, cs);
  }
}
