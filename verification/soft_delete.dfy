/** What a save does to the stored rows, entry by entry, and how the soft-delete
    filter then sees them. */
module SoftDelete {
  import opened Wrappers
  import opened BaseEntity
  import opened Entities
  import opened Audit
  import opened Database

  /** Stamping keeps every entry's id, so distinct entries stay distinct. */
  lemma StampKeepsDistinct<T>(es: seq<Entry<T>>, now: Timestamp, actor: Option<Guid>)
    requires DistinctIds(es)
    ensures DistinctIds(StampEntries(es, now, actor))
  {
  }

  /** After a save, a row that had a non-Unchanged entry is stored exactly as
      the stamping rewrote it and its statement wrote it (`fill` is the
      table's defaulting of inserted values). */
  lemma {:induction false} SavedEntryIsStored<T>(t: Table<T>, t': Table<T>, es: seq<Entry<T>>,
                                               now: Timestamp, actor: Option<Guid>, fill: T -> T, i: nat)
    requires i < |es| && es[i].state != Unchanged && DistinctIds(es)
    requires TableReflects(t, t', Inserted(StampEntries(es, now, actor), fill))
    ensures es[i].row.audit.id in t'
    ensures t'[es[i].row.audit.id] == InsertedEntry(StampEntry(es[i], now, actor), fill).row
  {
    var st := StampEntries(es, now, actor);
    StampKeepsDistinct(es, now, actor);
    var ins := Inserted(st, fill);
    assert st[i] == StampEntry(es[i], now, actor);
    assert ins[i] == InsertedEntry(st[i], fill);
    assert ins[i].state != Unchanged;
  }

  /** A deleted entry is saved as a tombstone: the row is kept with its
      payload, creation and update stamps, marked deleted at `now` by
      `actor`, and no filtered read returns it any more. */
  lemma {:induction false} DeleteKeepsTombstone<T>(t: Table<T>, t': Table<T>, es: seq<Entry<T>>,
                                                 now: Timestamp, actor: Option<Guid>, fill: T -> T, i: nat)
    requires i < |es| && es[i].state == Deleted && DistinctIds(es)
    requires TableReflects(t, t', Inserted(StampEntries(es, now, actor), fill))
    ensures var id := es[i].row.audit.id;
      && id in t'
      && t'[id].data == es[i].row.data
      && t'[id].audit.isDeleted && t'[id].audit.deletedAt == Some(now) && t'[id].audit.deletedBy == actor
      && t'[id].audit.createdAt == es[i].row.audit.createdAt && t'[id].audit.createdBy == es[i].row.audit.createdBy
      && t'[id].audit.updatedAt == es[i].row.audit.updatedAt && t'[id].audit.updatedBy == es[i].row.audit.updatedBy
      && id !in FilteredRead(t')
  {
    SavedEntryIsStored(t, t', es, now, actor, fill, i);
  }

  /** An added entry is stored with creation and update stamps both `now`,
      and with its values as the insert defaults them. */
  lemma {:induction false} AddStampsCreation<T>(t: Table<T>, t': Table<T>, es: seq<Entry<T>>,
                                              now: Timestamp, actor: Option<Guid>, fill: T -> T, i: nat)
    requires i < |es| && es[i].state == Added && DistinctIds(es)
    requires TableReflects(t, t', Inserted(StampEntries(es, now, actor), fill))
    ensures var id := es[i].row.audit.id;
      && id in t'
      && t'[id].data == fill(es[i].row.data)
      && t'[id].audit.createdAt == now && t'[id].audit.updatedAt == now
      && t'[id].audit.createdBy == actor && t'[id].audit.updatedBy == actor
      && t'[id].audit.isDeleted == es[i].row.audit.isDeleted
  {
    SavedEntryIsStored(t, t', es, now, actor, fill, i);
  }

  /** A modified entry is stored with only its update stamp refreshed: the
      payload, creation stamp and tombstone triple are as the entry had them. */
  lemma {:induction false} ModifyStampsUpdateOnly<T>(t: Table<T>, t': Table<T>, es: seq<Entry<T>>,
                                                   now: Timestamp, actor: Option<Guid>, fill: T -> T, i: nat)
    requires i < |es| && es[i].state == Modified && DistinctIds(es)
    requires TableReflects(t, t', Inserted(StampEntries(es, now, actor), fill))
    ensures var id := es[i].row.audit.id;
      && id in t'
      && t'[id].data == es[i].row.data
      && t'[id].audit.updatedAt == now && t'[id].audit.updatedBy == actor
      && t'[id].audit.createdAt == es[i].row.audit.createdAt && t'[id].audit.createdBy == es[i].row.audit.createdBy
      && t'[id].audit.isDeleted == es[i].row.audit.isDeleted
      && t'[id].audit.deletedAt == es[i].row.audit.deletedAt
  {
    SavedEntryIsStored(t, t', es, now, actor, fill, i);
  }

  /** An Unchanged entry writes nothing: its stored row is exactly as before. */
  lemma {:induction false} UnchangedEntryLeavesRow<T>(t: Table<T>, t': Table<T>, es: seq<Entry<T>>,
                                                    now: Timestamp, actor: Option<Guid>, fill: T -> T, i: nat)
    requires i < |es| && es[i].state == Unchanged && DistinctIds(es)
    requires es[i].row.audit.id in t
    requires TableReflects(t, t', Inserted(StampEntries(es, now, actor), fill))
    ensures t'[es[i].row.audit.id] == t[es[i].row.audit.id]
  {
    var st := StampEntries(es, now, actor);
    var id := es[i].row.audit.id;
    assert !Writes(st, id) by {
      forall j | 0 <= j < |st| && st[j].state != Unchanged ensures st[j].row.audit.id != id {
        assert st[j] == StampEntry(es[j], now, actor);
      }
    }
    InsertedWrites(st, fill, id);
  }

  /** The context's save deletes no user: a user entry marked Deleted is kept
      as a tombstone stamped at `now` with no actor, and disappears from the
      filtered read while the unfiltered table still holds it. */
  lemma {:induction false} SaveSoftDeletesUser(s: Store, cs: ChangeSet, now: Timestamp, i: nat)
    requires i < |cs.users| && cs.users[i].state == Deleted && DistinctIds(cs.users)
    requires SaveChangesAsync(s, cs, now).Success?
    ensures var s' := SaveChangesAsync(s, cs, now).value; var id := cs.users[i].row.audit.id;
      && id in s'.users
      && s'.users[id].audit.isDeleted
      && s'.users[id].audit.deletedAt == Some(now) && s'.users[id].audit.deletedBy == None
      && id !in FilteredRead(s'.users)
  {
    var s' := SaveChangesAsync(s, cs, now).value;
    DeleteKeepsTombstone(s.users, s'.users, cs.users, now, CurrentUserId, UserInserted, i);
  }

  /** A group added with `AllowMembersToInvite` false or `MaxMembers` 0 is
      stored with the column defaults instead: the stored group always lets
      members invite and never has a zero cap. */
  lemma {:induction false} AddedGroupTakesColumnDefaults(s: Store, cs: ChangeSet, now: Timestamp, i: nat)
    requires i < |cs.groups| && cs.groups[i].state == Added && DistinctIds(cs.groups)
    requires SaveChangesAsync(s, cs, now).Success?
    ensures var s' := SaveChangesAsync(s, cs, now).value; var id := cs.groups[i].row.audit.id;
      && id in s'.groups
      && s'.groups[id].data.allowMembersToInvite
      && s'.groups[id].data.maxMembers == (if cs.groups[i].row.data.maxMembers == 0 then 10 else cs.groups[i].row.data.maxMembers)
      && s'.groups[id].data == cs.groups[i].row.data.(allowMembersToInvite := true, maxMembers := s'.groups[id].data.maxMembers)
  {
    var s' := SaveChangesAsync(s, cs, now).value;
    AddStampsCreation(s.groups, s'.groups, cs.groups, now, CurrentUserId, GroupInserted, i);
  }

  /** An item added with `Quantity` or `Version` 0, or `IsSynced` false, is
      stored with the column defaults 1, 1 and true instead. */
  lemma {:induction false} AddedItemTakesColumnDefaults(s: Store, cs: ChangeSet, now: Timestamp, i: nat)
    requires i < |cs.items| && cs.items[i].state == Added && DistinctIds(cs.items)
    requires SaveChangesAsync(s, cs, now).Success?
    ensures var s' := SaveChangesAsync(s, cs, now).value; var id := cs.items[i].row.audit.id;
      && id in s'.items
      && s'.items[id].data.quantity == (if cs.items[i].row.data.quantity == 0 then 1 else cs.items[i].row.data.quantity)
      && s'.items[id].data.version == (if cs.items[i].row.data.version == 0 then 1 else cs.items[i].row.data.version)
      && s'.items[id].data.isSynced
      && s'.items[id].data == cs.items[i].row.data.(quantity := s'.items[id].data.quantity, version := s'.items[id].data.version, isSynced := true)
  {
    var s' := SaveChangesAsync(s, cs, now).value;
    AddStampsCreation(s.items, s'.items, cs.items, now, CurrentUserId, ItemInserted, i);
  }

  /** A user added with a null `Language` is stored with "en"; any other
      language is stored as given. */
  lemma {:induction false} AddedUserTakesColumnDefaults(s: Store, cs: ChangeSet, now: Timestamp, i: nat)
    requires i < |cs.users| && cs.users[i].state == Added && DistinctIds(cs.users)
    requires SaveChangesAsync(s, cs, now).Success?
    ensures var s' := SaveChangesAsync(s, cs, now).value; var id := cs.users[i].row.audit.id;
      && id in s'.users
      && s'.users[id].data.language == (if cs.users[i].row.data.language.None? then Some("en") else cs.users[i].row.data.language)
      && s'.users[id].data == cs.users[i].row.data.(language := s'.users[id].data.language)
  {
    var s' := SaveChangesAsync(s, cs, now).value;
    AddStampsCreation(s.users, s'.users, cs.users, now, CurrentUserId, UserInserted, i);
  }

  /** Defaulting is idempotent, and the initialisers' values pass through an
      insert unchanged except the user's, whose "pt-br" is kept too. */
  lemma InsertDefaultsAreStable(u: User, g: Group, i: ShoppingItem)
    ensures UserInserted(UserInserted(u)) == UserInserted(u)
    ensures GroupInserted(GroupInserted(g)) == GroupInserted(g)
    ensures ItemInserted(ItemInserted(i)) == ItemInserted(i)
    ensures UserInserted(NewUser()) == NewUser()
    ensures GroupInserted(NewGroup()) == NewGroup()
    ensures ItemInserted(NewShoppingItem()) == NewShoppingItem()
  {
  }
}
