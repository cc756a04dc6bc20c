/** What the database does when a principal row is physically deleted, as the
    foreign keys' delete behaviours declare: Restrict refuses the delete,
    Cascade deletes the dependent rows, SetNull clears the reference. The
    context's own save never issues a physical delete (it writes tombstones),
    so these actions apply only to deletes made outside it. */
module ReferentialActions {
  import opened Wrappers
  import opened BaseEntity
  import opened Entities
  import opened Database

  // ---------------------------------------------------------------------------
  // Table helpers.

  /** Every row of `t'` is a row of `t`, unchanged. */
  ghost predicate SubTable<T>(t': Table<T>, t: Table<T>) {
    forall id :: id in t' ==> id in t && t'[id] == t[id]
  }

  /** The rows of `t` that satisfy `keep`. */
  function KeepRows<T>(t: Table<T>, keep: Row<T> -> bool): (r: Table<T>)
    ensures SubTable(r, t)
    ensures forall id :: id in t ==> (id in r <==> keep(t[id]))
  {
    map id | id in t && keep(t[id]) :: t[id]
  }

  lemma SubTableKeyed<T>(t': Table<T>, t: Table<T>)
    requires SubTable(t', t) && KeyedById(t)
    ensures KeyedById(t')
  {
  }

  // ---------------------------------------------------------------------------
  // Deleting a user.

  /** A stored row references `uid` through a Restrict foreign key: it owns a
      group, sent an invitation, created a list or added an item. */
  predicate UserIsRestricted(s: Store, uid: Guid) {
    || (exists id :: id in s.groups && s.groups[id].data.ownerId == uid)
    || (exists id :: id in s.invitations && s.invitations[id].data.invitedBy == uid)
    || (exists id :: id in s.lists && s.lists[id].data.createdByUserId == uid)
    || (exists id :: id in s.items && s.items[id].data.addedByUserId == uid)
  }

  /** Some foreign-key column of some row holds `uid`. */
  predicate ReferencesUser(s: Store, uid: Guid) {
    || UserIsRestricted(s, uid)
    || (exists id :: id in s.members && (s.members[id].data.userId == uid || s.members[id].data.invitedBy == Some(uid)))
    || (exists id :: id in s.invitations && s.invitations[id].data.invitedUserId == Some(uid))
    || (exists id :: id in s.items && s.items[id].data.purchasedBy == Some(uid))
    || (exists id :: id in s.histories && s.histories[id].data.userId == uid)
  }

  /** A membership row after SetNull on `InvitedBy` for the deleted user `uid`. */
  function ClearedInviter(m: Row<GroupMember>, uid: Guid): Row<GroupMember> {
    if m.data.invitedBy == Some(uid) then m.(data := m.data.(invitedBy := None)) else m
  }

  /** An invitation row after SetNull on `InvitedUserId` for the deleted user `uid`. */
  function ClearedInvitee(i: Row<Invitation>, uid: Guid): Row<Invitation> {
    if i.data.invitedUserId == Some(uid) then i.(data := i.data.(invitedUserId := None)) else i
  }

  /** An item row after SetNull on `PurchasedBy` for the deleted user `uid`. */
  function ClearedPurchaser(i: Row<ShoppingItem>, uid: Guid): Row<ShoppingItem> {
    if i.data.purchasedBy == Some(uid) then i.(data := i.data.(purchasedBy := None)) else i
  }

  /** SetNull on `GroupMember.InvitedBy`. */
  function ClearInviters(t: Table<GroupMember>, uid: Guid): (r: Table<GroupMember>)
    ensures r.Keys == t.Keys
    ensures forall id :: id in r ==>
      && r[id].audit == t[id].audit
      && r[id].data == t[id].data.(invitedBy := r[id].data.invitedBy)
      && r[id].data.invitedBy == (if t[id].data.invitedBy == Some(uid) then None else t[id].data.invitedBy)
  {
    map id | id in t :: ClearedInviter(t[id], uid)
  }

  /** SetNull on `Invitation.InvitedUserId`. */
  function ClearInvitees(t: Table<Invitation>, uid: Guid): (r: Table<Invitation>)
    ensures r.Keys == t.Keys
    ensures forall id :: id in r ==>
      && r[id].audit == t[id].audit
      && r[id].data == t[id].data.(invitedUserId := r[id].data.invitedUserId)
      && r[id].data.invitedUserId == (if t[id].data.invitedUserId == Some(uid) then None else t[id].data.invitedUserId)
  {
    map id | id in t :: ClearedInvitee(t[id], uid)
  }

  /** SetNull on `ShoppingItem.PurchasedBy`. */
  function ClearPurchasers(t: Table<ShoppingItem>, uid: Guid): (r: Table<ShoppingItem>)
    ensures r.Keys == t.Keys
    ensures forall id :: id in r ==>
      && r[id].audit == t[id].audit
      && r[id].data == t[id].data.(purchasedBy := r[id].data.purchasedBy)
      && r[id].data.purchasedBy == (if t[id].data.purchasedBy == Some(uid) then None else t[id].data.purchasedBy)
  {
    map id | id in t :: ClearedPurchaser(t[id], uid)
  }

  /** The state after the user row and its cascades are gone. */
  function WithoutUser(s: Store, uid: Guid): Store {
    Store(
      s.users - {uid},
      s.groups,
      ClearInviters(KeepRows(s.members, (m: Row<GroupMember>) => m.data.userId != uid), uid),
      ClearInvitees(s.invitations, uid),
      s.lists,
      ClearPurchasers(s.items, uid),
      KeepRows(s.histories, (h: Row<PurchaseHistory>) => h.data.userId != uid))
  }

  /** Physically deletes a user. Refused while a Restrict reference exists;
      otherwise the user's memberships and purchase histories go with it, and
      memberships it invited, invitations addressed to it and items it
      purchased lose that reference but stay. */
  function DeleteUser(s: Store, uid: Guid): (r: Result<Store, DbError>)
    ensures r.Failure? <==> uid !in s.users || UserIsRestricted(s, uid)
    ensures r.Success? ==> r.value.users.Keys == s.users.Keys - {uid}
    ensures r.Success? ==> !ReferencesUser(r.value, uid)
    ensures r.Success? ==> r.value.groups == s.groups && r.value.lists == s.lists
    ensures r.Success? ==> r.value.invitations.Keys == s.invitations.Keys && r.value.items.Keys == s.items.Keys
    ensures r.Success? ==> forall id :: id in s.members ==> (id in r.value.members <==> s.members[id].data.userId != uid)
    ensures r.Success? ==> forall id :: id in s.histories ==> (id in r.value.histories <==> s.histories[id].data.userId != uid)
    ensures r.Success? ==> UserRowsKept(s, r.value, uid)
    ensures r.Success? && Valid(s) ==> Valid(r.value)
  {
    if uid !in s.users then Failure(ConcurrencyConflict)
    else if UserIsRestricted(s, uid) then Failure(RestrictViolation)
    else
      var s' := WithoutUser(s, uid);
      WithoutUserDropsReferences(s, uid);
      WithoutUserKeepsContents(s, uid);
      if Valid(s) then
        WithoutUserValid(s, uid);
        Success(s')
      else Success(s')
  }

  /** Apart from the rows that go and the references SetNull clears, every
      row of `s` that is still in `s'` is as it was. */
  ghost predicate UserRowsKept(s: Store, s': Store, uid: Guid) {
    && s'.users == s.users - {uid} && s'.groups == s.groups && s'.lists == s.lists
    && SubTable(s'.histories, s.histories)
    && (forall id :: id in s'.members ==> id in s.members && s'.members[id] == ClearedInviter(s.members[id], uid))
    && s'.invitations.Keys == s.invitations.Keys
    && (forall id :: id in s.invitations ==> s'.invitations[id] == ClearedInvitee(s.invitations[id], uid))
    && s'.items.Keys == s.items.Keys
    && (forall id :: id in s.items ==> s'.items[id] == ClearedPurchaser(s.items[id], uid))
  }

  lemma WithoutUserKeepsContents(s: Store, uid: Guid)
    ensures UserRowsKept(s, WithoutUser(s, uid), uid)
  {
  }

  lemma WithoutUserDropsReferences(s: Store, uid: Guid)
    requires !UserIsRestricted(s, uid)
    ensures !ReferencesUser(WithoutUser(s, uid), uid)
  {
    WithoutUserStaysUnrestricted(s, uid);
    NoMemberLeft(s.members, uid);
    NoInviteeLeft(s.invitations, uid);
    NoPurchaserLeft(s.items, uid);
    NoHistoryLeft(s.histories, uid);
  }

  lemma NoMemberLeft(t: Table<GroupMember>, uid: Guid)
    ensures var r := ClearInviters(KeepRows(t, (m: Row<GroupMember>) => m.data.userId != uid), uid);
      !exists id :: id in r && (r[id].data.userId == uid || r[id].data.invitedBy == Some(uid))
  {
  }

  lemma NoInviteeLeft(t: Table<Invitation>, uid: Guid)
    ensures var r := ClearInvitees(t, uid);
      !exists id :: id in r && r[id].data.invitedUserId == Some(uid)
  {
  }

  lemma NoPurchaserLeft(t: Table<ShoppingItem>, uid: Guid)
    ensures var r := ClearPurchasers(t, uid);
      !exists id :: id in r && r[id].data.purchasedBy == Some(uid)
  {
  }

  lemma NoHistoryLeft(t: Table<PurchaseHistory>, uid: Guid)
    ensures var r := KeepRows(t, (h: Row<PurchaseHistory>) => h.data.userId != uid);
      !exists id :: id in r && r[id].data.userId == uid
  {
  }

  lemma WithoutUserStaysUnrestricted(s: Store, uid: Guid)
    requires !UserIsRestricted(s, uid)
    ensures !UserIsRestricted(WithoutUser(s, uid), uid)
  {
    var s' := WithoutUser(s, uid);
    forall id | id in s'.invitations ensures s'.invitations[id].data.invitedBy != uid {
      assert s.invitations[id].data.invitedBy != uid;
    }
    forall id | id in s'.items ensures s'.items[id].data.addedByUserId != uid {
      assert s.items[id].data.addedByUserId != uid;
    }
  }

  lemma WithoutUserKeys(s: Store, uid: Guid)
    requires KeysOk(s)
    ensures KeysOk(WithoutUser(s, uid))
  {
    var s' := WithoutUser(s, uid);
    SubTableKeyed(s'.users, s.users);
    SubTableKeyed(s'.histories, s.histories);
    var m := KeepRows(s.members, (m: Row<GroupMember>) => m.data.userId != uid);
    SubTableKeyed(m, s.members);
  }

  lemma WithoutUserColumns(s: Store, uid: Guid)
    requires ColumnsOk(s)
    ensures ColumnsOk(WithoutUser(s, uid))
  {
    var s' := WithoutUser(s, uid);
    assert forall id :: id in s'.invitations ==> InvitationColumnsOk(s'.invitations[id].data) by {
      forall id | id in s'.invitations ensures InvitationColumnsOk(s'.invitations[id].data) {
        assert InvitationColumnsOk(s.invitations[id].data);
      }
    }
    assert forall id :: id in s'.items ==> ItemColumnsOk(s'.items[id].data) by {
      forall id | id in s'.items ensures ItemColumnsOk(s'.items[id].data) {
        assert ItemColumnsOk(s.items[id].data);
      }
    }
  }

  lemma WithoutUserUnique(s: Store, uid: Guid)
    requires UniqueOk(s)
    ensures UniqueOk(WithoutUser(s, uid))
  {
    var s' := WithoutUser(s, uid);
    var kept := KeepRows(s.members, (m: Row<GroupMember>) => m.data.userId != uid);
    forall a, b | a in s'.members && b in s'.members && a != b && Visible(s'.members[a]) && Visible(s'.members[b])
      ensures (s'.members[a].data.groupId, s'.members[a].data.userId) != (s'.members[b].data.groupId, s'.members[b].data.userId)
    {
      assert kept[a] == s.members[a] && kept[b] == s.members[b];
    }
    forall a, b | a in s'.invitations && b in s'.invitations && a != b
      ensures s'.invitations[a].data.token != s'.invitations[b].data.token
    {
      assert s'.invitations[a].data.token == s.invitations[a].data.token;
      assert s'.invitations[b].data.token == s.invitations[b].data.token;
    }
  }

  lemma WithoutUserGroupRefs(s: Store, uid: Guid)
    requires GroupRefsOk(s) && !UserIsRestricted(s, uid)
    ensures GroupRefsOk(WithoutUser(s, uid))
  {
    var s' := WithoutUser(s, uid);
    forall id | id in s'.groups ensures s'.groups[id].data.ownerId in s'.users {
      assert s.groups[id].data.ownerId != uid;
    }
  }

  lemma WithoutUserMemberRefs(s: Store, uid: Guid)
    requires MemberRefsOk(s)
    ensures MemberRefsOk(WithoutUser(s, uid))
  {
    var s' := WithoutUser(s, uid);
    var kept := KeepRows(s.members, (m: Row<GroupMember>) => m.data.userId != uid);
    forall id | id in s'.members
      ensures s'.members[id].data.groupId in s'.groups && s'.members[id].data.userId in s'.users
      ensures OptRef(s'.members[id].data.invitedBy, s'.users)
    {
      assert kept[id] == s.members[id];
    }
  }

  lemma WithoutUserInvitationRefs(s: Store, uid: Guid)
    requires InvitationRefsOk(s) && !UserIsRestricted(s, uid)
    ensures InvitationRefsOk(WithoutUser(s, uid))
  {
    var s' := WithoutUser(s, uid);
    forall id | id in s'.invitations
      ensures s'.invitations[id].data.groupId in s'.groups && s'.invitations[id].data.invitedBy in s'.users
      ensures OptRef(s'.invitations[id].data.invitedUserId, s'.users)
    {
      assert s.invitations[id].data.invitedBy != uid;
    }
  }

  lemma WithoutUserListRefs(s: Store, uid: Guid)
    requires ListRefsOk(s) && !UserIsRestricted(s, uid)
    ensures ListRefsOk(WithoutUser(s, uid))
  {
    var s' := WithoutUser(s, uid);
    forall id | id in s'.lists ensures s'.lists[id].data.createdByUserId in s'.users {
      assert s.lists[id].data.createdByUserId != uid;
    }
  }

  lemma WithoutUserItemRefs(s: Store, uid: Guid)
    requires ItemRefsOk(s) && !UserIsRestricted(s, uid)
    ensures ItemRefsOk(WithoutUser(s, uid))
  {
    var s' := WithoutUser(s, uid);
    forall id | id in s'.items
      ensures s'.items[id].data.listId in s'.lists && s'.items[id].data.addedByUserId in s'.users
      ensures OptRef(s'.items[id].data.purchasedBy, s'.users)
    {
      assert s.items[id].data.addedByUserId != uid;
    }
  }

  lemma WithoutUserHistoryRefs(s: Store, uid: Guid)
    requires HistoryRefsOk(s)
    ensures HistoryRefsOk(WithoutUser(s, uid))
  {
  }

  lemma WithoutUserReferences(s: Store, uid: Guid)
    requires ReferencesOk(s) && !UserIsRestricted(s, uid)
    ensures ReferencesOk(WithoutUser(s, uid))
  {
    WithoutUserGroupRefs(s, uid);
    WithoutUserMemberRefs(s, uid);
    WithoutUserInvitationRefs(s, uid);
    WithoutUserListRefs(s, uid);
    WithoutUserItemRefs(s, uid);
    WithoutUserHistoryRefs(s, uid);
  }

  lemma WithoutUserValid(s: Store, uid: Guid)
    requires Valid(s) && !UserIsRestricted(s, uid)
    ensures Valid(WithoutUser(s, uid))
  {
    WithoutUserKeys(s, uid);
    WithoutUserColumns(s, uid);
    WithoutUserUnique(s, uid);
    WithoutUserReferences(s, uid);
  }

  // ---------------------------------------------------------------------------
  // Deleting a group or a list: nothing restricts it, everything under it
  // cascades.

  /** The item sits in a list of the group `gid`. */
  predicate ItemInGroup(s: Store, item: ShoppingItem, gid: Guid) {
    item.listId in s.lists && s.lists[item.listId].data.groupId == gid
  }

  /** The state after the group row and its cascades are gone. */
  function WithoutGroup(s: Store, gid: Guid): Store {
    Store(
      s.users,
      s.groups - {gid},
      KeepRows(s.members, (m: Row<GroupMember>) => m.data.groupId != gid),
      KeepRows(s.invitations, (i: Row<Invitation>) => i.data.groupId != gid),
      KeepRows(s.lists, (l: Row<ShoppingList>) => l.data.groupId != gid),
      KeepRows(s.items, (i: Row<ShoppingItem>) => !ItemInGroup(s, i.data, gid)),
      KeepRows(s.histories, (h: Row<PurchaseHistory>) => h.data.groupId != gid))
  }

  /** Every table of `s'` keeps a subset of the rows of `s`, unchanged. */
  ghost predicate SubStore(s': Store, s: Store) {
    SubTable(s'.users, s.users) && SubTable(s'.groups, s.groups) && SubTable(s'.members, s.members)
    && SubTable(s'.invitations, s.invitations) && SubTable(s'.lists, s.lists)
    && SubTable(s'.items, s.items) && SubTable(s'.histories, s.histories)
  }

  /** Dropping rows never breaks a key, a length bound or a unique index. */
  lemma SubStoreKeepsLocalRules(s': Store, s: Store)
    requires SubStore(s', s) && KeysOk(s) && ColumnsOk(s) && UniqueOk(s)
    ensures KeysOk(s') && ColumnsOk(s') && UniqueOk(s')
  {
    SubTableKeyed(s'.users, s.users);
    SubTableKeyed(s'.groups, s.groups);
    SubTableKeyed(s'.members, s.members);
    SubTableKeyed(s'.invitations, s.invitations);
    SubTableKeyed(s'.lists, s.lists);
    SubTableKeyed(s'.items, s.items);
    SubTableKeyed(s'.histories, s.histories);
  }

  /** Physically deletes a group together with its memberships, invitations,
      purchase histories and lists, and the items of those lists. */
  function DeleteGroup(s: Store, gid: Guid): (r: Result<Store, DbError>)
    ensures r.Failure? <==> gid !in s.groups
    ensures r.Success? ==> r.value.groups.Keys == s.groups.Keys - {gid} && r.value.users == s.users
    ensures r.Success? ==> forall id :: id in s.members ==> (id in r.value.members <==> s.members[id].data.groupId != gid)
    ensures r.Success? ==> forall id :: id in s.invitations ==> (id in r.value.invitations <==> s.invitations[id].data.groupId != gid)
    ensures r.Success? ==> forall id :: id in s.lists ==> (id in r.value.lists <==> s.lists[id].data.groupId != gid)
    ensures r.Success? ==> forall id :: id in s.items ==> (id in r.value.items <==> !ItemInGroup(s, s.items[id].data, gid))
    ensures r.Success? ==> forall id :: id in s.histories ==> (id in r.value.histories <==> s.histories[id].data.groupId != gid)
    ensures r.Success? ==> r.value.groups == s.groups - {gid} && SubStore(r.value, s)
    ensures r.Success? && Valid(s) ==> Valid(r.value)
  {
    if gid !in s.groups then Failure(ConcurrencyConflict)
    else
      var s' := WithoutGroup(s, gid);
      WithoutGroupCascades(s, gid);
      if Valid(s) then
        WithoutGroupValid(s, gid);
        Success(s')
      else Success(s')
  }

  /** The group's dependents are exactly the rows that go. */
  lemma WithoutGroupCascades(s: Store, gid: Guid)
    ensures var s' := WithoutGroup(s, gid);
      && (forall id :: id in s.members ==> (id in s'.members <==> s.members[id].data.groupId != gid))
      && (forall id :: id in s.invitations ==> (id in s'.invitations <==> s.invitations[id].data.groupId != gid))
      && (forall id :: id in s.lists ==> (id in s'.lists <==> s.lists[id].data.groupId != gid))
      && (forall id :: id in s.items ==> (id in s'.items <==> !ItemInGroup(s, s.items[id].data, gid)))
      && (forall id :: id in s.histories ==> (id in s'.histories <==> s.histories[id].data.groupId != gid))
  {
  }

  lemma WithoutGroupMemberRefs(s: Store, gid: Guid)
    requires MemberRefsOk(s)
    ensures MemberRefsOk(WithoutGroup(s, gid))
  {
    var s' := WithoutGroup(s, gid);
    forall id | id in s'.members ensures s'.members[id].data.groupId in s'.groups {
      assert s'.members[id] == s.members[id];
    }
  }

  lemma WithoutGroupInvitationRefs(s: Store, gid: Guid)
    requires InvitationRefsOk(s)
    ensures InvitationRefsOk(WithoutGroup(s, gid))
  {
    var s' := WithoutGroup(s, gid);
    forall id | id in s'.invitations ensures s'.invitations[id].data.groupId in s'.groups {
      assert s'.invitations[id] == s.invitations[id];
    }
  }

  lemma WithoutGroupListRefs(s: Store, gid: Guid)
    requires ListRefsOk(s)
    ensures ListRefsOk(WithoutGroup(s, gid))
  {
    var s' := WithoutGroup(s, gid);
    forall id | id in s'.lists ensures s'.lists[id].data.groupId in s'.groups {
      assert s'.lists[id] == s.lists[id];
    }
  }

  lemma WithoutGroupItemRefs(s: Store, gid: Guid)
    requires ItemRefsOk(s)
    ensures ItemRefsOk(WithoutGroup(s, gid))
  {
    var s' := WithoutGroup(s, gid);
    forall id | id in s'.items ensures s'.items[id].data.listId in s'.lists {
      assert s'.items[id] == s.items[id];
      assert !ItemInGroup(s, s.items[id].data, gid);
    }
  }

  lemma WithoutGroupHistoryRefs(s: Store, gid: Guid)
    requires HistoryRefsOk(s)
    ensures HistoryRefsOk(WithoutGroup(s, gid))
  {
    var s' := WithoutGroup(s, gid);
    forall id | id in s'.histories ensures s'.histories[id].data.groupId in s'.groups {
      assert s'.histories[id] == s.histories[id];
    }
  }

  lemma WithoutGroupReferences(s: Store, gid: Guid)
    requires ReferencesOk(s)
    ensures ReferencesOk(WithoutGroup(s, gid))
  {
    WithoutGroupMemberRefs(s, gid);
    WithoutGroupInvitationRefs(s, gid);
    WithoutGroupListRefs(s, gid);
    WithoutGroupItemRefs(s, gid);
    WithoutGroupHistoryRefs(s, gid);
  }

  lemma WithoutGroupValid(s: Store, gid: Guid)
    requires Valid(s)
    ensures Valid(WithoutGroup(s, gid))
  {
    SubStoreKeepsLocalRules(WithoutGroup(s, gid), s);
    WithoutGroupReferences(s, gid);
  }

  /** The state after the list row and its items are gone. */
  function WithoutList(s: Store, lid: Guid): Store {
    s.(
      lists := s.lists - {lid},
      items := KeepRows(s.items, (i: Row<ShoppingItem>) => i.data.listId != lid))
  }

  /** Physically deletes a list together with its items. */
  function DeleteList(s: Store, lid: Guid): (r: Result<Store, DbError>)
    ensures r.Failure? <==> lid !in s.lists
    ensures r.Success? ==> r.value.lists.Keys == s.lists.Keys - {lid}
    ensures r.Success? ==> r.value == s.(lists := r.value.lists, items := r.value.items)
    ensures r.Success? ==> forall id :: id in s.items ==> (id in r.value.items <==> s.items[id].data.listId != lid)
    ensures r.Success? ==> r.value.lists == s.lists - {lid} && SubTable(r.value.items, s.items)
    ensures r.Success? && Valid(s) ==> Valid(r.value)
  {
    if lid !in s.lists then Failure(ConcurrencyConflict)
    else
      var s' := WithoutList(s, lid);
      if Valid(s) then
        WithoutListValid(s, lid);
        Success(s')
      else Success(s')
  }

  lemma WithoutListReferences(s: Store, lid: Guid)
    requires ReferencesOk(s)
    ensures ReferencesOk(WithoutList(s, lid))
  {
    var s' := WithoutList(s, lid);
    assert ItemRefsOk(s') by {
      forall id | id in s'.items ensures s'.items[id].data.listId in s'.lists {
        assert s'.items[id] == s.items[id];
      }
    }
    assert ListRefsOk(s') by {
      forall id | id in s'.lists ensures s'.lists[id].data.groupId in s'.groups {
        assert s'.lists[id] == s.lists[id];
      }
    }
  }

  lemma WithoutListValid(s: Store, lid: Guid)
    requires Valid(s)
    ensures Valid(WithoutList(s, lid))
  {
    SubStoreKeepsLocalRules(WithoutList(s, lid), s);
    WithoutListReferences(s, lid);
  }
}
