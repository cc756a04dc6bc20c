/** Consequences of the unique indexes, the non-unique indexes and the store
    defaults for the rows the application writes. */
module Integrity {
  import opened Wrappers
  import opened BaseEntity
  import opened Entities
  import opened Database

  /** A user row can join the table without breaking email uniqueness exactly
      when no stored user, tombstoned or not, already has its email. */
  lemma {:induction false} AddUserKeepsEmailsUnique(users: Table<User>, id: Guid, row: Row<User>)
    requires EmailsUnique(users) && id !in users
    ensures EmailsUnique(users[id := row]) <==> (forall k :: k in users ==> users[k].data.email != row.data.email)
  {
    var t := users[id := row];
    if forall k :: k in users ==> users[k].data.email != row.data.email {
      forall a, b | a in t && b in t && a != b ensures t[a].data.email != t[b].data.email {
        if a != id && b != id {
          assert t[a] == users[a] && t[b] == users[b];
        }
      }
    } else {
      var k :| k in users && users[k].data.email == row.data.email;
      assert k != id && t[k].data.email == t[id].data.email;
    }
  }

  /** No non-deleted membership joins `userId` to `groupId`. */
  predicate PairIsFree(members: Table<GroupMember>, groupId: Guid, userId: Guid) {
    forall k :: k in members && Visible(members[k])
      ==> (members[k].data.groupId, members[k].data.userId) != (groupId, userId)
  }

  /** A membership row can be added without breaking the filtered pair index
      exactly when it is a tombstone or no other non-deleted row holds its
      (group, user) pair; tombstones of the pair never block it. */
  lemma {:induction false} AddMembershipKeepsPairsUnique(members: Table<GroupMember>, id: Guid, row: Row<GroupMember>)
    requires ActiveMembershipsUnique(members) && id !in members
    ensures ActiveMembershipsUnique(members[id := row]) <==>
      (!Visible(row) || PairIsFree(members, row.data.groupId, row.data.userId))
  {
    var t := members[id := row];
    if !Visible(row) || PairIsFree(members, row.data.groupId, row.data.userId) {
      forall a, b | a in t && b in t && a != b && Visible(t[a]) && Visible(t[b])
        ensures (t[a].data.groupId, t[a].data.userId) != (t[b].data.groupId, t[b].data.userId)
      {
        if a != id && b != id {
          assert t[a] == members[a] && t[b] == members[b];
        } else if a == id {
          assert t[b] == members[b];
        } else {
          assert t[a] == members[a];
        }
      }
    } else {
      var k :| k in members && Visible(members[k])
        && (members[k].data.groupId, members[k].data.userId) == (row.data.groupId, row.data.userId);
      assert k != id && t[k] == members[k] && t[id] == row;
    }
  }

  /** Any number of tombstoned memberships of one pair can sit beside the
      single live one: adding a tombstone never breaks the pair index. */
  lemma TombstonesNeverCollide(members: Table<GroupMember>, id: Guid, row: Row<GroupMember>)
    requires ActiveMembershipsUnique(members) && id !in members && !Visible(row)
    ensures ActiveMembershipsUnique(members[id := row])
  {
    AddMembershipKeepsPairsUnique(members, id, row);
  }

  /** A group row can be added exactly when it has no invite code or its code
      is held by no stored group, tombstoned groups included. */
  lemma {:induction false} AddGroupKeepsInviteCodesUnique(groups: Table<Group>, id: Guid, row: Row<Group>)
    requires InviteCodesUnique(groups) && id !in groups
    ensures InviteCodesUnique(groups[id := row]) <==>
      (row.data.inviteCode.None? || forall k :: k in groups ==> groups[k].data.inviteCode != row.data.inviteCode)
  {
    var t := groups[id := row];
    if row.data.inviteCode.None? || forall k :: k in groups ==> groups[k].data.inviteCode != row.data.inviteCode {
      forall a, b | a in t && b in t && a != b && t[a].data.inviteCode.Some?
        ensures t[a].data.inviteCode != t[b].data.inviteCode
      {
        if a != id && b != id {
          assert t[a] == groups[a] && t[b] == groups[b];
        } else if a == id {
          assert t[b] == groups[b];
        } else {
          assert t[a] == groups[a];
        }
      }
    } else {
      var k :| k in groups && groups[k].data.inviteCode == row.data.inviteCode;
      assert k != id && t[k] == groups[k] && t[id] == row;
    }
  }

  /** Groups without an invite code never collide, however many there are. */
  lemma CodelessGroupsNeverCollide(groups: Table<Group>, id: Guid, row: Row<Group>)
    requires InviteCodesUnique(groups) && id !in groups && row.data.inviteCode.None?
    ensures InviteCodesUnique(groups[id := row])
  {
    AddGroupKeepsInviteCodesUnique(groups, id, row);
  }

  /** Two invitations whose token was never set share the empty token, so
      the unique token index refuses to hold both. */
  lemma UnsetTokensCollide(invitations: Table<Invitation>, a: Guid, b: Guid)
    requires a != b && a in invitations && b in invitations
    requires invitations[a].data.token == NewInvitation().token
    requires invitations[b].data.token == NewInvitation().token
    ensures !TokensUnique(invitations)
  {
  }

  lemma ItemSwapKeys(s: Store, items: Table<ShoppingItem>)
    requires KeysOk(s) && KeyedById(items)
    ensures KeysOk(s.(items := items))
  {
  }

  lemma ItemSwapColumns(s: Store, items: Table<ShoppingItem>)
    requires ColumnsOk(s) && forall id :: id in items ==> ItemColumnsOk(items[id].data)
    ensures ColumnsOk(s.(items := items))
  {
  }

  lemma ItemSwapUnique(s: Store, items: Table<ShoppingItem>)
    requires UniqueOk(s)
    ensures UniqueOk(s.(items := items))
  {
    var s' := s.(items := items);
    assert s'.users == s.users && s'.groups == s.groups && s'.invitations == s.invitations && s'.members == s.members;
  }

  lemma ItemSwapReferences(s: Store, items: Table<ShoppingItem>)
    requires ReferencesOk(s)
    requires forall id :: id in items ==>
      items[id].data.listId in s.lists && items[id].data.addedByUserId in s.users
      && OptRef(items[id].data.purchasedBy, s.users)
    ensures ReferencesOk(s.(items := items))
  {
    var s' := s.(items := items);
    assert GroupRefsOk(s') && MemberRefsOk(s') && InvitationRefsOk(s') && ListRefsOk(s') && HistoryRefsOk(s');
  }

  /** The item rules, stated for a candidate item table against the other
      tables of `s`. */
  predicate ItemsFit(s: Store, items: Table<ShoppingItem>) {
    && KeyedById(items)
    && (forall id :: id in items ==> ItemColumnsOk(items[id].data))
    && (forall id :: id in items ==>
          items[id].data.listId in s.lists && items[id].data.addedByUserId in s.users
          && OptRef(items[id].data.purchasedBy, s.users))
  }

  /** Replacing the item table touches only the item rules: keys, columns and
      references of items; the other tables' rules do not read it. */
  lemma ItemTableSwap(s: Store, items: Table<ShoppingItem>)
    requires Valid(s) && ItemsFit(s, items)
    ensures Valid(s.(items := items))
  {
    ItemSwapKeys(s, items);
    ItemSwapColumns(s, items);
    ItemSwapUnique(s, items);
    ItemSwapReferences(s, items);
  }

  /** No rule reads `DisplayOrder`: any item may take any display order, so
      two items of one list may share one. */
  lemma {:induction false} DisplayOrderIsUnconstrained(s: Store, id: Guid, order: Int32)
    requires Valid(s) && id in s.items
    ensures Valid(s.(items := s.items[id := s.items[id].(data := s.items[id].data.(displayOrder := order))]))
  {
    var items := s.items[id := s.items[id].(data := s.items[id].data.(displayOrder := order))];
    ReorderedItemKeepsItemRules(s, id, order);
    ItemTableSwap(s, items);
  }

  lemma ReorderedItemKeepsItemRules(s: Store, id: Guid, order: Int32)
    requires id in s.items && KeyedById(s.items) && ItemRefsOk(s)
    requires forall k :: k in s.items ==> ItemColumnsOk(s.items[k].data)
    ensures ItemsFit(s, s.items[id := s.items[id].(data := s.items[id].data.(displayOrder := order))])
  {
  }

  lemma HistorySwapKeys(s: Store, histories: Table<PurchaseHistory>)
    requires KeysOk(s) && KeyedById(histories)
    ensures KeysOk(s.(histories := histories))
  {
  }

  lemma HistorySwapColumns(s: Store, histories: Table<PurchaseHistory>)
    requires ColumnsOk(s) && forall id :: id in histories ==> HistoryColumnsOk(histories[id].data)
    ensures ColumnsOk(s.(histories := histories))
  {
  }

  lemma HistorySwapUnique(s: Store, histories: Table<PurchaseHistory>)
    requires UniqueOk(s)
    ensures UniqueOk(s.(histories := histories))
  {
    var s' := s.(histories := histories);
    assert s'.users == s.users && s'.groups == s.groups && s'.invitations == s.invitations && s'.members == s.members;
  }

  lemma HistorySwapReferences(s: Store, histories: Table<PurchaseHistory>)
    requires ReferencesOk(s)
    requires forall id :: id in histories ==>
      histories[id].data.userId in s.users && histories[id].data.groupId in s.groups
    ensures ReferencesOk(s.(histories := histories))
  {
    var s' := s.(histories := histories);
    assert GroupRefsOk(s') && MemberRefsOk(s') && InvitationRefsOk(s') && ListRefsOk(s') && ItemRefsOk(s');
  }

  /** The history rules, stated for a candidate history table against the
      other tables of `s`. */
  predicate HistoriesFit(s: Store, histories: Table<PurchaseHistory>) {
    && KeyedById(histories)
    && (forall id :: id in histories ==> HistoryColumnsOk(histories[id].data))
    && (forall id :: id in histories ==>
          histories[id].data.userId in s.users && histories[id].data.groupId in s.groups)
  }

  /** Replacing the history table touches only the history rules. */
  lemma HistoryTableSwap(s: Store, histories: Table<PurchaseHistory>)
    requires Valid(s) && HistoriesFit(s, histories)
    ensures Valid(s.(histories := histories))
  {
    HistorySwapKeys(s, histories);
    HistorySwapColumns(s, histories);
    HistorySwapUnique(s, histories);
    HistorySwapReferences(s, histories);
  }

  /** The (user, group, item name) history index is not unique: a second row
      with the same key as a stored one, under a new id, keeps the store valid. */
  lemma {:induction false} HistoryKeyMayRepeat(s: Store, existing: Guid, newId: Guid)
    requires Valid(s) && existing in s.histories && newId !in s.histories
    ensures var copy := s.histories[existing].(audit := s.histories[existing].audit.(id := newId));
      Valid(s.(histories := s.histories[newId := copy]))
  {
    var copy := s.histories[existing].(audit := s.histories[existing].audit.(id := newId));
    var histories := s.histories[newId := copy];
    CopiedHistoryKeepsHistoryRules(s, existing, newId);
    HistoryTableSwap(s, histories);
  }

  lemma CopiedHistoryKeepsHistoryRules(s: Store, existing: Guid, newId: Guid)
    requires existing in s.histories && KeyedById(s.histories) && HistoryRefsOk(s)
    requires forall k :: k in s.histories ==> HistoryColumnsOk(s.histories[k].data)
    ensures var copy := s.histories[existing].(audit := s.histories[existing].audit.(id := newId));
      HistoriesFit(s, s.histories[newId := copy])
  {
  }

  /** The entity initialisers agree with the store defaults for quantity,
      version, sync flag, invite permission and member cap, and disagree on
      the language: a new user starts with "pt-br" while the column default
      is "en". */
  lemma InitialisersAgainstStoreDefaults()
    ensures NewShoppingItem().quantity == DefaultQuantity
    ensures NewShoppingItem().version == DefaultVersion
    ensures NewShoppingItem().isSynced == DefaultIsSynced
    ensures NewGroup().allowMembersToInvite == DefaultAllowMembersToInvite
    ensures NewGroup().maxMembers == DefaultMaxMembers
    ensures NewUser().language != Some(DefaultLanguage)
  {
  }
}
