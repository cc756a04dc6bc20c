/** The seven tables and the integrity rules the database enforces on them:
    primary keys, column length bounds, unique indexes and foreign keys.
    `Valid` is exactly what a committed state satisfies; a save whose result
    would break it is rejected as a whole. */
module Database {
  import opened Wrappers
  import opened BaseEntity
  import opened Entities
  import opened Audit

  type Table<T> = map<Guid, Row<T>>

  datatype Store = Store(
    users: Table<User>,
    groups: Table<Group>,
    members: Table<GroupMember>,
    invitations: Table<Invitation>,
    lists: Table<ShoppingList>,
    items: Table<ShoppingItem>,
    histories: Table<PurchaseHistory>)

  /** Why the database refuses a write. */
  datatype DbError =
    | DuplicateKey         // an inserted row's primary key is taken
    | ConcurrencyConflict  // an update or delete matched no row
    | ConstraintViolation  // a unique index, length bound or foreign key would break
    | RestrictViolation    // a physical delete is blocked by a Restrict reference

  // ---------------------------------------------------------------------------
  // Store defaults: the values a column takes when an insert omits it.

  const DefaultLanguage: string := "en"
  const DefaultAllowMembersToInvite: bool := true
  const DefaultMaxMembers: int := 10
  const DefaultQuantity: int := 1
  const DefaultVersion: int := 1
  const DefaultIsSynced: bool := true

  // ---------------------------------------------------------------------------
  // Inserted values. For a column with a configured default, EF Core leaves
  // the column out of the INSERT when the property holds its CLR default
  // (`false`, `0` or `null`), and the database then stores the column default.

  /** The user values an INSERT stores: a null `Language` becomes "en". */
  function UserInserted(u: User): User {
    if u.language.None? then u.(language := Some(DefaultLanguage)) else u
  }

  /** The group values an INSERT stores: `AllowMembersToInvite` false becomes
      true and `MaxMembers` 0 becomes 10. */
  function GroupInserted(g: Group): Group {
    g.(allowMembersToInvite := if !g.allowMembersToInvite then DefaultAllowMembersToInvite else g.allowMembersToInvite,
       maxMembers := if g.maxMembers == 0 then DefaultMaxMembers else g.maxMembers)
  }

  /** The item values an INSERT stores: `Quantity` and `Version` 0 become 1,
      `IsSynced` false becomes true. */
  function ItemInserted(i: ShoppingItem): ShoppingItem {
    i.(quantity := if i.quantity == 0 then DefaultQuantity else i.quantity,
       version := if i.version == 0 then DefaultVersion else i.version,
       isSynced := if !i.isSynced then DefaultIsSynced else i.isSynced)
  }

  // ---------------------------------------------------------------------------
  // Column length bounds (`HasMaxLength`); required columns are non-nullable
  // by their type here.

  predicate AtMost(s: string, n: nat) {
    |s| <= n
  }

  predicate OptAtMost(s: Option<string>, n: nat) {
    s.None? || |s.value| <= n
  }

  predicate UserColumnsOk(u: User) {
    AtMost(u.email, 255) && AtMost(u.passwordHash, 500) && AtMost(u.fullName, 255)
    && OptAtMost(u.language, 10)
  }

  predicate GroupColumnsOk(g: Group) {
    AtMost(g.name, 255) && OptAtMost(g.description, 1000) && OptAtMost(g.inviteCode, 10)
  }

  predicate InvitationColumnsOk(i: Invitation) {
    AtMost(i.invitedEmail, 255) && AtMost(i.token, 100) && OptAtMost(i.message, 500)
  }

  predicate ListColumnsOk(l: ShoppingList) {
    AtMost(l.name, 255) && OptAtMost(l.description, 1000)
    && OptAtMost(l.color, 7) && OptAtMost(l.icon, 50)
  }

  predicate ItemColumnsOk(i: ShoppingItem) {
    AtMost(i.name, 255) && OptAtMost(i.notes, 500) && OptAtMost(i.category, 100)
  }

  predicate HistoryColumnsOk(h: PurchaseHistory) {
    AtMost(h.itemName, 255) && OptAtMost(h.category, 100) && OptAtMost(h.notes, 500)
  }

  predicate ColumnsOk(s: Store) {
    && (forall id :: id in s.users ==> UserColumnsOk(s.users[id].data))
    && (forall id :: id in s.groups ==> GroupColumnsOk(s.groups[id].data))
    && (forall id :: id in s.invitations ==> InvitationColumnsOk(s.invitations[id].data))
    && (forall id :: id in s.lists ==> ListColumnsOk(s.lists[id].data))
    && (forall id :: id in s.items ==> ItemColumnsOk(s.items[id].data))
    && (forall id :: id in s.histories ==> HistoryColumnsOk(s.histories[id].data))
  }

  // ---------------------------------------------------------------------------
  // Primary keys: a row is stored under its own id.

  predicate KeyedById<T>(t: Table<T>) {
    forall id :: id in t ==> t[id].audit.id == id
  }

  predicate KeysOk(s: Store) {
    KeyedById(s.users) && KeyedById(s.groups) && KeyedById(s.members)
    && KeyedById(s.invitations) && KeyedById(s.lists) && KeyedById(s.items)
    && KeyedById(s.histories)
  }

  // ---------------------------------------------------------------------------
  // Unique indexes.

  /** Email is unique over every user row; the index has no filter, so tombstones count. */
  predicate EmailsUnique(users: Table<User>) {
    forall a, b :: a in users && b in users && a != b ==> users[a].data.email != users[b].data.email
  }

  /** Invite codes are unique among groups that have one, tombstoned groups included. */
  predicate InviteCodesUnique(groups: Table<Group>) {
    forall a, b :: a in groups && b in groups && a != b && groups[a].data.inviteCode.Some?
      ==> groups[a].data.inviteCode != groups[b].data.inviteCode
  }

  /** Tokens are unique over every invitation, tombstoned ones included. */
  predicate TokensUnique(invitations: Table<Invitation>) {
    forall a, b :: a in invitations && b in invitations && a != b
      ==> invitations[a].data.token != invitations[b].data.token
  }

  /** At most one non-deleted membership per (group, user); tombstones are outside the index. */
  predicate ActiveMembershipsUnique(members: Table<GroupMember>) {
    forall a, b :: a in members && b in members && a != b
      && Visible(members[a]) && Visible(members[b])
      ==> (members[a].data.groupId, members[a].data.userId) != (members[b].data.groupId, members[b].data.userId)
  }

  predicate UniqueOk(s: Store) {
    EmailsUnique(s.users) && InviteCodesUnique(s.groups) && TokensUnique(s.invitations)
    && ActiveMembershipsUnique(s.members)
  }

  // ---------------------------------------------------------------------------
  // Foreign keys: every reference names a stored row. A tombstoned row is
  // still stored, so it still satisfies a reference.

  predicate OptRef<T>(r: Option<Guid>, t: Table<T>) {
    r.None? || r.value in t
  }

  predicate GroupRefsOk(s: Store) {
    forall id :: id in s.groups ==> s.groups[id].data.ownerId in s.users
  }

  predicate MemberRefsOk(s: Store) {
    forall id :: id in s.members ==>
      s.members[id].data.groupId in s.groups && s.members[id].data.userId in s.users
      && OptRef(s.members[id].data.invitedBy, s.users)
  }

  predicate InvitationRefsOk(s: Store) {
    forall id :: id in s.invitations ==>
      s.invitations[id].data.groupId in s.groups && s.invitations[id].data.invitedBy in s.users
      && OptRef(s.invitations[id].data.invitedUserId, s.users)
  }

  predicate ListRefsOk(s: Store) {
    forall id :: id in s.lists ==>
      s.lists[id].data.groupId in s.groups && s.lists[id].data.createdByUserId in s.users
  }

  predicate ItemRefsOk(s: Store) {
    forall id :: id in s.items ==>
      s.items[id].data.listId in s.lists && s.items[id].data.addedByUserId in s.users
      && OptRef(s.items[id].data.purchasedBy, s.users)
  }

  predicate HistoryRefsOk(s: Store) {
    forall id :: id in s.histories ==>
      s.histories[id].data.userId in s.users && s.histories[id].data.groupId in s.groups
  }

  predicate ReferencesOk(s: Store) {
    GroupRefsOk(s) && MemberRefsOk(s) && InvitationRefsOk(s) && ListRefsOk(s)
    && ItemRefsOk(s) && HistoryRefsOk(s)
  }

  /** Everything the database guarantees about a committed state. */
  predicate Valid(s: Store) {
    KeysOk(s) && ColumnsOk(s) && UniqueOk(s) && ReferencesOk(s)
  }

  // ---------------------------------------------------------------------------
  // Navigation collections, derived from the foreign keys.

  function MembershipsOf(s: Store, uid: Guid): set<Guid> {
    set id | id in s.members && s.members[id].data.userId == uid
  }

  function SentInvitationsOf(s: Store, uid: Guid): set<Guid> {
    set id | id in s.invitations && s.invitations[id].data.invitedBy == uid
  }

  function CreatedListsOf(s: Store, uid: Guid): set<Guid> {
    set id | id in s.lists && s.lists[id].data.createdByUserId == uid
  }

  function CreatedItemsOf(s: Store, uid: Guid): set<Guid> {
    set id | id in s.items && s.items[id].data.addedByUserId == uid
  }

  /** A user id that no row holds yet has no memberships, sent invitations,
      created lists or created items: its navigation collections start empty. */
  lemma FreshUserHasNoDependents(s: Store, uid: Guid)
    requires ReferencesOk(s) && uid !in s.users
    ensures MembershipsOf(s, uid) == {} && SentInvitationsOf(s, uid) == {}
    ensures CreatedListsOf(s, uid) == {} && CreatedItemsOf(s, uid) == {}
  {
  }

  // ---------------------------------------------------------------------------
  // Committing a change set.

  /** The tracked entries of one save, per table. */
  datatype ChangeSet = ChangeSet(
    users: seq<Entry<User>>,
    groups: seq<Entry<Group>>,
    members: seq<Entry<GroupMember>>,
    invitations: seq<Entry<Invitation>>,
    lists: seq<Entry<ShoppingList>>,
    items: seq<Entry<ShoppingItem>>,
    histories: seq<Entry<PurchaseHistory>>)

  predicate ChangeSetNoDeletes(cs: ChangeSet) {
    NoDeletes(cs.users) && NoDeletes(cs.groups) && NoDeletes(cs.members)
    && NoDeletes(cs.invitations) && NoDeletes(cs.lists) && NoDeletes(cs.items)
    && NoDeletes(cs.histories)
  }

  /** Some entry of `es` writes the row with this id. */
  predicate Writes<T>(es: seq<Entry<T>>, id: Guid) {
    exists i :: 0 <= i < |es| && es[i].state != Unchanged && es[i].row.audit.id == id
  }

  /** No two entries track the same row, as the change tracker's identity map guarantees. */
  predicate DistinctIds<T>(es: seq<Entry<T>>) {
    forall i, j :: 0 <= i < j < |es| ==> es[i].row.audit.id != es[j].row.audit.id
  }

  /** `t'` is `t` after the entries `es` were written: no row disappears, a
      new row was written by some entry, an untouched row is unchanged, and
      (when each row has one entry) every written row is stored as written. */
  ghost predicate TableReflects<T>(t: Table<T>, t': Table<T>, es: seq<Entry<T>>) {
    && t.Keys <= t'.Keys
    && (forall id :: id in t' && id !in t ==> Writes(es, id))
    && (forall id :: id in t && !Writes(es, id) ==> t'[id] == t[id])
    && (DistinctIds(es) ==>
          (forall i :: 0 <= i < |es| && es[i].state != Unchanged
             ==> es[i].row.audit.id in t' && t'[es[i].row.audit.id] == es[i].row))
  }

  /** Sends one table's entries to the database in order: an Added entry
      inserts (failing on a taken key), a Modified entry updates (failing when
      no row matches), an Unchanged entry sends nothing. */
  function ApplyEntries<T>(t: Table<T>, es: seq<Entry<T>>): (r: Result<Table<T>, DbError>)
    requires NoDeletes(es)
    ensures r.Success? ==> TableReflects(t, r.value, es)
    ensures r.Success? && KeyedById(t) ==> KeyedById(r.value)
    decreases |es|
  {
    if |es| == 0 then Success(t)
    else
      var e := es[0];
      var id := e.row.audit.id;
      NoDeletesTail(es);
      if e.state == Added then
        if id in t then Failure(DuplicateKey)
        else
          var r := ApplyEntries(t[id := e.row], es[1..]);
          HeadWritten(t, es, r);
          r
      else if e.state == Modified then
        if id !in t then Failure(ConcurrencyConflict)
        else
          var r := ApplyEntries(t[id := e.row], es[1..]);
          HeadWritten(t, es, r);
          r
      else
        var r := ApplyEntries(t, es[1..]);
        UnchangedHeadSkipped(t, es, r);
        r
  }

  lemma NoDeletesTail<T>(es: seq<Entry<T>>)
    requires |es| > 0 && NoDeletes(es)
    ensures NoDeletes(es[1..])
  {
    forall i | 0 <= i < |es[1..]| ensures es[1..][i].state != Deleted {
      assert es[1..][i] == es[i + 1];
    }
  }

  /** A first entry that writes its row, followed by the rest. */
  lemma HeadWritten<T>(t: Table<T>, es: seq<Entry<T>>, r: Result<Table<T>, DbError>)
    requires |es| > 0 && es[0].state != Unchanged && NoDeletes(es)
    requires r.Success? ==> TableReflects(t[es[0].row.audit.id := es[0].row], r.value, es[1..])
    ensures r.Success? ==> TableReflects(t, r.value, es)
  {
    NoDeletesTail(es);
    WritesHead(es);
    HeadWriteSurvives(t[es[0].row.audit.id := es[0].row], es, r);
  }

  /** An Unchanged first entry sends nothing, so the rest alone decides the table. */
  lemma UnchangedHeadSkipped<T>(t: Table<T>, es: seq<Entry<T>>, r: Result<Table<T>, DbError>)
    requires |es| > 0 && es[0].state == Unchanged
    requires r.Success? ==> TableReflects(t, r.value, es[1..])
    ensures r.Success? ==> TableReflects(t, r.value, es)
  {
    WritesTail(es);
    if r.Success? && DistinctIds(es) {
      DistinctTail(es);
      forall i | 0 <= i < |es| && es[i].state != Unchanged
        ensures es[i].row.audit.id in r.value && r.value[es[i].row.audit.id] == es[i].row
      {
        assert es[1..][i - 1] == es[i];
      }
    }
  }

  lemma DistinctTail<T>(es: seq<Entry<T>>)
    requires |es| > 0 && DistinctIds(es)
    ensures DistinctIds(es[1..])
    ensures forall i :: 0 <= i < |es[1..]| ==> es[1..][i].row.audit.id != es[0].row.audit.id
  {
    forall i | 0 <= i < |es[1..]| ensures es[1..][i].row.audit.id != es[0].row.audit.id {
      assert es[1..][i] == es[i + 1];
    }
  }

  /** After the first entry wrote `t0`'s row and the rest were applied, the
      whole sequence is reflected from the table before the first write. */
  lemma HeadWriteSurvives<T>(t0: Table<T>, es: seq<Entry<T>>, r: Result<Table<T>, DbError>)
    requires |es| > 0 && es[0].state != Unchanged && es[0].row.audit.id in t0
    requires t0[es[0].row.audit.id] == es[0].row
    requires NoDeletes(es[1..])
    requires Writes(es, es[0].row.audit.id)
    requires forall id :: Writes(es[1..], id) ==> Writes(es, id)
    requires forall id :: id != es[0].row.audit.id && Writes(es, id) ==> Writes(es[1..], id)
    requires r.Success? ==> TableReflects(t0, r.value, es[1..])
    ensures r.Success? ==>
      (forall t: Table<T> :: t0 == t[es[0].row.audit.id := es[0].row] ==> TableReflects(t, r.value, es))
  {
    if r.Success? {
      var id0 := es[0].row.audit.id;
      forall t: Table<T> | t0 == t[id0 := es[0].row] ensures TableReflects(t, r.value, es) {
        if DistinctIds(es) {
          DistinctTail(es);
          assert !Writes(es[1..], id0);
          forall i | 0 <= i < |es| && es[i].state != Unchanged
            ensures es[i].row.audit.id in r.value.Keys && r.value[es[i].row.audit.id] == es[i].row
          {
            if i > 0 {
              assert es[1..][i - 1] == es[i];
            }
          }
        }
      }
    }
  }

  /** A write by the first entry or by a later one is a write of the whole sequence. */
  lemma WritesHead<T>(es: seq<Entry<T>>)
    requires |es| > 0 && es[0].state != Unchanged
    ensures Writes(es, es[0].row.audit.id)
    ensures forall id :: Writes(es[1..], id) ==> Writes(es, id)
    ensures forall id :: id != es[0].row.audit.id && Writes(es, id) ==> Writes(es[1..], id)
  {
    forall id | Writes(es[1..], id) ensures Writes(es, id) {
      var i :| 0 <= i < |es[1..]| && es[1..][i].state != Unchanged && es[1..][i].row.audit.id == id;
      assert es[i + 1] == es[1..][i];
    }
    forall id | id != es[0].row.audit.id && Writes(es, id) ensures Writes(es[1..], id) {
      var i :| 0 <= i < |es| && es[i].state != Unchanged && es[i].row.audit.id == id;
      assert i != 0;
      assert es[1..][i - 1] == es[i];
    }
  }

  /** An entry that writes nothing does not change which ids the sequence writes. */
  lemma WritesTail<T>(es: seq<Entry<T>>)
    requires |es| > 0 && es[0].state == Unchanged
    ensures forall id :: Writes(es, id) <==> Writes(es[1..], id)
  {
    forall id | Writes(es[1..], id) ensures Writes(es, id) {
      var i :| 0 <= i < |es[1..]| && es[1..][i].state != Unchanged && es[1..][i].row.audit.id == id;
      assert es[i + 1] == es[1..][i];
    }
    forall id | Writes(es, id) ensures Writes(es[1..], id) {
      var i :| 0 <= i < |es| && es[i].state != Unchanged && es[i].row.audit.id == id;
      assert es[1..][i - 1] == es[i];
    }
  }

  /** `s'` is `s` after every table's entries of `cs` were written. */
  ghost predicate StoreReflects(s: Store, s': Store, cs: ChangeSet) {
    && TableReflects(s.users, s'.users, cs.users)
    && TableReflects(s.groups, s'.groups, cs.groups)
    && TableReflects(s.members, s'.members, cs.members)
    && TableReflects(s.invitations, s'.invitations, cs.invitations)
    && TableReflects(s.lists, s'.lists, cs.lists)
    && TableReflects(s.items, s'.items, cs.items)
    && TableReflects(s.histories, s'.histories, cs.histories)
  }

  /** Every row of `s` is still stored in `s'` (possibly changed). */
  predicate KeepsRows(s: Store, s': Store) {
    && s.users.Keys <= s'.users.Keys && s.groups.Keys <= s'.groups.Keys
    && s.members.Keys <= s'.members.Keys && s.invitations.Keys <= s'.invitations.Keys
    && s.lists.Keys <= s'.lists.Keys && s.items.Keys <= s'.items.Keys
    && s.histories.Keys <= s'.histories.Keys
  }

  /** One transaction: every table's entries are applied, and the result is
      kept only if it satisfies every constraint; otherwise nothing is written. */
  function Commit(s: Store, cs: ChangeSet): (r: Result<Store, DbError>)
    requires ChangeSetNoDeletes(cs)
    ensures r.Success? ==> Valid(r.value)
    ensures r.Success? ==> StoreReflects(s, r.value, cs) && KeepsRows(s, r.value)
  {
    var users :- ApplyEntries(s.users, cs.users);
    var groups :- ApplyEntries(s.groups, cs.groups);
    var members :- ApplyEntries(s.members, cs.members);
    var invitations :- ApplyEntries(s.invitations, cs.invitations);
    var lists :- ApplyEntries(s.lists, cs.lists);
    var items :- ApplyEntries(s.items, cs.items);
    var histories :- ApplyEntries(s.histories, cs.histories);
    var s' := Store(users, groups, members, invitations, lists, items, histories);
    if Valid(s') then Success(s') else Failure(ConstraintViolation)
  }

  /** Once every table's entries have gone through, the commit can only be
      refused by a constraint of the whole state. */
  lemma CommitRefusedOnlyByConstraint(s: Store, cs: ChangeSet)
    requires ChangeSetNoDeletes(cs)
    requires ApplyEntries(s.users, cs.users).Success? && ApplyEntries(s.groups, cs.groups).Success?
    requires ApplyEntries(s.members, cs.members).Success? && ApplyEntries(s.invitations, cs.invitations).Success?
    requires ApplyEntries(s.lists, cs.lists).Success? && ApplyEntries(s.items, cs.items).Success?
    requires ApplyEntries(s.histories, cs.histories).Success?
    ensures Commit(s, cs).Failure? ==> Commit(s, cs).error == ConstraintViolation
  {
  }

  lemma ApplyNothing<T>(t: Table<T>)
    ensures ApplyEntries(t, []) == Success(t)
  {
  }

  /** A table with no entries to write comes out of the save as it went in. */
  lemma ReflectsNothing<T>(t: Table<T>, t': Table<T>)
    requires TableReflects(t, t', [])
    ensures t' == t
  {
  }

  /** A table whose only entry is one write holds that entry's row under its
      id and every other row as it was. */
  lemma ReflectsOneWrite<T>(t: Table<T>, t': Table<T>, e: Entry<T>)
    requires e.state != Unchanged
    requires TableReflects(t, t', [e])
    ensures t' == t[e.row.audit.id := e.row]
  {
    var id := e.row.audit.id;
    assert DistinctIds([e]);
    assert id in t' && t'[id] == e.row by { assert [e][0] == e; }
    forall k | k in t' && k != id ensures k in t && t'[k] == t[k] {
      assert [e][0] == e;
    }
  }

  lemma ApplyOneModified<T>(t: Table<T>, e: Entry<T>)
    requires e.state == Modified && e.row.audit.id in t
    ensures ApplyEntries(t, [e]).Success?
  {
    assert [e][1..] == [];
  }

  lemma ApplyOneAdded<T>(t: Table<T>, e: Entry<T>)
    requires e.state == Added
    ensures ApplyEntries(t, [e])
      == if e.row.audit.id in t then Failure(DuplicateKey) else Success(t[e.row.audit.id := e.row])
  {
    assert [e][1..] == [];
  }

  /** An entry as its statement writes it: an Added row's values pass through
      `fill`, the store's defaulting of the table; other entries are sent as
      they are. */
  function InsertedEntry<T>(e: Entry<T>, fill: T -> T): Entry<T> {
    if e.state == Added then e.(row := e.row.(data := fill(e.row.data))) else e
  }

  function Inserted<T>(es: seq<Entry<T>>, fill: T -> T): (r: seq<Entry<T>>)
    ensures |r| == |es|
    ensures forall i :: 0 <= i < |es| ==> r[i] == InsertedEntry(es[i], fill)
    ensures NoDeletes(es) ==> NoDeletes(r)
    ensures DistinctIds(es) ==> DistinctIds(r)
  {
    seq(|es|, i requires 0 <= i < |es| => InsertedEntry(es[i], fill))
  }

  /** Defaulting inserted values changes no entry's state or id, so the same
      rows are written. */
  lemma InsertedWrites<T>(es: seq<Entry<T>>, fill: T -> T, id: Guid)
    ensures Writes(Inserted(es, fill), id) <==> Writes(es, id)
  {
    var r := Inserted(es, fill);
    if Writes(es, id) {
      var i :| 0 <= i < |es| && es[i].state != Unchanged && es[i].row.audit.id == id;
      assert r[i] == InsertedEntry(es[i], fill);
    }
    if Writes(r, id) {
      var i :| 0 <= i < |r| && r[i].state != Unchanged && r[i].row.audit.id == id;
      assert r[i] == InsertedEntry(es[i], fill);
    }
  }

  /** The change set as the database receives it: the tables with configured
      defaults (users, groups, items) have their added rows defaulted; the
      others have none. */
  function InsertStatements(cs: ChangeSet): (r: ChangeSet)
    ensures ChangeSetNoDeletes(cs) ==> ChangeSetNoDeletes(r)
    ensures r.members == cs.members && r.invitations == cs.invitations
    ensures r.lists == cs.lists && r.histories == cs.histories
  {
    cs.(users := Inserted(cs.users, UserInserted),
        groups := Inserted(cs.groups, GroupInserted),
        items := Inserted(cs.items, ItemInserted))
  }

  /** Stamps every entry of a change set with one clock reading. */
  function StampChangeSet(cs: ChangeSet, now: Timestamp, actor: Option<Guid>): (r: ChangeSet)
    ensures ChangeSetNoDeletes(r)
  {
    ChangeSet(
      StampEntries(cs.users, now, actor), StampEntries(cs.groups, now, actor),
      StampEntries(cs.members, now, actor), StampEntries(cs.invitations, now, actor),
      StampEntries(cs.lists, now, actor), StampEntries(cs.items, now, actor),
      StampEntries(cs.histories, now, actor))
  }

  /** The context's save: stamp with the current user and `now`, then commit
      the statements EF Core generates from the stamped entries. No row is
      ever physically removed, and a committed state is valid. */
  function SaveChangesAsync(s: Store, cs: ChangeSet, now: Timestamp): (r: Result<Store, DbError>)
    ensures r.Success? ==> Valid(r.value)
    ensures r.Success? ==> KeepsRows(s, r.value)
    ensures r.Success? ==> StoreReflects(s, r.value, InsertStatements(StampChangeSet(cs, now, CurrentUserId)))
  {
    Commit(s, InsertStatements(StampChangeSet(cs, now, CurrentUserId)))
  }
}
