/** The entity payloads (the fields each entity declares on top of
    `BaseEntity`) and the values their initialisers give them. Navigation
    collections are not stored: they are the rows whose foreign key points at
    the entity, and `Store` computes them. */
module Entities {
  import opened Wrappers
  import opened BaseEntity
  import opened GroupRoles

  datatype User = User(
    email: string,
    passwordHash: string,
    fullName: string,
    isEmailVerified: bool,
    emailVerificationToken: Option<string>,
    emailVerificationTokenExpiry: Option<Timestamp>,
    passwordResetToken: Option<string>,
    passwordResetTokenExpiry: Option<Timestamp>,
    notificationPreferences: Option<string>,
    language: Option<string>)

  datatype Group = Group(
    name: string,
    description: Option<string>,
    ownerId: Guid,
    inviteCode: Option<string>,
    inviteCodeExpires: Option<Timestamp>,
    allowMembersToInvite: bool,
    maxMembers: Int32)

  datatype GroupMember = GroupMember(
    groupId: Guid,
    userId: Guid,
    role: GroupRole,
    joinedAt: Timestamp,
    invitedBy: Option<Guid>,
    lastActivityAt: Option<Timestamp>)

  /** Only `Pending` is known by name; any other stored value is kept as its
      code. The enumeration's declaration is not part of this model, so the
      code `Pending` is stored as is unknown: `OtherStatus` codes are taken to
      be the codes of the other members, never Pending's own. */
  datatype InvitationStatus = Pending | OtherStatus(code: Int32)

  datatype Invitation = Invitation(
    groupId: Guid,
    invitedEmail: string,
    invitedUserId: Option<Guid>,
    invitedBy: Guid,
    status: InvitationStatus,
    token: string,
    expiresAt: Timestamp,
    message: Option<string>,
    respondedAt: Option<Timestamp>)

  datatype ShoppingList = ShoppingList(
    name: string,
    description: Option<string>,
    groupId: Guid,
    createdByUserId: Guid,
    isTemplate: bool,
    templateSourceId: Option<Guid>,
    isArchived: bool,
    archivedAt: Option<Timestamp>,
    color: Option<string>,
    icon: Option<string>)

  datatype ShoppingItem = ShoppingItem(
    listId: Guid,
    name: string,
    quantity: Int32,
    notes: Option<string>,
    category: Option<string>,
    isUrgent: bool,
    isPurchased: bool,
    purchasedAt: Option<Timestamp>,
    purchasedBy: Option<Guid>,
    purchasedQuantity: Option<Int32>,
    addedByUserId: Guid,
    version: Int32,
    isSynced: bool,
    displayOrder: Int32)

  datatype PurchaseHistory = PurchaseHistory(
    userId: Guid,
    groupId: Guid,
    itemName: string,
    category: Option<string>,
    notes: Option<string>,
    purchaseCount: Int32,
    lastPurchasedAt: Timestamp,
    firstPurchasedAt: Option<Timestamp>,
    averageDaysBetweenPurchases: Option<Int32>)

  /** The language a `new User()` starts with. */
  const InitialLanguage: string := "pt-br"

  function NewUser(): User {
    User("", "", "", false, None, None, None, None, None, Some(InitialLanguage))
  }

  function NewGroup(): Group {
    Group("", None, EmptyGuid, None, None, true, 10)
  }

  function NewGroupMember(): GroupMember {
    GroupMember(EmptyGuid, EmptyGuid, Member, MinTimestamp, None, None)
  }

  function NewInvitation(): Invitation {
    Invitation(EmptyGuid, "", None, EmptyGuid, Pending, "", MinTimestamp, None, None)
  }

  function NewShoppingList(): ShoppingList {
    ShoppingList("", None, EmptyGuid, EmptyGuid, false, None, false, None, None, None)
  }

  function NewShoppingItem(): ShoppingItem {
    ShoppingItem(EmptyGuid, "", 1, None, None, false, false, None, None, None, EmptyGuid, 1, true, 0)
  }

  function NewPurchaseHistory(): PurchaseHistory {
    PurchaseHistory(EmptyGuid, EmptyGuid, "", None, None, 0, MinTimestamp, None, None)
  }

  /** A new user is unverified and holds no verification or reset token. */
  lemma NewUserHasNoTokens()
    ensures !NewUser().isEmailVerified
    ensures NewUser().emailVerificationToken == None && NewUser().emailVerificationTokenExpiry == None
    ensures NewUser().passwordResetToken == None && NewUser().passwordResetTokenExpiry == None
    ensures NewUser().language == Some(InitialLanguage)
  {
  }

  /** A new group lets members invite, caps membership at 10 and has no invite code. */
  lemma NewGroupSettings()
    ensures NewGroup().allowMembersToInvite && NewGroup().maxMembers == 10
    ensures NewGroup().inviteCode == None && NewGroup().inviteCodeExpires == None
  {
  }

  /** A new membership has role Member, no inviter and no recorded activity. */
  lemma NewMembershipDefaults()
    ensures NewGroupMember().role == Member
    ensures NewGroupMember().invitedBy == None && NewGroupMember().lastActivityAt == None
  {
  }

  /** A new invitation is pending, unanswered, addressed to no known user and has an empty token. */
  lemma NewInvitationDefaults()
    ensures NewInvitation().status == Pending && NewInvitation().token == ""
    ensures NewInvitation().respondedAt == None
    ensures NewInvitation().invitedUserId == None && NewInvitation().message == None
  {
  }

  /** A new list is neither a template nor archived. */
  lemma NewListDefaults()
    ensures !NewShoppingList().isTemplate && NewShoppingList().templateSourceId == None
    ensures !NewShoppingList().isArchived && NewShoppingList().archivedAt == None
  {
  }

  /** A new item wants one unit, is at version 1, synced, first in display order and not purchased. */
  lemma NewItemDefaults()
    ensures NewShoppingItem().quantity == 1 && NewShoppingItem().version == 1
    ensures NewShoppingItem().isSynced && NewShoppingItem().displayOrder == 0
    ensures !NewShoppingItem().isPurchased && NewShoppingItem().purchasedAt == None
    ensures NewShoppingItem().purchasedBy == None && NewShoppingItem().purchasedQuantity == None
  {
  }

  /** A new history record has count 0 (the field has no initialiser) and no first purchase. */
  lemma NewHistoryDefaults()
    ensures NewPurchaseHistory().purchaseCount == 0
    ensures NewPurchaseHistory().firstPurchasedAt == None
    ensures NewPurchaseHistory().averageDaysBetweenPurchases == None
  {
  }
}
