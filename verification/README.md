# ShoppingReminder core in Dafny

This project models the persistence and authentication core of ShoppingReminder. ShoppingReminder is a shared shopping-list service built on ASP.NET Core and Entity Framework Core over PostgreSQL. The model covers these parts:

- **The domain entities.** Users, groups, memberships, invitations, lists, items and purchase histories all carry the audit and soft-delete fields of `BaseEntity`. Each entity's initialiser defaults are modelled too.
- **The database context's save hook.** It stamps creation and update times, and it turns deletions into tombstones. The soft-delete query filter hides those tombstones from every ordinary read.
- **The store's rules, as the entity configurations declare them.** These are primary keys, column length bounds, unique indexes (some filtered), and foreign keys with their Restrict, Cascade and SetNull delete behaviours. A save is all-or-nothing: it commits only if the resulting store keeps every rule.
- **The `Version` concurrency token of shopping items.**
- **The register and login command handlers.**
- **The API's validation exception filter.**

The modules follow the program's layers:

| module | file | what it holds |
|---|---|---|
| `Wrappers` | wrappers.dfy | `Option` and `Result` |
| `BaseEntity` | base_entity.dfy | ids, timestamps (100 ns ticks), the inherited audit fields, a table row |
| `GroupRoles` | group_role.dfy | the role enumeration and its stored integer codes |
| `Entities` | entities.dfy | one datatype per entity and its initialiser defaults |
| `Audit` | audit.dfy | tracked entries, the stamping of one save, the soft-delete filter |
| `Database` | database.dfy | the store, its rules (`Valid`), the commit and `SaveChangesAsync` |
| `SoftDelete` | soft_delete.dfy | what a save leaves in the store, entry by entry |
| `ReferentialActions` | referential.dfy | physical deletes of users, groups and lists, with their delete behaviours |
| `Integrity` | integrity.dfy | the unique indexes, and the indexes that are deliberately not unique |
| `ItemConcurrency` | concurrency.dfy | the conditional update guarded by an item's `Version` |
| `Authentication` | auth.dfy | registration and login |
| `ValidationFilter` | validation_filter.dfy | the grouping of validation failures into a bad-request result |

Several things are parameters rather than computations:

- the clock;
- the new ids (`Guid.NewGuid()`);
- the password hasher;
- the token generator.

A save's effect is a pure function from the store and the change set to a new store or a database error. The database's constraint checks are the predicate `Database.Valid`.

Some behaviour of the code is easy to miss. The model keeps it as written:

- **Email uniqueness.** The unique index on `Email` (ShoppingReminder.Infrastructure/Data/Configurations/UserConfiguration.cs:38-39) has no filter, so a tombstoned user keeps its email. Registration's duplicate check (RegisterCommandHandler.cs:34-35) reads through the soft-delete filter. Re-registering a deleted user's email therefore gets past the handler's check and then fails in the save (`Authentication.TombstonedEmailFaults`).
- **Duplicate email on registration.** The handler does not throw. It returns `Result.Failure` with the message "User with this email already exists" (RegisterCommandHandler.cs:37-40).
- **Validation errors.** The filter answers with a `BadRequestObjectResult`, whose HTTP status is 400. Only the body's `status` field says 422 (ShoppingReminder.API/Filters/ValidationExceptionFilter.cs:20-26).
- **Login and email verification.** The check for a verified email is commented out (LoginCommandHandler.cs:44-48), so an unverified user can log in (`Authentication.LoginReturnsTheUser`).
- **Column defaults.** A `HasDefaultValue` column is left out of the INSERT when the property holds its CLR default, and the database default is stored instead. A group saved with `AllowMembersToInvite = false` is stored with `true`; a `MaxMembers` of 0 becomes 10; an item's `Quantity` or `Version` of 0 becomes 1, and `IsSynced = false` becomes `true`; a user's null `Language` becomes "en". The save models this substitution (`Database.InsertStatements`).

## Model

| member | source | states |
|---|---|---|
| BaseEntity.NewAudit | ShoppingReminder.Domain/Common/BaseEntity.cs:9-19 | a freshly constructed entity carries the id it was given and is not deleted, with no deletion time or actor |
| BaseEntity.FreshRowIsVisible | ShoppingReminder.Domain/Common/BaseEntity.cs:17 | a new row passes the soft-delete filter |
| GroupRoles.RoleCode | ShoppingReminder.Domain/Enums/GroupRole.cs:9-12 | every role is stored as an integer from 0 to 3 |
| GroupRoles.RoleFromCode | ShoppingReminder.Domain/Enums/GroupRole.cs:9-12 | a stored integer names a role exactly when it lies in 0..3 |
| GroupRoles.RoleCodeRoundTrip | ShoppingReminder.Domain/Enums/GroupRole.cs:9-12 | reading back a role's stored code gives the same role |
| GroupRoles.CodeRoleRoundTrip | ShoppingReminder.Domain/Enums/GroupRole.cs:9-12 | every code in 0..3 names exactly one role, and storing that role gives the code back |
| GroupRoles.RoleCodeInjective | ShoppingReminder.Domain/Enums/GroupRole.cs:9-12 | two roles with the same code are the same role |
| Entities.NewUserHasNoTokens | ShoppingReminder.Domain/Entities/User.cs:16-26 | a new user is unverified, holds no verification or reset token, and has language "pt-br" |
| Entities.NewGroupSettings | ShoppingReminder.Domain/Entities/Group.cs:19-24 | a new group lets members invite, caps membership at 10 and has no invite code |
| Entities.NewMembershipDefaults | ShoppingReminder.Domain/Entities/GroupMember.cs:19-27 | a new membership has role Member, no inviter and no recorded activity |
| Entities.NewInvitationDefaults | ShoppingReminder.Domain/Entities/Invitation.cs:17-33 | a new invitation is Pending with an empty token, no invited user, no message and no response |
| Entities.NewListDefaults | ShoppingReminder.Domain/Entities/ShoppingList.cs:23-28 | a new list is neither a template nor archived |
| Entities.NewItemDefaults | ShoppingReminder.Domain/Entities/ShoppingItem.cs:16-41 | a new item has quantity 1, version 1, is synced, has display order 0 and carries no purchase |
| Entities.NewHistoryDefaults | ShoppingReminder.Domain/Entities/PurchaseHistory.cs:23-28 | a new history record has count 0 and no first purchase or average interval |
| Audit.StampEntry | ShoppingReminder.Infrastructure/Data/ApplicationDBContext.cs:59-86 | an added entry gets creation and update stamps; a modified one gets only update stamps; a deleted one becomes a modified tombstone with its other stamps kept; an unchanged one is left alone; payload and id are never touched |
| Audit.StampEntries | ShoppingReminder.Infrastructure/Data/ApplicationDBContext.cs:53-86 | the hook rewrites every tracked entry in place: same count, same ids and payloads, and no entry is left in the Deleted state |
| Audit.FilteredRead | ShoppingReminder.Infrastructure/Data/ApplicationDBContext.cs:33-46 | a filtered read returns exactly the stored rows that are not deleted, unchanged |
| Audit.OneClockPerSave | ShoppingReminder.Infrastructure/Data/ApplicationDBContext.cs:54-84 | every stamp written in one save (creation, update and deletion alike) carries the same time and the same actor |
| Audit.NoActorIsRecorded | ShoppingReminder.Infrastructure/Data/ApplicationDBContext.cs:57 | with the context's actor, no created, updated or deleted stamp names a user |
| Audit.DeletedEntryIsHidden | ShoppingReminder.Infrastructure/Data/ApplicationDBContext.cs:75-84 | a saved deletion is a Modified entry whose row the filter hides |
| Database.FreshUserHasNoDependents | ShoppingReminder.Domain/Entities/User.cs:31-34 | a user id not in the store has no memberships, sent invitations, created lists or created items |
| Database.ApplyEntries | ShoppingReminder.Infrastructure/Data/ApplicationDBContext.cs:88 | a successful write of one table's statements stores every added or modified row under its id, exactly as the statement carries it, and keeps the table keyed by row id |
| Database.Commit | ShoppingReminder.Infrastructure/Data/ApplicationDBContext.cs:88 | a commit that succeeds leaves a store that keeps every rule, holds every written row as its statement carries it and loses no row |
| Database.CommitRefusedOnlyByConstraint | ShoppingReminder.Infrastructure/Data/ApplicationDBContext.cs:88 | once every table's writes apply, the only way the commit can fail is a constraint violation |
| Database.SaveChangesAsync | ShoppingReminder.Infrastructure/Data/ApplicationDBContext.cs:50-89 | a successful save leaves a store that keeps every rule, loses no row and holds every stamped entry as its INSERT or UPDATE writes it, with the column defaults substituted into inserted rows |
| SoftDelete.StampKeepsDistinct | ShoppingReminder.Infrastructure/Data/ApplicationDBContext.cs:59-86 | stamping keeps tracked entries on distinct ids |
| SoftDelete.SavedEntryIsStored | ShoppingReminder.Infrastructure/Data/ApplicationDBContext.cs:59-88 | after a save, every added, modified or deleted entry's stamped row is what the table holds under its id, with an added row's values as the insert defaults them |
| SoftDelete.AddStampsCreation | ShoppingReminder.Infrastructure/Data/ApplicationDBContext.cs:63-68 | an added row is stored with creation and update stamps both at the save's time, and its values as the insert defaults them |
| SoftDelete.ModifyStampsUpdateOnly | ShoppingReminder.Infrastructure/Data/ApplicationDBContext.cs:70-73 | a modified row is stored with a new update stamp and its creation stamp as it was |
| SoftDelete.DeleteKeepsTombstone | ShoppingReminder.Infrastructure/Data/ApplicationDBContext.cs:75-84 | a deleted row stays stored with its payload and earlier stamps, is marked deleted at the save's time, and vanishes from filtered reads |
| SoftDelete.UnchangedEntryLeavesRow | ShoppingReminder.Infrastructure/Data/ApplicationDBContext.cs:59-86 | an unchanged entry leaves its stored row as it was |
| SoftDelete.SaveSoftDeletesUser | ShoppingReminder.Infrastructure/Data/ApplicationDBContext.cs:75-84 | removing a user through a save keeps the row as a tombstone with no actor, hidden from filtered reads |
| SoftDelete.AddedGroupTakesColumnDefaults | ShoppingReminder.Infrastructure/Data/Configurations/GroupConfiguration.cs:25-29 | a group saved with invites off is stored with invites on, and one saved with a cap of 0 is stored with 10; every other value is stored as given |
| SoftDelete.AddedItemTakesColumnDefaults | ShoppingReminder.Infrastructure/Data/Configurations/ShoppingItemConfiguration.cs:25-33 | an item saved with quantity or version 0 is stored with 1 in its place, one saved unsynced is stored synced; every other value is stored as given |
| SoftDelete.AddedUserTakesColumnDefaults | ShoppingReminder.Infrastructure/Data/Configurations/UserConfiguration.cs:30-32 | a user saved with no language is stored with "en"; one with a language keeps it, and every other value is stored as given |
| SoftDelete.InsertDefaultsAreStable | ShoppingReminder.Infrastructure/Data/Configurations/ShoppingItemConfiguration.cs:25-33 | defaulting an inserted row twice is the same as once, and the users, groups and items the initialisers build pass through an insert unchanged |
| ReferentialActions.DeleteUser | ShoppingReminder.Infrastructure/Data/Configurations/UserConfiguration.cs:44-62 | a physical user delete fails exactly when the user is missing, or owns a group, or a sent invitation, created list or created item still names it; otherwise it cascades to memberships and histories, clears SetNull references, leaves nothing naming the user, keeps every surviving row as it was apart from the cleared reference, and keeps a valid store valid |
| ReferentialActions.WithoutUserKeepsContents | ShoppingReminder.Infrastructure/Data/Configurations/GroupMemberConfiguration.cs:30-38 | the user delete drops the user row, keeps groups and lists unchanged, keeps only stored histories, keeps every invitation and item, and changes a surviving membership, invitation or item only by clearing its inviter, invitee or purchaser reference to the deleted user |
| ReferentialActions.WithoutUserDropsReferences | ShoppingReminder.Infrastructure/Data/Configurations/GroupMemberConfiguration.cs:30-38 | after the user's cascades and SetNull actions nothing references the deleted user |
| ReferentialActions.NoInviteeLeft | ShoppingReminder.Infrastructure/Data/Configurations/InvitationConfiguration.cs:46-49 | clearing invitees leaves no invitation addressed to the deleted user |
| ReferentialActions.NoPurchaserLeft | ShoppingReminder.Infrastructure/Data/Configurations/ShoppingItemConfiguration.cs:54-57 | clearing purchasers leaves no item purchased by the deleted user |
| ReferentialActions.NoHistoryLeft | ShoppingReminder.Infrastructure/Data/Configurations/PurchaseHistoryConfiguration.cs:31-34 | the cascade leaves no purchase history of the deleted user |
| ReferentialActions.WithoutUserValid | ShoppingReminder.Infrastructure/Data/Configurations/UserConfiguration.cs:44-62 | a delete that Restrict allows keeps a valid store valid |
| ReferentialActions.DeleteGroup | ShoppingReminder.Infrastructure/Data/Configurations/GroupConfiguration.cs:45-58 | a physical group delete fails only on a missing group; it removes exactly the group, its memberships, invitations, lists, those lists' items and its histories, keeps every surviving row unchanged, and keeps a valid store valid |
| ReferentialActions.WithoutGroupCascades | ShoppingReminder.Infrastructure/Data/Configurations/PurchaseHistoryConfiguration.cs:36-39 | a row survives a group delete exactly when it does not belong to the group, directly or through its list |
| ReferentialActions.WithoutGroupValid | ShoppingReminder.Infrastructure/Data/Configurations/GroupConfiguration.cs:40-58 | deleting a group with its cascades keeps a valid store valid |
| ReferentialActions.DeleteList | ShoppingReminder.Infrastructure/Data/Configurations/ShoppingListConfiguration.cs:46-49 | a physical list delete fails only on a missing list; it removes exactly the list and its items, keeps the surviving lists and items unchanged, leaves every other table as it was, and keeps a valid store valid |
| ReferentialActions.WithoutListValid | ShoppingReminder.Infrastructure/Data/Configurations/ShoppingItemConfiguration.cs:44-47 | deleting a list with its items keeps a valid store valid |
| Integrity.AddUserKeepsEmailsUnique | ShoppingReminder.Infrastructure/Data/Configurations/UserConfiguration.cs:38-39 | adding a user keeps emails unique exactly when no stored row, tombstoned or not, has its email |
| Integrity.AddMembershipKeepsPairsUnique | ShoppingReminder.Infrastructure/Data/Configurations/GroupMemberConfiguration.cs:16-18 | adding a membership keeps the filtered (group, user) index unique exactly when the new row is deleted or no active row has the same pair |
| Integrity.TombstonesNeverCollide | ShoppingReminder.Infrastructure/Data/Configurations/GroupMemberConfiguration.cs:18 | a deleted membership row never breaks the filtered pair index |
| Integrity.AddGroupKeepsInviteCodesUnique | ShoppingReminder.Infrastructure/Data/Configurations/GroupConfiguration.cs:32-34 | adding a group keeps invite codes unique exactly when it has no code or no stored group has the same one |
| Integrity.CodelessGroupsNeverCollide | ShoppingReminder.Infrastructure/Data/Configurations/GroupConfiguration.cs:34 | any number of groups without an invite code fit the partial index |
| Integrity.UnsetTokensCollide | ShoppingReminder.Infrastructure/Data/Configurations/InvitationConfiguration.cs:27-28 | two invitations left with the initialiser's empty token break the token index |
| Integrity.DisplayOrderIsUnconstrained | ShoppingReminder.Infrastructure/Data/Configurations/ShoppingItemConfiguration.cs:41 | the (list, display order) index is not unique: any item may take any display order without breaking a rule |
| Integrity.ItemTableSwap | ShoppingReminder.Infrastructure/Data/Configurations/ShoppingItemConfiguration.cs:13-57 | replacing the item table with one that keeps the item rules keeps a valid store valid |
| Integrity.HistoryKeyMayRepeat | ShoppingReminder.Infrastructure/Data/Configurations/PurchaseHistoryConfiguration.cs:26 | the (user, group, item name) index is not unique: a second history with the same key keeps the store valid |
| Integrity.HistoryTableSwap | ShoppingReminder.Infrastructure/Data/Configurations/PurchaseHistoryConfiguration.cs:13-39 | replacing the history table with one that keeps the history rules keeps a valid store valid |
| Integrity.InitialisersAgainstStoreDefaults | ShoppingReminder.Infrastructure/Data/Configurations/ShoppingItemConfiguration.cs:25-33 | item quantity, version and sync flag, and group invite and size settings, agree with the column defaults; the user's initial language "pt-br" does not match the column default "en" |
| ItemConcurrency.SaveItemUpdate | ShoppingReminder.Infrastructure/Data/Configurations/ShoppingItemConfiguration.cs:28-30 | an item update fails with a concurrency conflict when the row is gone or its version is no longer the one read; on success the store is exactly the old one with that item row replaced by the new one, update-stamped at the save's time with no actor, and it keeps the store valid |
| ItemConcurrency.ItemUpdateStored | ShoppingReminder.Infrastructure/Data/ApplicationDBContext.cs:70-73 | a committed single-item update changes only that item's row: it holds the new payload and the writer's audit fields with the update stamp set to the save's time, and every other row of every table is as it was |
| ItemConcurrency.StaleWriterLoses | ShoppingReminder.Infrastructure/Data/Configurations/ShoppingItemConfiguration.cs:28-30 | of two writers that read the same version, once the first commits a changed version the second is refused with a concurrency conflict |
| ItemConcurrency.UnchangedVersionGuardsNothing | ShoppingReminder.Domain/Entities/ShoppingItem.cs:37 | when a writer does not change the version, the token no longer separates the writers: a second writer with the same read version is not refused for concurrency |
| ItemConcurrency.CommitFailsOnlyByConstraint | ShoppingReminder.Infrastructure/Data/ApplicationDBContext.cs:88 | an update of a stored item can only fail in the commit by breaking a store rule |
| Authentication.SavedUserIsRegistered | ShoppingReminder.Application/Features/Authentication/Commands/Register/RegisterCommandHandler.cs:43-57 | the row a registration saves has the new id, the command's email and name, the hashed password, an unverified email with a token expiring seven days after construction, no reset token or expiry, no notification preferences, language "pt-br", creation stamps from the save, and is not deleted, with no deletion time or actor |
| Authentication.RegistrationSave | ShoppingReminder.Application/Features/Authentication/Commands/Register/RegisterCommandHandler.cs:56-57 | saving the new user fails on a taken id, and otherwise commits exactly when the store with the user added keeps every rule |
| Authentication.Register | ShoppingReminder.Application/Features/Authentication/Commands/Register/RegisterCommandHandler.cs:29-80 | the handler refuses with its message exactly when a non-deleted user has the email; a refused or failed registration changes nothing; a successful one adds only the new user's row, with every column as the handler and the initialisers set it (including null reset expiry, notification preferences and deletion fields), keeps the store valid and answers with that user's id, email, name and tokens, expiring an hour after the response time |
| Authentication.AddUserValidIff | ShoppingReminder.Infrastructure/Data/Configurations/UserConfiguration.cs:18-39 | adding a new user row to a valid store keeps it valid exactly when the row fits the user columns and no stored row, tombstoned or not, has its email |
| Authentication.RegisterSucceedsIff | ShoppingReminder.Application/Features/Authentication/Commands/Register/RegisterCommandHandler.cs:34-57 | on a valid store, registration succeeds exactly when no stored row holds the email, the new id is unused, and email, hash and name fit their columns |
| Authentication.TombstonedEmailFaults | ShoppingReminder.Application/Features/Authentication/Commands/Register/RegisterCommandHandler.cs:34-57 | re-registering a soft-deleted user's email passes the filtered check and then fails in the save with a constraint violation |
| Authentication.SecondRegistrationRefused | ShoppingReminder.Application/Features/Authentication/Commands/Register/RegisterCommandHandler.cs:34-40 | after a successful registration, a second one with the same email is refused with the duplicate message and changes nothing |
| Authentication.FindByEmail | ShoppingReminder.Application/Features/Authentication/Commands/Login/LoginCommandHandler.cs:30-31 | the filtered lookup finds a row exactly when a non-deleted user has the email, and the row found is a stored, non-deleted user with that email |
| Authentication.FindByEmailUnique | ShoppingReminder.Application/Features/Authentication/Commands/Login/LoginCommandHandler.cs:30-31 | under the unique email index the lookup returns the one non-deleted user with the email |
| Authentication.Login | ShoppingReminder.Application/Features/Authentication/Commands/Login/LoginCommandHandler.cs:25-64 | login never throws; every refusal carries the one invalid-credentials message; an unknown email is refused; a success answers for a stored, non-deleted user with that email whose password verifies |
| Authentication.LoginSucceedsIff | ShoppingReminder.Application/Features/Authentication/Commands/Login/LoginCommandHandler.cs:30-42 | with unique emails, login succeeds exactly when a non-deleted user has the email and the password verifies against its hash |
| Authentication.LoginReturnsTheUser | ShoppingReminder.Application/Features/Authentication/Commands/Login/LoginCommandHandler.cs:44-61 | a login with the right password answers for that user whether or not its email is verified |
| Authentication.TombstonedUserCannotLogIn | ShoppingReminder.Application/Features/Authentication/Commands/Login/LoginCommandHandler.cs:30-36 | a soft-deleted user's email is refused with the invalid-credentials message |
| Authentication.RegisteredUserCanLogIn | ShoppingReminder.Application/Features/Authentication/Commands/Login/LoginCommandHandler.cs:39-61 | a user just registered logs in with the same password and gets a response for its stored row |
| ValidationFilter.PropertyNamesExact | ShoppingReminder.API/Filters/ValidationExceptionFilter.cs:13-16 | the group keys are distinct, and a property is a key exactly when some failure names it |
| ValidationFilter.NoMessagesForAbsentProperty | ShoppingReminder.API/Filters/ValidationExceptionFilter.cs:14-17 | a property no failure names has no messages |
| ValidationFilter.GroupingKeepsEveryMessage | ShoppingReminder.API/Filters/ValidationExceptionFilter.cs:13-18 | the groups together hold as many messages as there were failures: none lost, none duplicated |
| ValidationFilter.GroupByProperty | ShoppingReminder.API/Filters/ValidationExceptionFilter.cs:13-18 | the grouping has one distinct key per property named by a failure, each holding that property's messages in their original order, and the total count equals the number of failures |
| ValidationFilter.OnException | ShoppingReminder.API/Filters/ValidationExceptionFilter.cs:9-30 | a non-validation exception leaves the context untouched; a validation exception is marked handled and answered with a 400 result whose body has the validation kind, title, status 422 and the failures grouped by property, with the properties in the order of their first failure |

## Left out

- **Email delivery.** The verification email sent after registration is a fire-and-forget call to the email service. It does not affect the outcome, so the model has no notifier.
- **External services.** Password hashing, password verification, JWT generation and refresh-token generation are left out. The model takes them as parameters (`Authentication.Services`). New ids (`Guid.NewGuid()`) and the verification token string are also parameters.
- **The clock.** The clock is a parameter. Registration reads `DateTime.UtcNow` three times while it builds the user object, and these are collapsed into one `construct` reading. The save's reading and the response's reading are kept separate (`Authentication.Clock`).
- **DateTime range.** Timestamps are unbounded integer ticks, so the model does not reproduce the exception `DateTime.AddDays`/`AddHours` would throw beyond year 9999.
- SoftDelete.AddStampsCreation: it states the stamps as 100 ns ticks. PostgreSQL `timestamptz` keeps microseconds, so the stored `CreatedAt` and `UpdatedAt` lose the last decimal digit of the tick count. The same truncation applies to `SoftDelete.ModifyStampsUpdateOnly`, `SoftDelete.DeleteKeepsTombstone`, `SoftDelete.SavedEntryIsStored` and `ItemConcurrency.ItemUpdateStored`.
- Authentication.SavedUserIsRegistered: the stored creation stamps and `EmailVerificationTokenExpiry` are stated at tick precision, while the database keeps them to the microsecond.
- **Concurrency and the async pipeline.** Interleaved requests, cancellation tokens and the async pipeline are left out. A save is one atomic step, and two writers are modelled as two saves in sequence (`ItemConcurrency.StaleWriterLoses`).
- **Database.Commit version check.** It does not compare the `Version` token of modified item entries. The conditional write that does so is modelled separately as `ItemConcurrency.SaveItemUpdate`.
- Database.Commit: it checks the store rules on the final state of the save only. PostgreSQL checks a non-deferrable unique index row by row, as each statement runs. A save that swaps two users' emails, or two invitations' tokens, is therefore accepted by the model and refused by the database. The order of the statements within a save is not modelled.
- Database.SaveChangesAsync: it inherits the final-state check of `Database.Commit`, so the same swaps within one save succeed in the model.
- **Navigation collections.** These are left out (for example `User.GroupMemberships` and `Group.Members`). They are derived from foreign keys, which `Database.MembershipsOf` and the related functions compute.
- **Client-side cascades.** EF Core's client-side cascade of tracked dependents is not modelled separately. Physical deletes apply the database's delete behaviours directly (`ReferentialActions`). No handler in the core issues a physical delete, since every delete through a save becomes a tombstone.
- **Store defaults on update.** A column default is substituted only when a row is inserted. EF Core leaves a `HasDefaultValue` column out of the INSERT when the property holds its CLR default (`Database.InsertStatements`). An update writes every value as the entry holds it. `Integrity.InitialisersAgainstStoreDefaults` records where the initialisers and the column defaults agree.
- Database.ApplyEntries: it writes the values its statements carry and does not itself substitute column defaults. The substitution is done before it, by `Database.InsertStatements`, which `Database.SaveChangesAsync` applies to the stamped change set.
- **String lengths.** They are counted in Dafny characters. UTF-16 code units against PostgreSQL character counts are not distinguished.
- **The `NotificationPreferences` jsonb column.** It is held as an optional string; its JSON structure is not modelled.
- **Enum values.** `InvitationStatus` values other than `Pending` are not modelled, because no modelled operation moves an invitation. Integer role values outside 0..3, which C# would allow in a `GroupRole` variable, are not modelled either; `GroupRoles.RoleFromCode` rejects them. The enumeration's declaration is not part of this model, so `OtherStatus` codes are taken to differ from the code of `Pending`.
- **Authentication.FindByEmail and Authentication.Login.** Both are ghost functions, because `FirstOrDefaultAsync` without an ordering leaves the choice among several matching rows unspecified. With unique emails the choice is determined (`Authentication.FindByEmailUnique`).
- **Null property names.** A `null` `PropertyName` in a validation failure is not modelled (`GroupBy` would form a null key that `ToDictionary` rejects).
- **Operations with no implementing code.** Group, list, item, invitation and purchase-history commands and queries exist only as entities and configuration in the source. Role-based authorisation is in the same position. Their behaviour is therefore limited to the store rules modelled here.
- **Mistyped audit actors.** `BaseEntity.CreatedBy` and `UpdatedBy` are declared as `DateTime` in ShoppingReminder.Domain/Common/BaseEntity.cs:12-14, but the hook assigns a nullable user id to them. The model types them as an optional id, and the hook always writes none (`Audit.NoActorIsRecorded`).
- **Inaccessible soft-delete interface.** `IsSoftDeletable` is declared `internal` in the Domain assembly (ShoppingReminder.Domain/Common/IsSoftDeletable.cs:7). The Infrastructure assembly uses it at ShoppingReminder.Infrastructure/Data/ApplicationDBContext.cs:35 and :77, which it cannot see. The model takes the query filter and the save hook to work as written.
- **Context not implementing its interface.** `ApplicationDbContext` derives from `DbContext` only (ShoppingReminder.Infrastructure/Data/ApplicationDBContext.cs:9). ShoppingReminder.Infrastructure/DependencyInjection.cs:25-26 nevertheless returns it as an `IApplicationDbContext`. The model takes the handlers to read and save through this context.
- **Dependency wiring and HTTP transport.** The controllers, dependency injection and the migration files are left out. The database schema is taken from the entity configurations.
