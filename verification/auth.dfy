/** The two authentication commands: registering a new user and logging in.
    Password hashing, token generation and the clock are services the
    handlers call; here they are parameters. */
module Authentication {
  import opened Wrappers
  import opened BaseEntity
  import opened Entities
  import opened Audit
  import opened Database
  import Integrity

  datatype RegisterCommand = RegisterCommand(email: string, password: string, fullName: string)

  datatype LoginCommand = LoginCommand(email: string, password: string)

  datatype AuthenticationResponse = AuthenticationResponse(
    userId: Guid,
    email: string,
    fullName: string,
    token: string,
    refreshToken: string,
    expiresAt: Timestamp)

  /** What a handler produces: `Result.Success`, `Result.Failure` with a
      message, or an exception from the save that escapes the handler. */
  datatype Outcome =
    | Ok(response: AuthenticationResponse)
    | Refused(message: string)
    | Thrown(error: DbError)

  /** A handler's outcome together with the store it leaves behind. */
  datatype Handled = Handled(outcome: Outcome, store: Store)

  /** The injected services: the password hasher, the token generator (its
      refresh token is an opaque fresh value). */
  datatype Services = Services(
    hashPassword: string -> string,
    verifyPassword: (string, string) -> bool,
    generateToken: Row<User> -> string,
    refreshToken: string)

  /** The three readings of the clock during a registration: while the user
      object is built, inside the save, and when the response is built. */
  datatype Clock = Clock(construct: Timestamp, save: Timestamp, respond: Timestamp)

  const DuplicateEmailMessage: string := "User with this email already exists"
  const InvalidCredentialsMessage: string := "Invalid email or password"
  const VerificationTokenLifetime: int := 7 * TicksPerDay
  const AccessTokenLifetime: int := TicksPerHour

  /** The filtered query by email finds a user: a non-deleted row holds it. */
  predicate EmailTaken(users: Table<User>, email: string) {
    exists id :: id in users && Visible(users[id]) && users[id].data.email == email
  }

  /** Some stored row holds the email, tombstones included. */
  predicate EmailStored(users: Table<User>, email: string) {
    exists id :: id in users && users[id].data.email == email
  }

  /** The response both handlers build for an authenticated user `u`. */
  function ResponseFor(u: Row<User>, svc: Services, now: Timestamp): (r: AuthenticationResponse)
    ensures r.userId == u.audit.id && r.email == u.data.email && r.fullName == u.data.fullName
    ensures r.token == svc.generateToken(u) && r.refreshToken == svc.refreshToken
    ensures r.expiresAt == now + AccessTokenLifetime
  {
    AuthenticationResponse(u.audit.id, u.data.email, u.data.fullName,
      svc.generateToken(u), svc.refreshToken, now + AccessTokenLifetime)
  }

  // ---------------------------------------------------------------------------
  // Registration.

  /** The user object the handler builds before saving it. */
  function NewRegisteredUser(cmd: RegisterCommand, svc: Services, newId: Guid,
                             verificationToken: string, construct: Timestamp): Row<User>
  {
    Row(
      NewAudit(newId).(createdAt := construct, updatedAt := construct),
      NewUser().(
        email := cmd.email,
        passwordHash := svc.hashPassword(cmd.password),
        fullName := cmd.fullName,
        isEmailVerified := false,
        emailVerificationToken := Some(verificationToken),
        emailVerificationTokenExpiry := Some(construct + VerificationTokenLifetime)))
  }

  /** The change set of a registration: one added user. */
  function RegistrationChange(user: Row<User>): (cs: ChangeSet)
    ensures cs.users == [Entry(Added, user)]
  {
    ChangeSet([Entry(Added, user)], [], [], [], [], [], [])
  }

  /** The user row as the save writes it: the build stamps are replaced by the
      save's, and the insert defaults a null language. */
  function SavedUser(user: Row<User>, save: Timestamp): Row<User> {
    InsertedEntry(StampEntry(Entry(Added, user), save, CurrentUserId), UserInserted).row
  }

  /** What a successful registration stores for the new user. */
  predicate RegisteredRow(u: Row<User>, cmd: RegisterCommand, svc: Services,
                          verificationToken: string, clock: Clock) {
    && u.data.email == cmd.email
    && u.data.passwordHash == svc.hashPassword(cmd.password)
    && u.data.fullName == cmd.fullName
    && !u.data.isEmailVerified
    && u.data.emailVerificationToken == Some(verificationToken)
    && u.data.emailVerificationTokenExpiry == Some(clock.construct + VerificationTokenLifetime)
    && u.data.passwordResetToken == None && u.data.passwordResetTokenExpiry == None
    && u.data.notificationPreferences == None
    && u.data.language == Some(InitialLanguage)
    && u.audit.createdAt == clock.save && u.audit.updatedAt == clock.save
    && u.audit.createdBy == None && u.audit.updatedBy == None
    && Visible(u) && u.audit.deletedAt == None && u.audit.deletedBy == None
  }

  lemma SavedUserIsRegistered(cmd: RegisterCommand, svc: Services, newId: Guid,
                              verificationToken: string, clock: Clock)
    ensures var saved := SavedUser(NewRegisteredUser(cmd, svc, newId, verificationToken, clock.construct), clock.save);
      saved.audit.id == newId && RegisteredRow(saved, cmd, svc, verificationToken, clock)
  {
  }

  /** The save of a registration, in closed form: the insert fails on a taken
      key, and otherwise the transaction commits exactly when the store with
      the stamped row added is valid. */
  lemma {:induction false} RegistrationSave(s: Store, user: Row<User>, save: Timestamp)
    ensures var id := user.audit.id;
      var s' := s.(users := s.users[id := SavedUser(user, save)]);
      SaveChangesAsync(s, RegistrationChange(user), save)
        == if id in s.users then Failure(DuplicateKey)
           else if Valid(s') then Success(s')
           else Failure(ConstraintViolation)
  {
    var cs := InsertStatements(StampChangeSet(RegistrationChange(user), save, CurrentUserId));
    var e := InsertedEntry(StampEntry(Entry(Added, user), save, CurrentUserId), UserInserted);
    assert cs.users == [e];
    ApplyNothing(s.groups);
    ApplyNothing(s.members);
    ApplyNothing(s.invitations);
    ApplyNothing(s.lists);
    ApplyNothing(s.items);
    ApplyNothing(s.histories);
    ApplyOneAdded(s.users, e);
  }

  /** Registers a user. The duplicate check goes through the soft-delete
      filter; the insert is then saved, and a failed save escapes the handler
      as an exception. The verification email is not modelled. */
  function Register(s: Store, cmd: RegisterCommand, svc: Services, newId: Guid,
                    verificationToken: string, clock: Clock): (r: Handled)
    ensures r.outcome.Refused? <==> EmailTaken(s.users, cmd.email)
    ensures r.outcome.Refused? ==> r.outcome.message == DuplicateEmailMessage
    ensures !r.outcome.Ok? ==> r.store == s
    ensures r.outcome.Thrown? ==> (r.outcome.error == DuplicateKey <==> newId in s.users)
    ensures r.outcome.Ok? ==>
      && newId !in s.users && newId in r.store.users
      && RegisteredRow(r.store.users[newId], cmd, svc, verificationToken, clock)
      && r.outcome.response == ResponseFor(r.store.users[newId], svc, clock.respond)
    ensures r.outcome.Ok? ==> Valid(r.store)
    ensures r.outcome.Ok? ==> newId in r.store.users && r.store == s.(users := s.users[newId := r.store.users[newId]])
  {
    if EmailTaken(s.users, cmd.email) then Handled(Refused(DuplicateEmailMessage), s)
    else
      var user := NewRegisteredUser(cmd, svc, newId, verificationToken, clock.construct);
      RegistrationSave(s, user, clock.save);
      SavedUserIsRegistered(cmd, svc, newId, verificationToken, clock);
      match SaveChangesAsync(s, RegistrationChange(user), clock.save)
      case Failure(e) => Handled(Thrown(e), s)
      case Success(s') =>
        var saved := SavedUser(user, clock.save);
        Handled(Ok(ResponseFor(saved, svc, clock.respond)), s')
  }

  /** Adding a user row with its own key to a valid store keeps it valid
      exactly when the row fits its columns and no stored user, tombstoned or
      not, has its email. */
  lemma {:induction false} AddUserValidIff(s: Store, u: Row<User>)
    requires Valid(s) && u.audit.id !in s.users
    ensures Valid(s.(users := s.users[u.audit.id := u])) <==>
      UserColumnsOk(u.data) && !EmailStored(s.users, u.data.email)
  {
    var s' := s.(users := s.users[u.audit.id := u]);
    AddUserKeys(s, u);
    AddUserColumns(s, u);
    AddUserUnique(s, u);
    AddUserReferences(s, u);
  }

  lemma AddUserKeys(s: Store, u: Row<User>)
    requires KeysOk(s)
    ensures KeysOk(s.(users := s.users[u.audit.id := u]))
  {
  }

  lemma AddUserColumns(s: Store, u: Row<User>)
    requires ColumnsOk(s)
    ensures ColumnsOk(s.(users := s.users[u.audit.id := u])) <==> UserColumnsOk(u.data)
  {
    var s' := s.(users := s.users[u.audit.id := u]);
    assert s'.users[u.audit.id] == u;
  }

  lemma AddUserUnique(s: Store, u: Row<User>)
    requires UniqueOk(s) && u.audit.id !in s.users
    ensures UniqueOk(s.(users := s.users[u.audit.id := u])) <==> !EmailStored(s.users, u.data.email)
  {
    Integrity.AddUserKeepsEmailsUnique(s.users, u.audit.id, u);
  }

  /** Every reference to a user still resolves once the user table grows. */
  lemma AddUserReferences(s: Store, u: Row<User>)
    requires ReferencesOk(s)
    ensures ReferencesOk(s.(users := s.users[u.audit.id := u]))
  {
    var s' := s.(users := s.users[u.audit.id := u]);
    assert GroupRefsOk(s') by { assert GroupRefsOk(s); }
    assert MemberRefsOk(s') by { assert MemberRefsOk(s); }
    assert InvitationRefsOk(s') by { assert InvitationRefsOk(s); }
    assert ListRefsOk(s') by { assert ListRefsOk(s); }
    assert ItemRefsOk(s') by { assert ItemRefsOk(s); }
    assert HistoryRefsOk(s') by { assert HistoryRefsOk(s); }
  }

  /** On a valid store a registration succeeds exactly when no row at all
      holds the email, the generated id is unused, and the new row fits the
      user columns (email and name up to 255 characters, hash up to 500). */
  lemma {:induction false} RegisterSucceedsIff(s: Store, cmd: RegisterCommand, svc: Services, newId: Guid,
                                               verificationToken: string, clock: Clock)
    requires Valid(s)
    ensures Register(s, cmd, svc, newId, verificationToken, clock).outcome.Ok? <==>
      && !EmailStored(s.users, cmd.email)
      && newId !in s.users
      && |cmd.email| <= 255 && |svc.hashPassword(cmd.password)| <= 500 && |cmd.fullName| <= 255
  {
    var user := NewRegisteredUser(cmd, svc, newId, verificationToken, clock.construct);
    var saved := SavedUser(user, clock.save);
    RegistrationSave(s, user, clock.save);
    assert saved.audit.id == newId && saved.data == user.data;
    if EmailTaken(s.users, cmd.email) {
      var id :| id in s.users && Visible(s.users[id]) && s.users[id].data.email == cmd.email;
      assert EmailStored(s.users, cmd.email);
    } else if newId !in s.users {
      AddUserValidIff(s, saved);
    }
  }

  /** A tombstoned user still holds its email in the unique index: the
      filtered duplicate check lets the registration through, and the save
      then fails on the constraint. */
  lemma TombstonedEmailFaults(s: Store, cmd: RegisterCommand, svc: Services, newId: Guid,
                              verificationToken: string, clock: Clock, gone: Guid)
    requires Valid(s) && newId !in s.users
    requires gone in s.users && !Visible(s.users[gone]) && s.users[gone].data.email == cmd.email
    ensures Register(s, cmd, svc, newId, verificationToken, clock).outcome == Thrown(ConstraintViolation)
  {
    var user := NewRegisteredUser(cmd, svc, newId, verificationToken, clock.construct);
    var saved := SavedUser(user, clock.save);
    RegistrationSave(s, user, clock.save);
    assert !EmailTaken(s.users, cmd.email);
    assert saved.audit.id == newId && saved.data == user.data;
    AddUserValidIff(s, saved);
  }

  /** Once a registration succeeded, registering the same email again is
      refused by the handler, whatever the other inputs. */
  lemma SecondRegistrationRefused(s: Store, cmd: RegisterCommand, svc: Services, newId: Guid,
                                  verificationToken: string, clock: Clock,
                                  cmd2: RegisterCommand, svc2: Services, newId2: Guid,
                                  verificationToken2: string, clock2: Clock)
    requires Register(s, cmd, svc, newId, verificationToken, clock).outcome.Ok?
    requires cmd2.email == cmd.email
    ensures var s1 := Register(s, cmd, svc, newId, verificationToken, clock).store;
      Register(s1, cmd2, svc2, newId2, verificationToken2, clock2)
        == Handled(Refused(DuplicateEmailMessage), s1)
  {
    var s1 := Register(s, cmd, svc, newId, verificationToken, clock).store;
    assert Visible(s1.users[newId]) && s1.users[newId].data.email == cmd2.email;
  }

  // ---------------------------------------------------------------------------
  // Login.

  /** `FirstOrDefault` through the soft-delete filter: some non-deleted user
      with the email, if there is one. Which one the database returns when
      several match is not specified. */
  ghost function FindByEmail(users: Table<User>, email: string): (r: Option<Row<User>>)
    ensures r.Some? <==> EmailTaken(users, email)
    ensures r.Some? ==> exists id :: id in users && users[id] == r.value
    ensures r.Some? ==> Visible(r.value) && r.value.data.email == email
  {
    if EmailTaken(users, email) then
      var id :| id in users && Visible(users[id]) && users[id].data.email == email;
      Some(users[id])
    else None
  }

  /** Logs a user in. An unknown email and a wrong password give the same
      message, and an unverified email does not stop the login. The store is
      only read. */
  ghost function Login(s: Store, cmd: LoginCommand, svc: Services, now: Timestamp): (o: Outcome)
    ensures !o.Thrown?
    ensures o.Refused? ==> o.message == InvalidCredentialsMessage
    ensures !EmailTaken(s.users, cmd.email) ==> o.Refused?
    ensures o.Ok? ==>
      exists id :: id in s.users && Visible(s.users[id]) && s.users[id].data.email == cmd.email
        && svc.verifyPassword(cmd.password, s.users[id].data.passwordHash)
        && o.response == ResponseFor(s.users[id], svc, now)
  {
    match FindByEmail(s.users, cmd.email)
    case None => Refused(InvalidCredentialsMessage)
    case Some(u) =>
      if !svc.verifyPassword(cmd.password, u.data.passwordHash) then Refused(InvalidCredentialsMessage)
      else Ok(ResponseFor(u, svc, now))
  }

  /** Under the unique email index the lookup is determined: it returns the
      one non-deleted user with the email. */
  lemma FindByEmailUnique(users: Table<User>, id: Guid, email: string)
    requires EmailsUnique(users)
    requires id in users && Visible(users[id]) && users[id].data.email == email
    ensures FindByEmail(users, email) == Some(users[id])
  {
    var r := FindByEmail(users, email);
    var k :| k in users && users[k] == r.value;
    if k != id {
      assert users[k].data.email == users[id].data.email;
    }
  }

  /** On a store with unique emails, a login succeeds exactly when a
      non-deleted user has the email and the password verifies against its
      hash, and then the response is that user's. */
  lemma {:induction false} LoginSucceedsIff(s: Store, cmd: LoginCommand, svc: Services, now: Timestamp)
    requires EmailsUnique(s.users)
    ensures Login(s, cmd, svc, now).Ok? <==>
      exists id :: id in s.users && Visible(s.users[id]) && s.users[id].data.email == cmd.email
        && svc.verifyPassword(cmd.password, s.users[id].data.passwordHash)
  {
    if exists id :: id in s.users && Visible(s.users[id]) && s.users[id].data.email == cmd.email
        && svc.verifyPassword(cmd.password, s.users[id].data.passwordHash)
    {
      var id :| id in s.users && Visible(s.users[id]) && s.users[id].data.email == cmd.email
        && svc.verifyPassword(cmd.password, s.users[id].data.passwordHash);
      FindByEmailUnique(s.users, id, cmd.email);
    }
  }

  /** The user a login authenticates is the stored one with that email; its
      `IsEmailVerified` flag plays no part. */
  lemma LoginReturnsTheUser(s: Store, cmd: LoginCommand, svc: Services, now: Timestamp, id: Guid)
    requires EmailsUnique(s.users)
    requires id in s.users && Visible(s.users[id]) && s.users[id].data.email == cmd.email
    requires svc.verifyPassword(cmd.password, s.users[id].data.passwordHash)
    ensures Login(s, cmd, svc, now) == Ok(ResponseFor(s.users[id], svc, now))
  {
    FindByEmailUnique(s.users, id, cmd.email);
  }

  /** A soft-deleted user cannot log in: its row is invisible to the lookup
      and the unique index leaves no other row with its email. */
  lemma TombstonedUserCannotLogIn(s: Store, cmd: LoginCommand, svc: Services, now: Timestamp, id: Guid)
    requires EmailsUnique(s.users)
    requires id in s.users && !Visible(s.users[id]) && s.users[id].data.email == cmd.email
    ensures Login(s, cmd, svc, now) == Refused(InvalidCredentialsMessage)
  {
  }

  /** A user just registered can log in with the same password, provided the
      hasher verifies its own hashes. */
  lemma RegisteredUserCanLogIn(s: Store, cmd: RegisterCommand, svc: Services, newId: Guid,
                               verificationToken: string, clock: Clock, now: Timestamp)
    requires Register(s, cmd, svc, newId, verificationToken, clock).outcome.Ok?
    requires svc.verifyPassword(cmd.password, svc.hashPassword(cmd.password))
    ensures var s1 := Register(s, cmd, svc, newId, verificationToken, clock).store;
      Login(s1, LoginCommand(cmd.email, cmd.password), svc, now) == Ok(ResponseFor(s1.users[newId], svc, now))
  {
    var s1 := Register(s, cmd, svc, newId, verificationToken, clock).store;
    LoginReturnsTheUser(s1, LoginCommand(cmd.email, cmd.password), svc, now, newId);
  }
}
