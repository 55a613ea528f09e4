/** What each account write does, column by column, and what the next sign-in makes of it
    (internal/store/sqlstore.go:98-137, 286-372, 441-470, 517-558). */
module AccountWrites {
  import opened Accounts

  /** The account's sessions are gone, and no other is touched. */
  ghost predicate Revoked(before: map<string, Session>, after: map<string, Session>, id: string) {
    && (forall t :: t in after <==> t in before && before[t].userId != id)
    && (forall t :: t in after ==> after[t] == before[t])
  }

  /** Nothing but the row, and the account's sessions if `revoked`. */
  ghost predicate OnlyRow(before: Db, after: Db, id: string, row: User, revoked: bool) {
    && after.users == before.users[id := row]
    && (if revoked then Revoked(before.sessions, after.sessions, id) else after.sessions == before.sessions)
    && after.sidFences == before.sidFences && after.subjectFences == before.subjectFences
    && after.members == before.members
  }

  /** A completed change stores the new hash and lifts the restriction, and no session survives it. */
  lemma PasswordIsChanged(db: Db, id: string, oldHash: string, newHash: string)
    ensures
      var (after, outcome) := Apply(db, ChangePassword(id, oldHash, newHash));
      && (outcome.Ok? <==>
        && id in db.users && db.users[id].provider == "local" && db.users[id].status == "active"
        && db.users[id].passwordHash == oldHash)
      && (!outcome.Ok? ==> outcome.NotFound? && after == db)
      && (outcome.Ok? ==>
        var u := db.users[id];
        OnlyRow(db, after, id, User(u.username, u.email, u.displayName, newHash, u.role, "active", "local", u.subject,
                                    u.managed, false), true))
  {
  }

  /** The operator's reset: an active administrator who must change the new password. */
  lemma PasswordIsReset(db: Db, id: string, newHash: string)
    ensures
      var (after, outcome) := Apply(db, ResetPassword(id, newHash));
      && (outcome.Ok? <==> id in db.users && db.users[id].provider == "local")
      && (!outcome.Ok? ==> outcome.NotFound? && after == db)
      && (outcome.Ok? ==>
        var u := db.users[id];
        OnlyRow(db, after, id, User(u.username, u.email, u.displayName, newHash, "admin", "active", "local", u.subject,
                                    u.managed, true), true))
  {
  }

  /** A role change takes effect only on the role and status that were read, and ends the account's sessions
      when the role moves. */
  lemma RoleIsSet(db: Db, id: string, role: string, prevRole: string, status: string)
    ensures
      var (after, outcome) := Apply(db, SetRole(id, role, prevRole, status));
      && (outcome.Ok? <==> id in db.users && db.users[id].role == prevRole && db.users[id].status == status)
      && (outcome.NotFound? <==> id !in db.users)
      && (!outcome.Ok? ==> (outcome.NotFound? || outcome.Conflict?) && after == db)
      && (outcome.Ok? ==>
        var u := db.users[id];
        OnlyRow(db, after, id, User(u.username, u.email, u.displayName, u.passwordHash, role, u.status, u.provider,
                                    u.subject, u.managed, u.mustChange), role != prevRole))
  {
  }

  /** A SCIM update writes the six profile columns, the subject only of SCIM's own row, and ends the
      sessions when role or status moves. */
  lemma ProfileIsUpdated(db: Db, id: string, sent: User, prevRole: string, prevStatus: string, prevSubject: string)
    ensures
      var (after, outcome) := Apply(db, ScimUpdate(id, sent, prevRole, prevStatus, prevSubject));
      var matched := id in db.users && db.users[id].role == prevRole && db.users[id].status == prevStatus
        && db.users[id].subject == prevSubject;
      && (outcome.Ok? <==> matched && !NameRefused(db.users, sent.username, id))
      && (outcome.NotFound? ==> id !in db.users)
      && (outcome.Conflict? ==> id in db.users && !matched)
      && (outcome.AlreadyExists? ==> NameRefused(db.users, sent.username, id))
      && (!outcome.Ok? ==> after == db)
      && (outcome.Ok? ==>
        var u := db.users[id];
        OnlyRow(db, after, id, User(sent.username, sent.email, sent.displayName, u.passwordHash, sent.role, sent.status,
                                    u.provider, if u.provider == "scim" then sent.subject else u.subject, u.managed,
                                    u.mustChange),
                sent.role != prevRole || sent.status != prevStatus))
  {
  }

  /** A take-over claims an unmanaged KyIdentity account of this subject and writes the profile. */
  lemma AccountIsTakenOver(db: Db, id: string, sent: User, prevRole: string, prevStatus: string)
    ensures
      var (after, outcome) := Apply(db, TakeOver(id, sent, prevRole, prevStatus));
      var matched := id in db.users && db.users[id].role == prevRole && db.users[id].status == prevStatus
        && db.users[id].provider == "kysignon" && db.users[id].subject == sent.subject && !db.users[id].managed;
      && (outcome.Ok? <==> matched && !NameRefused(db.users, sent.username, id))
      && (!outcome.Ok? ==> after == db)
      && (outcome.Ok? ==>
        var u := db.users[id];
        OnlyRow(db, after, id, User(sent.username, sent.email, sent.displayName, u.passwordHash, sent.role, sent.status,
                                    "kysignon", u.subject, true, u.mustChange),
                sent.role != prevRole || sent.status != prevStatus))
  {
  }

  /** Linking turns SCIM's row of this subject into a KyIdentity one and changes nothing else of it. */
  lemma IdentityIsLinked(db: Db, id: string, subject: string)
    ensures
      var (after, outcome) := Apply(db, Link(id, subject));
      && (outcome.Ok? <==> id in db.users && db.users[id].provider == "scim" && db.users[id].subject == subject)
      && (!outcome.Ok? ==> outcome.Conflict? && after == db)
      && (outcome.Ok? ==>
        var u := db.users[id];
        OnlyRow(db, after, id, User(u.username, u.email, u.displayName, u.passwordHash, u.role, u.status, "kysignon",
                                    subject, u.managed, u.mustChange), false))
  {
  }

  /** A create stores the row as sent under its id, unless the id or the name is in use. */
  lemma AccountIsCreated(db: Db, id: string, row: User)
    ensures
      var (after, outcome) := Apply(db, Create(id, row));
      && (outcome.Ok? <==> id !in db.users && !NameRefused(db.users, row.username, id))
      && (!outcome.Ok? ==> outcome.AlreadyExists? && after == db)
      && (outcome.Ok? ==> OnlyRow(db, after, id, row, false))
  {
  }

  /** A deletion takes the row, its sessions and its memberships, and nothing of anyone else. */
  lemma AccountIsDeleted(db: Db, id: string)
    ensures
      var (after, outcome) := Apply(db, Delete(id));
      && (outcome.Ok? <==> id in db.users) && (!outcome.Ok? ==> outcome.NotFound? && after == db)
      && id !in after.users && (forall other :: other in db.users && other != id ==>
        other in after.users && after.users[other] == db.users[other])
      && after.users.Keys <= db.users.Keys
      && (outcome.Ok? ==> Revoked(db.sessions, after.sessions, id))
      && (outcome.Ok? ==> forall m :: m in after.members <==> m in db.members && m.1 != id)
  {
  }

  /** A sign-in is stored under its new token for an active account with this very hash, and changes nothing
      else; otherwise it is refused. */
  lemma SessionIsOpened(db: Db, id: string, token: string, session: Session, hash: string)
    ensures
      var (after, outcome) := Apply(db, OpenSession(id, token, session, hash));
      var guarded := id in db.users && db.users[id].status == "active" && db.users[id].passwordHash == hash;
      && (outcome.Ok? <==> guarded && token !in db.sessions)
      && (outcome.NotFound? <==> !guarded)
      && (!outcome.Ok? ==> after == db)
      && (outcome.Ok? ==>
        && after.users == db.users && after.members == db.members
        && after.sidFences == db.sidFences && after.subjectFences == db.subjectFences
        && after.sessions
          == db.sessions[token := Session(id, session.createdAt, session.expiresAt, session.sid)])
  {
  }

  /** After a completed change the new password signs in and the replaced one no longer does. */
  lemma NewPasswordSignsIn(db: Db, id: string, oldHash: string, newHash: string, token: string, session: Session)
    requires Apply(db, ChangePassword(id, oldHash, newHash)).1.Ok? && token !in db.sessions
    ensures
      var after := Apply(db, ChangePassword(id, oldHash, newHash)).0;
      && Apply(after, OpenSession(id, token, session, newHash)).1.Ok?
      && (oldHash != newHash ==> Apply(after, OpenSession(id, token, session, oldHash)).1.NotFound?)
  {
    var after := Apply(db, ChangePassword(id, oldHash, newHash)).0;
    PasswordIsChanged(db, id, oldHash, newHash);
    SessionIsOpened(after, id, token, session, newHash);
    SessionIsOpened(after, id, token, session, oldHash);
  }

  /** After a reset only the new password signs in, whatever the account's status was. */
  lemma ResetPasswordSignsIn(db: Db, id: string, newHash: string, hash: string, token: string, session: Session)
    requires Apply(db, ResetPassword(id, newHash)).1.Ok? && token !in db.sessions
    ensures
      var after := Apply(db, ResetPassword(id, newHash)).0;
      Apply(after, OpenSession(id, token, session, hash)).1 == if hash == newHash then Ok else NotFound
  {
    PasswordIsReset(db, id, newHash);
    SessionIsOpened(Apply(db, ResetPassword(id, newHash)).0, id, token, session, hash);
  }

  /** A deactivated account has no session left and opens none. */
  lemma DeactivationLocksOut(db: Db, id: string, sent: User, prevRole: string, prevSubject: string, token: string,
                             session: Session, hash: string)
    requires sent.status != "active" && Apply(db, ScimUpdate(id, sent, prevRole, "active", prevSubject)).1.Ok?
    ensures
      var after := Apply(db, ScimUpdate(id, sent, prevRole, "active", prevSubject)).0;
      && (forall t :: t in after.sessions ==> after.sessions[t].userId != id)
      && Apply(after, OpenSession(id, token, session, hash)).1.NotFound?
  {
    ProfileIsUpdated(db, id, sent, prevRole, "active", prevSubject);
    SessionIsOpened(Apply(db, ScimUpdate(id, sent, prevRole, "active", prevSubject)).0, id, token, session, hash);
  }
}
