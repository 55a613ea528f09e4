/** The account, session and fence tables, and every write the store commits to the account
    table as one function on those tables (internal/store/sqlstore.go). The imperative store
    (SqlStore.dfy) is proved equal to these functions and the interleaved transactions
    (Transactions.dfy) are proved to refine them. */
module Accounts {
  import opened Basics

  datatype User = User(
    username: string,
    email: string,
    displayName: string,
    passwordHash: string,
    role: string,
    status: string,
    provider: string,
    subject: string,
    managed: bool,
    mustChange: bool)

  datatype Session = Session(userId: string, createdAt: int, expiresAt: int, sid: string)

  datatype Fence = Fence(cutoff: int, expiresAt: int)

  /** `members` holds (group, user) pairs; `subjectFences` is keyed by (provider, subject). */
  datatype Db = Db(
    users: map<string, User>,
    sessions: map<string, Session>,
    sidFences: map<string, int>,
    subjectFences: map<(string, string), Fence>,
    members: set<(string, string)>)

  datatype Outcome = Ok | NotFound | AlreadyExists | Conflict

  /** The writes to the account table that commit as one transaction or one statement. */
  datatype Write =
    | Create(id: string, row: User)
    | ScimUpdate(id: string, row: User, prevRole: string, prevStatus: string, prevSubject: string)
    | TakeOver(id: string, row: User, prevRole: string, prevStatus: string)
    | SetRole(id: string, role: string, prevRole: string, status: string)
    | Link(id: string, subject: string)
    | Delete(id: string)
    | ChangePassword(id: string, oldHash: string, newHash: string)
    | ResetPassword(id: string, newHash: string)
    | OpenSession(id: string, token: string, session: Session, hash: string)
  {
    /** Writes that check the user name before they touch a row. */
    predicate Renames() { Create? || ScimUpdate? || TakeOver? }

    /** Writes that update one existing row. */
    predicate UpdatesRow() { !Create? && !Delete? && !OpenSession? }

    /** Writes that also delete the account's sessions. */
    predicate Revokes() {
      match this
      case ScimUpdate(_, u, prevRole, prevStatus, _) => u.role != prevRole || u.status != prevStatus
      case TakeOver(_, u, prevRole, prevStatus) => u.role != prevRole || u.status != prevStatus
      case SetRole(_, r, prevRole, _) => r != prevRole
      case ChangePassword(_, _, _) => true
      case ResetPassword(_, _) => true
      case _ => false
    }

    /** Writes that report a row they no longer match as a conflict, not as missing. */
    predicate ReportsConflict() { ScimUpdate? || TakeOver? || SetRole? || Link? }
  }

  /** ASCII LOWER, as SQLite computes it. No proof uses more than that it is a function. */
  function LowerChar(c: char): char {
    if 'A' <= c <= 'Z' then (c as int + 32) as char else c
  }

  function Lower(s: string): string {
    seq(|s|, i requires 0 <= i < |s| => LowerChar(s[i]))
  }

  /** strings.EqualFold, on ASCII. */
  predicate SameFold(a: string, b: string) {
    Lower(a) == Lower(b)
  }

  predicate IsUpper(c: char) { 'A' <= c <= 'Z' }

  /** The same letter, `a` the capital. */
  predicate Capital(a: char, b: char) {
    IsUpper(a) && b as int == a as int - 'A' as int + 'a' as int
  }

  /** Lowering leaves no capital and changes nothing else, and two texts fold alike exactly when they differ only in
      the case of letters. */
  lemma FoldingMeans(a: string, b: string)
    ensures |Lower(a)| == |a| && forall i :: 0 <= i < |a| ==>
      if IsUpper(a[i]) then Capital(a[i], Lower(a)[i]) else Lower(a)[i] == a[i]
    ensures SameFold(a, b) <==>
      |a| == |b| && forall i :: 0 <= i < |a| ==> a[i] == b[i] || Capital(a[i], b[i]) || Capital(b[i], a[i])
  {
    if |a| == |b| {
      forall i | 0 <= i < |a|
        ensures Lower(a)[i] == Lower(b)[i] <==> a[i] == b[i] || Capital(a[i], b[i]) || Capital(b[i], a[i])
      {
      }
      if forall i :: 0 <= i < |a| ==> a[i] == b[i] || Capital(a[i], b[i]) || Capital(b[i], a[i]) {
        assert Lower(a) == Lower(b);
      }
    } else {
      assert |Lower(a)| != |Lower(b)|;
    }
    if SameFold(a, b) {
      assert forall i :: 0 <= i < |a| ==> Lower(a)[i] == Lower(b)[i];
    }
  }

  /** UNIQUE(username), which compares names exactly. */
  predicate UniqueNames(users: map<string, User>) {
    forall a, b :: a in users && b in users && a != b ==> users[a].username != users[b].username
  }

  /** checkUsernameFree: an account keeping its own name in any case passes. */
  predicate NameTaken(users: map<string, User>, name: string, id: string) {
    !(id in users && Lower(users[id].username) == Lower(name)) &&
    exists other :: other in users && other != id && Lower(users[other].username) == Lower(name)
  }

  /** The UNIQUE(username) column constraint, which compares names exactly. */
  predicate ExactNameTaken(users: map<string, User>, name: string, id: string) {
    exists other :: other in users && other != id && users[other].username == name
  }

  /** The row condition of the password guard shared by CreateSession and CompletePasswordChange. */
  predicate Guarded(row: User, hash: string) {
    row.passwordHash == hash && row.status == "active"
  }

  /** The WHERE clause of a row update. */
  predicate Matches(row: User, w: Write)
    requires w.UpdatesRow()
  {
    match w
    case ScimUpdate(_, _, role, status, subject) => row.role == role && row.status == status && row.subject == subject
    case TakeOver(_, u, role, status) =>
      row.role == role && row.status == status && row.provider == "kysignon" && row.subject == u.subject && !row.managed
    case SetRole(_, _, role, status) => row.role == role && row.status == status
    case Link(_, subject) => row.subject == subject && row.provider == "scim"
    case ChangePassword(_, oldHash, _) => Guarded(row, oldHash) && row.provider == "local"
    case ResetPassword(_, _) => row.provider == "local"
  }

  function Profile(row: User, u: User): User {
    row.(username := u.username, email := u.email, displayName := u.displayName, role := u.role, status := u.status)
  }

  /** The SET clause of a row update. */
  function Rewrite(row: User, w: Write): User
    requires w.UpdatesRow()
  {
    match w
    case ScimUpdate(_, u, _, _, _) =>
      Profile(row, u).(subject := if row.provider == "scim" then u.subject else row.subject)
    case TakeOver(_, u, _, _) => Profile(row, u).(managed := true)
    case SetRole(_, role, _, _) => row.(role := role)
    case Link(_, _) => row.(provider := "kysignon")
    case ChangePassword(_, _, newHash) => row.(passwordHash := newHash, mustChange := false)
    case ResetPassword(_, newHash) =>
      row.(passwordHash := newHash, mustChange := true, status := "active", role := "admin")
  }

  function Revoke(sessions: map<string, Session>, id: string): map<string, Session> {
    map t | t in sessions && sessions[t].userId != id :: sessions[t]
  }

  function Leave(members: set<(string, string)>, id: string): set<(string, string)> {
    set m | m in members && m.1 != id
  }

  /** The name is refused: by checkUsernameFree, or by the column's UNIQUE constraint. */
  predicate NameRefused(users: map<string, User>, name: string, id: string) {
    NameTaken(users, name, id) || ExactNameTaken(users, name, id)
  }

  /** One compare-and-swap UPDATE, with the sessions deleted in the same transaction. */
  function UpdateRow(db: Db, w: Write): (Db, Outcome)
    requires w.UpdatesRow()
  {
    if w.id !in db.users then (db, if w.Link? then Conflict else NotFound)
    else if !Matches(db.users[w.id], w) then (db, if w.ReportsConflict() then Conflict else NotFound)
    else
      (db.(users := db.users[w.id := Rewrite(db.users[w.id], w)],
           sessions := if w.Revokes() then Revoke(db.sessions, w.id) else db.sessions), Ok)
  }

  /** The tables and the outcome after `w` runs alone, had every name check passed. */
  function Land(db: Db, w: Write): (Db, Outcome) {
    if w.Create? then
      if w.id in db.users then (db, AlreadyExists) else (db.(users := db.users[w.id := w.row]), Ok)
    else if w.Delete? then
      if w.id !in db.users then (db, NotFound)
      else
        (db.(users := db.users - {w.id}, sessions := Revoke(db.sessions, w.id), members := Leave(db.members, w.id)), Ok)
    else if w.OpenSession? then
      if w.id !in db.users || !Guarded(db.users[w.id], w.hash) then (db, NotFound)
      else if w.token in db.sessions then (db, AlreadyExists)
      else (db.(sessions := db.sessions[w.token := w.session.(userId := w.id)]), Ok)
    else UpdateRow(db, w)
  }

  /** The tables and the outcome after `w` runs alone. */
  function Apply(db: Db, w: Write): (Db, Outcome) {
    if w.Renames() && NameTaken(db.users, w.row.username, w.id) then (db, AlreadyExists)
    else
      var landed := Land(db, w);
      if landed.1.Ok? && w.Renames() && ExactNameTaken(db.users, w.row.username, w.id) then (db, AlreadyExists)
      else landed
  }

  /** The same when the name check may have been answered at another moment: interleaved with other
      writes, a check can pass or refuse a name that is taken or free again when the write lands. */
  function Sent(db: Db, w: Write, refused: bool): (Db, Outcome) {
    if refused && w.Renames() then (db, AlreadyExists) else Land(db, w)
  }

  // ----- what every write keeps -----

  /** What a request is authorised by: the fields a stored session vouches for. */
  datatype Privileges = Privileges(role: string, status: string, passwordHash: string, mustChange: bool)

  function PrivilegesOf(row: User): Privileges {
    Privileges(row.role, row.status, row.passwordHash, row.mustChange)
  }

  /** Every stored session belongs to an existing, active account. */
  predicate Vouched(db: Db) {
    forall t :: t in db.sessions ==>
      db.sessions[t].userId in db.users && db.users[db.sessions[t].userId].status == "active"
  }

  /** The stored session `token` is `session`, for an active account with these privileges. */
  predicate Grants(db: Db, token: string, session: Session, privileges: Privileges) {
    && token in db.sessions && db.sessions[token] == session
    && session.userId in db.users && PrivilegesOf(db.users[session.userId]) == privileges
    && privileges.status == "active"
  }

  /** A session both tables hold is the same session, for an account with the same privileges. */
  ghost predicate SameGrants(before: Db, after: Db) {
    forall t :: t in before.sessions && t in after.sessions ==>
      after.sessions[t] == before.sessions[t] &&
      forall privileges :: Grants(before, t, before.sessions[t], privileges) ==>
        Grants(after, t, before.sessions[t], privileges)
  }

  /** A row update that leaves the account's sessions alone leaves its privileges alone. */
  lemma UnrevokedKeepsPrivileges(row: User, w: Write)
    requires w.UpdatesRow() && Matches(row, w) && !w.Revokes()
    ensures PrivilegesOf(Rewrite(row, w)) == PrivilegesOf(row)
  {
  }

  lemma RowUpdateKeepsGrants(db: Db, w: Write)
    requires Vouched(db) && w.UpdatesRow()
    ensures Vouched(UpdateRow(db, w).0) && SameGrants(db, UpdateRow(db, w).0)
    ensures forall t :: t in UpdateRow(db, w).0.sessions ==> t in db.sessions
  {
    var (after, outcome) := UpdateRow(db, w);
    if outcome.Ok? {
      var row := db.users[w.id];
      assert after.users == db.users[w.id := Rewrite(row, w)];
      if !w.Revokes() {
        UnrevokedKeepsPrivileges(row, w);
        assert Rewrite(row, w).status == PrivilegesOf(row).status == row.status;
      }
    }
  }

  lemma WriteKeepsGrants(db: Db, w: Write)
    requires Vouched(db)
    ensures Vouched(Land(db, w).0) && SameGrants(db, Land(db, w).0)
    ensures forall t :: t in Land(db, w).0.sessions && t !in db.sessions ==> w.OpenSession? && t == w.token
  {
    var (after, outcome) := Land(db, w);
    if w.UpdatesRow() {
      RowUpdateKeepsGrants(db, w);
    } else if outcome.Ok? {
      if w.Create? {
        assert after.users == db.users[w.id := w.row] && after.sessions == db.sessions;
      } else if w.Delete? {
        assert after.users == db.users - {w.id} && after.sessions == Revoke(db.sessions, w.id);
      } else {
        assert after.users == db.users && after.sessions == db.sessions[w.token := w.session.(userId := w.id)];
      }
    }
  }

  /** What the identity columns of one row may do. */
  predicate IdentityStep(before: User, after: User) {
    && (after.provider == before.provider || (before.provider == "scim" && after.provider == "kysignon"))
    && (before.provider == "kysignon" ==> after.subject == before.subject)
    && (before.managed ==> after.managed)
    && (after.managed && !before.managed ==> before.provider == "kysignon")
  }

  lemma RewriteIsIdentityStep(row: User, w: Write)
    requires w.UpdatesRow() && Matches(row, w)
    ensures IdentityStep(row, Rewrite(row, w))
  {
  }

  /** No write moves an account between providers except from "scim" to "kysignon", changes a
      KyIdentity account's subject, or drops the managed flag; only Create makes an account. */
  lemma WriteKeepsIdentity(db: Db, w: Write)
    ensures forall id :: id in db.users && id in Land(db, w).0.users ==>
      IdentityStep(db.users[id], Land(db, w).0.users[id])
    ensures forall id :: id in Land(db, w).0.users && id !in db.users ==>
      w.Create? && id == w.id && Land(db, w).0.users[id] == w.row
  {
    var (after, outcome) := Land(db, w);
    if outcome.Ok? {
      if w.UpdatesRow() {
        RewriteIsIdentityStep(db.users[w.id], w);
        assert after.users == db.users[w.id := Rewrite(db.users[w.id], w)];
      } else if w.Create? {
        assert after.users == db.users[w.id := w.row];
      } else {
        assert after.users == if w.Delete? then db.users - {w.id} else db.users;
      }
    } else {
      assert after == db;
    }
  }

  /** Accounts whose name reads `name` in lower case. */
  function Holders(users: map<string, User>, name: string): set<string> {
    set id | id in users && Lower(users[id].username) == name
  }

  predicate NoNameClash(users: map<string, User>) {
    forall a, b :: a in users && b in users && a != b ==> Lower(users[a].username) != Lower(users[b].username)
  }

  lemma NamesNeverPileUp(db: Db, w: Write, name: string)
    ensures |Holders(Apply(db, w).0.users, name)| <= 1
         || |Holders(Apply(db, w).0.users, name)| <= |Holders(db.users, name)|
  {
    var before, after := Holders(db.users, name), Holders(Apply(db, w).0.users, name);
    if after <= before {
      SubsetSize(after, before);
    } else {
      assert w.Renames() && Lower(w.row.username) == name && w.id !in before;
      assert after <= {w.id};
      SubsetSize(after, {w.id});
    }
  }
}
