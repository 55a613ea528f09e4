/** The store's methods (internal/store/sqlstore.go), statement by statement, each proved equal to
    the write of Accounts it stands for. A statement answers how many rows it touched, and may fail; what
    a transaction did before a failure is rolled back. Every clock reading is a parameter, and so is the
    number of statements that work before the database is lost. */
module SqlStore {
  import opened Accounts

  /** What one statement answers. */
  datatype Result = Rows(n: nat) | UniqueViolation | Broken

  /** What a store call answers: the outcome of its write, or an error of the database. */
  datatype Reply = Answered(outcome: Outcome) | Failed

  datatype Login = Opened | Refused(why: Outcome) | AlreadyEnded | Lost

  datatype Lookup = Found(session: Session) | Missing | Expired

  // ----- the fence statements -----

  function UnexpiredSids(fences: map<string, int>, now: int): map<string, int> {
    map sid | sid in fences && fences[sid] > now :: fences[sid]
  }

  function UnexpiredSubjects(fences: map<(string, string), Fence>, now: int): map<(string, string), Fence> {
    map k | k in fences && fences[k].expiresAt > now :: fences[k]
  }

  /** INSERT ... ON CONFLICT DO UPDATE ... WHERE the stored cutoff is older: an equal or newer
      cutoff stays, with its own expiry. */
  function RaiseSubject(fences: map<(string, string), Fence>, key: (string, string), fence: Fence)
    : map<(string, string), Fence>
  {
    if key in fences && fences[key].cutoff >= fence.cutoff then fences else fences[key := fence]
  }

  predicate EndedBySubject(users: map<string, User>, session: Session, provider: string, subject: string, cutoff: int) {
    && session.createdAt < cutoff
    && session.userId in users
    && users[session.userId].provider == provider
    && users[session.userId].subject == subject
  }

  function WithoutSid(sessions: map<string, Session>, sid: string): map<string, Session> {
    map t | t in sessions && sessions[t].sid != sid :: sessions[t]
  }

  function WithoutSubject(users: map<string, User>, sessions: map<string, Session>,
                          provider: string, subject: string, cutoff: int): map<string, Session> {
    map t | t in sessions && !EndedBySubject(users, sessions[t], provider, subject, cutoff) :: sessions[t]
  }

  /** The fence query CreateSession runs after its session committed. */
  predicate Fenced(db: Db, sid: string, userId: string, createdAt: int, now: int) {
    || (sid != "" && sid in db.sidFences && db.sidFences[sid] > now)
    || (userId in db.users &&
        var key := (db.users[userId].provider, db.users[userId].subject);
        key in db.subjectFences && db.subjectFences[key].cutoff > createdAt && db.subjectFences[key].expiresAt > now)
  }

  class Store {
    var users: map<string, User>
    var sessions: map<string, Session>
    var sidFences: map<string, int>
    var subjectFences: map<(string, string), Fence>
    var members: set<(string, string)>

    ghost function Tables(): Db
      reads this
    {
      Db(users, sessions, sidFences, subjectFences, members)
    }

    constructor ()
      ensures Tables() == Db(map[], map[], map[], map[], {})
    {
      users, sessions, sidFences, subjectFences, members := map[], map[], map[], map[], {};
    }

    method CheckUsernameFree(name: string, id: string) returns (free: bool)
      ensures free <==> !NameTaken(users, name, id)
    {
      var own := set other | other in users && other == id && Lower(users[other].username) == Lower(name);
      if |own| > 0 {
        assert id in own;
        return true;
      }
      assert id !in own;
      var others := set other | other in users && other != id && Lower(users[other].username) == Lower(name);
      free := |others| == 0;
      assert free <==> forall o :: o in users && o != id ==> o !in others;
    }

    /** The database refuses a write that breaks UNIQUE(username). */
    method UniqueNameHolds(name: string, id: string) returns (holds: bool)
      ensures holds <==> !ExactNameTaken(users, name, id)
    {
      var others := set other | other in users && other != id && users[other].username == name;
      holds := |others| == 0;
      assert holds <==> forall o :: o in users && o != id ==> o !in others;
    }

    // ----- statements -----

    /** UPDATE users SET ... WHERE id = ? AND ..., over the whole table. */
    method Update(w: Write, works: bool) returns (result: Result)
      requires w.UpdatesRow()
      modifies this`users
      ensures !works ==> result == Broken && users == old(users)
      ensures works ==>
        if w.id !in old(users) || !Matches(old(users)[w.id], w) then result == Rows(0) && users == old(users)
        else if w.Renames() && ExactNameTaken(old(users), w.row.username, w.id) then
          result == UniqueViolation && users == old(users)
        else result == Rows(1) && users == old(users)[w.id := Rewrite(old(users)[w.id], w)]
    {
      if !works {
        return Broken;
      }
      var hits := set id | id in users && id == w.id && Matches(users[id], w);
      if hits == {} {
        assert w.id !in hits;
        return Rows(0);
      }
      assert hits == {w.id};
      if w.Renames() {
        var unique := UniqueNameHolds(w.row.username, w.id);
        if !unique {
          return UniqueViolation;
        }
      }
      users := map id | id in users :: if id in hits then Rewrite(users[id], w) else users[id];
      result := Rows(|hits|);
    }

    /** UPDATE users SET id = id WHERE id = ? AND password_hash = ? AND status = 'active': it changes
        nothing, and its row count is the guard. */
    method Guard(id: string, hash: string, works: bool) returns (result: Result)
      ensures result == if !works then Broken else Rows(if id in users && Guarded(users[id], hash) then 1 else 0)
    {
      if !works {
        return Broken;
      }
      var hits := set other | other in users && other == id && Guarded(users[other], hash);
      assert hits == if id in users && Guarded(users[id], hash) then {id} else {};
      result := Rows(|hits|);
    }

    /** DELETE FROM sessions WHERE user_id = ?. */
    method DeleteSessions(id: string, works: bool) returns (result: Result)
      modifies this`sessions
      ensures !works ==> result == Broken && sessions == old(sessions)
      ensures works ==> result.Rows? && sessions == Revoke(old(sessions), id)
    {
      if !works {
        return Broken;
      }
      var hits := set t | t in sessions && sessions[t].userId == id;
      sessions := sessions - hits;
      result := Rows(|hits|);
    }

    /** INSERT INTO users. */
    method InsertUser(id: string, row: User, works: bool) returns (result: Result)
      modifies this`users
      ensures !works ==> result == Broken && users == old(users)
      ensures works ==>
        if id in old(users) || ExactNameTaken(old(users), row.username, id) then
          result == UniqueViolation && users == old(users)
        else result == Rows(1) && users == old(users)[id := row]
    {
      if !works {
        return Broken;
      }
      var unique := UniqueNameHolds(row.username, id);
      if id in users || !unique {
        return UniqueViolation;
      }
      users := users[id := row];
      result := Rows(1);
    }

    method Rollback(began: Db)
      requires began.sidFences == sidFences && began.subjectFences == subjectFences && began.members == members
      modifies this`users, this`sessions
      ensures Tables() == began
    {
      users, sessions := began.users, began.sessions;
    }

    // ----- store calls -----

    /** Name check, insert, commit. */
    method CreateUser(id: string, row: User, working: nat) returns (reply: Reply)
      modifies this`users, this`sessions
      ensures reply.Answered? ==> (Tables(), reply.outcome) == Apply(old(Tables()), Create(id, row))
      ensures reply.Failed? ==> Tables() == old(Tables()) && working < 3
    {
      var began := Db(users, sessions, sidFences, subjectFences, members);
      if working < 1 {
        return Failed;
      }
      var free := CheckUsernameFree(row.username, id);
      if !free {
        return Answered(AlreadyExists);
      }
      var inserted := InsertUser(id, row, working >= 2);
      if !inserted.Rows? {
        Rollback(began);
        return if inserted.Broken? then Failed else Answered(AlreadyExists);
      }
      if working < 3 {
        Rollback(began);
        return Failed;
      }
      reply := Answered(Ok);
    }

    /** updateProfile: the name check first when the write renames, then the one UPDATE, then the
        sessions when it revokes, then the commit; a failed step rolls the transaction back. */
    method UpdateProfile(w: Write, working: nat) returns (reply: Reply)
      requires w.ScimUpdate? || w.TakeOver? || w.SetRole?
      modifies this`users, this`sessions
      ensures reply.Answered? ==> (Tables(), reply.outcome) == Apply(old(Tables()), w)
      ensures reply.Failed? ==> Tables() == old(Tables()) && working < 4
    {
      var began := Db(users, sessions, sidFences, subjectFences, members);
      if w.ScimUpdate? || w.TakeOver? {
        if working < 1 {
          return Failed;
        }
        var free := CheckUsernameFree(w.row.username, w.id);
        if !free {
          return Answered(AlreadyExists);
        }
      }
      var updated := Update(w, working >= 2);
      if !updated.Rows? {
        Rollback(began);
        return if updated.Broken? then Failed else Answered(AlreadyExists);
      }
      if updated.n == 0 {
        if working < 3 {
          return Failed;
        }
        var rows := set id | id in users && id == w.id;
        assert rows == if w.id in users then {w.id} else {};
        return Answered(if |rows| == 0 then NotFound else Conflict);
      }
      if w.Revokes() {
        var revoked := DeleteSessions(w.id, working >= 3);
        if revoked.Broken? {
          Rollback(began);
          return Failed;
        }
      }
      if working < 4 {
        Rollback(began);
        return Failed;
      }
      reply := Answered(Ok);
    }

    method LinkSsoIdentity(id: string, subject: string, works: bool) returns (reply: Reply)
      modifies this`users
      ensures reply.Answered? ==> (Tables(), reply.outcome) == Apply(old(Tables()), Link(id, subject))
      ensures reply.Failed? ==> Tables() == old(Tables()) && !works
    {
      var updated := Update(Link(id, subject), works);
      if updated.Broken? {
        return Failed;
      }
      reply := Answered(if updated == Rows(0) then Conflict else Ok);
    }

    /** DELETE FROM users WHERE id = ?: the foreign keys take the account's sessions and group
        memberships along. */
    method DeleteUser(id: string, works: bool) returns (reply: Reply)
      modifies this`users, this`sessions, this`members
      ensures reply.Answered? ==> (Tables(), reply.outcome) == Apply(old(Tables()), Delete(id))
      ensures reply.Failed? ==> Tables() == old(Tables()) && !works
    {
      if !works {
        return Failed;
      }
      var hits := set other | other in users && other == id;
      assert hits == if id in users then {id} else {};
      users := users - hits;
      sessions := map t | t in sessions && sessions[t].userId !in hits :: sessions[t];
      members := set m | m in members && m.1 !in hits;
      if |hits| == 0 {
        assert users == old(users) && sessions == old(sessions) && members == old(members);
        return Answered(NotFound);
      }
      assert sessions == Revoke(old(sessions), id) && members == Leave(old(members), id);
      reply := Answered(Ok);
    }

    /** withPassword's guard, then the local-account update, then the revocation with its audit record. */
    method CompletePasswordChange(id: string, oldHash: string, newHash: string, working: nat) returns (reply: Reply)
      modifies this`users, this`sessions
      ensures reply.Answered? ==>
        (Tables(), reply.outcome) == Apply(old(Tables()), ChangePassword(id, oldHash, newHash))
      ensures reply.Failed? ==> Tables() == old(Tables()) && working < 5
    {
      var began := Db(users, sessions, sidFences, subjectFences, members);
      var guard := Guard(id, oldHash, working >= 1);
      if guard.Broken? {
        return Failed;
      }
      if guard.n != 1 {
        return Answered(NotFound);
      }
      var updated := Update(ChangePassword(id, oldHash, newHash), working >= 2);
      if updated.Broken? {
        return Failed;
      }
      if updated != Rows(1) {
        return Answered(NotFound);
      }
      reply := Revoked(id, began, working, 3);
    }

    method ResetAdminPassword(id: string, newHash: string, working: nat) returns (reply: Reply)
      modifies this`users, this`sessions
      ensures reply.Answered? ==> (Tables(), reply.outcome) == Apply(old(Tables()), ResetPassword(id, newHash))
      ensures reply.Failed? ==> Tables() == old(Tables()) && working < 4
    {
      var began := Db(users, sessions, sidFences, subjectFences, members);
      var updated := Update(ResetPassword(id, newHash), working >= 1);
      if updated.Broken? {
        return Failed;
      }
      if updated != Rows(1) {
        return Answered(NotFound);
      }
      reply := Revoked(id, began, working, 2);
    }

    /** revokePasswordGrants and the commit: the sessions at statement `from`, then the audit record. */
    method Revoked(id: string, began: Db, working: nat, from: nat) returns (reply: Reply)
      requires began.sidFences == sidFences && began.subjectFences == subjectFences && began.members == members
      modifies this`users, this`sessions
      ensures reply == if working >= from + 2 then Answered(Ok) else Failed
      ensures reply.Answered? ==> users == old(users) && sessions == Revoke(old(sessions), id)
      ensures reply.Failed? ==> Tables() == began
    {
      var revoked := DeleteSessions(id, working >= from);
      if revoked.Broken? || working < from + 1 || working < from + 2 {
        Rollback(began);
        return Failed;
      }
      reply := Answered(Ok);
    }

    /** The session commits first; the fences are read after it, and a session that is fenced, or whose
        fences cannot be read, is deleted. What the delete answers is not looked at, and it may work although
        the query before it failed: `deletes` says whether it does. */
    method CreateSession(id: string, token: string, session: Session, hash: string, now: int,
                         working: nat, deletes: bool)
      returns (login: Login)
      modifies this`sessions
      ensures
        var (after, outcome) := Apply(old(Tables()), OpenSession(id, token, session, hash));
        match login
        case Refused(why) => why == outcome && !outcome.Ok? && Tables() == old(Tables())
        case Opened => outcome.Ok? && Tables() == after
          && !Fenced(old(Tables()), session.sid, id, session.createdAt, now)
        case AlreadyEnded =>
          && outcome.Ok? && Fenced(old(Tables()), session.sid, id, session.createdAt, now)
          && Tables() == if deletes then old(Tables()) else after
        case Lost =>
          && working < 4 && (working == 3 ==> outcome.Ok?)
          && Tables() == if working == 3 && !deletes then after else old(Tables())
    {
      var guard := Guard(id, hash, working >= 1);
      if guard.Broken? {
        return Lost;
      }
      if guard.n != 1 {
        return Refused(NotFound);
      }
      if working < 2 {
        return Lost;
      }
      if token in sessions {
        return Refused(AlreadyExists);
      }
      if working < 3 {
        return Lost;
      }
      sessions := sessions[token := session.(userId := id)];
      var read := working >= 4;
      var tables := Db(users, sessions, sidFences, subjectFences, members);
      var fenced := Fenced(tables, session.sid, id, session.createdAt, now);
      if !read || fenced {
        if deletes {
          DeleteSession(token);
          assert sessions == old(sessions);
        }
        return if read then AlreadyEnded else Lost;
      }
      login := Opened;
    }

    method EndSsoSession(sid: string, fenceUntil: int, now: int)
      modifies this`sidFences, this`sessions
      ensures forall s :: s in sidFences <==> s == sid || (s in old(sidFences) && old(sidFences)[s] > now)
      ensures forall s :: s in sidFences ==> sidFences[s] == if s == sid then fenceUntil else old(sidFences)[s]
      ensures forall t :: t in sessions <==> t in old(sessions) && old(sessions)[t].sid != sid
      ensures forall t :: t in sessions ==> sessions[t] == old(sessions)[t]
    {
      sidFences := UnexpiredSids(sidFences, now);
      sidFences := sidFences[sid := fenceUntil];
      sessions := WithoutSid(sessions, sid);
    }

    method EndSsoSubject(provider: string, subject: string, cutoff: int, fenceUntil: int, now: int)
      modifies this`subjectFences, this`sessions
      ensures
        var before, key := old(subjectFences), (provider, subject);
        var kept := key in before && before[key].expiresAt > now && before[key].cutoff >= cutoff;
        && (forall k :: k in subjectFences <==> k == key || (k in before && before[k].expiresAt > now))
        && (forall k :: k in subjectFences && k != key ==> subjectFences[k] == before[k])
        && subjectFences[key] == if kept then before[key] else Fence(cutoff, fenceUntil)
      ensures forall t :: t in sessions ==> t in old(sessions) && sessions[t] == old(sessions)[t]
      ensures forall t :: t in old(sessions) ==>
        var session := old(sessions)[t];
        t !in sessions <==>
          && session.createdAt < cutoff && session.userId in users
          && users[session.userId].provider == provider && users[session.userId].subject == subject
    {
      subjectFences := UnexpiredSubjects(subjectFences, now);
      subjectFences := RaiseSubject(subjectFences, (provider, subject), Fence(cutoff, fenceUntil));
      sessions := WithoutSubject(users, sessions, provider, subject, cutoff);
    }

    method GetSession(token: string, now: int) returns (found: Lookup)
      modifies this`sessions
      ensures found.Found? <==> token in old(sessions) && now <= old(sessions)[token].expiresAt
      ensures found.Found? ==> found.session == old(sessions)[token]
      ensures found.Missing? <==> token !in old(sessions)
      ensures sessions == if found.Expired? then old(sessions) - {token} else old(sessions)
    {
      if token !in sessions {
        return Missing;
      }
      if now > sessions[token].expiresAt {
        DeleteSession(token);
        return Expired;
      }
      found := Found(sessions[token]);
    }

    method DeleteSession(token: string)
      modifies this`sessions
      ensures sessions == old(sessions) - {token}
    {
      sessions := sessions - {token};
    }
  }
}
