/** Sign-in, back-channel logout and request authentication as processes of several separately
    committed steps, interleaved with each other and with every write to the account table
    (internal/store/sqlstore.go, internal/auth/session.go, internal/api/sso_handlers.go). */
module SessionProtocol {
  import opened Accounts
  import opened SqlStore

  /** A CreateSession call. `provider` and `subject` are what the caller knows of the account: a
      KyIdentity callback holds a "kysignon" account of the ID token's subject. */
  datatype SignIn = SignIn(id: string, token: string, session: Session, hash: string, provider: string, subject: string)

  /** `at` is the number of steps the run took before the one that set it, and `since` the number
      after which the logout's fence was first in the table. */
  datatype Process =
    // CreateSession
    | Opening(login: SignIn)
    | Open(login: SignIn)
    | Timed(login: SignIn, now: int)
    | Condemned(login: SignIn)
    | SignedIn(login: SignIn, at: nat)
    // EndSSOSession
    | EndSid(sid: string, until: int)
    | SidTimed(sid: string, until: int, now: int)
    | SidPurged(sid: string, until: int)
    | SidFenced(sid: string, since: nat)
    | SidEnded(sid: string, since: nat)
    // EndSSOSubject
    | EndSubject(subject: string, cutoff: int, until: int)
    | SubjectTimed(subject: string, cutoff: int, until: int, now: int)
    | SubjectPurged(subject: string, cutoff: int, until: int)
    | SubjectFenced(subject: string, cutoff: int, since: nat)
    | SubjectEnded(subject: string, cutoff: int, since: nat)
    // AuthenticateRequest
    | Authenticating(token: string, exempt: bool)
    | FirstRead(token: string, exempt: bool, session: Session)
    | HasSession(token: string, exempt: bool, session: Session)
    | HasUser(token: string, exempt: bool, session: Session, user: User)
    | SecondRead(token: string, exempt: bool, session: Session, user: User, at: nat)
    | Authenticated(token: string, exempt: bool, session: Session, user: User, at: nat)
    | Discarding(token: string)
    // failed, refused, or its connection is gone
    | Stopped

  /** `used` is every session token ever stored and `ids` every account id ever stored; both are
      drawn at random and never drawn twice. */
  datatype State = State(db: Db, clock: int, used: set<string>, ids: set<string>, procs: map<nat, Process>, tick: nat)

  datatype Action =
    | Advance
    | Start(proc: Process)
    | Stop
    | Pass(to: int)
    | Other(w: Write)
    | SignOut(token: string)

  /** The account, while it exists, is the KyIdentity account the caller takes it for. */
  predicate KnownAs(s: State, login: SignIn) {
    login.provider == "kysignon" ==>
      && login.id in s.ids
      && (login.id in s.db.users ==>
        s.db.users[login.id].provider == "kysignon" && s.db.users[login.id].subject == login.subject)
  }

  predicate MayStart(s: State, proc: Process) {
    match proc
    case Opening(login) => KnownAs(s, login)
    case EndSid(sid, _) => sid != ""
    case EndSubject(_, _, _) => true
    case Authenticating(_, _) => true
    case _ => false
  }

  predicate Running(proc: Process) {
    !proc.SignedIn? && !proc.SidEnded? && !proc.SubjectEnded? && !proc.Authenticated? && !proc.Stopped?
  }

  predicate Enabled(s: State, p: nat, a: Action) {
    match a
    case Advance => p in s.procs && Running(s.procs[p]) && (s.procs[p].Opening? ==> s.procs[p].login.token !in s.used)
    case Start(proc) => p !in s.procs && MayStart(s, proc)
    case Stop => p in s.procs && Running(s.procs[p])
    case Pass(to) => s.clock <= to
    case Other(w) => !w.OpenSession? && (w.Create? ==> w.id !in s.ids)
    case SignOut(_) => true
  }

  function Moved(s: State, p: nat, proc: Process): State {
    s.(procs := s.procs[p := proc], tick := s.tick + 1)
  }

  function Subject(subject: string): (string, string) {
    ("kysignon", subject)
  }

  function Authorise(proc: Process): Process
    requires proc.SecondRead?
  {
    if proc.user.mustChange && !proc.exempt then Stopped
    else Authenticated(proc.token, proc.exempt, proc.session, proc.user, proc.at)
  }

  /** One statement, or one clock reading, of process `p`. */
  function Advanced(s: State, p: nat): State
    requires Enabled(s, p, Advance)
  {
    var db := s.db;
    match s.procs[p]
    case Opening(login) =>
      var (after, outcome) := Land(db, OpenSession(login.id, login.token, login.session, login.hash));
      if outcome.Ok? then Moved(s.(db := after, used := s.used + {login.token}), p, Open(login))
      else Moved(s, p, Stopped)
    case Open(login) => Moved(s, p, Timed(login, s.clock))
    case Timed(login, now) =>
      if Fenced(db, login.session.sid, login.id, login.session.createdAt, now) then Moved(s, p, Condemned(login))
      else Moved(s, p, SignedIn(login, s.tick))
    case Condemned(login) => Moved(s.(db := db.(sessions := db.sessions - {login.token})), p, Stopped)
    case EndSid(sid, until) => Moved(s, p, SidTimed(sid, until, s.clock))
    case SidTimed(sid, until, now) =>
      Moved(s.(db := db.(sidFences := UnexpiredSids(db.sidFences, now))), p, SidPurged(sid, until))
    case SidPurged(sid, until) =>
      Moved(s.(db := db.(sidFences := db.sidFences[sid := until])), p, SidFenced(sid, s.tick + 1))
    case SidFenced(sid, since) =>
      Moved(s.(db := db.(sessions := WithoutSid(db.sessions, sid))), p, SidEnded(sid, since))
    case EndSubject(subject, cutoff, until) => Moved(s, p, SubjectTimed(subject, cutoff, until, s.clock))
    case SubjectTimed(subject, cutoff, until, now) =>
      Moved(s.(db := db.(subjectFences := UnexpiredSubjects(db.subjectFences, now))), p,
        SubjectPurged(subject, cutoff, until))
    case SubjectPurged(subject, cutoff, until) =>
      Moved(s.(db := db.(subjectFences := RaiseSubject(db.subjectFences, Subject(subject), Fence(cutoff, until)))), p,
        SubjectFenced(subject, cutoff, s.tick + 1))
    case SubjectFenced(subject, cutoff, since) =>
      Moved(s.(db := db.(sessions := WithoutSubject(db.users, db.sessions, "kysignon", subject, cutoff))), p,
        SubjectEnded(subject, cutoff, since))
    case Authenticating(token, exempt) =>
      if token in db.sessions then Moved(s, p, FirstRead(token, exempt, db.sessions[token])) else Moved(s, p, Stopped)
    case FirstRead(token, exempt, session) =>
      if s.clock > session.expiresAt then Moved(s, p, Discarding(token))
      else Moved(s, p, HasSession(token, exempt, session))
    case HasSession(token, exempt, session) =>
      if session.userId !in db.users then Moved(s, p, Stopped)
      else if db.users[session.userId].status != "active" then Moved(s, p, Discarding(token))
      else Moved(s, p, HasUser(token, exempt, session, db.users[session.userId]))
    case HasUser(token, exempt, session, user) =>
      if token in db.sessions then Moved(s, p, SecondRead(token, exempt, session, user, s.tick))
      else Moved(s, p, Stopped)
    case SecondRead(token, exempt, session, user, at) =>
      if s.clock > session.expiresAt then Moved(s, p, Discarding(token)) else Moved(s, p, Authorise(s.procs[p]))
    case Discarding(token) => Moved(s.(db := db.(sessions := db.sessions - {token})), p, Stopped)
  }

  function After(s: State, p: nat, a: Action): State
    requires Enabled(s, p, a)
  {
    match a
    case Advance => Advanced(s, p)
    case Start(proc) => Moved(s, p, proc)
    case Stop => Moved(s, p, Stopped)
    case Pass(to) => s.(clock := to, tick := s.tick + 1)
    case Other(w) => s.(db := Land(s.db, w).0, ids := s.ids + {w.id}, tick := s.tick + 1)
    case SignOut(token) => s.(db := s.db.(sessions := s.db.sessions - {token}), tick := s.tick + 1)
  }

  // ----- what one step keeps -----

  predicate TablesOk(s: State) {
    Vouched(s.db) && s.db.sessions.Keys <= s.used && s.db.users.Keys <= s.ids
  }

  predicate ClockOk(s: State) {
    forall p :: p in s.procs ==>
      match s.procs[p]
      case Timed(_, now) => now <= s.clock
      case SidTimed(_, _, now) => now <= s.clock
      case SubjectTimed(_, _, _, now) => now <= s.clock
      case _ => true
  }

  ghost predicate SessionsFollow(s: State, s': State) {
    && Vouched(s'.db) && SameGrants(s.db, s'.db)
    && s'.db.sessions.Keys <= s'.used && s.used <= s'.used
    && forall t :: t in s'.db.sessions && t in s.used ==> t in s.db.sessions
  }

  predicate AccountsFollow(s: State, s': State) {
    && s'.db.users.Keys <= s'.ids && s.ids <= s'.ids
    && forall id :: id in s'.db.users && id in s.ids ==>
      id in s.db.users && IdentityStep(s.db.users[id], s'.db.users[id])
  }

  /** A fence row is only replaced by one that covers it, or purged once it has expired. */
  predicate FencesFollow(s: State, s': State) {
    && s.clock <= s'.clock
    && (forall sid :: sid in s.db.sidFences ==> sid in s'.db.sidFences || s.db.sidFences[sid] <= s.clock)
    && (forall k :: k in s.db.subjectFences ==>
         || (k in s'.db.subjectFences && s.db.subjectFences[k].cutoff <= s'.db.subjectFences[k].cutoff)
         || s.db.subjectFences[k].expiresAt <= s.clock)
  }

  lemma StepSessionsFollow(s: State, p: nat, a: Action)
    requires TablesOk(s) && Enabled(s, p, a)
    ensures SessionsFollow(s, After(s, p, a))
  {
    match a
    case Other(w) => WriteKeepsGrants(s.db, w);
    case Advance =>
      if s.procs[p].Opening? {
        var login := s.procs[p].login;
        WriteKeepsGrants(s.db, OpenSession(login.id, login.token, login.session, login.hash));
      } else {
        AdvanceDropsOnly(s, p);
      }
    case _ =>
  }

  lemma AdvanceDropsOnly(s: State, p: nat)
    requires Enabled(s, p, Advance) && !s.procs[p].Opening?
    ensures Advanced(s, p).db.users == s.db.users && Advanced(s, p).used == s.used && Advanced(s, p).ids == s.ids
    ensures forall t :: t in Advanced(s, p).db.sessions ==>
      t in s.db.sessions && Advanced(s, p).db.sessions[t] == s.db.sessions[t]
  {
  }

  lemma StepAccountsFollow(s: State, p: nat, a: Action)
    requires TablesOk(s) && Enabled(s, p, a)
    ensures AccountsFollow(s, After(s, p, a))
  {
    if a.Other? {
      WriteKeepsIdentity(s.db, a.w);
    } else if a.Advance? && !s.procs[p].Opening? {
      AdvanceDropsOnly(s, p);
    }
  }

  lemma StepFencesFollow(s: State, p: nat, a: Action)
    requires ClockOk(s) && Enabled(s, p, a)
    ensures FencesFollow(s, After(s, p, a))
  {
  }

  // ----- runs -----

  datatype Event = Event(p: nat, a: Action)

  ghost predicate IsRun(run: seq<State>, events: seq<Event>) {
    && |run| == |events| + 1
    && TablesOk(run[0]) && run[0].procs == map[] && run[0].tick == 0
    && forall i :: 0 <= i < |events| ==>
      Enabled(run[i], events[i].p, events[i].a) && run[i + 1] == After(run[i], events[i].p, events[i].a)
  }

  /** At some moment from `since` to `k` the stored fence of `sid` had reached its expiry. */
  ghost predicate SidLapsed(run: seq<State>, since: nat, k: nat, sid: string) {
    exists j :: since <= j <= k && j < |run| && sid in run[j].db.sidFences && run[j].db.sidFences[sid] <= run[j].clock
  }

  predicate CoversAndExpired(s: State, subject: string, cutoff: int) {
    var fences := s.db.subjectFences;
    Subject(subject) in fences && fences[Subject(subject)].cutoff >= cutoff
      && fences[Subject(subject)].expiresAt <= s.clock
  }

  /** At some moment from `since` to `k` a stored fence covering the cutoff had reached its expiry. */
  ghost predicate SubjectLapsed(run: seq<State>, since: nat, k: nat, subject: string, cutoff: int) {
    exists j :: since <= j <= k && j < |run| && CoversAndExpired(run[j], subject, cutoff)
  }

  ghost predicate SidCovered(run: seq<State>, since: nat, n: nat, sid: string)
    requires n < |run|
  {
    since <= n && (sid in run[n].db.sidFences || SidLapsed(run, since, n, sid))
  }

  ghost predicate SubjectCovered(run: seq<State>, since: nat, n: nat, subject: string, cutoff: int)
    requires n < |run|
  {
    var fences := run[n].db.subjectFences;
    since <= n &&
    ((Subject(subject) in fences && fences[Subject(subject)].cutoff >= cutoff)
      || SubjectLapsed(run, since, n, subject, cutoff))
  }

  predicate Keeps(s: State, token: string, session: Session) {
    token in s.used && (token in s.db.sessions ==> s.db.sessions[token] == session)
  }

  predicate LoginOk(s: State, login: SignIn) {
    KnownAs(s, login) && Keeps(s, login.token, login.session.(userId := login.id))
  }

  /** Process `p` reads its session for the second time in state `s`, and `user` is what the
      session vouches for there. */
  predicate ReadAt(s: State, p: nat, token: string, session: Session, user: User) {
    p in s.procs && s.procs[p].HasUser? && s.procs[p].user == user && Grants(s.db, token, session, PrivilegesOf(user))
  }

  /** What each process may rely on after `n` steps. */
  ghost predicate ProcOk(run: seq<State>, n: nat, p: nat, proc: Process)
    requires n < |run|
  {
    var s := run[n];
    match proc
    case Opening(login) => KnownAs(s, login)
    case Open(login) => LoginOk(s, login)
    case Timed(login, now) => LoginOk(s, login) && now <= s.clock
    case Condemned(login) => LoginOk(s, login)
    case SignedIn(login, at) => LoginOk(s, login) && at < n && p in run[at].procs && run[at].procs[p].Timed?
    case EndSid(sid, _) => sid != ""
    case SidTimed(sid, _, now) => sid != "" && now <= s.clock
    case SidPurged(sid, _) => sid != ""
    case SidFenced(sid, since) => sid != "" && SidCovered(run, since, n, sid)
    case SidEnded(sid, since) => sid != "" && SidCovered(run, since, n, sid)
    case SubjectTimed(_, _, _, now) => now <= s.clock
    case SubjectFenced(subject, cutoff, since) => SubjectCovered(run, since, n, subject, cutoff)
    case SubjectEnded(subject, cutoff, since) => SubjectCovered(run, since, n, subject, cutoff)
    case FirstRead(token, _, session) => Keeps(s, token, session)
    case HasSession(token, _, session) => Keeps(s, token, session)
    case HasUser(token, _, session, user) =>
      Keeps(s, token, session) && (token in s.db.sessions ==> Grants(s.db, token, session, PrivilegesOf(user)))
    case SecondRead(token, _, session, user, at) => at < n && ReadAt(run[at], p, token, session, user)
    case Authenticated(token, exempt, session, user, at) =>
      at < n && ReadAt(run[at], p, token, session, user) && (user.mustChange ==> exempt)
    case _ => true
  }

  /** The finished logout ended this login: its sid, or an earlier login of its subject. */
  predicate Concerns(login: SignIn, logout: Process) {
    || (logout.SidEnded? && logout.sid == login.session.sid)
    || (logout.SubjectEnded? && login.provider == "kysignon" && login.subject == logout.subject
      && login.session.createdAt < logout.cutoff)
  }

  /** Between this logout's fence and step `at`, a stored fence covering it reached its expiry. */
  ghost predicate LapsedFor(run: seq<State>, at: nat, logout: Process) {
    && (logout.SidEnded? ==> SidLapsed(run, logout.since, at, logout.sid))
    && (logout.SubjectEnded? ==> SubjectLapsed(run, logout.since, at, logout.subject, logout.cutoff))
  }

  /** A finished sign-in against a finished logout. */
  ghost predicate PairOk(run: seq<State>, n: nat, login: SignIn, at: nat, logout: Process)
    requires n < |run|
  {
    login.token in run[n].db.sessions && Concerns(login, logout) ==> LapsedFor(run, at, logout)
  }

  ghost predicate RunOk(run: seq<State>, n: nat)
    requires n < |run|
  {
    && TablesOk(run[n]) && run[n].tick == n
    && (forall p :: p in run[n].procs ==> ProcOk(run, n, p, run[n].procs[p]))
    && (forall p, q :: p in run[n].procs && q in run[n].procs && run[n].procs[p].SignedIn? ==>
         PairOk(run, n, run[n].procs[p].login, run[n].procs[p].at, run[n].procs[q]))
  }

  ghost predicate Follows(s: State, s': State) {
    SessionsFollow(s, s') && AccountsFollow(s, s') && FencesFollow(s, s')
  }

  lemma SidStaysCovered(run: seq<State>, since: nat, n: nat, sid: string)
    requires n + 1 < |run| && SidCovered(run, since, n, sid) && FencesFollow(run[n], run[n + 1])
    ensures SidCovered(run, since, n + 1, sid)
  {
    if sid !in run[n + 1].db.sidFences {
      var j :| since <= j <= n && sid in run[j].db.sidFences && run[j].db.sidFences[sid] <= run[j].clock;
    }
  }

  lemma SubjectStaysCovered(run: seq<State>, since: nat, n: nat, subject: string, cutoff: int)
    requires n + 1 < |run| && SubjectCovered(run, since, n, subject, cutoff) && FencesFollow(run[n], run[n + 1])
    ensures SubjectCovered(run, since, n + 1, subject, cutoff)
  {
    if SubjectLapsed(run, since, n, subject, cutoff) {
      var j :| since <= j <= n && CoversAndExpired(run[j], subject, cutoff);
    } else {
      assert CoversAndExpired(run[n], subject, cutoff) || Subject(subject) in run[n + 1].db.subjectFences;
    }
  }

  lemma ProcStaysOk(run: seq<State>, n: nat, p: nat, proc: Process)
    requires n + 1 < |run| && TablesOk(run[n]) && ProcOk(run, n, p, proc) && Follows(run[n], run[n + 1])
    ensures ProcOk(run, n + 1, p, proc)
  {
    if proc.SidFenced? || proc.SidEnded? {
      SidStaysCovered(run, proc.since, n, proc.sid);
    } else if proc.SubjectFenced? || proc.SubjectEnded? {
      SubjectStaysCovered(run, proc.since, n, proc.subject, proc.cutoff);
    }
  }

  predicate IsSignIn(proc: Process) { proc.Opening? || proc.Open? || proc.Timed? || proc.Condemned? }

  predicate IsLogout(proc: Process) {
    || proc.EndSid? || proc.SidTimed? || proc.SidPurged? || proc.SidFenced?
    || proc.EndSubject? || proc.SubjectTimed? || proc.SubjectPurged? || proc.SubjectFenced?
  }

  /** Process `p` takes one of its own steps as step `n` of the run. */
  ghost predicate Steps(run: seq<State>, n: nat, p: nat) {
    && n + 1 < |run| && TablesOk(run[n]) && run[n].tick == n
    && Enabled(run[n], p, Advance) && run[n + 1] == Advanced(run[n], p)
    && Follows(run[n], run[n + 1]) && ProcOk(run, n, p, run[n].procs[p])
  }

  lemma SignInStaysOk(run: seq<State>, n: nat, p: nat)
    requires Steps(run, n, p) && IsSignIn(run[n].procs[p])
    ensures ProcOk(run, n + 1, p, run[n + 1].procs[p])
  {
    if run[n].procs[p].Opening? && run[n + 1].procs[p].Open? {
      var login := run[n].procs[p].login;
      assert run[n + 1].db.sessions[login.token] == login.session.(userId := login.id);
      assert run[n + 1].db.users == run[n].db.users;
    }
  }

  lemma LogoutStaysOk(run: seq<State>, n: nat, p: nat)
    requires Steps(run, n, p) && IsLogout(run[n].procs[p])
    ensures ProcOk(run, n + 1, p, run[n + 1].procs[p])
  {
    var proc := run[n].procs[p];
    if proc.SidFenced? {
      SidStaysCovered(run, proc.since, n, proc.sid);
    } else if proc.SubjectFenced? {
      SubjectStaysCovered(run, proc.since, n, proc.subject, proc.cutoff);
    }
  }

  predicate IsReading(proc: Process) { proc.Authenticating? || proc.FirstRead? || proc.HasSession? || proc.HasUser? }

  lemma FirstReadStaysOk(run: seq<State>, n: nat, p: nat)
    requires Steps(run, n, p) && (run[n].procs[p].Authenticating? || run[n].procs[p].FirstRead?)
    ensures ProcOk(run, n + 1, p, run[n + 1].procs[p])
  {
    var s := run[n];
    assert run[n + 1].db == s.db && run[n + 1].used == s.used;
  }

  lemma UserReadStaysOk(run: seq<State>, n: nat, p: nat)
    requires Steps(run, n, p) && (run[n].procs[p].HasSession? || run[n].procs[p].HasUser?)
    ensures ProcOk(run, n + 1, p, run[n + 1].procs[p])
  {
    var s := run[n];
    assert run[n + 1].db == s.db && run[n + 1].used == s.used;
  }

  lemma DecisionStaysOk(run: seq<State>, n: nat, p: nat)
    requires Steps(run, n, p) && (run[n].procs[p].SecondRead? || run[n].procs[p].Discarding?)
    ensures ProcOk(run, n + 1, p, run[n + 1].procs[p])
  {
  }

  // A sign-in finishing: its fence check found no live fence.
  lemma SignInMeetsSidLogout(run: seq<State>, n: nat, p: nat, sid: string, since: nat)
    requires Steps(run, n, p) && run[n].procs[p].Timed? && run[n + 1].procs[p].SignedIn?
    requires SidCovered(run, since, n, sid) && sid != "" && sid == run[n].procs[p].login.session.sid
    ensures SidLapsed(run, since, n, sid)
  {
    if sid in run[n].db.sidFences {
      assert run[n].db.sidFences[sid] <= run[n].procs[p].now;
    }
  }

  lemma SignInMeetsSubjectLogout(run: seq<State>, n: nat, p: nat, subject: string, cutoff: int, since: nat)
    requires Steps(run, n, p) && run[n].procs[p].Timed? && run[n + 1].procs[p].SignedIn?
    requires SubjectCovered(run, since, n, subject, cutoff)
    requires
      var login := run[n].procs[p].login;
      login.provider == "kysignon" && login.subject == subject && login.session.createdAt < cutoff
        && login.token in run[n].db.sessions
    ensures SubjectLapsed(run, since, n, subject, cutoff)
  {
    var s, login := run[n], run[n].procs[p].login;
    if Subject(subject) in s.db.subjectFences && s.db.subjectFences[Subject(subject)].cutoff >= cutoff {
      assert s.db.sessions[login.token].userId == login.id && login.id in s.db.users;
      assert (s.db.users[login.id].provider, s.db.users[login.id].subject) == Subject(subject);
      assert s.db.subjectFences[Subject(subject)].expiresAt <= run[n].procs[p].now;
      assert CoversAndExpired(s, subject, cutoff);
    }
  }

  // A logout finishing: its delete found every session stored by then.
  lemma LogoutMeetsSignIns(run: seq<State>, n: nat, p: nat, login: SignIn, at: nat)
    requires Steps(run, n, p) && (run[n].procs[p].SidFenced? || run[n].procs[p].SubjectFenced?)
      && LoginOk(run[n], login)
    ensures PairOk(run, n + 1, login, at, run[n + 1].procs[p])
  {
  }

  lemma OwnStepStaysOk(run: seq<State>, n: nat, p: nat)
    requires Steps(run, n, p)
    ensures ProcOk(run, n + 1, p, run[n + 1].procs[p])
  {
    var proc := run[n].procs[p];
    if IsSignIn(proc) {
      SignInStaysOk(run, n, p);
    } else if IsLogout(proc) {
      LogoutStaysOk(run, n, p);
    } else if IsReading(proc) {
      if run[n].procs[p].Authenticating? || run[n].procs[p].FirstRead? {
        FirstReadStaysOk(run, n, p);
      } else {
        UserReadStaysOk(run, n, p);
      }
    } else {
      DecisionStaysOk(run, n, p);
    }
  }

  ghost predicate OnlyMoves(s: State, s': State, p: nat) {
    forall q :: q in s'.procs && q != p ==> q in s.procs && s'.procs[q] == s.procs[q]
  }

  lemma StepMovesOne(s: State, p: nat, a: Action)
    requires Enabled(s, p, a)
    ensures OnlyMoves(s, After(s, p, a), p) && After(s, p, a).tick == s.tick + 1
    ensures a.Pass? || a.Other? || a.SignOut? ==> After(s, p, a).procs == s.procs
  {
  }

  /** One step of the run, with what it keeps. */
  ghost predicate Extends(run: seq<State>, events: seq<Event>, n: nat) {
    && n < |events| < |run| && RunOk(run, n)
    && Enabled(run[n], events[n].p, events[n].a) && run[n + 1] == After(run[n], events[n].p, events[n].a)
    && Follows(run[n], run[n + 1])
  }

  lemma ProcsStayOk(run: seq<State>, events: seq<Event>, n: nat, p: nat)
    requires Extends(run, events, n) && p in run[n + 1].procs
    ensures ProcOk(run, n + 1, p, run[n + 1].procs[p])
  {
    var e := events[n];
    StepMovesOne(run[n], e.p, e.a);
    if p in run[n].procs && run[n + 1].procs[p] == run[n].procs[p] {
      ProcStaysOk(run, n, p, run[n].procs[p]);
    } else if e.a.Advance? {
      OwnStepStaysOk(run, n, p);
    }
  }

  lemma FinishesBy(s: State, p: nat, a: Action, q: nat)
    requires Enabled(s, p, a) && q in After(s, p, a).procs && (q !in s.procs || s.procs[q] != After(s, p, a).procs[q])
    ensures
      var proc := After(s, p, a).procs[q];
      proc.SignedIn? || proc.SidEnded? || proc.SubjectEnded? ==>
        && a.Advance? && q == p && p in s.procs
        && (proc.SignedIn? ==>
          s.procs[p].Timed? && proc.at == s.tick && proc.login == s.procs[p].login && After(s, p, a).db == s.db)
        && (proc.SidEnded? ==> s.procs[p].SidFenced?)
        && (proc.SubjectEnded? ==> s.procs[p].SubjectFenced?)
  {
  }

  lemma NewSignInIsOk(run: seq<State>, events: seq<Event>, n: nat, q: nat)
    requires Extends(run, events, n) && events[n].a.Advance? && run[n].procs[events[n].p].Timed?
    requires run[n + 1].procs[events[n].p].SignedIn? && q in run[n].procs
    requires Concerns(run[n].procs[events[n].p].login, run[n].procs[q])
      && run[n].procs[events[n].p].login.token in run[n].db.sessions
    ensures LapsedFor(run, n, run[n].procs[q])
  {
    var p := events[n].p;
    var logout := run[n].procs[q];
    assert ProcOk(run, n, q, logout) && ProcOk(run, n, p, run[n].procs[p]);
    if logout.SidEnded? {
      SignInMeetsSidLogout(run, n, p, logout.sid, logout.since);
    } else {
      SignInMeetsSubjectLogout(run, n, p, logout.subject, logout.cutoff, logout.since);
    }
  }

  lemma NewLogoutIsOk(run: seq<State>, events: seq<Event>, n: nat, p: nat)
    requires Extends(run, events, n) && events[n].a.Advance?
    requires run[n].procs[events[n].p].SidFenced? || run[n].procs[events[n].p].SubjectFenced?
    requires p in run[n].procs && run[n].procs[p].SignedIn?
    ensures PairOk(run, n + 1, run[n].procs[p].login, run[n].procs[p].at, run[n + 1].procs[events[n].p])
  {
    var q := events[n].p;
    assert ProcOk(run, n, q, run[n].procs[q]) && ProcOk(run, n, p, run[n].procs[p]);
    LogoutMeetsSignIns(run, n, q, run[n].procs[p].login, run[n].procs[p].at);
  }

  lemma PairsStayOk(run: seq<State>, events: seq<Event>, n: nat, p: nat, q: nat)
    requires Extends(run, events, n) && p in run[n + 1].procs && q in run[n + 1].procs && run[n + 1].procs[p].SignedIn?
    ensures PairOk(run, n + 1, run[n + 1].procs[p].login, run[n + 1].procs[p].at, run[n + 1].procs[q])
  {
    var e, s, s' := events[n], run[n], run[n + 1];
    var login, at, logout := s'.procs[p].login, s'.procs[p].at, s'.procs[q];
    StepMovesOne(s, e.p, e.a);
    if login.token in s'.db.sessions && Concerns(login, logout) {
      if p !in s.procs || s.procs[p] != s'.procs[p] {
        FinishesBy(s, e.p, e.a, p);
        NewSignInIsOk(run, events, n, q);
      } else if q !in s.procs || s.procs[q] != logout {
        FinishesBy(s, e.p, e.a, q);
        NewLogoutIsOk(run, events, n, p);
      } else {
        assert ProcOk(run, n, p, s.procs[p]);
        assert PairOk(run, n, login, at, logout);
      }
    }
  }

  lemma StepFollows(s: State, p: nat, a: Action)
    requires TablesOk(s) && ClockOk(s) && Enabled(s, p, a)
    ensures Follows(s, After(s, p, a)) && TablesOk(After(s, p, a))
  {
    StepSessionsFollow(s, p, a);
    StepAccountsFollow(s, p, a);
    StepFencesFollow(s, p, a);
  }

  lemma ClocksAreOk(run: seq<State>, n: nat)
    requires n < |run| && RunOk(run, n)
    ensures ClockOk(run[n])
  {
    forall p | p in run[n].procs ensures ProcOk(run, n, p, run[n].procs[p]) {}
  }

  lemma StepExtends(run: seq<State>, events: seq<Event>, n: nat)
    requires IsRun(run, events) && n < |events| && RunOk(run, n)
    ensures Extends(run, events, n) && TablesOk(run[n + 1]) && run[n + 1].tick == n + 1
  {
    ClocksAreOk(run, n);
    StepFollows(run[n], events[n].p, events[n].a);
    StepMovesOne(run[n], events[n].p, events[n].a);
  }

  lemma ExtensionIsOk(run: seq<State>, events: seq<Event>, n: nat)
    requires Extends(run, events, n) && TablesOk(run[n + 1]) && run[n + 1].tick == n + 1
    ensures RunOk(run, n + 1)
  {
    var m, s' := n + 1, run[n + 1];
    forall p | p in s'.procs ensures ProcOk(run, m, p, s'.procs[p]) {
      ProcsStayOk(run, events, n, p);
    }
    forall p, q | p in s'.procs && q in s'.procs && s'.procs[p].SignedIn?
      ensures PairOk(run, m, s'.procs[p].login, s'.procs[p].at, s'.procs[q])
    {
      PairsStayOk(run, events, n, p, q);
    }
  }

  lemma {:induction false} RunStaysOk(run: seq<State>, events: seq<Event>, n: nat)
    requires IsRun(run, events) && n < |run|
    ensures RunOk(run, n)
  {
    if n > 0 {
      RunStaysOk(run, events, n - 1);
      StepExtends(run, events, n - 1);
      ExtensionIsOk(run, events, n - 1);
    }
  }

  // ----- what holds of every run -----

  /** When AuthenticateRequest succeeds, the role, status, password hash and must-change flag it
      returns are the account's own at the instant of its second session read (step `at`), and a
      user who must change the password passes only on an exempt request. */
  lemma AuthenticationIsLinearizable(run: seq<State>, events: seq<Event>, n: nat, p: nat)
    requires IsRun(run, events) && n < |run| && p in run[n].procs && run[n].procs[p].Authenticated?
    ensures
      var Authenticated(token, exempt, session, user, at) := run[n].procs[p];
      && at < n && ReadAt(run[at], p, token, session, user)
      && run[at].db.sessions[token] == session && session.userId in run[at].db.users
      && PrivilegesOf(run[at].db.users[session.userId]) == PrivilegesOf(user)
      && user.status == "active" && (user.mustChange ==> exempt)
  {
    RunStaysOk(run, events, n);
    assert ProcOk(run, n, p, run[n].procs[p]);
  }

  /** However sign-ins and logouts interleave: once both have finished, no session of an ended sid
      is stored, unless, after this logout stored its fence (step `since`) and no later than the
      sign-in's fence check (step `at`), the stored fence of that sid had reached its expiry. */
  lemma SidLogoutFence(run: seq<State>, events: seq<Event>, n: nat, p: nat, q: nat)
    requires IsRun(run, events) && n < |run| && p in run[n].procs && q in run[n].procs
    requires run[n].procs[p].SignedIn? && run[n].procs[q].SidEnded?
    requires run[n].procs[p].login.session.sid == run[n].procs[q].sid
    ensures run[n].procs[p].at < n && p in run[run[n].procs[p].at].procs && run[run[n].procs[p].at].procs[p].Timed?
    ensures run[n].procs[p].login.token in run[n].db.sessions ==>
      SidLapsed(run, run[n].procs[q].since, run[n].procs[p].at, run[n].procs[q].sid)
  {
    RunStaysOk(run, events, n);
    assert ProcOk(run, n, p, run[n].procs[p]);
    assert PairOk(run, n, run[n].procs[p].login, run[n].procs[p].at, run[n].procs[q]);
  }

  /** Nanoseconds. A logout token's iat is in whole seconds. */
  const SECOND := 1_000_000_000

  /** The cutoff the logout handler passes on: iat plus one second. */
  function Cutoff(iat: int): int {
    (iat + 1) * SECOND
  }

  /** The same for a logout by subject: it covers exactly the logins of its own second or earlier. */
  lemma SubjectLogoutFence(run: seq<State>, events: seq<Event>, n: nat, p: nat, q: nat, iat: int)
    requires IsRun(run, events) && n < |run| && p in run[n].procs && q in run[n].procs
    requires run[n].procs[p].SignedIn? && run[n].procs[q].SubjectEnded? && run[n].procs[q].cutoff == Cutoff(iat)
    requires run[n].procs[p].login.provider == "kysignon" && run[n].procs[p].login.subject == run[n].procs[q].subject
    ensures run[n].procs[p].login.session.createdAt < Cutoff(iat) <==>
      run[n].procs[p].login.session.createdAt / SECOND <= iat
    ensures run[n].procs[p].at < n && p in run[run[n].procs[p].at].procs && run[run[n].procs[p].at].procs[p].Timed?
    ensures
      run[n].procs[p].login.session.createdAt / SECOND <= iat && run[n].procs[p].login.token in run[n].db.sessions ==>
        SubjectLapsed(run, run[n].procs[q].since, run[n].procs[p].at, run[n].procs[q].subject, Cutoff(iat))
  {
    RunStaysOk(run, events, n);
    assert ProcOk(run, n, p, run[n].procs[p]);
    assert PairOk(run, n, run[n].procs[p].login, run[n].procs[p].at, run[n].procs[q]);
  }

  /** What a logout's delete takes away: the sessions of its sid, or those dated before its cutoff of stored
      KyIdentity accounts of its subject. */
  predicate Ends(s: State, logout: Process, token: string) {
    token in s.db.sessions &&
      var session := s.db.sessions[token];
      || (logout.SidFenced? && session.sid == logout.sid)
      || (logout.SubjectFenced? && session.createdAt < logout.cutoff
        && session.userId in s.db.users && s.db.users[session.userId].provider == "kysignon"
        && s.db.users[session.userId].subject == logout.subject)
  }

  /** A logout's steps remove exactly its own logins: none of another sid, none of another subject or dated
      at or after the cutoff, and no local session (one without a sid, of an account not on KyIdentity). */
  lemma LogoutRemovesOnlyItsOwn(run: seq<State>, events: seq<Event>, n: nat, token: string)
    requires IsRun(run, events) && n < |events|
    requires events[n].a.Advance? && IsLogout(run[n].procs[events[n].p]) && token in run[n].db.sessions
    ensures token !in run[n + 1].db.sessions <==> Ends(run[n], run[n].procs[events[n].p], token)
    ensures
      var session := run[n].db.sessions[token];
      token !in run[n + 1].db.sessions && session.sid == "" ==>
        session.userId in run[n].db.users && run[n].db.users[session.userId].provider == "kysignon"
    ensures
      var session, logout := run[n].db.sessions[token], run[n].procs[events[n].p];
      token !in run[n + 1].db.sessions ==>
        && (logout.SidFenced? ==> session.sid == logout.sid)
        && (logout.SubjectFenced? ==> session.createdAt < logout.cutoff)
        && (logout.SubjectFenced? && session.userId in run[n].db.users ==>
          run[n].db.users[session.userId].subject == logout.subject)
  {
    RunStaysOk(run, events, n);
    var p := events[n].p;
    assert ProcOk(run, n, p, run[n].procs[p]);
  }
}
