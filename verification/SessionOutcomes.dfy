/** What the processes of SessionProtocol end in and why: a finished process answers the request it was
    started with, a request authenticates exactly with an unexpired session, and a sign-in is taken back only
    for a logout that names it (internal/store/sqlstore.go:466-515, 568-589; internal/auth/session.go:132-157). */
module SessionOutcomes {
  import opened Accounts
  import opened Basics
  import opened SqlStore
  import opened SessionProtocol

  // ----- a process keeps to its request -----

  /** The process is on its way from that start, with the arguments it was started with. */
  predicate ComesFrom(proc: Process, start: Process) {
    match proc
    case Opening(login) => start == Opening(login)
    case Open(login) => start == Opening(login)
    case Timed(login, _) => start == Opening(login)
    case Condemned(login) => start == Opening(login)
    case SignedIn(login, _) => start == Opening(login)
    case EndSid(sid, until) => start == EndSid(sid, until)
    case SidTimed(sid, until, _) => start == EndSid(sid, until)
    case SidPurged(sid, until) => start == EndSid(sid, until)
    case SidFenced(sid, _) => start.EndSid? && start.sid == sid
    case SidEnded(sid, _) => start.EndSid? && start.sid == sid
    case EndSubject(subject, cutoff, until) => start == EndSubject(subject, cutoff, until)
    case SubjectTimed(subject, cutoff, until, _) => start == EndSubject(subject, cutoff, until)
    case SubjectPurged(subject, cutoff, until) => start == EndSubject(subject, cutoff, until)
    case SubjectFenced(subject, cutoff, _) => start.EndSubject? && start.subject == subject && start.cutoff == cutoff
    case SubjectEnded(subject, cutoff, _) => start.EndSubject? && start.subject == subject && start.cutoff == cutoff
    case Authenticating(token, exempt) => start == Authenticating(token, exempt)
    case FirstRead(token, exempt, _) => start == Authenticating(token, exempt)
    case HasSession(token, exempt, _) => start == Authenticating(token, exempt)
    case HasUser(token, exempt, _, _) => start == Authenticating(token, exempt)
    case SecondRead(token, exempt, _, _, _) => start == Authenticating(token, exempt)
    case Authenticated(token, exempt, _, _, _) => start == Authenticating(token, exempt)
    case Discarding(token) => start.Authenticating? && start.token == token
    case Stopped => true
  }

  lemma SignInKeepsRequest(s: State, p: nat, start: Process)
    requires Enabled(s, p, Advance) && IsSignIn(s.procs[p]) && ComesFrom(s.procs[p], start)
    ensures ComesFrom(Advanced(s, p).procs[p], start)
  {
  }

  lemma LogoutKeepsRequest(s: State, p: nat, start: Process)
    requires Enabled(s, p, Advance) && IsLogout(s.procs[p]) && ComesFrom(s.procs[p], start)
    ensures ComesFrom(Advanced(s, p).procs[p], start)
  {
  }

  lemma ReaderKeepsRequest(s: State, p: nat, start: Process)
    requires Enabled(s, p, Advance) && !IsSignIn(s.procs[p]) && !IsLogout(s.procs[p]) && ComesFrom(s.procs[p], start)
    ensures ComesFrom(Advanced(s, p).procs[p], start)
  {
  }

  lemma StepKeepsRequest(s: State, p: nat, a: Action, q: nat, start: Process)
    requires Enabled(s, p, a) && q in s.procs && ComesFrom(s.procs[q], start)
    ensures q in After(s, p, a).procs && ComesFrom(After(s, p, a).procs[q], start)
  {
    KeepsProcs(s, p, a, q);
    if a.Advance? && q == p {
      if IsSignIn(s.procs[p]) {
        SignInKeepsRequest(s, p, start);
      } else if IsLogout(s.procs[p]) {
        LogoutKeepsRequest(s, p, start);
      } else {
        ReaderKeepsRequest(s, p, start);
      }
    }
  }

  /** A process moves only by its own step, or stops. */
  lemma KeepsProcs(s: State, p: nat, a: Action, q: nat)
    requires Enabled(s, p, a) && q in s.procs
    ensures q in After(s, p, a).procs
    ensures
      var proc := After(s, p, a).procs[q];
      proc == s.procs[q] || (q == p && (a.Advance? || (a.Stop? && proc.Stopped?)))
  {
  }

  lemma StartsAsAsked(s: State, p: nat, a: Action, q: nat)
    requires Enabled(s, p, a) && q !in s.procs && q in After(s, p, a).procs
    ensures a.Start? && q == p && After(s, p, a).procs[q] == a.proc && ComesFrom(a.proc, a.proc)
  {
  }

  predicate Unstarted(proc: Process) { proc.Opening? || proc.EndSid? || proc.EndSubject? || proc.Authenticating? }

  /** What the step after state `n` made of process `p`: its own next statement, or nothing, its start or its end. */
  lemma StepOf(run: seq<State>, events: seq<Event>, n: nat, p: nat) returns (own: bool)
    requires IsRun(run, events) && n < |events| && p in run[n + 1].procs
    ensures own ==>
      p in run[n].procs && run[n].tick == n && Enabled(run[n], p, Advance) && run[n + 1] == Advanced(run[n], p)
    ensures !own ==>
      || run[n + 1].procs[p].Stopped? || (p !in run[n].procs && Unstarted(run[n + 1].procs[p]))
      || (p in run[n].procs && run[n + 1].procs[p] == run[n].procs[p])
  {
    var s, e := run[n], events[n];
    own := p in s.procs && e.p == p && e.a.Advance?;
    if own {
      RunStaysOk(run, events, n);
    } else if p in s.procs {
      KeepsProcs(s, e.p, e.a, p);
    } else {
      StartsAsAsked(s, e.p, e.a, p);
    }
  }

  /** Every process is on its way from the request it was started with, or stopped on it. */
  lemma {:induction false} RequestIsKept(run: seq<State>, events: seq<Event>, n: nat, p: nat) returns (i: nat)
    requires IsRun(run, events) && n < |run| && p in run[n].procs
    ensures i < n && events[i].p == p && events[i].a.Start? && ComesFrom(run[n].procs[p], events[i].a.proc)
  {
    var s, e := run[n - 1], events[n - 1];
    assert run[n] == After(s, e.p, e.a);
    if p in s.procs {
      i := RequestIsKept(run, events, n - 1, p);
      StepKeepsRequest(s, e.p, e.a, p, events[i].a.proc);
    } else {
      StartsAsAsked(s, e.p, e.a, p);
      i := n - 1;
    }
  }

  // ----- a request authenticates only with an unexpired session -----

  /** Process `p` compares the clock with the expiry of the session its first read found, and passes. */
  predicate FirstCheck(s: State, p: nat, session: Session) {
    p in s.procs && s.procs[p].FirstRead? && s.procs[p].session == session && s.clock <= session.expiresAt
  }

  /** And again after its second read. */
  predicate SecondCheck(s: State, p: nat, session: Session) {
    p in s.procs && s.procs[p].SecondRead? && s.procs[p].session == session && s.clock <= session.expiresAt
  }

  ghost predicate FirstChecked(run: seq<State>, p: nat, session: Session, before: nat) {
    exists j :: 0 <= j < before && j < |run| && FirstCheck(run[j], p, session)
  }

  ghost predicate SecondChecked(run: seq<State>, p: nat, session: Session, at: nat, before: nat) {
    exists k :: at < k < before && k < |run| && SecondCheck(run[k], p, session)
  }

  ghost predicate Checked(run: seq<State>, n: nat, p: nat, proc: Process) {
    match proc
    case HasSession(_, _, session) => FirstChecked(run, p, session, n)
    case HasUser(_, _, session, _) => FirstChecked(run, p, session, n)
    case SecondRead(_, _, session, _, at) => at < n && FirstChecked(run, p, session, at)
    case Authenticated(_, _, session, _, at) =>
      at < n && FirstChecked(run, p, session, at) && SecondChecked(run, p, session, at, n)
    case _ => true
  }

  lemma StepIsChecked(run: seq<State>, n: nat, p: nat)
    requires n + 1 < |run| && run[n].tick == n && Enabled(run[n], p, Advance) && run[n + 1] == Advanced(run[n], p)
    requires Checked(run, n, p, run[n].procs[p])
    ensures Checked(run, n + 1, p, run[n + 1].procs[p])
  {
    var proc := run[n].procs[p];
    if proc.FirstRead? {
      assert run[n + 1].procs[p].HasSession? ==> FirstCheck(run[n], p, proc.session);
    } else if proc.SecondRead? {
      assert run[n + 1].procs[p].Authenticated? ==> SecondCheck(run[n], p, proc.session);
    }
  }

  lemma CheckedNext(run: seq<State>, events: seq<Event>, n: nat, p: nat)
    requires IsRun(run, events) && n < |events| && p in run[n + 1].procs
    requires p in run[n].procs ==> Checked(run, n, p, run[n].procs[p])
    ensures Checked(run, n + 1, p, run[n + 1].procs[p])
  {
    var own := StepOf(run, events, n, p);
    if own {
      StepIsChecked(run, n, p);
    }
  }

  lemma RunIsChecked(run: seq<State>, events: seq<Event>, n: nat, p: nat)
    requires IsRun(run, events) && n < |run| && p in run[n].procs
    ensures Checked(run, n, p, run[n].procs[p])
  {
    var good := seq(|run|, i requires 0 <= i < |run| => p in run[i].procs ==> Checked(run, i, p, run[i].procs[p]));
    forall i, j | 0 <= i < n && j == i + 1 && good[i] ensures good[j] {
      if p in run[j].procs {
        CheckedNext(run, events, i, p);
      }
    }
    Throughout(good, 0, n);
  }

  /** A request that authenticates compared the clock with its session's expiry after the first read of the
      session and again after the second (step `at`), and the session was unexpired both times. */
  lemma AuthenticatedWasUnexpired(run: seq<State>, events: seq<Event>, n: nat, p: nat)
    requires IsRun(run, events) && n < |run| && p in run[n].procs && run[n].procs[p].Authenticated?
    ensures
      var Authenticated(token, exempt, session, user, at) := run[n].procs[p];
      && at < n && (exists j :: 0 <= j < at && run[j].clock <= session.expiresAt && p in run[j].procs
                                && run[j].procs[p] == FirstRead(token, exempt, session))
      && (exists k :: at < k < n && run[k].clock <= session.expiresAt && p in run[k].procs
                      && run[k].procs[p] == SecondRead(token, exempt, session, user, at))
  {
    RunIsChecked(run, events, n, p);
    var Authenticated(token, exempt, session, user, at) := run[n].procs[p];
    var i := RequestIsKept(run, events, n, p);
    var j :| 0 <= j < at && FirstCheck(run[j], p, session);
    var k :| at < k < n && SecondCheck(run[k], p, session);
    SameRequest(run, events, j, n, p);
    SecondReadStays(run, events, k, n, p);
  }

  lemma SameRequest(run: seq<State>, events: seq<Event>, j: nat, n: nat, p: nat)
    requires IsRun(run, events) && j < n < |run| && p in run[j].procs && run[j].procs[p].FirstRead?
    requires p in run[n].procs && run[n].procs[p].Authenticated?
    ensures run[j].procs[p].token == run[n].procs[p].token && run[j].procs[p].exempt == run[n].procs[p].exempt
  {
    var i := RequestIsKept(run, events, j, p);
    var start := events[i].a.proc;
    forall k | j <= k < n ensures KeepsRequest(run, k, p, start) {
      RunKeepsRequest(run, events, k, p, start);
    }
    ComesFromStays(run, j, n, p, start);
  }

  /** The step after state `k` leaves the process on its way from that start. */
  ghost predicate KeepsRequest(run: seq<State>, k: nat, p: nat, start: Process)
    requires k + 1 < |run|
  {
    p in run[k].procs && ComesFrom(run[k].procs[p], start) ==>
      p in run[k + 1].procs && ComesFrom(run[k + 1].procs[p], start)
  }

  lemma RunKeepsRequest(run: seq<State>, events: seq<Event>, k: nat, p: nat, start: Process)
    requires IsRun(run, events) && k < |events|
    ensures KeepsRequest(run, k, p, start)
  {
    if p in run[k].procs && ComesFrom(run[k].procs[p], start) {
      StepKeepsRequest(run[k], events[k].p, events[k].a, p, start);
    }
  }

  lemma {:induction false} ComesFromStays(run: seq<State>, j: nat, n: nat, p: nat, start: Process)
    requires j <= n < |run| && p in run[j].procs && ComesFrom(run[j].procs[p], start)
    requires forall k :: j <= k < n ==> KeepsRequest(run, k, p, start)
    ensures p in run[n].procs && ComesFrom(run[n].procs[p], start)
    decreases n
  {
    if j < n {
      ComesFromStays(run, j, n - 1, p, start);
      assert KeepsRequest(run, n - 1, p, start);
    }
  }

  /** What can become of a request that has made its second read. */
  predicate AfterSecond(read: Process, proc: Process)
    requires read.SecondRead?
  {
    || proc == read || proc == Authenticated(read.token, read.exempt, read.session, read.user, read.at)
    || proc.Discarding? || proc.Stopped?
  }

  lemma SecondReadMoves(s: State, p: nat, read: Process)
    requires Enabled(s, p, Advance) && read.SecondRead? && AfterSecond(read, s.procs[p])
    ensures AfterSecond(read, Advanced(s, p).procs[p])
  {
  }

  lemma SecondReadFollows(s: State, q: nat, a: Action, p: nat, read: Process)
    requires Enabled(s, q, a) && p in s.procs && read.SecondRead? && AfterSecond(read, s.procs[p])
    ensures p in After(s, q, a).procs && AfterSecond(read, After(s, q, a).procs[p])
  {
    KeepsProcs(s, q, a, p);
    if q == p && a.Advance? {
      SecondReadMoves(s, p, read);
    }
  }

  /** The step after state `k` leaves the request what it has read. */
  ghost predicate KeepsReading(run: seq<State>, k: nat, p: nat, read: Process)
    requires k + 1 < |run| && read.SecondRead?
  {
    p in run[k].procs && AfterSecond(read, run[k].procs[p]) ==>
      p in run[k + 1].procs && AfterSecond(read, run[k + 1].procs[p])
  }

  lemma RunKeepsReading(run: seq<State>, events: seq<Event>, k: nat, p: nat, read: Process)
    requires IsRun(run, events) && k < |events| && read.SecondRead?
    ensures KeepsReading(run, k, p, read)
  {
    if p in run[k].procs && AfterSecond(read, run[k].procs[p]) {
      SecondReadFollows(run[k], events[k].p, events[k].a, p, read);
    }
  }

  lemma {:induction false} ReadingStays(run: seq<State>, i: nat, n: nat, p: nat, read: Process)
    requires read.SecondRead? && i <= n < |run| && p in run[i].procs && run[i].procs[p] == read
    requires forall k :: i <= k < n ==> KeepsReading(run, k, p, read)
    ensures p in run[n].procs && AfterSecond(read, run[n].procs[p])
    decreases n
  {
    if i < n {
      ReadingStays(run, i, n - 1, p, read);
      assert KeepsReading(run, n - 1, p, read);
    }
  }

  /** From the second read on, the request keeps what it has read. */
  lemma SecondReadStays(run: seq<State>, events: seq<Event>, i: nat, n: nat, p: nat)
    requires IsRun(run, events) && i <= n < |run| && p in run[i].procs && run[i].procs[p].SecondRead?
    ensures p in run[n].procs && AfterSecond(run[i].procs[p], run[n].procs[p])
  {
    var read := run[i].procs[p];
    forall k | i <= k < n ensures KeepsReading(run, k, p, read) {
      RunKeepsReading(run, events, k, p, read);
    }
    ReadingStays(run, i, n, p, read);
  }

  // ----- and always with one that lasts -----

  /** The session is stored and unexpired, for an active account that may pass. */
  predicate Holds(s: State, token: string, exempt: bool, session: Session) {
    && token in s.db.sessions && s.db.sessions[token] == session && s.clock <= session.expiresAt
    && session.userId in s.db.users && s.db.users[session.userId].status == "active"
    && (s.db.users[session.userId].mustChange ==> exempt)
  }

  /** How many of its own steps a request has taken. */
  function Stage(proc: Process): nat {
    match proc
    case FirstRead(_, _, _) => 1
    case HasSession(_, _, _) => 2
    case HasUser(_, _, _, _) => 3
    case SecondRead(_, _, _, _, _) => 4
    case Authenticated(_, _, _, _, _) => 5
    case _ => 0
  }

  predicate OnTrack(proc: Process, token: string, exempt: bool, session: Session) {
    match proc
    case Authenticating(t, e) => t == token && e == exempt
    case FirstRead(t, e, found) => t == token && e == exempt && found == session
    case HasSession(t, e, found) => t == token && e == exempt && found == session
    case HasUser(t, e, found, user) => t == token && e == exempt && found == session && (user.mustChange ==> exempt)
    case SecondRead(t, e, found, user, _) =>
      t == token && e == exempt && found == session && (user.mustChange ==> exempt)
    case Authenticated(t, e, found, _, _) => t == token && e == exempt && found == session
    case _ => false
  }

  /** How many of the events from `i` to `n` are own steps of `p`. */
  function Advances(events: seq<Event>, p: nat, i: nat, n: nat): nat
    requires n <= |events|
    decreases n
  {
    if n <= i then 0 else Advances(events, p, i, n - 1) + if events[n - 1] == Event(p, Advance) then 1 else 0
  }

  /** The request has taken this many of its five steps, with that session. */
  predicate Reached(proc: Process, token: string, exempt: bool, session: Session, steps: nat) {
    OnTrack(proc, token, exempt, session) && Stage(proc) == steps
  }

  lemma StepReaches(s: State, p: nat, token: string, exempt: bool, session: Session, steps: nat)
    requires Enabled(s, p, Advance) && Reached(s.procs[p], token, exempt, session, steps)
      && Holds(s, token, exempt, session)
    ensures Reached(Advanced(s, p).procs[p], token, exempt, session, steps + 1)
  {
  }

  lemma Reaches(s: State, q: nat, a: Action, p: nat, token: string, exempt: bool, session: Session, steps: nat)
    requires Enabled(s, q, a) && p in s.procs && Reached(s.procs[p], token, exempt, session, steps)
    requires Holds(s, token, exempt, session) && Event(q, a) != Event(p, Stop)
    ensures p in After(s, q, a).procs
    ensures Reached(After(s, q, a).procs[p], token, exempt, session,
                    if Event(q, a) == Event(p, Advance) then steps + 1 else steps)
  {
    KeepsProcs(s, q, a, p);
    if Event(q, a) == Event(p, Advance) {
      StepReaches(s, p, token, exempt, session, steps);
    }
  }

  lemma StartReaches(s: State, p: nat, token: string, exempt: bool, session: Session)
    requires Enabled(s, p, Start(Authenticating(token, exempt)))
    ensures Reached(After(s, p, Start(Authenticating(token, exempt))).procs[p], token, exempt, session, 0)
  {
  }

  lemma {:induction false} RequestReaches(run: seq<State>, events: seq<Event>, i: nat, n: nat, p: nat,
                                          token: string, exempt: bool, session: Session)
    requires IsRun(run, events) && i < n < |run| && events[i] == Event(p, Start(Authenticating(token, exempt)))
    requires forall k :: i < k < n ==> Holds(run[k], token, exempt, session) && events[k] != Event(p, Stop)
    ensures p in run[n].procs && Reached(run[n].procs[p], token, exempt, session, Advances(events, p, i + 1, n))
    decreases n
  {
    if i < n - 1 {
      RequestReaches(run, events, i, n - 1, p, token, exempt, session);
      Reaches(run[n - 1], events[n - 1].p, events[n - 1].a, p, token, exempt, session,
        Advances(events, p, i + 1, n - 1));
    } else {
      StartReaches(run[i], p, token, exempt, session);
    }
  }

  /** A request whose session stays stored and unexpired, for an account that stays active and need not change
      its password, or on an exempt path, is never refused: unless it is cut off, each of its own steps brings it
      closer, and it is authenticated, with that session, exactly when it has taken five. */
  lemma LastingSessionAuthenticates(run: seq<State>, events: seq<Event>, i: nat, n: nat, p: nat,
                                    token: string, exempt: bool, session: Session)
    requires IsRun(run, events) && i < n < |run| && events[i] == Event(p, Start(Authenticating(token, exempt)))
    requires forall k :: i < k < n ==> Holds(run[k], token, exempt, session) && events[k] != Event(p, Stop)
    ensures p in run[n].procs && !run[n].procs[p].Stopped? && !run[n].procs[p].Discarding?
    ensures Advances(events, p, i + 1, n) <= 5
    ensures Advances(events, p, i + 1, n) == 5 <==> run[n].procs[p].Authenticated?
    ensures run[n].procs[p].Authenticated? ==>
      && run[n].procs[p].token == token && run[n].procs[p].exempt == exempt && run[n].procs[p].session == session
  {
    RequestReaches(run, events, i, n, p, token, exempt, session);
  }

  // ----- a sign-in is taken back only for a logout that names it -----

  /** The session's own sid is fenced at `now`, or the identity of its account beyond its date. */
  predicate FenceNames(db: Db, login: SignIn, now: int) {
    || (login.session.sid != "" && login.session.sid in db.sidFences && db.sidFences[login.session.sid] > now)
    || (login.id in db.users &&
        var identity := (db.users[login.id].provider, db.users[login.id].subject);
        identity in db.subjectFences && db.subjectFences[identity].expiresAt > now
        && login.session.createdAt < db.subjectFences[identity].cutoff)
  }

  /** Process `p` reads the fences for `login`. */
  predicate ReadsFences(s: State, p: nat, login: SignIn) {
    p in s.procs && s.procs[p].Timed? && s.procs[p].login == login
  }

  predicate FoundFence(s: State, p: nat, login: SignIn) {
    ReadsFences(s, p, login) && FenceNames(s.db, login, s.procs[p].now)
  }

  /** A sign-in that is being taken back found a live fence on its sid, or one of its account's identity with a
      cutoff after its date; one that has finished found none. */
  ghost predicate Decided(run: seq<State>, n: nat, p: nat, proc: Process) {
    match proc
    case Condemned(login) => exists k :: 0 <= k < n && k < |run| && FoundFence(run[k], p, login)
    case SignedIn(login, at) =>
      at < n && at < |run| && ReadsFences(run[at], p, login) && !FenceNames(run[at].db, login, run[at].procs[p].now)
    case _ => true
  }

  lemma StepDecides(run: seq<State>, n: nat, p: nat)
    requires n + 1 < |run| && run[n].tick == n && Enabled(run[n], p, Advance) && run[n + 1] == Advanced(run[n], p)
    requires Decided(run, n, p, run[n].procs[p])
    ensures Decided(run, n + 1, p, run[n + 1].procs[p])
  {
    var proc := run[n].procs[p];
    if proc.Timed? {
      assert run[n + 1].procs[p].Condemned? ==> FoundFence(run[n], p, proc.login);
    }
  }

  lemma DecidedNext(run: seq<State>, events: seq<Event>, n: nat, p: nat)
    requires IsRun(run, events) && n < |events| && p in run[n + 1].procs
    requires p in run[n].procs ==> Decided(run, n, p, run[n].procs[p])
    ensures Decided(run, n + 1, p, run[n + 1].procs[p])
  {
    var own := StepOf(run, events, n, p);
    if own {
      StepDecides(run, n, p);
    }
  }

  lemma SignInIsDecided(run: seq<State>, events: seq<Event>, n: nat, p: nat)
    requires IsRun(run, events) && n < |run| && p in run[n].procs
    ensures Decided(run, n, p, run[n].procs[p])
  {
    var good := seq(|run|, i requires 0 <= i < |run| => p in run[i].procs ==> Decided(run, i, p, run[i].procs[p]));
    forall i, j | 0 <= i < n && j == i + 1 && good[i] ensures good[j] {
      if p in run[j].procs {
        DecidedNext(run, events, i, p);
      }
    }
    Throughout(good, 0, n);
  }

  /** A logout by this sid, asking for this expiry, was started before step `n`. */
  ghost predicate SidLogoutStarted(events: seq<Event>, n: nat, sid: string, until: int) {
    exists i :: 0 <= i < n && i < |events| && events[i].a == Start(EndSid(sid, until))
  }

  ghost predicate SubjectLogoutStarted(events: seq<Event>, n: nat, subject: string, fence: Fence) {
    exists i :: 0 <= i < n && i < |events| && events[i].a == Start(EndSubject(subject, fence.cutoff, fence.expiresAt))
  }

  lemma AdvanceStoresSid(s: State, p: nat)
    requires Enabled(s, p, Advance)
    ensures
      var before, after := s.db.sidFences, Advanced(s, p).db.sidFences;
      forall sid :: sid in after ==>
        (sid in before && after[sid] == before[sid]) || s.procs[p] == SidPurged(sid, after[sid])
  {
  }

  lemma AdvanceStoresSubject(s: State, p: nat)
    requires Enabled(s, p, Advance)
    ensures
      var before, after := s.db.subjectFences, Advanced(s, p).db.subjectFences;
      forall k :: k in after ==>
        || (k in before && after[k] == before[k])
        || (k.0 == "kysignon" && s.procs[p] == SubjectPurged(k.1, after[k].cutoff, after[k].expiresAt))
  {
  }

  lemma OthersStoreNone(s: State, p: nat, a: Action)
    requires Enabled(s, p, a) && !a.Advance?
    ensures After(s, p, a).db.sidFences == s.db.sidFences && After(s, p, a).db.subjectFences == s.db.subjectFences
  {
  }

  /** A step stores only the fence of the logout it moves. */
  lemma StepStoresFence(s: State, p: nat, a: Action)
    requires Enabled(s, p, a)
    ensures
      var before, after := s.db.sidFences, After(s, p, a).db.sidFences;
      forall sid :: sid in after ==>
        || (sid in before && after[sid] == before[sid])
        || (a.Advance? && s.procs[p] == SidPurged(sid, after[sid]))
    ensures
      var before, after := s.db.subjectFences, After(s, p, a).db.subjectFences;
      forall k :: k in after ==>
        || (k in before && after[k] == before[k])
        || (k.0 == "kysignon" && a.Advance? && s.procs[p] == SubjectPurged(k.1, after[k].cutoff, after[k].expiresAt))
  {
    if a.Advance? {
      AdvanceStoresSid(s, p);
      AdvanceStoresSubject(s, p);
    } else {
      OthersStoreNone(s, p, a);
    }
  }

  /** The fences stored after `n` steps were there from the start or asked for by a logout. */
  ghost predicate AskedFor(run: seq<State>, events: seq<Event>, n: nat)
    requires n < |run|
  {
    var first, db := run[0].db, run[n].db;
    && (forall sid :: sid in db.sidFences ==>
         || (sid in first.sidFences && db.sidFences[sid] == first.sidFences[sid])
         || SidLogoutStarted(events, n, sid, db.sidFences[sid]))
    && (forall k :: k in db.subjectFences ==>
         || (k in first.subjectFences && db.subjectFences[k] == first.subjectFences[k])
         || (k.0 == "kysignon" && SubjectLogoutStarted(events, n, k.1, db.subjectFences[k])))
  }

  lemma FenceWasAskedFor(run: seq<State>, events: seq<Event>, n: nat, p: nat)
    requires IsRun(run, events) && n < |run| && p in run[n].procs
    ensures
      match run[n].procs[p]
      case SidPurged(sid, until) => SidLogoutStarted(events, n, sid, until)
      case SubjectPurged(subject, cutoff, until) => SubjectLogoutStarted(events, n, subject, Fence(cutoff, until))
      case _ => true
  {
    var i := RequestIsKept(run, events, n, p);
  }

  lemma AskedForNext(run: seq<State>, events: seq<Event>, n: nat)
    requires IsRun(run, events) && n < |events| && AskedFor(run, events, n)
    ensures AskedFor(run, events, n + 1)
  {
    StepStoresFence(run[n], events[n].p, events[n].a);
    if events[n].a.Advance? {
      FenceWasAskedFor(run, events, n, events[n].p);
    }
  }

  /** Every stored fence was there from the start or was asked for by a logout, with this cutoff and expiry. */
  lemma FencesWereAskedFor(run: seq<State>, events: seq<Event>, n: nat)
    requires IsRun(run, events) && n < |run|
    ensures forall sid :: sid in run[n].db.sidFences ==>
      || (sid in run[0].db.sidFences && run[n].db.sidFences[sid] == run[0].db.sidFences[sid])
      || SidLogoutStarted(events, n, sid, run[n].db.sidFences[sid])
    ensures forall k :: k in run[n].db.subjectFences ==>
      || (k in run[0].db.subjectFences && run[n].db.subjectFences[k] == run[0].db.subjectFences[k])
      || (k.0 == "kysignon" && SubjectLogoutStarted(events, n, k.1, run[n].db.subjectFences[k]))
  {
    var good := seq(|run|, i requires 0 <= i < |run| => AskedFor(run, events, i));
    forall i, j | 0 <= i < n && j == i + 1 && good[i] ensures good[j] {
      AskedForNext(run, events, i);
    }
    Throughout(good, 0, n);
    assert AskedFor(run, events, n);
  }

  /** With no fence stored at the start, a sign-in is taken back only if a logout of its own sid was started, or
      one of the KyIdentity subject its account had at the check, with a cutoff after the session's date. */
  lemma TakenBackForALogout(run: seq<State>, events: seq<Event>, n: nat, p: nat)
    requires IsRun(run, events) && run[0].db.sidFences == map[] && run[0].db.subjectFences == map[]
    requires n < |run| && p in run[n].procs && run[n].procs[p].Condemned?
    ensures
      var login := run[n].procs[p].login;
      || (login.session.sid != "" && exists until :: SidLogoutStarted(events, n, login.session.sid, until))
      || exists k: nat, fence: Fence ::
           && k < n && login.id in run[k].db.users && run[k].db.users[login.id].provider == "kysignon"
           && login.session.createdAt < fence.cutoff
           && SubjectLogoutStarted(events, n, run[k].db.users[login.id].subject, fence)
  {
    SignInIsDecided(run, events, n, p);
    var login := run[n].procs[p].login;
    var k :| 0 <= k < n && FoundFence(run[k], p, login);
    FencesWereAskedFor(run, events, k);
    var db, now := run[k].db, run[k].procs[p].now;
    if login.session.sid != "" && login.session.sid in db.sidFences {
      assert SidLogoutStarted(events, n, login.session.sid, db.sidFences[login.session.sid]);
    } else {
      var fence := db.subjectFences[(db.users[login.id].provider, db.users[login.id].subject)];
      assert SubjectLogoutStarted(events, n, db.users[login.id].subject, fence);
    }
  }

  // ----- what a sign-in stores, and for how long -----

  /** Process `p` stores the session of `login` for an active account with its password hash. */
  predicate Stores(s: State, s': State, p: nat, login: SignIn) {
    && p in s.procs && s.procs[p] == Opening(login) && login.token !in s.used
    && login.id in s.db.users && s.db.users[login.id].status == "active"
    && s.db.users[login.id].passwordHash == login.hash
    && s'.db.sessions == s.db.sessions[login.token := Session(login.id, login.session.createdAt,
                                                              login.session.expiresAt, login.session.sid)]
  }

  ghost predicate StoredBefore(run: seq<State>, n: nat, p: nat, login: SignIn) {
    exists k, m :: 0 <= k < m <= n && m == k + 1 && m < |run| && Stores(run[k], run[m], p, login)
  }

  ghost predicate WasStored(run: seq<State>, n: nat, p: nat, proc: Process) {
    proc.Open? || proc.Timed? || proc.Condemned? || proc.SignedIn? ==> StoredBefore(run, n, p, proc.login)
  }

  lemma StepStores(run: seq<State>, n: nat, p: nat)
    requires n + 1 < |run| && Enabled(run[n], p, Advance) && run[n + 1] == Advanced(run[n], p)
    requires WasStored(run, n, p, run[n].procs[p])
    ensures WasStored(run, n + 1, p, run[n + 1].procs[p])
  {
    var proc := run[n].procs[p];
    if proc.Opening? && run[n + 1].procs[p].Open? {
      assert Stores(run[n], run[n + 1], p, proc.login);
    }
  }

  lemma WasStoredNext(run: seq<State>, events: seq<Event>, n: nat, p: nat)
    requires IsRun(run, events) && n < |events| && p in run[n + 1].procs
    requires p in run[n].procs ==> WasStored(run, n, p, run[n].procs[p])
    ensures WasStored(run, n + 1, p, run[n + 1].procs[p])
  {
    var own := StepOf(run, events, n, p);
    if own {
      StepStores(run, n, p);
    }
  }

  /** A sign-in that has finished stored its session, exactly as asked, for an account that was active and had
      the password hash it was checked against at that moment. */
  lemma SignInWasStored(run: seq<State>, events: seq<Event>, n: nat, p: nat)
    requires IsRun(run, events) && n < |run| && p in run[n].procs
    ensures WasStored(run, n, p, run[n].procs[p])
  {
    var good := seq(|run|, i requires 0 <= i < |run| => p in run[i].procs ==> WasStored(run, i, p, run[i].procs[p]));
    forall i, j | 0 <= i < n && j == i + 1 && good[i] ensures good[j] {
      if p in run[j].procs {
        WasStoredNext(run, events, i, p);
      }
    }
    Throughout(good, 0, n);
  }

  /** The session is stored exactly when the account is active with that password hash; otherwise the sign-in is
      refused and nothing changes. */
  lemma OpensForTheActive(s: State, p: nat)
    requires TablesOk(s) && Enabled(s, p, Advance) && s.procs[p].Opening?
    ensures
      var login, s' := s.procs[p].login, Advanced(s, p);
      var known := login.id in s.db.users && s.db.users[login.id].status == "active"
        && s.db.users[login.id].passwordHash == login.hash;
      && s'.procs[p] == (if known then Open(login) else Stopped)
      && (known ==> Stores(s, s', p, login))
      && (!known ==> s'.db == s.db)
  {
  }

  /** What takes a session out of the table: the end of the sign-in that was fenced, of a request that found it
      unusable, or of the browser's own sign-out; a logout of its sid, or of its account's KyIdentity subject with
      a later cutoff; and a write to its account that revokes. */
  predicate TakesOut(s: State, p: nat, a: Action, token: string)
    requires Enabled(s, p, a) && token in s.db.sessions
  {
    var session := s.db.sessions[token];
    match a
    case SignOut(out) => out == token
    case Other(w) => session.userId == w.id && Land(s.db, w).1.Ok? && (w.Delete? || w.Revokes())
    case Advance =>
      (match s.procs[p]
       case Condemned(login) => login.token == token
       case Discarding(unusable) => unusable == token
       case SidFenced(sid, _) => session.sid == sid
       case SubjectFenced(subject, cutoff, _) =>
         && session.createdAt < cutoff && session.userId in s.db.users
         && s.db.users[session.userId].provider == "kysignon" && s.db.users[session.userId].subject == subject
       case _ => false)
    case _ => false
  }

  lemma WriteTakesOut(s: State, p: nat, w: Write, token: string)
    requires Enabled(s, p, Other(w)) && token in s.db.sessions
    ensures token !in Land(s.db, w).0.sessions <==> TakesOut(s, p, Other(w), token)
  {
  }

  lemma AdvanceTakesOut(s: State, p: nat, token: string)
    requires Enabled(s, p, Advance) && token in s.db.sessions
    ensures token !in Advanced(s, p).db.sessions <==> TakesOut(s, p, Advance, token)
  {
  }

  /** And nothing else does. */
  lemma SessionLeavesFor(s: State, p: nat, a: Action, token: string)
    requires Enabled(s, p, a) && token in s.db.sessions
    ensures token !in After(s, p, a).db.sessions <==> TakesOut(s, p, a, token)
  {
    if a.Other? {
      WriteTakesOut(s, p, a.w, token);
    } else if a.Advance? {
      AdvanceTakesOut(s, p, token);
    }
  }
}
