/** How long a back-channel logout holds: its own term, from the moment it stored its fence to the expiry
    it asked for, and when it does not (internal/store/sqlstore.go:466-515). */
module LogoutFences {
  import opened Accounts
  import opened SqlStore
  import opened SessionProtocol

  // ----- the stored row -----

  /** The guard of the ON CONFLICT branch that keeps the stored row, where that row ends too early. */
  predicate KeptShort(fences: map<(string, string), Fence>, key: (string, string), cutoff: int, until: int) {
    key in fences && fences[key].cutoff >= cutoff && fences[key].expiresAt < until
  }

  /** After a logout by subject the stored fence lasts to the expiry it asked for exactly when no
      unexpired row with an equal or later cutoff ends earlier. */
  lemma FenceReachesItsTerm(before: map<(string, string), Fence>, key: (string, string), cutoff: int, until: int,
                            now: int)
    ensures
      var after := RaiseSubject(UnexpiredSubjects(before, now), key, Fence(cutoff, until));
      after[key].expiresAt >= until <==>
        !(key in before && before[key].expiresAt > now && KeptShort(before, key, cutoff, until))
  {
  }

  // ----- whole runs -----

  /** Step `m` stores a fence for the subject. */
  predicate Raises(run: seq<State>, events: seq<Event>, m: nat, subject: string) {
    && m < |events| && m < |run| && events[m].a.Advance? && events[m].p in run[m].procs
    && run[m].procs[events[m].p].SubjectPurged? && run[m].procs[events[m].p].subject == subject
  }

  /** The expiry that step asks for. */
  function Term(run: seq<State>, events: seq<Event>, m: nat, subject: string): int
    requires Raises(run, events, m, subject)
  {
    run[m].procs[events[m].p].until
  }

  predicate Lasts(s: State, subject: string, cutoff: int, until: int) {
    !KeptShort(s.db.subjectFences, Subject(subject), cutoff, until)
  }

  /** A step leaves the subject's row, removes it, or stores a fence for it. */
  lemma RowFollows(run: seq<State>, events: seq<Event>, k: nat, subject: string)
    requires IsRun(run, events) && k < |events| && Subject(subject) in run[k + 1].db.subjectFences
    ensures
      var key := Subject(subject);
      || (key in run[k].db.subjectFences && run[k + 1].db.subjectFences[key] == run[k].db.subjectFences[key])
      || (Raises(run, events, k, subject)
        && run[k + 1].db.subjectFences[key].expiresAt == Term(run, events, k, subject))
  {
    assert run[k + 1] == After(run[k], events[k].p, events[k].a);
  }

  /** Every fence stored for the subject from step `m` up to step `j` asks for `until` or later. */
  predicate NoShorterTerm(run: seq<State>, events: seq<Event>, m: nat, j: nat, subject: string, until: int) {
    forall k :: m <= k < j && Raises(run, events, k, subject) ==> Term(run, events, k, subject) >= until
  }

  lemma {:induction false} FenceLasts(run: seq<State>, events: seq<Event>, m: nat, j: nat, subject: string,
                                      cutoff: int, until: int)
    requires IsRun(run, events) && m <= j < |run| && Lasts(run[m], subject, cutoff, until)
    requires NoShorterTerm(run, events, m, j, subject, until)
    ensures Lasts(run[j], subject, cutoff, until)
    decreases j
  {
    if m < j {
      FenceLasts(run, events, m, j - 1, subject, cutoff, until);
      if Subject(subject) in run[j].db.subjectFences {
        RowFollows(run, events, j - 1, subject);
      }
    }
  }

  lemma {:induction false} ClockAdvances(run: seq<State>, events: seq<Event>, i: nat, j: nat)
    requires IsRun(run, events) && i <= j < |run|
    ensures run[i].clock <= run[j].clock
    decreases j
  {
    if i < j {
      ClockAdvances(run, events, i, j - 1);
      assert run[j] == After(run[j - 1], events[j - 1].p, events[j - 1].a);
    }
  }

  /** A finished logout that stored its fence at step `m`, over no row that was kept and ends earlier, and
      after which no shorter term was asked for before the sign-in's check: a session of that subject
      dated before the cutoff that survives both was checked no earlier than the logout's own expiry. */
  lemma SurvivorOutlastsTheTerm(run: seq<State>, events: seq<Event>, n: nat, p: nat, m: nat, subject: string)
    requires IsRun(run, events) && n < |run| && Raises(run, events, m, subject)
    requires p in run[n].procs && run[n].procs[p].SignedIn? && events[m].p in run[n].procs
    requires run[n].procs[events[m].p] == SubjectEnded(subject, run[m].procs[events[m].p].cutoff, m + 1)
    requires
      var login, cutoff := run[n].procs[p].login, run[m].procs[events[m].p].cutoff;
      && login.provider == "kysignon" && login.subject == subject && login.session.createdAt < cutoff
      && login.token in run[n].db.sessions
    requires Lasts(run[m], subject, run[m].procs[events[m].p].cutoff, Term(run, events, m, subject))
    requires NoShorterTerm(run, events, m, run[n].procs[p].at, subject, Term(run, events, m, subject))
    ensures run[n].procs[p].at < n && run[run[n].procs[p].at].clock >= Term(run, events, m, subject)
  {
    var at, logout := run[n].procs[p].at, run[n].procs[events[m].p];
    var until := Term(run, events, m, subject);
    RunStaysOk(run, events, n);
    assert ProcOk(run, n, p, run[n].procs[p]);
    assert PairOk(run, n, run[n].procs[p].login, at, logout);
    var j :| m + 1 <= j <= at && j < |run| && CoversAndExpired(run[j], subject, logout.cutoff);
    FenceLasts(run, events, m, j, subject, logout.cutoff, until);
    ClockAdvances(run, events, j, at);
  }

  /** Step `m` stores a fence for the sid, whatever row there was. */
  predicate RaisesSid(run: seq<State>, events: seq<Event>, m: nat, sid: string) {
    && m < |events| && m < |run| && events[m].a.Advance? && events[m].p in run[m].procs
    && run[m].procs[events[m].p].SidPurged? && run[m].procs[events[m].p].sid == sid
  }

  function SidTerm(run: seq<State>, events: seq<Event>, m: nat, sid: string): int
    requires RaisesSid(run, events, m, sid)
  {
    run[m].procs[events[m].p].until
  }

  predicate NoShorterSidTerm(run: seq<State>, events: seq<Event>, m: nat, j: nat, sid: string, until: int) {
    forall k :: m <= k < j && RaisesSid(run, events, k, sid) ==> SidTerm(run, events, k, sid) >= until
  }

  lemma SidRowFollows(run: seq<State>, events: seq<Event>, k: nat, sid: string)
    requires IsRun(run, events) && k < |events| && sid in run[k + 1].db.sidFences
    ensures
      || (sid in run[k].db.sidFences && run[k + 1].db.sidFences[sid] == run[k].db.sidFences[sid]
        && !RaisesSid(run, events, k, sid))
      || (RaisesSid(run, events, k, sid) && run[k + 1].db.sidFences[sid] == SidTerm(run, events, k, sid))
  {
    assert run[k + 1] == After(run[k], events[k].p, events[k].a);
  }

  lemma {:induction false} SidFenceLasts(run: seq<State>, events: seq<Event>, m: nat, j: nat, sid: string, until: int)
    requires IsRun(run, events) && m < j < |run| && RaisesSid(run, events, m, sid)
    requires NoShorterSidTerm(run, events, m, j, sid, until)
    ensures sid in run[j].db.sidFences ==> run[j].db.sidFences[sid] >= until
    decreases j
  {
    if sid in run[j].db.sidFences {
      SidRowFollows(run, events, j - 1, sid);
      if m < j - 1 {
        SidFenceLasts(run, events, m, j - 1, sid, until);
      }
    }
  }

  /** The same for a logout by sid, whose fence replaces any stored one. */
  lemma SurvivorOutlastsTheSidTerm(run: seq<State>, events: seq<Event>, n: nat, p: nat, m: nat, sid: string)
    requires IsRun(run, events) && n < |run| && RaisesSid(run, events, m, sid)
    requires p in run[n].procs && run[n].procs[p].SignedIn? && run[n].procs[p].login.session.sid == sid
    requires events[m].p in run[n].procs && run[n].procs[events[m].p] == SidEnded(sid, m + 1)
    requires run[n].procs[p].login.token in run[n].db.sessions
    requires NoShorterSidTerm(run, events, m, run[n].procs[p].at, sid, SidTerm(run, events, m, sid))
    ensures run[n].procs[p].at < n && run[run[n].procs[p].at].clock >= SidTerm(run, events, m, sid)
  {
    var at := run[n].procs[p].at;
    RunStaysOk(run, events, n);
    assert ProcOk(run, n, p, run[n].procs[p]);
    assert PairOk(run, n, run[n].procs[p].login, at, run[n].procs[events[m].p]);
    var j :| m + 1 <= j <= at && j < |run| && sid in run[j].db.sidFences && run[j].db.sidFences[sid] <= run[j].clock;
    SidFenceLasts(run, events, m, j, sid, SidTerm(run, events, m, sid));
    ClockAdvances(run, events, j, at);
  }

  // ----- a later logout with no later cutoff -----

  /** Consecutive steps from any state. */
  ghost predicate IsPath(run: seq<State>, events: seq<Event>) {
    && |run| == |events| + 1
    && forall i :: 0 <= i < |events| ==>
      Enabled(run[i], events[i].p, events[i].a) && run[i + 1] == After(run[i], events[i].p, events[i].a)
  }

  lemma JoinPaths(first: seq<State>, firstEvents: seq<Event>, second: seq<State>, secondEvents: seq<Event>)
    returns (run: seq<State>, events: seq<Event>)
    requires IsPath(first, firstEvents) && IsPath(second, secondEvents) && first[|firstEvents|] == second[0]
    ensures IsPath(run, events)
    ensures run == first + second[1..] && events == firstEvents + secondEvents
  {
    run, events := first + second[1..], firstEvents + secondEvents;
    forall i | 0 <= i < |events|
      ensures Enabled(run[i], events[i].p, events[i].a) && run[i + 1] == After(run[i], events[i].p, events[i].a)
    {
      if i >= |firstEvents| {
        var k := i - |firstEvents|;
        assert events[i] == secondEvents[k] && run[i] == second[k] && run[i + 1] == second[k + 1];
      }
    }
  }

  function PurgeEvents(q: nat, subject: string, cutoff: int, until: int): seq<Event> {
    [Event(q, Start(EndSubject(subject, cutoff, until))), Event(q, Advance), Event(q, Advance)]
  }

  function LogoutEvents(q: nat, subject: string, cutoff: int, until: int): seq<Event> {
    PurgeEvents(q, subject, cutoff, until) + [Event(q, Advance), Event(q, Advance)]
  }

  /** The tables after a logout that nothing interrupts. */
  function LoggedOut(db: Db, subject: string, cutoff: int, until: int, now: int): Db {
    db.(subjectFences := RaiseSubject(UnexpiredSubjects(db.subjectFences, now), Subject(subject), Fence(cutoff, until)),
        sessions := WithoutSubject(db.users, db.sessions, "kysignon", subject, cutoff))
  }

  lemma PurgePath(s: State, q: nat, subject: string, cutoff: int, until: int) returns (run: seq<State>)
    requires q !in s.procs
    ensures IsPath(run, PurgeEvents(q, subject, cutoff, until)) && run[0] == s
    ensures run[3] == s.(db := s.db.(subjectFences := UnexpiredSubjects(s.db.subjectFences, s.clock)),
                         procs := s.procs[q := SubjectPurged(subject, cutoff, until)], tick := s.tick + 3)
  {
    var s1 := After(s, q, Start(EndSubject(subject, cutoff, until)));
    var s2 := After(s1, q, Advance);
    var s3 := After(s2, q, Advance);
    assert s3.procs == s.procs[q := SubjectPurged(subject, cutoff, until)];
    run := [s, s1, s2, s3];
  }

  lemma LogoutPath(s: State, q: nat, subject: string, cutoff: int, until: int) returns (run: seq<State>)
    requires q !in s.procs
    ensures IsPath(run, LogoutEvents(q, subject, cutoff, until)) && run[0] == s
    ensures run[3].procs == s.procs[q := SubjectPurged(subject, cutoff, until)]
    ensures run[3].db == s.db.(subjectFences := UnexpiredSubjects(s.db.subjectFences, s.clock))
    ensures run[5] == s.(db := LoggedOut(s.db, subject, cutoff, until, s.clock),
                         procs := s.procs[q := SubjectEnded(subject, cutoff, s.tick + 4)], tick := s.tick + 5)
  {
    var first := PurgePath(s, q, subject, cutoff, until);
    var s3 := first[3];
    var s4 := After(s3, q, Advance);
    var s5 := After(s4, q, Advance);
    assert s5.procs == s.procs[q := SubjectEnded(subject, cutoff, s.tick + 4)];
    var events;
    run, events := JoinPaths(first, PurgeEvents(q, subject, cutoff, until), [s3, s4, s5],
      [Event(q, Advance), Event(q, Advance)]);
  }

  function SignInEvents(p: nat, login: SignIn): seq<Event> {
    [Event(p, Start(Opening(login))), Event(p, Advance), Event(p, Advance), Event(p, Advance)]
  }

  lemma OpenPath(s: State, p: nat, login: SignIn) returns (run: seq<State>)
    requires p !in s.procs && KnownAs(s, login) && login.token !in s.used && login.token !in s.db.sessions
    requires login.id in s.db.users && Guarded(s.db.users[login.id], login.hash)
    ensures IsPath(run, [Event(p, Start(Opening(login))), Event(p, Advance)]) && run[0] == s
    ensures run[2] == s.(db := s.db.(sessions := s.db.sessions[login.token := login.session.(userId := login.id)]),
                         used := s.used + {login.token}, procs := s.procs[p := Open(login)], tick := s.tick + 2)
  {
    var s1 := After(s, p, Start(Opening(login)));
    var s2 := After(s1, p, Advance);
    assert s2.procs == s.procs[p := Open(login)];
    run := [s, s1, s2];
  }

  lemma CheckPath(s: State, p: nat, login: SignIn) returns (run: seq<State>)
    requires p in s.procs && s.procs[p] == Open(login)
    requires !Fenced(s.db, login.session.sid, login.id, login.session.createdAt, s.clock)
    ensures IsPath(run, [Event(p, Advance), Event(p, Advance)]) && run[0] == s && run[1].clock == s.clock
    ensures run[2].db == s.db && run[2].procs == s.procs[p := SignedIn(login, s.tick + 1)]
  {
    var s1 := After(s, p, Advance);
    assert s1.procs[p] == Timed(login, s.clock);
    var s2 := After(s1, p, Advance);
    assert s2.procs == s.procs[p := SignedIn(login, s.tick + 1)];
    run := [s, s1, s2];
  }

  lemma SignInPath(s: State, p: nat, login: SignIn) returns (run: seq<State>)
    requires p !in s.procs && KnownAs(s, login) && login.token !in s.used && login.token !in s.db.sessions
    requires login.id in s.db.users && Guarded(s.db.users[login.id], login.hash)
    requires !Fenced(s.db, login.session.sid, login.id, login.session.createdAt, s.clock)
    ensures IsPath(run, SignInEvents(p, login)) && run[0] == s
    ensures run[4].procs == s.procs[p := SignedIn(login, s.tick + 3)] && run[3].clock == s.clock
    ensures login.token in run[4].db.sessions
  {
    var opens := OpenPath(s, p, login);
    var checks := CheckPath(opens[2], p, login);
    var events;
    run, events := JoinPaths(opens, [Event(p, Start(Opening(login))), Event(p, Advance)],
      checks, [Event(p, Advance), Event(p, Advance)]);
    assert run == [opens[0], opens[1], opens[2], checks[1], checks[2]];
  }

  /** Two logouts of one subject, the second with no later cutoff, and a login dated before both. */
  datatype Relogin = Relogin(id: string, row: User, login: SignIn, first: int, second: int, shorter: int, longer: int) {
    predicate Valid() {
      && row.provider == "kysignon" && row.subject == login.subject && row.status == "active"
        && row.passwordHash == login.hash
      && login.provider == "kysignon" && login.id == id && login.session.createdAt < second <= first
      && login.session.sid == "" && 0 < shorter < longer
    }

    function Start(): State {
      State(Db(map[id := row], map[], map[], map[], {}), 0, {}, {id}, map[], 0)
    }

    function Events(): seq<Event> {
      LogoutEvents(0, login.subject, first, shorter) + LogoutEvents(1, login.subject, second, longer)
      + [Event(0, Pass(shorter))] + SignInEvents(2, login)
    }

    /** The second logout's fence leaves the first one's row. */
    lemma RowStays()
      requires Valid()
      ensures
        var db := LoggedOut(Start().db, login.subject, first, shorter, 0);
        var after := LoggedOut(db, login.subject, second, longer, 0);
        && db.sessions == map[] && after.sessions == map[] && after.users == Start().db.users
        && after.sidFences == map[] && after.subjectFences == map[Subject(login.subject) := Fence(first, shorter)]
    {
    }

    /** Both logouts in turn. */
    lemma BothLogouts() returns (run: seq<State>)
      requires Valid()
      ensures
        var events := LogoutEvents(0, login.subject, first, shorter) + LogoutEvents(1, login.subject, second, longer);
        IsPath(run, events) && run[0] == Start()
      ensures run[8].procs
        == map[0 := SubjectEnded(login.subject, first, 4), 1 := SubjectPurged(login.subject, second, longer)]
      ensures KeptShort(run[8].db.subjectFences, Subject(login.subject), second, longer)
      ensures
        var fences := map[Subject(login.subject) := Fence(first, shorter)];
        var procs := map[0 := SubjectEnded(login.subject, first, 4), 1 := SubjectEnded(login.subject, second, 9)];
        run[10] == State(Start().db.(subjectFences := fences), 0, {}, {id}, procs, 10)
    {
      RowStays();
      var one := LogoutPath(Start(), 0, login.subject, first, shorter);
      var two := LogoutPath(one[5], 1, login.subject, second, longer);
      var events;
      run, events := JoinPaths(one, LogoutEvents(0, login.subject, first, shorter), two,
        LogoutEvents(1, login.subject, second, longer));
      assert run[8] == two[3] && run[10] == two[5];
    }

    /** The login is stored when both logouts have finished, though its fence check came before the
        expiry the second one asked for: that logout did not extend the stored fence. */
    lemma SurvivesTheSecond() returns (run: seq<State>)
      requires Valid()
      ensures IsRun(run, Events()) && |run| == 16 && run[0] == Start()
      ensures 1 in run[8].procs && run[8].procs[1] == SubjectPurged(login.subject, second, longer)
      ensures KeptShort(run[8].db.subjectFences, Subject(login.subject), second, longer)
      ensures 1 in run[15].procs && run[15].procs[1] == SubjectEnded(login.subject, second, 9)
      ensures 2 in run[15].procs && run[15].procs[2] == SignedIn(login, 14) && login.token in run[15].db.sessions
      ensures run[14].clock < longer
    {
      var both := BothLogouts();
      var s := both[10];
      var later := After(s, 0, Pass(shorter));
      var last := SignInPath(later, 2, login);
      var events;
      run, events := JoinPaths(both,
        LogoutEvents(0, login.subject, first, shorter) + LogoutEvents(1, login.subject, second, longer),
        [s, later], [Event(0, Pass(shorter))]);
      run, events := JoinPaths(run, events, last, SignInEvents(2, login));
      assert run[8] == both[8] && run[14] == last[3] && run[15] == last[4];
    }
  }
}
