/** What the processes of IdentityProtocol decide and why: a process keeps to its request, an update succeeds
    exactly when nothing it read has changed, a create stores what was sent unless KyIdentity knows the person,
    and a callback finds, links or makes the account of its subject (internal/scim/handler.go:118-211, 404-435;
    internal/api/sso_handlers.go:74-129; internal/sso/kysignon.go:47-63). */
module IdentityOutcomes {
  import opened Accounts
  import opened Basics
  import opened ScimUser
  import opened IdentityProtocol

  // ----- a process keeps to its request -----

  /** The process is on its way from that start, with the request, body or claims it was started with. */
  predicate ComesFrom(proc: Process, start: Process) {
    match proc
    case UpdateWaits(id, request) => start == UpdateWaits(id, request)
    case UpdateReads(id, request, _) => start == UpdateWaits(id, request)
    case UpdateWrites(id, request, _, _) => start == UpdateWaits(id, request)
    case Updated(id, _) => start.UpdateWaits? && start.id == id
    case CreateBySubject(id, attrs) => start == CreateBySubject(id, attrs)
    case CreateByName(id, attrs) => start == CreateBySubject(id, attrs)
    case CreateInserts(id, attrs) => start == CreateBySubject(id, attrs)
    case TakeOverWaits(_, attrs, _) => start.CreateBySubject? && start.attrs == attrs
    case TakeOverWrites(_, attrs, _) => start.CreateBySubject? && start.attrs == attrs
    case DeleteReads(id) => start == DeleteReads(id)
    case DeleteWrites(id) => start == DeleteReads(id)
    case CallbackFinds(id, claims) => start == CallbackFinds(id, claims)
    case CallbackAdopts(id, claims) => start == CallbackFinds(id, claims)
    case CallbackLinks(id, claims, _, _) => start == CallbackFinds(id, claims)
    case CallbackFindsAgain(id, claims) => start == CallbackFinds(id, claims)
    case CallbackProvisions(id, claims) => start == CallbackFinds(id, claims)
    case CallbackChecks(claims, _, _) => start.CallbackFinds? && start.claims == claims
    case CallbackSetsRole(claims, _, _) => start.CallbackFinds? && start.claims == claims
    case CallbackSignsIn(claims, _, _) => start.CallbackFinds? && start.claims == claims
    case MemberReads(group, id) => start == MemberReads(group, id)
    case MemberWrites(group, id) => start == MemberReads(group, id)
    case _ => true
  }

  lemma NextKeepsRequest(s: State, proc: Process, pick: string, answer: Option<Outcome>, start: Process)
    requires ComesFrom(proc, start)
    ensures ComesFrom(Next(s, proc, pick, answer), start)
  {
  }

  lemma StepKeepsRequest(s: State, p: nat, a: Action, q: nat, start: Process)
    requires Enabled(s, p, a) && q in s.procs && ComesFrom(s.procs[q], start)
    ensures q in After(s, p, a).procs && ComesFrom(After(s, p, a).procs[q], start)
  {
    if a.Advance? && q == p {
      NextKeepsRequest(s, s.procs[p], a.pick, Answer(s.db, WriteAt(s, p, a), a.refused), start);
    }
  }

  lemma StartsAsAsked(s: State, p: nat, a: Action, q: nat)
    requires Enabled(s, p, a) && q !in s.procs && q in After(s, p, a).procs
    ensures a.Start? && q == p && ComesFrom(After(s, p, a).procs[q], a.proc)
  {
  }

  ghost predicate Asked(run: seq<State>, events: seq<Event>, n: nat, p: nat, i: nat)
    requires n < |run|
  {
    && i < n && i < |events| && events[i].p == p && events[i].a.Start?
    && p in run[n].procs && ComesFrom(run[n].procs[p], events[i].a.proc)
  }

  lemma AskedNext(run: seq<State>, events: seq<Event>, n: nat, p: nat, i: nat)
    requires IsRun(run, events) && n < |events| && Asked(run, events, n, p, i)
    ensures Asked(run, events, n + 1, p, i)
  {
    StepKeepsRequest(run[n], events[n].p, events[n].a, p, events[i].a.proc);
  }

  lemma AskedFirst(run: seq<State>, events: seq<Event>, n: nat, p: nat)
    requires IsRun(run, events) && n < |events| && p !in run[n].procs && p in run[n + 1].procs
    ensures Asked(run, events, n + 1, p, n)
  {
    StartsAsAsked(run[n], events[n].p, events[n].a, p);
  }

  lemma {:induction false} AskedAt(run: seq<State>, events: seq<Event>, n: nat, p: nat) returns (i: nat)
    requires IsRun(run, events) && n < |run| && p in run[n].procs
    ensures Asked(run, events, n, p, i)
  {
    assert n > 0;
    if p in run[n - 1].procs {
      i := AskedAt(run, events, n - 1, p);
      AskedNext(run, events, n - 1, p, i);
    } else {
      i := n - 1;
      AskedFirst(run, events, n - 1, p);
    }
  }

  /** Every process is on its way from the request it was started with. */
  lemma RequestIsKept(run: seq<State>, events: seq<Event>, n: nat, p: nat) returns (i: nat)
    requires IsRun(run, events) && n < |run| && p in run[n].procs
    ensures i < n && events[i].p == p && events[i].a.Start? && ComesFrom(run[n].procs[p], events[i].a.proc)
  {
    i := AskedAt(run, events, n, p);
  }

  // ----- the mutex -----

  predicate HeldInside(s: State) {
    s.holder.Some? ==> s.holder.value in s.procs && Locks(s.procs[s.holder.value])
  }

  lemma StepHoldsInside(s: State, p: nat, a: Action)
    requires Enabled(s, p, a) && HeldInside(s)
    ensures HeldInside(After(s, p, a))
  {
  }

  /** Only a process that has not left its section holds the SCIM user mutex. */
  lemma {:induction false} MutexIsReleased(run: seq<State>, events: seq<Event>, n: nat)
    requires IsRun(run, events) && n < |run|
    ensures HeldInside(run[n])
  {
    if n > 0 {
      MutexIsReleased(run, events, n - 1);
      StepHoldsInside(run[n - 1], events[n - 1].p, events[n - 1].a);
    }
  }

  // ----- updates -----

  /** The row is still as the update read it. */
  predicate Unmoved(db: Db, id: string, row: User) {
    id in db.users && db.users[id].role == row.role && db.users[id].status == row.status
      && db.users[id].subject == row.subject
  }

  ghost predicate Writes(s: State, p: nat, a: Action) {
    Enabled(s, p, a) && a.Advance? && p in s.procs && s.procs[p].UpdateWrites?
  }

  /** The request makes an account of the row it read, and no administrator it may not make. */
  ghost predicate Permitted(s: State, p: nat, a: Action)
    requires Writes(s, p, a)
  {
    var row := s.procs[p].row;
    && Change(a.visit, row).Success?
    && !(Change(a.visit, row).value.role == "admin" && row.role != "admin" && !s.allowAdmin)
  }

  /** An attempt succeeds exactly when the request is permitted, the name free, and role, status and subject
      as read; it is repeated exactly when only these have moved, up to three times; and otherwise it is refused
      and writes nothing. */
  lemma AttemptEndsWell(s: State, p: nat, a: Action)
    requires Writes(s, p, a)
    ensures
      var UpdateWrites(id, request, attempt, row) := s.procs[p];
      var next := After(s, p, a).procs[p];
      && (next.Updated? <==> Permitted(s, p, a) && !a.refused && Unmoved(s.db, id, row))
      && (next.UpdateReads? <==>
        Permitted(s, p, a) && !a.refused && id in s.db.users && !Unmoved(s.db, id, row) && attempt < 3)
      && (next.Updated? || next.Refused? || next == UpdateReads(id, request, attempt + 1))
      && (!next.Updated? ==> After(s, p, a).db == s.db)
  {
  }

  /** An update waits for the mutex and has four attempts; each goes on exactly with a stored account that SCIM
      manages, as stored. */
  lemma UpdateReadsManaged(s: State, p: nat, a: Action)
    requires Enabled(s, p, a) && a.Advance?
    ensures s.procs[p].UpdateWaits? ==>
      var UpdateWaits(id, request) := s.procs[p];
      s.holder.None? && After(s, p, a).procs[p] == UpdateReads(id, request, 0) && After(s, p, a).db == s.db
    ensures s.procs[p].UpdateReads? ==>
      var UpdateReads(id, request, attempt) := s.procs[p];
      var next := After(s, p, a).procs[p];
      && After(s, p, a).db == s.db
      && next == if id in s.db.users && s.db.users[id].managed then UpdateWrites(id, request, attempt, s.db.users[id])
                 else Refused
  {
  }

  /** A SCIM delete removes exactly a managed account that it found, with its sessions and memberships. */
  lemma DeleteTakesManaged(s: State, p: nat, a: Action)
    requires Enabled(s, p, a) && a.Advance?
    ensures s.procs[p].DeleteReads? ==>
      var id := s.procs[p].id;
      (After(s, p, a).procs[p] == DeleteWrites(id) <==> id in s.db.users && s.db.users[id].managed)
        && After(s, p, a).db == s.db
    ensures s.procs[p].DeleteWrites? ==>
      var id := s.procs[p].id;
      && After(s, p, a).db.users == s.db.users - {id}
      && (After(s, p, a).procs[p].Finished? <==> id in s.db.users)
  {
    assert s.procs[p].DeleteWrites? && s.procs[p].id !in s.db.users ==> s.db.users - {s.procs[p].id} == s.db.users;
  }

  /** A group request goes on exactly with a stored account that SCIM manages, and adds the membership exactly when
      that is still stored when it writes. */
  lemma MemberIsAdded(s: State, p: nat, a: Action)
    requires Enabled(s, p, a) && a.Advance?
    ensures s.procs[p].MemberReads? ==>
      var MemberReads(group, id) := s.procs[p];
      && After(s, p, a).db == s.db
      && After(s, p, a).procs[p]
        == if id in s.db.users && s.db.users[id].managed then MemberWrites(group, id) else Refused
    ensures s.procs[p].MemberWrites? ==>
      var MemberWrites(group, id) := s.procs[p];
      var stored := id in s.db.users;
      && After(s, p, a).procs[p] == (if stored then Finished else Refused)
      && After(s, p, a).db == if stored then s.db.(members := s.db.members + {(group, id)}) else s.db
  {
  }

  // ----- creates -----

  predicate IsKyIdentity(row: User, subject: string) { row.provider == "kysignon" && row.subject == subject }

  /** What a create decides by the externalId: an account KyIdentity made for it is taken over, refused when SCIM
      already manages it, and only when there is none, or no externalId was sent, the name is asked. */
  lemma CreateAsksSubject(s: State, p: nat, a: Action)
    requires Enabled(s, p, a) && a.Advance? && s.procs[p].CreateBySubject?
    ensures
      var CreateBySubject(id, attrs) := s.procs[p];
      var subject := StringValue(attrs, "externalId", "");
      var known := subject != "" && exists other :: other in s.db.users && IsKyIdentity(s.db.users[other], subject);
      var next := After(s, p, a).procs[p];
      && After(s, p, a).db == s.db
      && (!known ==> next == CreateByName(id, attrs))
      && (known ==>
        && a.pick in s.db.users && IsKyIdentity(s.db.users[a.pick], subject)
        && next == if s.db.users[a.pick].managed then Refused else TakeOverWaits(a.pick, attrs, s.db.users[a.pick]))
  {
    var CreateBySubject(id, attrs) := s.procs[p];
    if other :| other in s.db.users && IsKyIdentity(s.db.users[other], Subject(attrs)) {
      assert Looks(s, s.procs[p], other);
    }
  }

  /** What it decides by the name: an unmanaged KyIdentity account of that name is taken over, unless an externalId
      was sent that is not its subject; for any other or no account the row is inserted. */
  lemma CreateAsksName(s: State, p: nat, a: Action)
    requires Enabled(s, p, a) && a.Advance? && s.procs[p].CreateByName?
    ensures
      var CreateByName(id, attrs) := s.procs[p];
      var subject, name := StringValue(attrs, "externalId", ""), Lower(Username(attrs));
      var named := exists other :: other in s.db.users && Lower(s.db.users[other].username) == name;
      var next := After(s, p, a).procs[p];
      && After(s, p, a).db == s.db
      && (!named ==> next == CreateInserts(id, attrs))
      && (named ==>
        && a.pick in s.db.users && Lower(s.db.users[a.pick].username) == name
        && var row := s.db.users[a.pick];
        && next == if row.provider != "kysignon" || row.managed then CreateInserts(id, attrs)
                   else if subject != "" && subject != row.subject then Refused
                   else TakeOverWaits(a.pick, attrs, row))
  {
    var CreateByName(id, attrs) := s.procs[p];
    if other :| other in s.db.users && Lower(s.db.users[other].username) == Lower(Username(attrs)) {
      assert Looks(s, s.procs[p], other);
    }
  }

  /** An account that SCIM creates holds what was sent, and the documented values for what was not: the user name
      as display name, the role "user", active, an empty subject. */
  lemma CreateStores(s: State, p: nat, a: Action)
    requires Enabled(s, p, a) && a.Advance? && s.procs[p].CreateInserts?
    ensures
      var CreateInserts(id, attrs) := s.procs[p];
      var s' := After(s, p, a);
      var name := if At(attrs, "userName").Text? then attrs["userName"].text else "";
      var role := PrimaryValue(At(attrs, "roles"));
      var shown, subject := At(attrs, "displayName"), At(attrs, "externalId");
      && (s'.procs[p].Finished? || s'.procs[p].Refused?)
      && (s'.procs[p].Refused? <==>
        (role == "admin" && !s.allowAdmin) || a.refused || id in s.db.users)
      && (s'.procs[p].Refused? ==> s'.db == s.db)
      && (s'.procs[p].Finished? ==>
        s'.db == s.db.(users := s.db.users[id := User(
          name, PrimaryValue(At(attrs, "emails")), if shown.Text? && shown.text != "" then shown.text else name, "",
          if role != "" then role else "user", if At(attrs, "active") == Bool(false) then "inactive" else "active",
          "scim", if subject.Text? then subject.text else "", true, false)]))
  {
  }

  /** A take-over waits for the mutex and then writes the row it was decided on, exactly when that is still an
      unmanaged KyIdentity account of its subject with the role and status read. */
  lemma TakeOverEndsWell(s: State, p: nat, a: Action)
    requires Enabled(s, p, a) && a.Advance?
    ensures s.procs[p].TakeOverWaits? ==>
      var TakeOverWaits(id, attrs, row) := s.procs[p];
      s.holder.None? && After(s, p, a).procs[p] == TakeOverWrites(id, attrs, row) && After(s, p, a).db == s.db
    ensures s.procs[p].TakeOverWrites? ==>
      var TakeOverWrites(id, attrs, row) := s.procs[p];
      var role := ReplaceUser(row, attrs).role;
      && (After(s, p, a).procs[p].Finished? <==>
        && !(role == "admin" && row.role != "admin" && !s.allowAdmin) && !a.refused && id in s.db.users
        && IsKyIdentity(s.db.users[id], row.subject) && !s.db.users[id].managed
        && s.db.users[id].role == row.role && s.db.users[id].status == row.status)
      && (After(s, p, a).procs[p].Finished? || (After(s, p, a).procs[p].Refused? && After(s, p, a).db == s.db))
  {
  }

  // ----- callbacks -----

  /** A callback looks for the KyIdentity account of its subject, and only when there is none for one of SCIM's
      own to link. */
  lemma CallbackLooksUp(s: State, p: nat, a: Action)
    requires Enabled(s, p, a) && a.Advance? && (s.procs[p].CallbackFinds? || s.procs[p].CallbackFindsAgain?)
    ensures
      var id, claims := s.procs[p].id, s.procs[p].claims;
      var known := exists other :: other in s.db.users && IsKyIdentity(s.db.users[other], claims.subject);
      var next := After(s, p, a).procs[p];
      && After(s, p, a).db == s.db
      && (known ==>
        && a.pick in s.db.users && IsKyIdentity(s.db.users[a.pick], claims.subject)
        && next == CallbackChecks(claims, a.pick, s.db.users[a.pick]))
      && (!known ==> next == if s.procs[p].CallbackFinds? then CallbackAdopts(id, claims)
                             else CallbackProvisions(id, claims))
  {
    var claims := s.procs[p].claims;
    if other :| other in s.db.users && IsKyIdentity(s.db.users[other], claims.subject) {
      assert Looks(s, s.procs[p], other);
    }
  }

  lemma CallbackAdoptsScim(s: State, p: nat, a: Action)
    requires Enabled(s, p, a) && a.Advance? && s.procs[p].CallbackAdopts?
    ensures
      var CallbackAdopts(id, claims) := s.procs[p];
      var provisioned := claims.subject != "" && exists other ::
        other in s.db.users && s.db.users[other].provider == "scim" && s.db.users[other].subject == claims.subject;
      var next := After(s, p, a).procs[p];
      && After(s, p, a).db == s.db
      && (!provisioned ==> next == CallbackProvisions(id, claims))
      && (provisioned ==>
        && a.pick in s.db.users && s.db.users[a.pick].provider == "scim"
        && s.db.users[a.pick].subject == claims.subject
        && next == CallbackLinks(id, claims, a.pick, s.db.users[a.pick]))
  {
    var claims := s.procs[p].claims;
    if other :| other in s.db.users && HasIdentity(s.db.users[other], "scim", claims.subject) {
      assert Looks(s, s.procs[p], other);
    }
  }

  /** The link is made exactly when the row is still SCIM's own of that subject; otherwise the callback looks
      again. */
  lemma CallbackLinksOnce(s: State, p: nat, a: Action)
    requires Enabled(s, p, a) && a.Advance? && s.procs[p].CallbackLinks?
    ensures
      var CallbackLinks(id, claims, found, row) := s.procs[p];
      var own := found in s.db.users && s.db.users[found].provider == "scim"
        && s.db.users[found].subject == claims.subject;
      var s' := After(s, p, a);
      && (own ==>
        && s'.db.users == s.db.users[found := s.db.users[found].(provider := "kysignon")]
        && s'.procs[p] == CallbackChecks(claims, found, row.(provider := "kysignon")))
      && (!own ==> s'.db == s.db && s'.procs[p] == CallbackFindsAgain(id, claims))
  {
  }

  /** A provisioned account holds what the token says of the person; without a role claim it is a plain user. */
  lemma ProvisionStores(s: State, p: nat, a: Action)
    requires Enabled(s, p, a) && a.Advance? && s.procs[p].CallbackProvisions?
    ensures
      var CallbackProvisions(id, claims) := s.procs[p];
      var Claims(subject, username, email, name, role) := claims;
      var made := User(username, email, name, "", if role == None then "user" else role.value, "active", "kysignon",
                       subject, false, false);
      var s' := After(s, p, a);
      && (s'.procs[p].Refused? <==> a.refused || id in s.db.users)
      && (s'.procs[p].Refused? ==> s'.db == s.db)
      && (!s'.procs[p].Refused? ==>
        s'.db == s.db.(users := s.db.users[id := made]) && s'.procs[p] == CallbackChecks(claims, id, made))
  {
  }

  /** The account found is refused exactly when it is not active; its role is set exactly when the token carries
      another, and a token without a role leaves it alone. */
  lemma CallbackChecksAccount(s: State, p: nat, a: Action)
    requires Enabled(s, p, a) && a.Advance? && s.procs[p].CallbackChecks?
    ensures
      var CallbackChecks(claims, found, row) := s.procs[p];
      && After(s, p, a).db == s.db
      && After(s, p, a).procs[p] ==
        if row.status != "active" then Refused
        else if claims.role == None || claims.role == Some(row.role) then CallbackSignsIn(claims, found, row)
        else CallbackSetsRole(claims, found, row)
  {
  }

  /** And it is set only if role and status are still as found. */
  lemma CallbackSetsRoleOnce(s: State, p: nat, a: Action)
    requires Enabled(s, p, a) && a.Advance? && s.procs[p].CallbackSetsRole? && s.procs[p].claims.role.Some?
    ensures
      var CallbackSetsRole(claims, found, row) := s.procs[p];
      var same := found in s.db.users && s.db.users[found].role == row.role && s.db.users[found].status == row.status;
      var s' := After(s, p, a);
      && (same ==>
        && s'.procs[p] == CallbackSignsIn(claims, found, row.(role := claims.role.value))
        && s'.db.users == s.db.users[found := s.db.users[found].(role := claims.role.value)])
      && (!same ==> s'.procs[p].Refused? && s'.db == s.db)
  {
  }

  // ----- over whole runs -----

  predicate NoneHas(s: State, provider: string, subject: string) {
    forall id :: id in s.db.users ==> !HasIdentity(s.db.users[id], provider, subject)
  }

  ghost predicate UnknownOnce(run: seq<State>, n: nat, subject: string) {
    exists k :: 0 <= k < n && k < |run| && NoneHas(run[k], "kysignon", subject)
  }

  /** What a process that is about to make an account has seen. */
  ghost predicate Unknown(run: seq<State>, n: nat, proc: Process) {
    match proc
    case CreateByName(_, attrs) => Subject(attrs) == "" || UnknownOnce(run, n, Subject(attrs))
    case CreateInserts(_, attrs) => Subject(attrs) == "" || UnknownOnce(run, n, Subject(attrs))
    case CallbackAdopts(_, claims) => UnknownOnce(run, n, claims.subject)
    case CallbackLinks(_, claims, _, _) => UnknownOnce(run, n, claims.subject)
    case CallbackFindsAgain(_, claims) => UnknownOnce(run, n, claims.subject)
    case CallbackProvisions(_, claims) => UnknownOnce(run, n, claims.subject)
    case _ => true
  }

  lemma NextIsUnknown(run: seq<State>, n: nat, p: nat, a: Action)
    requires n + 1 < |run| && Enabled(run[n], p, a) && a.Advance? && Unknown(run, n, run[n].procs[p])
    ensures Unknown(run, n + 1, NextAt(run[n], p, a))
  {
    var s := run[n];
    var proc := s.procs[p];
    if (proc.CallbackFinds? || proc.CreateBySubject?) && !Looks(s, proc, a.pick) {
      var subject := if proc.CallbackFinds? then proc.claims.subject else Subject(proc.attrs);
      forall id | id in s.db.users ensures !HasIdentity(s.db.users[id], "kysignon", subject) {
        assert !Looks(s, proc, id);
      }
      assert NoneHas(s, "kysignon", subject);
    }
  }

  /** What a step makes of a process: nothing, its own next step, its end, or its start. */
  lemma BecomesOf(s: State, p: nat, a: Action, q: nat)
    requires Enabled(s, p, a) && q in After(s, p, a).procs
    ensures
      var proc := After(s, p, a).procs[q];
      || (q in s.procs && proc == s.procs[q])
      || (q in s.procs && q == p && a.Advance? && proc == NextAt(s, p, a))
      || proc.Refused? || (q !in s.procs && MayStart(s, proc))
  {
  }

  lemma StaysUnknown(run: seq<State>, n: nat, proc: Process)
    requires n + 1 < |run| && Unknown(run, n, proc)
    ensures Unknown(run, n + 1, proc)
  {
  }

  lemma UnknownNext(run: seq<State>, events: seq<Event>, n: nat, p: nat)
    requires IsRun(run, events) && n < |events| && p in run[n + 1].procs
    requires p in run[n].procs ==> Unknown(run, n, run[n].procs[p])
    ensures Unknown(run, n + 1, run[n + 1].procs[p])
  {
    var s, e, proc := run[n], events[n], run[n + 1].procs[p];
    BecomesOf(s, e.p, e.a, p);
    if p in s.procs && proc == s.procs[p] {
      StaysUnknown(run, n, proc);
    } else if p in s.procs && e.p == p && e.a.Advance? {
      NextIsUnknown(run, n, p, e.a);
    }
  }

  /** An account is made, by SCIM under an externalId or by a callback, only if at some moment before no KyIdentity
      account had that subject. */
  lemma MadeOnlyIfUnknown(run: seq<State>, events: seq<Event>, n: nat, p: nat)
    requires IsRun(run, events) && n < |run| && p in run[n].procs
    ensures Unknown(run, n, run[n].procs[p])
  {
    var good := seq(|run|, i requires 0 <= i < |run| => p in run[i].procs ==> Unknown(run, i, run[i].procs[p]));
    forall i, j | 0 <= i < n && j == i + 1 && good[i] ensures good[j] {
      if p in run[j].procs {
        UnknownNext(run, events, i, p);
      }
    }
    Throughout(good, 0, n);
  }

  /** KyIdentity's accounts of this subject are active and in the role the token asks for, and there is one. */
  predicate Welcome(s: State, claims: Claims) {
    && (exists id :: id in s.db.users && HasIdentity(s.db.users[id], "kysignon", claims.subject))
    && forall id :: id in s.db.users && HasIdentity(s.db.users[id], "kysignon", claims.subject) ==>
      s.db.users[id].status == "active" && (claims.role == None || claims.role == Some(s.db.users[id].role))
  }

  /** How far a callback for such an account has come. */
  predicate Arrives(proc: Process, claims: Claims, steps: nat) {
    match steps
    case 0 => proc.CallbackFinds? && proc.claims == claims
    case 1 => proc.CallbackChecks? && proc.claims == claims && proc.row.status == "active"
      && (claims.role == None || claims.role == Some(proc.row.role))
    case 2 => proc.CallbackSignsIn? && proc.claims == claims
    case _ => false
  }

  function Advances(events: seq<Event>, p: nat, i: nat, n: nat): nat
    requires n <= |events|
    decreases n
  {
    if n <= i then 0
    else Advances(events, p, i, n - 1) + if events[n - 1].p == p && events[n - 1].a.Advance? then 1 else 0
  }

  lemma StepArrives(s: State, p: nat, a: Action, claims: Claims, steps: nat)
    requires Enabled(s, p, a) && a.Advance? && Arrives(s.procs[p], claims, steps) && Welcome(s, claims)
    ensures Arrives(NextAt(s, p, a), claims, steps + 1) && After(s, p, a).db == s.db
  {
    if steps == 0 {
      var id :| id in s.db.users && HasIdentity(s.db.users[id], "kysignon", claims.subject);
      assert Looks(s, s.procs[p], id);
    }
  }

  lemma ArrivalFollows(s: State, q: nat, a: Action, p: nat, claims: Claims, steps: nat)
    requires Enabled(s, q, a) && p in s.procs && Arrives(s.procs[p], claims, steps)
    requires Welcome(s, claims) && !(q == p && a.Stop?)
    ensures p in After(s, q, a).procs
    ensures Arrives(After(s, q, a).procs[p], claims, if q == p && a.Advance? then steps + 1 else steps)
  {
    if q == p && a.Advance? {
      StepArrives(s, p, a, claims, steps);
    }
  }

  lemma CallbackStarts(s: State, p: nat, id: string, claims: Claims)
    requires Enabled(s, p, Start(CallbackFinds(id, claims)))
    ensures
      var s' := After(s, p, Start(CallbackFinds(id, claims)));
      p in s'.procs && Arrives(s'.procs[p], claims, 0)
  {
  }

  /** The step after state `k` carries the callback as far as it moves it. */
  ghost predicate Carries(run: seq<State>, events: seq<Event>, k: nat, p: nat, claims: Claims)
    requires k < |events| < |run|
  {
    forall steps: nat :: p in run[k].procs && Arrives(run[k].procs[p], claims, steps) ==>
      && p in run[k + 1].procs
      && Arrives(run[k + 1].procs[p], claims, if events[k].p == p && events[k].a.Advance? then steps + 1 else steps)
  }

  lemma RunCarries(run: seq<State>, events: seq<Event>, k: nat, p: nat, claims: Claims)
    requires IsRun(run, events) && k < |events| && Welcome(run[k], claims) && events[k] != Event(p, Stop)
    ensures Carries(run, events, k, p, claims)
  {
    forall steps: nat | p in run[k].procs && Arrives(run[k].procs[p], claims, steps)
      ensures p in run[k + 1].procs
      ensures
        var moved := if events[k].p == p && events[k].a.Advance? then steps + 1 else steps;
        Arrives(run[k + 1].procs[p], claims, moved)
    {
      ArrivalFollows(run[k], events[k].p, events[k].a, p, claims, steps);
    }
  }

  lemma {:induction false} CarriedFrom(run: seq<State>, events: seq<Event>, i: nat, n: nat, p: nat, claims: Claims)
    requires i < n <= |events| < |run| && p in run[i + 1].procs && Arrives(run[i + 1].procs[p], claims, 0)
    requires forall k :: i < k < n ==> Carries(run, events, k, p, claims)
    ensures p in run[n].procs && Arrives(run[n].procs[p], claims, Advances(events, p, i + 1, n))
    decreases n
  {
    if i < n - 1 {
      CarriedFrom(run, events, i, n - 1, p, claims);
      assert Carries(run, events, n - 1, p, claims);
    }
  }

  /** A callback for a person whose KyIdentity account stays active and in the token's role is never refused:
      unless it is cut off, it is at session creation after two steps. */
  lemma KnownPersonSignsIn(run: seq<State>, events: seq<Event>, i: nat, n: nat, p: nat, id: string, claims: Claims)
    requires IsRun(run, events) && i < n < |run| && events[i] == Event(p, Start(CallbackFinds(id, claims)))
    requires forall k {:trigger Welcome(run[k], claims)} :: i < k < n ==> Welcome(run[k], claims)
    requires forall k {:trigger events[k]} :: i < k < n ==> events[k] != Event(p, Stop)
    ensures p in run[n].procs && Advances(events, p, i + 1, n) <= 2
    ensures Arrives(run[n].procs[p], claims, Advances(events, p, i + 1, n))
  {
    CallbackStarts(run[i], p, id, claims);
    forall k | i < k < n ensures Carries(run, events, k, p, claims) {
      assert Welcome(run[k], claims);
      RunCarries(run, events, k, p, claims);
    }
    CarriedFrom(run, events, i, n, p, claims);
  }

  /** And on the way it writes nothing. */
  lemma KnownPersonChangesNothing(run: seq<State>, events: seq<Event>, i: nat, n: nat, p: nat, id: string,
                                  claims: Claims)
    requires IsRun(run, events) && i < n < |events| && events[i] == Event(p, Start(CallbackFinds(id, claims)))
    requires forall k {:trigger Welcome(run[k], claims)} :: i < k <= n ==> Welcome(run[k], claims)
    requires forall k {:trigger events[k]} :: i < k <= n ==> events[k] != Event(p, Stop)
    requires events[n].p == p && events[n].a.Advance?
    ensures run[n + 1].db == run[n].db
  {
    KnownPersonSignsIn(run, events, i, n, p, id, claims);
    assert Welcome(run[n], claims);
    StepArrives(run[n], p, events[n].a, claims, Advances(events, p, i + 1, n));
  }
}
