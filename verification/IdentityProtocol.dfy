/** SCIM provisioning and KyIdentity sign-in as processes that read rows, wait for the handler's
    mutex and write back by compare-and-swap, interleaved with each other and with the local
    account writes (internal/scim/handler.go, internal/api/sso_handlers.go, internal/sso/kysignon.go). */
module IdentityProtocol {
  import opened Accounts
  import opened Basics
  import opened ScimUser

  datatype Request = Put(attrs: Attributes) | Patch(ops: seq<Operation>)

  /** What an ID token says of its user; `role` is LocalRole, None when the token carries none. */
  datatype Claims = Claims(subject: string, username: string, email: string, name: string, role: Option<string>)

  datatype Process =
    // userResourceHandler.update, behind Replace and Patch
    | UpdateWaits(id: string, request: Request)
    | UpdateReads(id: string, request: Request, attempt: nat)
    | UpdateWrites(id: string, request: Request, attempt: nat, row: User)
    | Updated(id: string, attempts: nat)
    // userResourceHandler.Create and takeOver
    | CreateBySubject(id: string, attrs: Attributes)
    | CreateByName(id: string, attrs: Attributes)
    | CreateInserts(id: string, attrs: Attributes)
    | TakeOverWaits(id: string, attrs: Attributes, row: User)
    | TakeOverWrites(id: string, attrs: Attributes, row: User)
    // userResourceHandler.Delete
    | DeleteReads(id: string)
    | DeleteWrites(id: string)
    // handleKySignOnCallback and AdoptSCIMUser
    | CallbackFinds(id: string, claims: Claims)
    | CallbackAdopts(id: string, claims: Claims)
    | CallbackLinks(id: string, claims: Claims, found: string, row: User)
    | CallbackFindsAgain(id: string, claims: Claims)
    | CallbackProvisions(id: string, claims: Claims)
    | CallbackChecks(claims: Claims, found: string, row: User)
    | CallbackSetsRole(claims: Claims, found: string, row: User)
    | CallbackSignsIn(claims: Claims, found: string, row: User)
    // one member of a group PATCH or PUT
    | MemberReads(group: string, id: string)
    | MemberWrites(group: string, id: string)
    | Finished
    | Refused

  /** `ids` is every account id ever stored: new ids are drawn at random, never one of these.
      `holder` holds the SCIM user mutex. */
  datatype State = State(db: Db, allowAdmin: bool, ids: set<string>, holder: Option<nat>, procs: map<nat, Process>)

  /** `pick` is the row a lookup that matches several returns; `visit` is the request as this
      attempt's passes over its maps read it; `refused` is the answer of the name check, which may
      have been made before the write lands. */
  datatype Action =
    | Advance(pick: string, visit: Request, refused: bool)
    | Start(proc: Process)
    | Stop
    | Local(w: Write, refused: bool)

  // ----- requests -----

  ghost predicate SameOperation(a: Operation, b: Operation) {
    a.kind == b.kind && a.path == b.path && a.value == b.value && WellFormed(b)
  }

  /** The same request; only the order in which its maps are visited may differ. */
  ghost predicate SameRequest(a: Request, b: Request) {
    match a
    case Put(attrs) => b == a
    case Patch(ops) => b.Patch? && |b.ops| == |ops| && forall i :: 0 <= i < |ops| ==> SameOperation(ops[i], b.ops[i])
  }

  ghost predicate Readable(request: Request) {
    request.Patch? ==> forall op :: op in request.ops ==> WellFormed(op)
  }

  function Change(request: Request, row: User): Result<User>
    requires Readable(request)
  {
    match request
    case Put(attrs) => Success(ReplaceUser(row, attrs))
    case Patch(ops) => PatchUser(row, ops)
  }

  function Username(attrs: Attributes): string {
    if TextAt(attrs, "userName").Some? then TextAt(attrs, "userName").value else ""
  }

  function Subject(attrs: Attributes): string {
    StringValue(attrs, "externalId", "")
  }

  /** The row a create inserts when KyIdentity has no account for the person. */
  function NewScimRow(attrs: Attributes): User {
    User(Username(attrs), PrimaryValue(At(attrs, "emails")), StringValue(attrs, "displayName", Username(attrs)), "",
         RoleValue(At(attrs, "roles")), StatusFromActive(attrs), "scim", Subject(attrs), true, false)
  }

  function NewKyIdentityRow(claims: Claims): User {
    var role := if claims.role.Some? then claims.role.value else "user";
    User(claims.username, claims.email, claims.name, "", role, "active",
         "kysignon", claims.subject, false, false)
  }

  function TakenOver(row: User, attrs: Attributes): User {
    ReplaceUser(row, attrs).(subject := row.subject)
  }

  // ----- steps -----

  predicate HasIdentity(row: User, provider: string, subject: string) {
    row.provider == provider && row.subject == subject
  }

  /** GetUserBySSO and GetUserByUsername: a matching row when there is one. */
  predicate Looks(s: State, proc: Process, id: string) {
    id in s.db.users &&
    match proc
    case CreateBySubject(_, attrs) => HasIdentity(s.db.users[id], "kysignon", Subject(attrs))
    case CreateByName(_, attrs) => Lower(s.db.users[id].username) == Lower(Username(attrs))
    case CallbackFinds(_, claims) => HasIdentity(s.db.users[id], "kysignon", claims.subject)
    case CallbackFindsAgain(_, claims) => HasIdentity(s.db.users[id], "kysignon", claims.subject)
    case CallbackAdopts(_, claims) => HasIdentity(s.db.users[id], "scim", claims.subject)
    case _ => false
  }

  predicate PickOk(s: State, proc: Process, pick: string) {
    Looks(s, proc, pick) || forall id :: id in s.db.users ==> !Looks(s, proc, id)
  }

  predicate MayStart(s: State, proc: Process) {
    match proc
    case UpdateWaits(_, _) => true
    case CreateBySubject(_, _) => true
    case DeleteReads(_) => true
    case CallbackFinds(_, _) => true
    case MemberReads(_, _) => true
    case _ => false
  }

  /** Writes of local accounts: the CLI, the bootstrap administrator and password changes. */
  predicate LocalWrite(w: Write) {
    w.ChangePassword? || w.ResetPassword? || (w.Create? && w.row.provider == "local" && !w.row.managed)
  }

  predicate Inserts(proc: Process) { proc.CreateInserts? || proc.CallbackProvisions? }

  predicate Waits(proc: Process) { proc.UpdateWaits? || proc.TakeOverWaits? }

  predicate Runs(proc: Process) { !proc.Updated? && !proc.Finished? && !proc.Refused? && !proc.CallbackSignsIn? }

  ghost predicate Enabled(s: State, p: nat, a: Action) {
    match a
    case Advance(pick, visit, _) =>
      && p in s.procs && Runs(s.procs[p]) && PickOk(s, s.procs[p], pick)
      && (Waits(s.procs[p]) ==> s.holder.None?)
      && (Inserts(s.procs[p]) ==> s.procs[p].id !in s.ids)
      && (s.procs[p].UpdateWrites? ==> SameRequest(s.procs[p].request, visit) && Readable(visit))
    case Start(proc) => p !in s.procs && MayStart(s, proc)
    case Stop => p in s.procs && Runs(s.procs[p])
    case Local(w, _) => LocalWrite(w) && (w.Create? ==> w.id !in s.ids)
  }

  /** The write an attempt of `update` sends, or None when it is refused before the store. */
  function UpdateWrite(proc: Process, visit: Request, allowAdmin: bool): Option<Write>
    requires proc.UpdateWrites? && Readable(visit)
  {
    var changed := Change(visit, proc.row);
    if changed.Failure? || AdminRefused(proc.row.role, changed.value.role, allowAdmin) then None
    else Some(WriteOf(proc.id, proc.row, changed.value))
  }

  function TakeOverWrite(proc: Process, allowAdmin: bool): Option<Write>
    requires proc.TakeOverWrites?
  {
    var changed := TakenOver(proc.row, proc.attrs);
    if AdminRefused(proc.row.role, changed.role, allowAdmin) then None
    else Some(TakeOver(proc.id, changed, proc.row.role, proc.row.status))
  }

  /** The write a process sends to the account table with its next step, if it sends one. */
  function WriteBy(proc: Process, visit: Request, allowAdmin: bool): Option<Write>
    requires proc.UpdateWrites? ==> Readable(visit)
  {
    match proc
    case UpdateWrites(_, _, _, _) => UpdateWrite(proc, visit, allowAdmin)
    case TakeOverWrites(_, _, _) => TakeOverWrite(proc, allowAdmin)
    case CreateInserts(id, attrs) =>
      if AdminRefused("", NewScimRow(attrs).role, allowAdmin) then None else Some(Create(id, NewScimRow(attrs)))
    case DeleteWrites(id) => Some(Delete(id))
    case CallbackLinks(_, claims, found, _) => Some(Link(found, claims.subject))
    case CallbackProvisions(id, claims) => Some(Create(id, NewKyIdentityRow(claims)))
    case CallbackSetsRole(claims, found, row) =>
      Some(SetRole(found, if claims.role.Some? then claims.role.value else row.role, row.role, row.status))
    case _ => None
  }

  /** What the store answers to it. */
  function Answer(db: Db, w: Option<Write>, refused: bool): Option<Outcome> {
    match w
    case None => None
    case Some(write) => Some(Sent(db, write, refused).1)
  }

  /** Where a process goes with its next step, the store having given this answer to its write. */
  function Next(s: State, proc: Process, pick: string, answer: Option<Outcome>): Process {
    var ok := answer == Some(Ok);
    match proc
    case UpdateWaits(id, request) => UpdateReads(id, request, 0)
    case UpdateReads(id, request, attempt) =>
      if id in s.db.users && s.db.users[id].managed then UpdateWrites(id, request, attempt, s.db.users[id]) else Refused
    case UpdateWrites(id, request, attempt, _) =>
      if ok then Updated(id, attempt + 1)
      else if answer == Some(Conflict) && attempt < 3 then UpdateReads(id, request, attempt + 1)
      else Refused
    case CreateBySubject(id, attrs) =>
      if Subject(attrs) == "" || !Looks(s, proc, pick) then CreateByName(id, attrs)
      else if s.db.users[pick].managed then Refused
      else TakeOverWaits(pick, attrs, s.db.users[pick])
    case CreateByName(id, attrs) =>
      if Looks(s, proc, pick) && s.db.users[pick].provider == "kysignon" && !s.db.users[pick].managed then
        if Subject(attrs) != "" && Subject(attrs) != s.db.users[pick].subject then Refused
        else TakeOverWaits(pick, attrs, s.db.users[pick])
      else CreateInserts(id, attrs)
    case CreateInserts(_, _) => if ok then Finished else Refused
    case TakeOverWaits(id, attrs, row) => TakeOverWrites(id, attrs, row)
    case TakeOverWrites(_, _, _) => if ok then Finished else Refused
    case DeleteReads(id) => if id in s.db.users && s.db.users[id].managed then DeleteWrites(id) else Refused
    case DeleteWrites(_) => if ok then Finished else Refused
    case MemberReads(group, id) =>
      if id in s.db.users && s.db.users[id].managed then MemberWrites(group, id) else Refused
    case MemberWrites(_, id) => if id in s.db.users then Finished else Refused
    case CallbackFinds(id, claims) =>
      if Looks(s, proc, pick) then CallbackChecks(claims, pick, s.db.users[pick]) else CallbackAdopts(id, claims)
    case CallbackAdopts(id, claims) =>
      if claims.subject != "" && Looks(s, proc, pick) then CallbackLinks(id, claims, pick, s.db.users[pick])
      else CallbackProvisions(id, claims)
    case CallbackLinks(id, claims, found, row) =>
      if ok then CallbackChecks(claims, found, row.(provider := "kysignon")) else CallbackFindsAgain(id, claims)
    case CallbackFindsAgain(id, claims) =>
      if Looks(s, proc, pick) then CallbackChecks(claims, pick, s.db.users[pick]) else CallbackProvisions(id, claims)
    case CallbackProvisions(id, claims) => if ok then CallbackChecks(claims, id, NewKyIdentityRow(claims)) else Refused
    case CallbackChecks(claims, found, row) =>
      if row.status != "active" then Refused
      else if claims.role.Some? && claims.role.value != row.role then CallbackSetsRole(claims, found, row)
      else CallbackSignsIn(claims, found, row)
    case CallbackSetsRole(claims, found, row) =>
      if ok then CallbackSignsIn(claims, found, if claims.role.Some? then row.(role := claims.role.value) else row)
      else Refused
    case _ => proc
  }

  predicate Locks(proc: Process) { proc.UpdateReads? || proc.UpdateWrites? || proc.TakeOverWrites? }

  /** The write `a` sends. */
  function WriteAt(s: State, p: nat, a: Action): Option<Write>
    requires Enabled(s, p, a)
  {
    match a
    case Local(w, _) => Some(w)
    case Start(_) => None
    case Stop => None
    case Advance(_, visit, _) => WriteBy(s.procs[p], visit, s.allowAdmin)
  }

  function DbAfter(s: State, p: nat, a: Action): Db
    requires Enabled(s, p, a)
  {
    var w := WriteAt(s, p, a);
    if w.Some? then Sent(s.db, w.value, a.refused).0
    else if a.Advance? && s.procs[p].MemberWrites? && s.procs[p].id in s.db.users then
      s.db.(members := s.db.members + {(s.procs[p].group, s.procs[p].id)})
    else s.db
  }

  function NextAt(s: State, p: nat, a: Action): Process
    requires Enabled(s, p, a) && !a.Local?
  {
    if a.Start? then a.proc
    else if a.Stop? then Refused // a store call failed, or the connection is gone
    else Next(s, s.procs[p], a.pick, Answer(s.db, WriteAt(s, p, a), a.refused))
  }

  /** The mutex is held from the step that enters its section to the step that leaves it. */
  function HolderAfter(s: State, p: nat, proc: Process): Option<nat> {
    if Locks(proc) then Some(p) else if s.holder == Some(p) then None else s.holder
  }

  function After(s: State, p: nat, a: Action): State
    requires Enabled(s, p, a)
  {
    var w := WriteAt(s, p, a);
    var ids := if w.Some? && w.value.Create? then s.ids + {w.value.id} else s.ids;
    if a.Local? then s.(db := DbAfter(s, p, a), ids := ids)
    else
      var proc := NextAt(s, p, a);
      s.(db := DbAfter(s, p, a), ids := ids, holder := HolderAfter(s, p, proc), procs := s.procs[p := proc])
  }

  // ----- a change reads only the profile -----

  /** The rows agree on everything a SCIM request reads or writes. */
  predicate SameProfile(a: User, b: User) {
    && a.username == b.username && a.email == b.email && a.displayName == b.displayName
    && a.role == b.role && a.status == b.status && a.subject == b.subject
  }

  /** The rows agree on everything else. */
  predicate SameAccount(a: User, b: User) {
    a.passwordHash == b.passwordHash && a.provider == b.provider && a.managed == b.managed
      && a.mustChange == b.mustChange
  }

  predicate Alike(a: Result<User>, b: Result<User>) {
    match a
    case Success(user) => b.Success? && SameProfile(user, b.value)
    case Failure(_) => a == b
  }

  lemma AssignReadsProfile(a: User, b: User, attribute: Attribute, value: Value)
    requires SameProfile(a, b)
    ensures SameProfile(Assign(a, attribute, value), Assign(b, attribute, value))
    ensures SameAccount(Assign(a, attribute, value), a)
  {
  }

  lemma {:induction false} ValuesReadProfile(a: User, b: User, fields: Attributes, order: seq<string>)
    requires SameProfile(a, b) && forall k :: k in order ==> k in fields
    ensures SameProfile(ApplyValues(a, fields, order), ApplyValues(b, fields, order))
    ensures SameAccount(ApplyValues(a, fields, order), a)
    decreases |order|
  {
    if order != [] {
      var attribute, value := AttributeOf(Lower(order[0])), fields[order[0]];
      AssignReadsProfile(a, b, attribute, value);
      ValuesReadProfile(Assign(a, attribute, value), Assign(b, attribute, value), fields, order[1..]);
    }
  }

  lemma SingleReadsProfile(a: User, b: User, attr: string, op: Operation)
    requires SameProfile(a, b)
    ensures SameProfile(ApplySingle(a, attr, op), ApplySingle(b, attr, op)) && SameAccount(ApplySingle(a, attr, op), a)
  {
    AssignReadsProfile(a, b, AttributeOf(attr), op.value);
  }

  lemma MultiReadsProfile(a: User, b: User, attr: string, op: Operation)
    requires SameProfile(a, b)
    ensures SameProfile(ApplyMulti(a, attr, op), ApplyMulti(b, attr, op)) && SameAccount(ApplyMulti(a, attr, op), a)
    ensures Candidate(a, attr, op) == Candidate(b, attr, op)
  {
    AssignReadsProfile(a, b, AttributeOf(attr), op.value);
  }

  lemma OperationReadsProfile(a: User, b: User, op: Operation)
    requires SameProfile(a, b) && WellFormed(op)
    ensures Alike(PatchOne(a, op), PatchOne(b, op))
    ensures PatchOne(a, op).Success? ==> SameAccount(PatchOne(a, op).value, a)
  {
    if op.path.Named? {
      SingleReadsProfile(a, b, Lower(op.path.attr), op);
      MultiReadsProfile(a, b, Lower(op.path.attr), op);
    } else if !op.kind.Remove? && op.value.Object? {
      ValuesReadProfile(a, b, op.value.fields, op.order);
    }
  }

  lemma {:induction false} PatchReadsProfile(a: User, b: User, ops: seq<Operation>)
    requires SameProfile(a, b) && forall op :: op in ops ==> WellFormed(op)
    ensures Alike(PatchUser(a, ops), PatchUser(b, ops))
    ensures PatchUser(a, ops).Success? ==> SameAccount(PatchUser(a, ops).value, a)
    decreases |ops|
  {
    if ops != [] {
      OperationReadsProfile(a, b, ops[0]);
      if PatchOne(a, ops[0]).Success? {
        PatchReadsProfile(PatchOne(a, ops[0]).value, PatchOne(b, ops[0]).value, ops[1..]);
      }
    }
  }

  /** A change reads and writes nothing but the profile: not the password, the provider, the
      managed flag or the must-change flag. */
  lemma ChangeReadsProfile(request: Request, a: User, b: User)
    requires SameProfile(a, b) && Readable(request)
    ensures Alike(Change(request, a), Change(request, b))
    ensures Change(request, a).Success? ==> SameAccount(Change(request, a).value, a)
  {
    if request.Patch? {
      PatchReadsProfile(a, b, request.ops);
    }
  }

  // ----- invariants -----

  /** SCIM manages every "scim" account and no local one, and every group member is managed. */
  predicate TablesOk(db: Db) {
    && (forall id :: id in db.users && db.users[id].provider == "local" ==> !db.users[id].managed)
    && (forall id :: id in db.users && db.users[id].provider == "scim" ==> db.users[id].managed)
    && (forall m :: m in db.members ==> m.1 in db.users && db.users[m.1].managed)
  }

  predicate SameNames(a: User, b: User) {
    a.username == b.username && a.email == b.email && a.displayName == b.displayName
  }

  /** What a process may rely on of the rows it read, whatever ran since. */
  predicate ProcOk(s: State, proc: Process) {
    match proc
    case UpdateReads(_, _, attempt) => attempt <= 3
    case UpdateWrites(id, _, attempt, row) =>
      && attempt <= 3 && id in s.ids && row.managed
      && (id in s.db.users ==> IdentityStep(row, s.db.users[id]) && SameNames(row, s.db.users[id]))
    case Updated(_, attempts) => attempts <= 4
    case TakeOverWaits(id, _, row) => id in s.ids && row.provider == "kysignon"
    case TakeOverWrites(id, _, row) => id in s.ids && row.provider == "kysignon"
    case DeleteWrites(id) => id in s.ids && (id in s.db.users ==> s.db.users[id].managed)
    case MemberWrites(_, id) => id in s.ids && (id in s.db.users ==> s.db.users[id].managed)
    case CallbackLinks(_, claims, found, row) => found in s.ids && row.subject == claims.subject
    case CallbackChecks(claims, found, row) => SignsInAs(s, claims, found, row)
    case CallbackSetsRole(claims, found, row) => SignsInAs(s, claims, found, row) && row.status == "active"
    case CallbackSignsIn(claims, found, row) =>
      && SignsInAs(s, claims, found, row) && row.status == "active"
      && (claims.role.Some? ==> row.role == claims.role.value)
    case _ => true
  }

  /** The account, while it exists, is the KyIdentity account of the claimed subject. */
  predicate SignsInAs(s: State, claims: Claims, id: string, row: User) {
    && id in s.ids && HasIdentity(row, "kysignon", claims.subject)
    && (id in s.db.users ==> HasIdentity(s.db.users[id], "kysignon", claims.subject))
  }

  predicate Inv(s: State) {
    && TablesOk(s.db) && s.db.users.Keys <= s.ids
    && (forall p :: p in s.procs ==> ProcOk(s, s.procs[p]))
    && (forall p :: p in s.procs && Locks(s.procs[p]) ==> s.holder == Some(p))
  }

  predicate AccountsFollow(s: State, s': State) {
    && s'.db.users.Keys <= s'.ids && s.ids <= s'.ids
    && forall id :: id in s'.db.users && id in s.ids ==>
      id in s.db.users && IdentityStep(s.db.users[id], s'.db.users[id])
  }

  predicate NamesStay(s: State, s': State) {
    forall id :: id in s'.db.users && id in s.ids && id in s.db.users ==> SameNames(s.db.users[id], s'.db.users[id])
  }

  predicate Renames(w: Option<Write>) { w.Some? && (w.value.ScimUpdate? || w.value.TakeOver?) }

  lemma NamesChangeOnlyByScim(db: Db, w: Write)
    requires !w.ScimUpdate? && !w.TakeOver?
    ensures forall id :: id in db.users && id in Land(db, w).0.users ==>
      SameNames(db.users[id], Land(db, w).0.users[id])
  {
  }

  lemma NewIdIsFresh(s: State, p: nat, a: Action)
    requires Enabled(s, p, a) && WriteAt(s, p, a).Some? && WriteAt(s, p, a).value.Create?
    ensures WriteAt(s, p, a).value.id !in s.ids
  {
  }

  lemma WriteFollows(db: Db, w: Write, refused: bool, ids: set<string>)
    requires db.users.Keys <= ids && (w.Create? ==> w.id !in ids)
    ensures
      var after := Sent(db, w, refused).0;
      && after.users.Keys <= (if w.Create? then ids + {w.id} else ids)
      && (forall id :: id in after.users && id in ids ==> id in db.users && IdentityStep(db.users[id], after.users[id]))
      && (!w.ScimUpdate? && !w.TakeOver? ==> forall id :: id in after.users && id in db.users ==>
        SameNames(db.users[id], after.users[id]))
  {
    WriteKeepsIdentity(db, w);
    if !w.ScimUpdate? && !w.TakeOver? {
      NamesChangeOnlyByScim(db, w);
    }
  }

  lemma WriteStepFollows(s: State, p: nat, a: Action)
    requires s.db.users.Keys <= s.ids && Enabled(s, p, a) && WriteAt(s, p, a).Some?
    ensures AccountsFollow(s, After(s, p, a))
    ensures !Renames(WriteAt(s, p, a)) ==> NamesStay(s, After(s, p, a))
  {
    if WriteAt(s, p, a).value.Create? {
      NewIdIsFresh(s, p, a);
    }
    WriteFollows(s.db, WriteAt(s, p, a).value, a.refused, s.ids);
  }

  lemma StepAccountsFollow(s: State, p: nat, a: Action)
    requires s.db.users.Keys <= s.ids && Enabled(s, p, a)
    ensures AccountsFollow(s, After(s, p, a))
    ensures !Renames(WriteAt(s, p, a)) ==> NamesStay(s, After(s, p, a))
  {
    if WriteAt(s, p, a).Some? {
      WriteStepFollows(s, p, a);
    }
  }

  lemma RenamerHoldsMutex(s: State, p: nat, a: Action)
    requires Inv(s) && Enabled(s, p, a) && Renames(WriteAt(s, p, a))
    ensures a.Advance? && s.holder == Some(p)
  {
  }

  lemma ProcStaysOk(s: State, s': State, proc: Process)
    requires ProcOk(s, proc) && AccountsFollow(s, s') && s.db.users.Keys <= s.ids
    requires proc.UpdateWrites? ==> NamesStay(s, s')
    ensures ProcOk(s', proc)
  {
  }

  lemma NextIsOk(s: State, proc: Process, pick: string, answer: Option<Outcome>)
    requires Inv(s) && ProcOk(s, proc) && !proc.CallbackLinks? && !proc.CallbackProvisions?
    ensures ProcOk(s, Next(s, proc, pick, answer))
  {
  }

  /** A link or a new account that the store accepted is the claimed KyIdentity account. */
  lemma NewIdentityIsOk(s: State, p: nat, a: Action)
    requires Inv(s) && Enabled(s, p, a) && a.Advance? && (s.procs[p].CallbackLinks? || s.procs[p].CallbackProvisions?)
    ensures ProcOk(After(s, p, a), NextAt(s, p, a))
  {
    var proc, w := s.procs[p], WriteAt(s, p, a).value;
    assert ProcOk(s, proc);
    StepAccountsFollow(s, p, a);
    if Sent(s.db, w, a.refused).1.Ok? {
      if proc.CallbackLinks? {
        assert After(s, p, a).db.users[proc.found] == Rewrite(s.db.users[proc.found], w);
      } else {
        assert After(s, p, a).db.users[w.id] == NewKyIdentityRow(proc.claims);
      }
    }
  }

  lemma OwnStepStaysOk(s: State, p: nat, a: Action)
    requires Inv(s) && Enabled(s, p, a) && !a.Local?
    ensures ProcOk(After(s, p, a), NextAt(s, p, a))
  {
    if a.Advance? {
      var proc := s.procs[p];
      assert ProcOk(s, proc);
      if proc.CallbackLinks? || proc.CallbackProvisions? {
        NewIdentityIsOk(s, p, a);
      } else {
        NextIsOk(s, proc, a.pick, Answer(s.db, WriteAt(s, p, a), a.refused));
        StepAccountsFollow(s, p, a);
        if NextAt(s, p, a).UpdateWrites? {
          NeverEntersWriting(s, p, a);
        }
        ProcStaysOk(s, After(s, p, a), NextAt(s, p, a));
      }
    }
  }

  /** The step that reads a row for `update` writes nothing. */
  lemma NeverEntersWriting(s: State, p: nat, a: Action)
    requires Enabled(s, p, a) && a.Advance? && NextAt(s, p, a).UpdateWrites?
    ensures WriteAt(s, p, a).None?
  {
  }

  lemma LocksStayHeld(s: State, p: nat, a: Action)
    requires Inv(s) && Enabled(s, p, a) && !a.Local?
    requires Locks(NextAt(s, p, a)) ==> s.holder.None? || s.holder == Some(p)
    ensures forall q :: q in After(s, p, a).procs && Locks(After(s, p, a).procs[q]) ==> After(s, p, a).holder == Some(q)
  {
    forall q | q in After(s, p, a).procs && Locks(After(s, p, a).procs[q]) ensures After(s, p, a).holder == Some(q) {
      assert q != p ==> s.holder == Some(q);
    }
  }

  lemma EntersUnderMutex(s: State, p: nat, a: Action)
    requires Inv(s) && Enabled(s, p, a) && !a.Local? && Locks(NextAt(s, p, a))
    ensures s.holder.None? || s.holder == Some(p)
  {
  }

  lemma ProcsStayOk(s: State, p: nat, a: Action, q: nat)
    requires Inv(s) && Enabled(s, p, a) && q in After(s, p, a).procs
    ensures ProcOk(After(s, p, a), After(s, p, a).procs[q])
  {
    if a.Local? || q != p {
      StepAccountsFollow(s, p, a);
      if Renames(WriteAt(s, p, a)) {
        RenamerHoldsMutex(s, p, a);
      }
      assert ProcOk(s, s.procs[q]);
      ProcStaysOk(s, After(s, p, a), s.procs[q]);
    } else {
      OwnStepStaysOk(s, p, a);
    }
  }

  lemma MembersStayStored(db: Db, w: Write, m: (string, string))
    requires TablesOk(db) && m in Land(db, w).0.members
    ensures m in db.members && m.1 in Land(db, w).0.users
  {
  }

  lemma WriteKeepsTables(db: Db, w: Write)
    requires TablesOk(db)
    requires w.Create? ==>
      (w.row.provider == "local" ==> !w.row.managed) && (w.row.provider == "scim" ==> w.row.managed)
    ensures TablesOk(Land(db, w).0)
  {
    var db' := Land(db, w).0;
    WriteKeepsIdentity(db, w);
    forall m | m in db'.members ensures m.1 in db'.users && db'.users[m.1].managed {
      MembersStayStored(db, w, m);
    }
  }

  lemma TablesStayOk(s: State, p: nat, a: Action)
    requires Inv(s) && Enabled(s, p, a)
    ensures TablesOk(After(s, p, a).db)
  {
    if WriteAt(s, p, a).Some? {
      WriteKeepsTables(s.db, WriteAt(s, p, a).value);
    } else if a.Advance? {
      assert ProcOk(s, s.procs[p]);
    }
  }

  lemma StepKeepsInv(s: State, p: nat, a: Action)
    requires Inv(s) && Enabled(s, p, a)
    ensures Inv(After(s, p, a))
  {
    TablesStayOk(s, p, a);
    StepAccountsFollow(s, p, a);
    if !a.Local? {
      if Locks(NextAt(s, p, a)) {
        EntersUnderMutex(s, p, a);
      }
      LocksStayHeld(s, p, a);
    }
    var s' := After(s, p, a);
    forall q | q in s'.procs ensures ProcOk(s', s'.procs[q]) {
      ProcsStayOk(s, p, a, q);
    }
  }

  // ----- runs -----

  datatype Event = Event(p: nat, a: Action)

  predicate Initial(s: State) {
    TablesOk(s.db) && s.db.users.Keys <= s.ids && s.holder.None? && s.procs == map[]
  }

  ghost predicate IsRun(run: seq<State>, events: seq<Event>) {
    && |run| == |events| + 1 && Initial(run[0])
    && forall i :: 0 <= i < |events| ==>
      Enabled(run[i], events[i].p, events[i].a) && run[i + 1] == After(run[i], events[i].p, events[i].a)
  }

  lemma {:induction false} RunKeepsInv(run: seq<State>, events: seq<Event>, n: nat)
    requires IsRun(run, events) && n < |run|
    ensures Inv(run[n])
  {
    if n > 0 {
      RunKeepsInv(run, events, n - 1);
      StepKeepsInv(run[n - 1], events[n - 1].p, events[n - 1].a);
    }
  }

  /** What a committed PUT or PATCH leaves of a row: the request applied to that very row, the
      subject only while the row is SCIM's own. */
  function WrittenBy(request: Request, row: User): User
    requires Readable(request) && Change(request, row).Success?
  {
    var changed := Change(request, row).value;
    changed.(subject := if row.provider == "scim" then changed.subject else row.subject)
  }

  /** Step `n` commits an attempt of `update` by the process it moves. */
  ghost predicate CommitsUpdate(run: seq<State>, events: seq<Event>, n: nat) {
    && n < |events| < |run| && events[n].a.Advance? && events[n].p in run[n].procs && events[n].p in run[n + 1].procs
    && run[n].procs[events[n].p].UpdateWrites? && run[n + 1].procs[events[n].p].Updated? && Readable(events[n].a.visit)
  }

  /** However role changes, adoptions and take-overs interleave, a committed SCIM update stores
      exactly its request applied to the row as it stood at the commit, not as it was read, and
      touches no other row; it took at most four attempts. */
  lemma ScimUpdateIsAtomic(run: seq<State>, events: seq<Event>, n: nat)
    requires IsRun(run, events) && CommitsUpdate(run, events, n)
    ensures
      var id, visit := run[n].procs[events[n].p].id, events[n].a.visit;
      && id in run[n].db.users && run[n].db.users[id].managed && Change(visit, run[n].db.users[id]).Success?
      && run[n + 1].db.users == run[n].db.users[id := WrittenBy(visit, run[n].db.users[id])]
      && SameRequest(run[n].procs[events[n].p].request, visit)
      && 1 <= run[n + 1].procs[events[n].p].attempts <= 4
  {
    RunKeepsInv(run, events, n);
    var s, p := run[n], events[n].p;
    var UpdateWrites(id, request, attempt, row) := s.procs[p];
    var visit := events[n].a.visit;
    assert ProcOk(s, s.procs[p]);
    var w := WriteAt(s, p, events[n].a).value;
    var now := s.db.users[id];
    assert Land(s.db, w).1.Ok? && Matches(now, w) && SameProfile(row, now);
    ChangeReadsProfile(visit, row, now);
    ChangeReadsProfile(visit, now, row);
    assert Rewrite(now, w) == WrittenBy(visit, now);
  }

  /** A take-over stores the create's attributes on the row as it stood at the commit, an
      unmanaged KyIdentity account whose subject and id it keeps. */
  lemma TakeOverIsAtomic(run: seq<State>, events: seq<Event>, n: nat)
    requires IsRun(run, events) && n < |events| && events[n].a.Advance?
    requires run[n].procs[events[n].p].TakeOverWrites? && run[n + 1].procs[events[n].p].Finished?
    ensures
      var TakeOverWrites(id, attrs, _) := run[n].procs[events[n].p];
      && id in run[n].db.users && run[n].db.users[id].provider == "kysignon" && !run[n].db.users[id].managed
      && run[n + 1].db.users == run[n].db.users[id := TakenOver(run[n].db.users[id], attrs).(managed := true)]
  {
    var s, p := run[n], events[n].p;
    var TakeOverWrites(id, attrs, row) := s.procs[p];
    var w := WriteAt(s, p, events[n].a).value;
    assert Land(s.db, w).1.Ok? && Matches(s.db.users[id], w);
    assert Rewrite(s.db.users[id], w) == TakenOver(s.db.users[id], attrs).(managed := true);
  }

  predicate IsScim(proc: Process) {
    || proc.UpdateWaits? || proc.UpdateReads? || proc.UpdateWrites? || proc.CreateBySubject? || proc.CreateByName?
    || proc.CreateInserts? || proc.TakeOverWaits? || proc.TakeOverWrites? || proc.DeleteReads? || proc.DeleteWrites?
  }

  /** With admin grants off, no SCIM step makes an administrator of an account that was not one
      at that moment, whatever row the step worked from. */
  lemma ScimGrantsNoAdmin(run: seq<State>, events: seq<Event>, n: nat, id: string)
    requires IsRun(run, events) && n < |events| && events[n].a.Advance? && IsScim(run[n].procs[events[n].p])
    requires !run[n].allowAdmin && id in run[n + 1].db.users && run[n + 1].db.users[id].role == "admin"
    ensures id in run[n].db.users && run[n].db.users[id].role == "admin"
  {
    var s, p := run[n], events[n].p;
    var w := WriteAt(s, p, events[n].a);
    if w.Some? && Land(s.db, w.value).1.Ok? && w.value.id == id && w.value.UpdatesRow() {
      assert Matches(s.db.users[id], w.value);
    }
  }

  lemma OthersKeepTheirRow(db: Db, w: Write, id: string)
    requires id in db.users && !(Land(db, w).1.Ok? && w.id == id && w.Delete?)
    ensures id in Land(db, w).0.users
    ensures Land(db, w).0.users[id] != db.users[id] ==> Land(db, w).1.Ok? && w.id == id
  {
  }

  /** A SCIM write that lands on a row not yet managed is a take-over of a KyIdentity account. */
  lemma ScimWritesManagedRows(s: State, p: nat, a: Action, id: string)
    requires Inv(s) && Enabled(s, p, a) && a.Advance? && IsScim(s.procs[p]) && id in s.db.users
      && !s.db.users[id].managed
    ensures
      var w := WriteAt(s, p, a);
      w.Some? && Land(s.db, w.value).1.Ok? && w.value.id == id ==>
        s.procs[p].TakeOverWrites? && s.db.users[id].provider == "kysignon"
  {
    assert ProcOk(s, s.procs[p]);
    var w := WriteAt(s, p, a);
    if w.Some? && Land(s.db, w.value).1.Ok? && w.value.id == id && w.value.UpdatesRow() {
      assert Matches(s.db.users[id], w.value);
    }
  }

  /** SCIM changes or deletes no account it does not manage, except that a take-over may claim a
      KyIdentity account; a local account is never touched. */
  lemma ScimTouchesOnlyItsOwn(run: seq<State>, events: seq<Event>, n: nat, id: string)
    requires IsRun(run, events) && n < |events| && events[n].a.Advance? && IsScim(run[n].procs[events[n].p])
    requires id in run[n].db.users && !run[n].db.users[id].managed
    ensures id in run[n + 1].db.users
    ensures run[n + 1].db.users[id] != run[n].db.users[id] ==>
      run[n].procs[events[n].p].TakeOverWrites? && run[n].db.users[id].provider == "kysignon"
  {
    RunKeepsInv(run, events, n);
    var s, p, a := run[n], events[n].p, events[n].a;
    var w := WriteAt(s, p, a);
    ScimWritesManagedRows(s, p, a, id);
    if w.Some? {
      OthersKeepTheirRow(s.db, w.value, id);
    }
  }

  /** Each state's accounts follow from those of the state before. */
  ghost predicate Follows(run: seq<State>) {
    && (forall k :: 0 <= k < |run| ==> run[k].db.users.Keys <= run[k].ids)
    && (forall k, m :: 0 <= k < m < |run| && m == k + 1 ==> AccountsFollow(run[k], run[m]))
  }

  lemma RunFollows(run: seq<State>, events: seq<Event>)
    requires IsRun(run, events)
    ensures Follows(run)
  {
    forall k | 0 <= k < |run| ensures run[k].db.users.Keys <= run[k].ids {
      RunKeepsInv(run, events, k);
    }
    forall k, m | 0 <= k < m < |run| && m == k + 1 ensures AccountsFollow(run[k], run[m]) {
      RunKeepsInv(run, events, k);
      StepAccountsFollow(run[k], events[k].p, events[k].a);
    }
  }

  lemma IdentityStepsCompose(a: User, b: User, c: User)
    requires IdentityStep(a, b) && IdentityStep(b, c) && (a.provider == "scim" ==> a.managed)
    ensures IdentityStep(a, c)
  {
  }

  lemma {:induction false} AccountFollows(run: seq<State>, i: nat, j: nat, id: string)
    requires Follows(run) && i <= j < |run| && id in run[i].db.users
    requires run[i].db.users[id].provider == "scim" ==> run[i].db.users[id].managed
    ensures id in run[j].ids && (id in run[j].db.users ==> IdentityStep(run[i].db.users[id], run[j].db.users[id]))
    decreases j
  {
    if i < j {
      AccountFollows(run, i, j - 1, id);
      assert AccountsFollow(run[j - 1], run[j]);
      if id in run[j].db.users {
        IdentityStepsCompose(run[i].db.users[id], run[j - 1].db.users[id], run[j].db.users[id]);
      }
    }
  }

  /** In every state of a run every "scim" account and every group member is managed, and no local
      account is. */
  lemma ManagedThroughout(run: seq<State>, events: seq<Event>, n: nat)
    requires IsRun(run, events) && n < |run|
    ensures TablesOk(run[n].db)
  {
    RunKeepsInv(run, events, n);
  }

  /** Over any stretch of a run an account moves between providers only from "scim" to
      "kysignon", a KyIdentity account keeps its subject, the managed flag is never dropped and
      never set on a local account. */
  lemma IdentityLifecycle(run: seq<State>, events: seq<Event>, i: nat, j: nat, id: string)
    requires IsRun(run, events) && i <= j < |run| && id in run[i].db.users && id in run[j].db.users
    ensures IdentityStep(run[i].db.users[id], run[j].db.users[id])
  {
    ManagedThroughout(run, events, i);
    RunFollows(run, events);
    AccountFollows(run, i, j, id);
  }

  /** Every attempt of `update` is one of four. */
  lemma AttemptsAreBounded(run: seq<State>, events: seq<Event>, n: nat, p: nat)
    requires IsRun(run, events) && n < |run| && p in run[n].procs && run[n].procs[p].UpdateWrites?
    ensures run[n].procs[p].attempt <= 3 && run[n].holder == Some(p)
  {
    RunKeepsInv(run, events, n);
    assert ProcOk(run[n], run[n].procs[p]);
  }

  /** A callback that reaches session creation holds the KyIdentity account of the ID token's
      subject, which is what the subject fence relies on, read as active and in the role the
      token asked for. */
  lemma CallbackHandsOver(run: seq<State>, events: seq<Event>, n: nat, p: nat)
    requires IsRun(run, events) && n < |run| && p in run[n].procs && run[n].procs[p].CallbackSignsIn?
    ensures
      var CallbackSignsIn(claims, found, row) := run[n].procs[p];
      && found in run[n].ids
      && (found in run[n].db.users ==> HasIdentity(run[n].db.users[found], "kysignon", claims.subject))
      && row.status == "active" && (claims.role.Some? ==> row.role == claims.role.value)
  {
    RunKeepsInv(run, events, n);
    assert ProcOk(run[n], run[n].procs[p]);
  }

  /** Migration 9 marks every "scim" row managed, from a table without the flag. */
  function Backfill(users: map<string, User>): map<string, User> {
    map id | id in users :: users[id].(managed := users[id].provider == "scim")
  }

  /** The backfill establishes the invariant exactly when every group member of the day was a
      "scim" account. */
  lemma BackfillStartsOk(db: Db)
    ensures TablesOk(db.(users := Backfill(db.users))) <==>
      forall m :: m in db.members ==> m.1 in db.users && db.users[m.1].provider == "scim"
  {
  }
}
