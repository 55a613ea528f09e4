/** The store's transactions interleaved statement by statement, under the locks both databases
    take: the row lock of an UPDATE, and the advisory lock on the lowered name. Statements read
    committed data, as under READ COMMITTED; a transaction's own writes stay in its record until
    it commits. SQLite's single connection allows fewer of these interleavings, never more. */
module Transactions {
  import opened Accounts

  /** How far one transaction has come. `row` is the new version of the locked row. */
  datatype Tx =
    | Begun(w: Write)
    | NameLocked(w: Write)
    | OwnRead(w: Write, own: bool)
    | NameFree(w: Write)
    | Granted(w: Write)
    | RowHeld(w: Write, row: User)
    | Swept(w: Write, row: User, doomed: set<string>)
    | Finished(w: Write, committed: bool)

  /** `used` is every session token ever stored: tokens are 256 random bits, never drawn twice.
      `apart` records that no two names clashed when the run began; no step reads it. */
  datatype State = State(
    db: Db,
    used: set<string>,
    rowLock: map<string, nat>,
    nameLock: map<string, nat>,
    txs: map<nat, Tx>,
    apart: bool)

  datatype Action =
    | Begin(w: Write)
    | LockName
    | ReadOwn
    | ReadOthers
    | LockRow
    | GuardRow
    | UseGuard
    | Sweep
    | Commit
    | Abort
    | Statement(w: Write)
    | DropSessions(tokens: set<string>)

  function NameKey(w: Write): string
    requires w.Renames()
  {
    Lower(w.row.username)
  }

  predicate Ready(tx: Tx) {
    || (tx.NameFree? && tx.w.Create?)
    || (tx.RowHeld? && (tx.w.OpenSession? || (tx.w.UpdatesRow() && !tx.w.Revokes())))
    || (tx.Swept? && tx.w.UpdatesRow())
  }

  predicate Enabled(s: State, p: nat, a: Action) {
    match a
    case Begin(w) => p !in s.txs && !w.Link? && !w.Delete?
    case Statement(w) => (w.Link? || w.Delete?) && w.id !in s.rowLock
    case DropSessions(_) => true
    case LockName => p in s.txs && s.txs[p].Begun? && s.txs[p].w.Renames() && NameKey(s.txs[p].w) !in s.nameLock
    case ReadOwn => p in s.txs && s.txs[p].NameLocked? && s.txs[p].w.Renames()
    case ReadOthers => p in s.txs && s.txs[p].OwnRead? && s.txs[p].w.Renames()
    case LockRow =>
      && p in s.txs && s.txs[p].w.UpdatesRow() && s.txs[p].w.id !in s.rowLock
      && (s.txs[p].NameFree? || (s.txs[p].Begun? && (s.txs[p].w.SetRole? || s.txs[p].w.ResetPassword?)))
    case GuardRow =>
      p in s.txs && s.txs[p].Begun? && (s.txs[p].w.OpenSession? || s.txs[p].w.ChangePassword?)
        && s.txs[p].w.id !in s.rowLock
    case UseGuard =>
      p in s.txs && s.txs[p].Granted? && (s.txs[p].w.OpenSession? || s.txs[p].w.ChangePassword?)
        && s.txs[p].w.id in s.db.users
    case Sweep => p in s.txs && s.txs[p].RowHeld? && s.txs[p].w.UpdatesRow() && s.txs[p].w.Revokes()
    case Commit => p in s.txs && Ready(s.txs[p]) && Storable(s, s.txs[p].w)
    case Abort => p in s.txs && !s.txs[p].Finished?
  }

  /** An INSERT commits only under a new primary key. */
  predicate Storable(s: State, w: Write) {
    (w.OpenSession? ==> w.token !in s.used) && (w.Create? ==> w.id !in s.db.users)
  }

  function Others(locks: map<string, nat>, p: nat): map<string, nat> {
    map k | k in locks && locks[k] != p :: locks[k]
  }

  function Finish(s: State, p: nat, db: Db, committed: bool): State
    requires p in s.txs
  {
    s.(db := db, rowLock := Others(s.rowLock, p), nameLock := Others(s.nameLock, p),
       txs := s.txs[p := Finished(s.txs[p].w, committed)])
  }

  /** A create asks with the empty id, which no account has. */
  predicate OwnsName(users: map<string, User>, w: Write)
    requires w.Renames()
  {
    !w.Create? && w.id in users && Lower(users[w.id].username) == NameKey(w)
  }

  predicate OthersFree(users: map<string, User>, w: Write)
    requires w.Renames()
  {
    forall id :: id in users && (w.Create? || id != w.id) ==> Lower(users[id].username) != NameKey(w)
  }

  /** The tables after the buffered statements of a ready transaction are made visible. */
  function Published(db: Db, tx: Tx): Db
    requires Ready(tx)
  {
    match tx
    case NameFree(w) => db.(users := db.users[w.id := w.row])
    case Swept(w, row, doomed) => db.(users := db.users[w.id := row], sessions := db.sessions - doomed)
    case RowHeld(w, row) =>
      if w.OpenSession? then db.(sessions := db.sessions[w.token := w.session.(userId := w.id)])
      else db.(users := db.users[w.id := row])
  }

  function After(s: State, p: nat, a: Action): State
    requires Enabled(s, p, a)
  {
    match a
    case Begin(w) => s.(txs := s.txs[p := Begun(w)])
    case Statement(w) => s.(db := Land(s.db, w).0)
    case DropSessions(tokens) => s.(db := s.db.(sessions := s.db.sessions - tokens))
    case LockName =>
      var w := s.txs[p].w;
      s.(nameLock := s.nameLock[NameKey(w) := p], txs := s.txs[p := NameLocked(w)])
    case ReadOwn =>
      var w := s.txs[p].w;
      s.(txs := s.txs[p := OwnRead(w, OwnsName(s.db.users, w))])
    case ReadOthers =>
      var w := s.txs[p].w;
      if s.txs[p].own || OthersFree(s.db.users, w) then s.(txs := s.txs[p := NameFree(w)])
      else Finish(s, p, s.db, false)
    case LockRow =>
      var w := s.txs[p].w;
      if w.id in s.db.users && Matches(s.db.users[w.id], w)
        && !(w.Renames() && ExactNameTaken(s.db.users, w.row.username, w.id)) then
        s.(rowLock := s.rowLock[w.id := p], txs := s.txs[p := RowHeld(w, Rewrite(s.db.users[w.id], w))])
      else Finish(s, p, s.db, false)
    case GuardRow =>
      var w := s.txs[p].w;
      if w.id in s.db.users && Guarded(s.db.users[w.id], if w.OpenSession? then w.hash else w.oldHash) then
        s.(rowLock := s.rowLock[w.id := p], txs := s.txs[p := Granted(w)])
      else Finish(s, p, s.db, false)
    case UseGuard =>
      var w := s.txs[p].w;
      var row := s.db.users[w.id];
      if w.OpenSession? then s.(txs := s.txs[p := RowHeld(w, row)])
      else if row.provider == "local" then s.(txs := s.txs[p := RowHeld(w, Rewrite(row, w))])
      else Finish(s, p, s.db, false)
    case Sweep =>
      var tx := s.txs[p];
      var doomed := set t | t in s.db.sessions && s.db.sessions[t].userId == tx.w.id;
      s.(txs := s.txs[p := Swept(tx.w, tx.row, doomed)])
    case Commit =>
      var tx := s.txs[p];
      Finish(s, p, Published(s.db, tx), true).(used := if tx.w.OpenSession? then s.used + {tx.w.token} else s.used)
    case Abort => Finish(s, p, s.db, false)
  }

  // ----- what a transaction may rely on while it holds its locks -----

  predicate HoldsRow(s: State, p: nat, w: Write) {
    w.id in s.rowLock && s.rowLock[w.id] == p && w.id in s.db.users
  }

  predicate HoldsName(s: State, p: nat, w: Write) {
    w.Renames() ==> NameKey(w) in s.nameLock && s.nameLock[NameKey(w)] == p
  }

  predicate NameSafe(s: State, p: nat, w: Write) {
    HoldsName(s, p, w) && (s.apart && w.Renames() ==> OthersFree(s.db.users, w))
  }

  predicate RowSafe(s: State, p: nat, w: Write, row: User) {
    && HoldsRow(s, p, w) && NameSafe(s, p, w)
    && (w.OpenSession? ==> Guarded(s.db.users[w.id], w.hash))
    && (w.UpdatesRow() ==> Matches(s.db.users[w.id], w) && row == Rewrite(s.db.users[w.id], w))
  }

  predicate TxOk(s: State, p: nat)
    requires p in s.txs
  {
    match s.txs[p]
    case Begun(w) => true
    case NameLocked(w) => HoldsName(s, p, w)
    case OwnRead(w, own) => HoldsName(s, p, w) && (own ==> NameSafe(s, p, w))
    case NameFree(w) => NameSafe(s, p, w)
    case Granted(w) =>
      HoldsRow(s, p, w) && NameSafe(s, p, w) &&
      (w.OpenSession? ==> Guarded(s.db.users[w.id], w.hash)) &&
      (w.ChangePassword? ==> Guarded(s.db.users[w.id], w.oldHash))
    case RowHeld(w, row) => RowSafe(s, p, w, row)
    case Swept(w, row, doomed) =>
      RowSafe(s, p, w, row) && w.Revokes() && doomed <= s.used &&
      forall t :: t in s.db.sessions ==> (t in doomed <==> s.db.sessions[t].userId == w.id)
    case Finished(_, _) => true
  }

  predicate Inv(s: State) {
    && (s.apart ==> NoNameClash(s.db.users))
    && Vouched(s.db)
    && s.db.sessions.Keys <= s.used
    && forall p :: p in s.txs ==> TxOk(s, p)
  }

  /** Nothing transaction `q` has read under its locks changed from `s` to `s'`. */
  predicate Respects(s: State, s': State, q: nat)
    requires q in s.txs
  {
    && q in s'.txs && s'.txs[q] == s.txs[q] && s'.apart == s.apart
    && s.used <= s'.used
    && (forall id :: id in s.rowLock && s.rowLock[id] == q ==> id in s'.rowLock && s'.rowLock[id] == q)
    && (forall id :: id in s.rowLock && s.rowLock[id] == q && id in s.db.users ==>
      id in s'.db.users && s'.db.users[id] == s.db.users[id])
    && (forall t :: t in s'.db.sessions && t in s.used ==> t in s.db.sessions && s'.db.sessions[t] == s.db.sessions[t])
    && (forall t :: t in s'.db.sessions && t !in s.used ==>
      var id := s'.db.sessions[t].userId; !(id in s.rowLock && s.rowLock[id] == q))
    && (forall n :: n in s.nameLock && s.nameLock[n] == q ==> n in s'.nameLock && s'.nameLock[n] == q)
    && (forall id :: id in s'.db.users ==>
         var name := Lower(s'.db.users[id].username);
         name in s.nameLock && s.nameLock[name] == q ==> id in s.db.users && Lower(s.db.users[id].username) == name)
  }

  lemma RespectedStaysOk(s: State, s': State, q: nat)
    requires q in s.txs && TxOk(s, q) && s.db.sessions.Keys <= s.used && Respects(s, s', q)
    ensures TxOk(s', q)
  {
  }

  // ----- the transactions refine the atomic writes -----

  lemma SweptIsRevoked(db: Db, id: string, doomed: set<string>)
    requires forall t :: t in db.sessions ==> (t in doomed <==> db.sessions[t].userId == id)
    ensures db.sessions - doomed == Revoke(db.sessions, id)
  {
  }

  /** A commit publishes exactly what its write would do at that instant: run alone, name checks
      included, unless names clashed from the start. */
  lemma CommitIsAtomic(s: State, p: nat)
    requires Inv(s) && Enabled(s, p, Commit)
    ensures Land(s.db, s.txs[p].w) == (After(s, p, Commit).db, Ok)
    ensures s.apart ==> Apply(s.db, s.txs[p].w) == (After(s, p, Commit).db, Ok)
  {
    var tx := s.txs[p];
    var w := tx.w;
    assert TxOk(s, p);
    if s.apart && w.Renames() {
      assert !NameRefused(s.db.users, w.row.username, w.id);
    }
    if tx.Swept? {
      SweptIsRevoked(s.db, w.id, tx.doomed);
    }
  }

  lemma CommitSparesSessions(s: State, p: nat, q: nat)
    requires Inv(s) && Enabled(s, p, Commit) && q in s.txs && q != p
    ensures
      var s' := After(s, p, Commit);
      && s.used <= s'.used
      && (forall t :: t in s'.db.sessions && t in s.used ==>
        t in s.db.sessions && s'.db.sessions[t] == s.db.sessions[t])
      && (forall t :: t in s'.db.sessions && t !in s.used ==>
        var id := s'.db.sessions[t].userId; !(id in s.rowLock && s.rowLock[id] == q))
  {
    assert TxOk(s, p);
  }

  lemma CommitSparesRows(s: State, p: nat, q: nat)
    requires Inv(s) && Enabled(s, p, Commit) && q in s.txs && q != p
    ensures
      var s' := After(s, p, Commit);
      && (forall id :: id in s.rowLock && s.rowLock[id] == q && id in s.db.users ==>
        id in s'.db.users && s'.db.users[id] == s.db.users[id])
      && (forall id :: id in s'.db.users ==>
           var name := Lower(s'.db.users[id].username);
           name in s.nameLock && s.nameLock[name] == q ==> id in s.db.users && Lower(s.db.users[id].username) == name)
  {
    assert TxOk(s, p);
  }

  lemma CommitRespects(s: State, p: nat, q: nat)
    requires Inv(s) && Enabled(s, p, Commit) && q in s.txs && q != p
    ensures Respects(s, After(s, p, Commit), q)
  {
    CommitSparesSessions(s, p, q);
    CommitSparesRows(s, p, q);
  }

  /** Steps that only read, lock, or write into the transaction's own record. */
  predicate Private(a: Action) { !a.Commit? && !a.Statement? && !a.DropSessions? }

  /** Nothing but transaction `p`'s own record and locks changed. */
  predicate OwnOnly(s: State, s': State, p: nat) {
    && s'.db == s.db && s'.used == s.used && s'.apart == s.apart
    && (forall k :: k in s.rowLock && s.rowLock[k] != p ==> k in s'.rowLock && s'.rowLock[k] == s.rowLock[k])
    && (forall k :: k in s.nameLock && s.nameLock[k] != p ==> k in s'.nameLock && s'.nameLock[k] == s.nameLock[k])
    && (forall q :: q in s.txs && q != p ==> q in s'.txs && s'.txs[q] == s.txs[q])
  }

  predicate TakesRow(a: Action) { a.LockRow? || a.GuardRow? || a.UseGuard? || a.Sweep? }

  lemma RowStepIsOwnOnly(s: State, p: nat, a: Action)
    requires Enabled(s, p, a) && TakesRow(a)
    ensures OwnOnly(s, After(s, p, a), p)
  {
  }

  lemma PrivateIsOwnOnly(s: State, p: nat, a: Action)
    requires Enabled(s, p, a) && Private(a)
    ensures OwnOnly(s, After(s, p, a), p)
  {
    if TakesRow(a) {
      RowStepIsOwnOnly(s, p, a);
    }
  }

  lemma OwnOnlyRespects(s: State, s': State, p: nat, q: nat)
    requires s.db.sessions.Keys <= s.used && OwnOnly(s, s', p) && q in s.txs && q != p
    ensures Respects(s, s', q)
  {
  }

  lemma StatementKeepsNames(db: Db, w: Write)
    requires w.Link? || w.Delete?
    ensures
      var after := Land(db, w).0;
      && after.sessions == (if w.Delete? && w.id in db.users then Revoke(db.sessions, w.id) else db.sessions)
      && (forall id :: id in after.users ==> id in db.users && after.users[id].username == db.users[id].username)
      && (forall id :: id in db.users && id != w.id ==> id in after.users && after.users[id] == db.users[id])
  {
  }

  lemma StatementRespects(s: State, p: nat, w: Write, q: nat)
    requires Inv(s) && Enabled(s, p, Statement(w)) && q in s.txs
    ensures Respects(s, After(s, p, Statement(w)), q)
  {
    StatementKeepsNames(s.db, w);
  }

  lemma PublicRespects(s: State, p: nat, a: Action, q: nat)
    requires Inv(s) && Enabled(s, p, a) && (a.Statement? || a.DropSessions?) && q in s.txs
    ensures Respects(s, After(s, p, a), q)
  {
    if a.Statement? {
      StatementRespects(s, p, a.w, q);
    }
  }

  lemma RowLockKeepsOwn(s: State, p: nat)
    requires Inv(s) && Enabled(s, p, LockRow)
    ensures TxOk(After(s, p, LockRow), p)
  {
    assert TxOk(s, p);
  }

  lemma GuardKeepsOwn(s: State, p: nat)
    requires Inv(s) && Enabled(s, p, GuardRow)
    ensures TxOk(After(s, p, GuardRow), p)
  {
    assert TxOk(s, p);
  }

  lemma HeldLockKeepsOwn(s: State, p: nat, a: Action)
    requires Inv(s) && Enabled(s, p, a) && (a.UseGuard? || a.Sweep?)
    ensures TxOk(After(s, p, a), p)
  {
    assert TxOk(s, p);
  }

  lemma StepKeepsOwn(s: State, p: nat, a: Action)
    requires Inv(s) && Enabled(s, p, a) && Private(a)
    ensures TxOk(After(s, p, a), p)
  {
    if a.LockRow? {
      RowLockKeepsOwn(s, p);
    } else if a.GuardRow? {
      GuardKeepsOwn(s, p);
    } else if a.UseGuard? || a.Sweep? {
      HeldLockKeepsOwn(s, p, a);
    } else if p in s.txs {
      assert TxOk(s, p);
    }
  }

  /** What one committed step does to the tables: nothing, one whole write, or a logout's deletes. */
  ghost predicate AtomicStep(db: Db, db': Db, apart: bool) {
    || db' == db
    || (exists w :: Land(db, w) == (db', Ok) && (apart ==> Apply(db, w) == (db', Ok)))
    || (exists tokens: set<string> :: db' == db.(sessions := db.sessions - tokens))
  }

  lemma StepIsAtomic(s: State, p: nat, a: Action)
    requires Inv(s) && Enabled(s, p, a)
    ensures AtomicStep(s.db, After(s, p, a).db, s.apart)
  {
    match a
    case Commit =>
      CommitIsAtomic(s, p);
      var w := s.txs[p].w;
      assert Land(s.db, w) == (After(s, p, a).db, Ok);
    case Statement(w) => if Land(s.db, w).1.Ok? { assert Apply(s.db, w) == (After(s, p, a).db, Ok); }
    case DropSessions(tokens) => assert After(s, p, a).db == s.db.(sessions := s.db.sessions - tokens);
    case _ => PrivateIsOwnOnly(s, p, a);
  }

  lemma NamesStayApart(s: State, p: nat, a: Action)
    requires Inv(s) && Enabled(s, p, a) && s.apart
    ensures NoNameClash(After(s, p, a).db.users)
  {
    if a.Commit? {
      CommitKeepsApart(s, p);
    } else if a.Statement? {
      StatementKeepsNames(s.db, a.w);
    } else if Private(a) {
      PrivateIsOwnOnly(s, p, a);
    }
  }

  lemma CommitKeepsApart(s: State, p: nat)
    requires Inv(s) && Enabled(s, p, Commit) && s.apart
    ensures NoNameClash(After(s, p, Commit).db.users)
  {
    assert TxOk(s, p);
  }

  lemma OthersStayOk(s: State, p: nat, a: Action, q: nat)
    requires Inv(s) && Enabled(s, p, a) && q in s.txs && (q != p || a.Statement? || a.DropSessions?)
    ensures q in After(s, p, a).txs && TxOk(After(s, p, a), q)
  {
    if a.Commit? {
      CommitRespects(s, p, q);
    } else if Private(a) {
      PrivateIsOwnOnly(s, p, a);
      OwnOnlyRespects(s, After(s, p, a), p, q);
    } else {
      PublicRespects(s, p, a, q);
    }
    assert TxOk(s, q);
    RespectedStaysOk(s, After(s, p, a), q);
  }

  lemma TokensStayUsed(s: State, p: nat, a: Action)
    requires Inv(s) && Enabled(s, p, a)
    ensures s.used <= After(s, p, a).used && After(s, p, a).db.sessions.Keys <= After(s, p, a).used
    ensures forall t :: t in After(s, p, a).db.sessions && t in s.used ==> t in s.db.sessions
  {
    if Private(a) {
      PrivateIsOwnOnly(s, p, a);
    }
  }

  lemma StepKeepsInv(s: State, p: nat, a: Action)
    requires Inv(s) && Enabled(s, p, a)
    ensures Inv(After(s, p, a))
  {
    StepIsAtomic(s, p, a);
    if s.apart {
      NamesStayApart(s, p, a);
    }
    AtomicKeepsGrants(s.db, After(s, p, a).db, s.apart);
    TokensStayUsed(s, p, a);
    var s' := After(s, p, a);
    forall q | q in s'.txs ensures TxOk(s', q) {
      if q in s.txs && (q != p || a.Statement? || a.DropSessions?) {
        OthersStayOk(s, p, a, q);
      } else {
        OwnStaysOk(s, p, a, q);
      }
    }
  }

  lemma OwnMoves(s: State, p: nat, a: Action, q: nat)
    requires Enabled(s, p, a) && Private(a) && q in After(s, p, a).txs
    ensures q in s.txs || q == p
  {
  }

  lemma CommitFinishes(s: State, p: nat)
    requires Enabled(s, p, Commit)
    ensures After(s, p, Commit).txs.Keys == s.txs.Keys && TxOk(After(s, p, Commit), p)
  {
  }

  lemma OwnStaysOk(s: State, p: nat, a: Action, q: nat)
    requires Inv(s) && Enabled(s, p, a) && q in After(s, p, a).txs
    requires q !in s.txs || (q == p && !a.Statement? && !a.DropSessions?)
    ensures TxOk(After(s, p, a), q)
  {
    if Private(a) {
      OwnMoves(s, p, a, q);
      StepKeepsOwn(s, p, a);
    } else if a.Commit? {
      CommitFinishes(s, p);
    }
  }

  lemma AtomicKeepsGrants(db: Db, db': Db, apart: bool)
    requires Vouched(db) && AtomicStep(db, db', apart)
    ensures Vouched(db') && SameGrants(db, db')
  {
    if w :| Land(db, w) == (db', Ok) {
      WriteKeepsGrants(db, w);
    }
  }

  // ----- whole runs -----

  datatype Event = Event(p: nat, a: Action)

  predicate Initial(s: State) {
    && (s.apart ==> NoNameClash(s.db.users)) && Vouched(s.db) && s.db.sessions.Keys <= s.used
    && s.txs == map[]
  }

  ghost predicate IsRun(run: seq<State>, events: seq<Event>) {
    && |run| == |events| + 1
    && forall i :: 0 <= i < |events| ==>
      Enabled(run[i], events[i].p, events[i].a) && run[i + 1] == After(run[i], events[i].p, events[i].a)
  }

  lemma {:induction false} RunKeepsInv(run: seq<State>, events: seq<Event>, n: nat)
    requires IsRun(run, events) && Initial(run[0]) && n < |run|
    ensures Inv(run[n])
  {
    if n > 0 {
      RunKeepsInv(run, events, n - 1);
      StepKeepsInv(run[n - 1], events[n - 1].p, events[n - 1].a);
    }
  }

  lemma {:induction false} LabelStays(run: seq<State>, events: seq<Event>, n: nat)
    requires IsRun(run, events) && n < |run|
    ensures run[n].apart == run[0].apart
  {
    if n > 0 {
      LabelStays(run, events, n - 1);
    }
  }

  /** Every run of interleaved transactions changes the tables only by whole writes; from a table
      without name clashes each is the write run alone, name checks included, and never do two
      accounts hold one lowered name. */
  lemma RunIsSerial(run: seq<State>, events: seq<Event>, n: nat)
    requires IsRun(run, events) && Initial(run[0]) && n < |run|
    ensures run[n].apart == run[0].apart && (run[0].apart ==> NoNameClash(run[n].db.users))
    ensures n + 1 < |run| ==> AtomicStep(run[n].db, run[n + 1].db, run[0].apart)
  {
    RunKeepsInv(run, events, n);
    LabelStays(run, events, n);
    if n + 1 < |run| {
      StepIsAtomic(run[n], events[n].p, events[n].a);
    }
  }

  /** What one step keeps, apart from how it was taken. */
  ghost predicate Follows(s: State, s': State) {
    && Vouched(s.db) && Vouched(s'.db) && SameGrants(s.db, s'.db)
    && s.db.sessions.Keys <= s.used <= s'.used
    && forall t :: t in s'.db.sessions && t in s.used ==> t in s.db.sessions
  }

  ghost predicate Progress(run: seq<State>) {
    forall i :: 0 <= i < |run| - 1 ==> Follows(run[i], run[i + 1])
  }

  lemma StepFollows(s: State, p: nat, a: Action)
    requires Inv(s) && Enabled(s, p, a)
    ensures Follows(s, After(s, p, a))
  {
    StepIsAtomic(s, p, a);
    AtomicKeepsGrants(s.db, After(s, p, a).db, s.apart);
    TokensStayUsed(s, p, a);
  }

  lemma RunProgresses(run: seq<State>, events: seq<Event>)
    requires IsRun(run, events) && Initial(run[0])
    ensures Progress(run)
  {
    forall i | 0 <= i < |run| - 1 ensures Follows(run[i], run[i + 1]) {
      RunKeepsInv(run, events, i);
      StepFollows(run[i], events[i].p, events[i].a);
    }
  }

  lemma {:induction false} StoredThroughout(run: seq<State>, i: nat, j: nat, token: string)
    requires Progress(run) && i <= j < |run|
    requires token in run[i].db.sessions && token in run[j].db.sessions
    ensures forall k :: i <= k <= j ==> token in run[k].db.sessions
    decreases j
  {
    if i < j {
      assert Follows(run[i], run[i + 1]);
      assert Follows(run[j - 1], run[j]);
      if token !in run[j - 1].db.sessions {
        UsedGrows(run, i, j - 1);
        assert false;
      }
      StoredThroughout(run, i, j - 1, token);
    }
  }

  lemma {:induction false} UsedGrows(run: seq<State>, i: nat, j: nat)
    requires Progress(run) && i <= j < |run|
    ensures run[i].used <= run[j].used
    decreases j
  {
    if i < j {
      UsedGrows(run, i, j - 1);
      assert Follows(run[j - 1], run[j]);
    }
  }

  lemma {:induction false} GrantsThroughout(run: seq<State>, i: nat, j: nat, token: string, session: Session,
                                            privileges: Privileges)
    requires Progress(run) && i <= j < |run| && Grants(run[i].db, token, session, privileges)
    requires forall k :: i <= k <= j ==> token in run[k].db.sessions
    ensures Grants(run[j].db, token, session, privileges)
    decreases j
  {
    if i < j {
      GrantsThroughout(run, i, j - 1, token, session, privileges);
      assert Follows(run[j - 1], run[j]);
    }
  }

  ghost predicate GrantedFrom(run: seq<State>, i: nat, j: nat, token: string, session: Session, privileges: Privileges)
    requires j < |run|
  {
    forall k :: i <= k <= j ==> Grants(run[k].db, token, session, privileges)
  }

  /** A session stored at two moments of a run was stored throughout, for an existing active
      account whose role, status, password hash and must-change flag never changed between. */
  lemma GrantsLastWhileStored(run: seq<State>, events: seq<Event>, i: nat, j: nat, token: string)
    requires IsRun(run, events) && Initial(run[0]) && i <= j < |run|
    requires token in run[i].db.sessions && token in run[j].db.sessions
    ensures exists session, privileges :: GrantedFrom(run, i, j, token, session, privileges)
  {
    RunProgresses(run, events);
    StoredThroughout(run, i, j, token);
    RunKeepsInv(run, events, i);
    var session := run[i].db.sessions[token];
    var privileges := PrivilegesOf(run[i].db.users[session.userId]);
    forall k | i <= k <= j ensures Grants(run[k].db, token, session, privileges) {
      GrantsThroughout(run, i, k, token, session, privileges);
    }
    assert GrantedFrom(run, i, j, token, session, privileges);
  }

  // ----- a transaction nobody is in the way of -----

  /** A transaction refused at its row, or at its guard, would be refused run alone at that instant; one refused for
      its name found another account holding it. */
  lemma RefusedForAReason(s: State, p: nat, a: Action)
    requires Inv(s) && Enabled(s, p, a) && !a.Abort? && p in s.txs && !s.txs[p].Finished?
    requires p in After(s, p, a).txs && After(s, p, a).txs[p] == Finished(s.txs[p].w, false)
    ensures
      var w := s.txs[p].w;
      if a.ReadOthers? then
        exists id :: id in s.db.users && (w.Create? || id != w.id)
          && Lower(s.db.users[id].username) == Lower(w.row.username)
      else !Land(s.db, w).1.Ok? || (w.Renames() && ExactNameTaken(s.db.users, w.row.username, w.id))
  {
    assert TxOk(s, p);
  }

  /** Where a transaction stands that has the locks it asks for to itself, and what it has seen is still so. */
  predicate Unhindered(s: State, p: nat) {
    p in s.txs &&
    var users, w := s.db.users, s.txs[p].w;
    && (w.Create? ==> w.id !in users) && (w.OpenSession? ==> w.token !in s.used) && s.db.sessions.Keys <= s.used
    && match s.txs[p]
       case Begun(_) =>
         w.id !in s.rowLock && (w.Renames() ==> NameKey(w) !in s.nameLock) && !w.Link? && !w.Delete?
       case NameLocked(_) => w.Renames() && w.id !in s.rowLock
       case OwnRead(_, own) => w.Renames() && w.id !in s.rowLock && own == OwnsName(users, w)
       case NameFree(_) => w.Renames() && w.id !in s.rowLock && !NameTaken(users, w.row.username, w.id)
       case Granted(_) =>
         && (w.OpenSession? || w.ChangePassword?) && w.id in users
         && Guarded(users[w.id], if w.OpenSession? then w.hash else w.oldHash)
       case RowHeld(_, row) => Reaches(s, w, row)
       case Swept(_, row, doomed) =>
         && Reaches(s, w, row) && w.UpdatesRow() && w.Revokes()
         && doomed == set t | t in s.db.sessions && s.db.sessions[t].userId == w.id
       case Finished(_, _) => false
  }

  /** Run alone, the write would now reach its row, with this new version. */
  predicate Reaches(s: State, w: Write, row: User) {
    && Apply(s.db, w).1.Ok? && (w.OpenSession? || w.UpdatesRow())
    && w.id in s.db.users && (w.UpdatesRow() ==> row == Rewrite(s.db.users[w.id], w))
  }

  function ToGo(tx: Tx): nat {
    match tx
    case Begun(_) => 6
    case NameLocked(_) => 5
    case OwnRead(_, _) => 4
    case NameFree(_) => 3
    case Granted(_) => 3
    case RowHeld(_, _) => 2
    case Swept(_, _, _) => 1
    case Finished(_, _) => 0
  }

  /** The step ends the transaction as its write run alone would, or brings it closer, changing nothing. */
  predicate GoesOn(s: State, p: nat, a: Action) {
    && p in s.txs && Enabled(s, p, a) && p in After(s, p, a).txs
    && var tx, w, s' := After(s, p, a).txs[p], s.txs[p].w, After(s, p, a);
    && tx.w == w
    && if tx.Finished? then tx.committed == Apply(s.db, w).1.Ok? && s'.db == Apply(s.db, w).0
       else s'.db == s.db && Unhindered(s', p) && ToGo(tx) < ToGo(s.txs[p])
  }

  /** The next statement of a transaction. */
  function NextStep(tx: Tx): Action {
    match tx
    case Begun(w) => if w.Renames() then LockName else if w.OpenSession? || w.ChangePassword? then GuardRow else LockRow
    case NameLocked(_) => ReadOwn
    case OwnRead(_, _) => ReadOthers
    case NameFree(w) => if w.Create? then Commit else LockRow
    case Granted(_) => UseGuard
    case RowHeld(w, _) => if w.UpdatesRow() && w.Revokes() then Sweep else Commit
    case _ => Commit
  }

  lemma NameStepGoesOn(s: State, p: nat)
    requires Unhindered(s, p)
    requires (s.txs[p].Begun? && s.txs[p].w.Renames()) || s.txs[p].NameLocked? || s.txs[p].OwnRead?
    ensures GoesOn(s, p, NextStep(s.txs[p]))
  {
  }

  lemma InsertGoesOn(s: State, p: nat)
    requires Unhindered(s, p) && s.txs[p].NameFree? && s.txs[p].w.Create?
    ensures GoesOn(s, p, Commit)
  {
  }

  lemma RowLockGoesOn(s: State, p: nat)
    requires Unhindered(s, p) && s.txs[p].w.UpdatesRow() && !s.txs[p].w.ChangePassword?
    requires s.txs[p].NameFree? || (s.txs[p].Begun? && !s.txs[p].w.Renames())
    ensures GoesOn(s, p, LockRow)
  {
  }

  lemma RowGuardGoesOn(s: State, p: nat)
    requires Unhindered(s, p) && s.txs[p].Begun? && (s.txs[p].w.OpenSession? || s.txs[p].w.ChangePassword?)
    ensures GoesOn(s, p, GuardRow)
  {
  }

  lemma GuardStepGoesOn(s: State, p: nat)
    requires Unhindered(s, p) && s.txs[p].Granted?
    ensures GoesOn(s, p, NextStep(s.txs[p]))
  {
  }

  lemma SweepGoesOn(s: State, p: nat)
    requires Unhindered(s, p) && s.txs[p].RowHeld? && s.txs[p].w.UpdatesRow() && s.txs[p].w.Revokes()
    ensures GoesOn(s, p, Sweep)
  {
  }

  lemma CommitGoesOn(s: State, p: nat)
    requires Unhindered(s, p)
    requires s.txs[p].Swept? || (s.txs[p].RowHeld? && !(s.txs[p].w.UpdatesRow() && s.txs[p].w.Revokes()))
    ensures GoesOn(s, p, Commit)
  {
    if s.txs[p].Swept? {
      SweptIsRevoked(s.db, s.txs[p].w.id, s.txs[p].doomed);
    }
  }

  lemma StepGoesOn(s: State, p: nat)
    requires Unhindered(s, p)
    ensures GoesOn(s, p, NextStep(s.txs[p]))
  {
    var w := s.txs[p].w;
    match NextStep(s.txs[p]) {
      case LockRow => RowLockGoesOn(s, p);
      case GuardRow => RowGuardGoesOn(s, p);
      case UseGuard => GuardStepGoesOn(s, p);
      case Sweep => SweepGoesOn(s, p);
      case Commit => if s.txs[p].NameFree? { InsertGoesOn(s, p); } else { CommitGoesOn(s, p); }
      case _ => NameStepGoesOn(s, p);
    }
  }

  ghost predicate EndsAs(run: seq<State>, events: seq<Event>, p: nat, db: Db, w: Write) {
    && IsRun(run, events) && (forall e :: e in events ==> e.p == p)
    && var last := run[|events|];
    && last.db == Apply(db, w).0 && p in last.txs && last.txs[p] == Finished(w, Apply(db, w).1.Ok?)
  }

  lemma Prepended(s: State, e: Event, run: seq<State>, events: seq<Event>)
    requires IsRun(run, events) && Enabled(s, e.p, e.a) && run[0] == After(s, e.p, e.a)
    ensures IsRun([s] + run, [e] + events) && ([s] + run)[|events| + 1] == run[|events|]
  {
    var longer, more := [s] + run, [e] + events;
    forall i | 0 <= i < |more| ensures Enabled(longer[i], more[i].p, more[i].a) {
      assert i > 0 ==> longer[i] == run[i - 1] && more[i] == events[i - 1];
    }
    forall i | 0 <= i < |more| ensures longer[i + 1] == After(longer[i], more[i].p, more[i].a) {
      assert i > 0 ==> longer[i] == run[i - 1] && more[i] == events[i - 1];
    }
  }

  lemma {:induction false} Finishes(s: State, p: nat) returns (run: seq<State>, events: seq<Event>)
    requires Unhindered(s, p)
    ensures EndsAs(run, events, p, s.db, s.txs[p].w) && run[0] == s
    decreases ToGo(s.txs[p])
  {
    StepGoesOn(s, p);
    var e := Event(p, NextStep(s.txs[p]));
    var s' := After(s, p, e.a);
    if s'.txs[p].Finished? {
      run, events := [s, s'], [e];
    } else {
      var rest, more := Finishes(s', p);
      Prepended(s, e, rest, more);
      run, events := [s] + rest, [e] + more;
    }
  }

  /** From any state a transaction can run to its end by its own steps when nobody holds its locks: it then does and
      answers what its write does and answers run alone, name checks included. */
  lemma AloneIsApply(s: State, p: nat, w: Write) returns (run: seq<State>, events: seq<Event>)
    requires p !in s.txs && !w.Link? && !w.Delete? && s.db.sessions.Keys <= s.used
    requires w.id !in s.rowLock && (w.Renames() ==> NameKey(w) !in s.nameLock)
    requires (w.Create? ==> w.id !in s.db.users) && (w.OpenSession? ==> w.token !in s.used)
    ensures EndsAs(run, events, p, s.db, w) && run[0] == s
  {
    var begun := After(s, p, Begin(w));
    var rest, more := Finishes(begun, p);
    Prepended(s, Event(p, Begin(w)), rest, more);
    run, events := [s] + rest, [Event(p, Begin(w))] + more;
  }
}
