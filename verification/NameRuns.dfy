/** What the advisory lock on the lowered name (internal/store/sqlstore.go:159-181) and the SCIM handler's
    mutex above it (internal/scim/handler.go:404-435) are worth over whole runs of interleaved transactions,
    from any table, names that already clash included. */
module NameRuns {
  import opened Accounts
  import opened Basics
  import opened Transactions

  // ----- no name ever gains holders beyond those it started with -----

  /** The transaction has passed its name check and not yet finished. */
  predicate PastCheck(tx: Tx) {
    tx.w.Renames() &&
    match tx
    case OwnRead(_, own) => own
    case NameFree(_) => true
    case RowHeld(_, _) => true
    case Swept(_, _, _) => true
    case _ => false
  }

  predicate Claims(tx: Tx, name: string) {
    PastCheck(tx) && NameKey(tx.w) == name
  }

  /** The holders of `name` if transaction `p` takes it. */
  function Reserve(s: State, p: nat, name: string): set<string>
    requires p in s.txs
  {
    Holders(s.db.users, name) + {s.txs[p].w.id}
  }

  predicate Bounded(s: State, name: string, bound: nat) {
    && |Holders(s.db.users, name)| <= bound
    && forall p :: p in s.txs && Claims(s.txs[p], name) ==> |Reserve(s, p, name)| <= bound
  }

  /** Only the holder of the lock on a name is past the check for it. */
  lemma ClaimsLock(s: State, p: nat, name: string)
    requires Inv(s) && p in s.txs && Claims(s.txs[p], name)
    ensures name in s.nameLock && s.nameLock[name] == p
  {
    assert TxOk(s, p);
  }

  /** A step gives `name` a new holder only by committing a transaction past the check for it. */
  lemma HoldersFollow(s: State, p: nat, a: Action, name: string)
    requires Inv(s) && Enabled(s, p, a)
    ensures
      var holders := Holders(After(s, p, a).db.users, name);
      if a.Commit? && Claims(s.txs[p], name) then holders <= Reserve(s, p, name)
      else holders <= Holders(s.db.users, name)
  {
    if a.Commit? {
      CommitHolders(s, p, name);
    } else if a.Statement? {
      StatementKeepsNames(s.db, a.w);
    } else if Private(a) {
      PrivateIsOwnOnly(s, p, a);
    }
  }

  lemma CommitHolders(s: State, p: nat, name: string)
    requires Inv(s) && Enabled(s, p, Commit)
    ensures
      var holders := Holders(After(s, p, Commit).db.users, name);
      if Claims(s.txs[p], name) then holders <= Reserve(s, p, name) else holders <= Holders(s.db.users, name)
  {
    assert TxOk(s, p);
  }

  /** A transaction that just passed its check keeps its own name or takes one nobody else holds. */
  lemma NewClaimFits(s: State, p: nat, a: Action, name: string)
    requires Inv(s) && Enabled(s, p, a) && p in After(s, p, a).txs && Claims(After(s, p, a).txs[p], name)
    requires Private(a) && (p in s.txs ==> !Claims(s.txs[p], name))
    ensures |Reserve(After(s, p, a), p, name)| <= Max(1, |Holders(s.db.users, name)|)
  {
    var s' := After(s, p, a);
    PrivateIsOwnOnly(s, p, a);
    ClaimsByReading(s, p, a, name);
    var id := s'.txs[p].w.id;
    if a.ReadOwn? {
      assert Reserve(s', p, name) == Holders(s.db.users, name);
    } else {
      assert Holders(s.db.users, name) <= {id};
      SubsetSize(Reserve(s', p, name), {id});
    }
  }

  lemma ClaimsByReading(s: State, p: nat, a: Action, name: string)
    requires Inv(s) && Enabled(s, p, a) && p in After(s, p, a).txs && Claims(After(s, p, a).txs[p], name)
    requires Private(a) && (p in s.txs ==> !Claims(s.txs[p], name))
    ensures a.ReadOwn? || a.ReadOthers?
    ensures a.ReadOwn? ==> OwnsName(s.db.users, s.txs[p].w) && After(s, p, a).txs[p].w == s.txs[p].w
    ensures a.ReadOthers? ==> OthersFree(s.db.users, s.txs[p].w) && After(s, p, a).txs[p].w == s.txs[p].w
  {
  }

  lemma StepStaysBounded(s: State, p: nat, a: Action, name: string, bound: nat)
    requires Inv(s) && Enabled(s, p, a) && bound >= 1 && Bounded(s, name, bound)
    ensures Bounded(After(s, p, a), name, bound)
  {
    var s' := After(s, p, a);
    HoldersFollow(s, p, a, name);
    if a.Commit? && Claims(s.txs[p], name) {
      SubsetSize(Holders(s'.db.users, name), Reserve(s, p, name));
    } else {
      SubsetSize(Holders(s'.db.users, name), Holders(s.db.users, name));
    }
    forall q | q in s'.txs && Claims(s'.txs[q], name) ensures |Reserve(s', q, name)| <= bound {
      ClaimStaysBounded(s, p, a, q, name, bound);
    }
  }

  lemma ClaimStaysBounded(s: State, p: nat, a: Action, q: nat, name: string, bound: nat)
    requires Inv(s) && Enabled(s, p, a) && bound >= 1 && Bounded(s, name, bound)
    requires q in After(s, p, a).txs && Claims(After(s, p, a).txs[q], name)
    ensures |Reserve(After(s, p, a), q, name)| <= bound
  {
    var s' := After(s, p, a);
    HoldersFollow(s, p, a, name);
    TxFollows(s, p, a, q);
    if q in s.txs && Claims(s.txs[q], name) {
      ClaimsLock(s, q, name);
      if a.Commit? && Claims(s.txs[p], name) {
        ClaimsLock(s, p, name);
      }
      SubsetSize(Reserve(s', q, name), Reserve(s, q, name));
    } else {
      NewClaimFits(s, p, a, name);
    }
  }

  /** A step moves one transaction, which keeps its write; a commit finishes it. */
  lemma TxFollows(s: State, p: nat, a: Action, q: nat)
    requires Enabled(s, p, a) && q in After(s, p, a).txs
    ensures q != p || a.Statement? || a.DropSessions? ==> q in s.txs && After(s, p, a).txs[q] == s.txs[q]
    ensures q in s.txs ==> After(s, p, a).txs[q].w == s.txs[q].w
    ensures a.Commit? ==> After(s, p, a).txs[p].Finished?
  {
  }

  lemma {:induction false} RunStaysBounded(run: seq<State>, events: seq<Event>, n: nat, name: string)
    requires IsRun(run, events) && Initial(run[0]) && n < |run|
    ensures Bounded(run[n], name, Max(1, |Holders(run[0].db.users, name)|))
  {
    if n > 0 {
      RunStaysBounded(run, events, n - 1, name);
      RunKeepsInv(run, events, n - 1);
      StepStaysBounded(run[n - 1], events[n - 1].p, events[n - 1].a, name, Max(1, |Holders(run[0].db.users, name)|));
    }
  }

  /** However transactions interleave, and whatever names clash to begin with, no lowered name is ever
      held by more accounts than when the run began, beyond one. */
  lemma HoldersNeverExceedTheStart(run: seq<State>, events: seq<Event>, n: nat, name: string)
    requires IsRun(run, events) && Initial(run[0]) && n < |run|
    ensures |Holders(run[n].db.users, name)| <= Max(1, |Holders(run[0].db.users, name)|)
  {
    RunStaysBounded(run, events, n, name);
  }

  // ----- under the SCIM handler's mutex no name's holders ever rise -----

  /** A transaction of UpdateSCIMProfile or TakeOverForSCIM that is not over. */
  predicate Renaming(tx: Tx) { (tx.w.ScimUpdate? || tx.w.TakeOver?) && !tx.Finished? }

  /** userResourceHandler.mu: every caller of the two holds it across the store call, and one server
      process runs per database (internal/scim/handler.go:181-189, 405-426, 483-486). */
  predicate OneRenames(s: State) {
    forall p, q :: p in s.txs && q in s.txs && Renaming(s.txs[p]) && Renaming(s.txs[q]) ==> p == q
  }

  /** Every account id stored up to state `n`. */
  function EverStored(run: seq<State>, n: nat): set<string>
    requires n < |run|
  {
    run[n].db.users.Keys + if n == 0 then {} else EverStored(run, n - 1)
  }

  predicate IdIsNew(s: State, p: nat, a: Action, ids: set<string>)
    requires Enabled(s, p, a)
  {
    a.Commit? && s.txs[p].w.Create? ==> s.txs[p].w.id !in ids
  }

  /** Ids are drawn at random: an account is never created under one stored before. */
  ghost predicate NewIds(run: seq<State>, events: seq<Event>)
    requires IsRun(run, events)
  {
    forall i :: 0 <= i < |events| ==> IdIsNew(run[i], events[i].p, events[i].a, EverStored(run, i))
  }

  /** A transaction past its check finds the name held by nobody else, or by its own account among
      others, or its account is gone; `ids` are the ids stored so far. */
  predicate SettledIn(users: map<string, User>, w: Write, ids: set<string>)
    requires w.Renames()
  {
    var holders := Holders(users, NameKey(w));
    holders <= {w.id} || (!w.Create? && w.id in ids && (w.id in holders || w.id !in users))
  }

  predicate AllSettled(s: State, ids: set<string>) {
    s.db.users.Keys <= ids && forall p :: p in s.txs && PastCheck(s.txs[p]) ==> SettledIn(s.db.users, s.txs[p].w, ids)
  }

  /** What a write may do to the names: rename or add the accounts `moved`, or remove accounts. */
  predicate NamesMove(before: map<string, User>, after: map<string, User>, moved: set<string>) {
    forall id :: id in after && id !in moved ==> id in before && after[id].username == before[id].username
  }

  lemma CommitMovesNames(s: State, p: nat)
    requires Inv(s) && Enabled(s, p, Commit)
    ensures NamesMove(s.db.users, After(s, p, Commit).db.users, if PastCheck(s.txs[p]) then {s.txs[p].w.id} else {})
    ensures s.db.users.Keys <= After(s, p, Commit).db.users.Keys
  {
    assert TxOk(s, p);
  }

  lemma StepMovesNames(s: State, p: nat, a: Action)
    requires Inv(s) && Enabled(s, p, a) && !a.Commit?
    ensures NamesMove(s.db.users, After(s, p, a).db.users, {})
  {
    if a.Statement? {
      StatementKeepsNames(s.db, a.w);
    } else if Private(a) {
      PrivateIsOwnOnly(s, p, a);
    }
  }

  lemma StepStaysSettled(s: State, p: nat, a: Action, ids: set<string>)
    requires Inv(s) && Enabled(s, p, a) && OneRenames(s) && AllSettled(s, ids) && IdIsNew(s, p, a, ids)
    ensures AllSettled(After(s, p, a), ids + After(s, p, a).db.users.Keys)
  {
    var s' := After(s, p, a);
    forall q | q in s'.txs && PastCheck(s'.txs[q]) ensures SettledIn(s'.db.users, s'.txs[q].w, ids + s'.db.users.Keys) {
      TxFollows(s, p, a, q);
      if q in s.txs && PastCheck(s.txs[q]) {
        SettledStays(s, p, a, q, ids);
      } else {
        NewlySettled(s, p, a, q, ids);
      }
    }
  }

  lemma NewlySettled(s: State, p: nat, a: Action, q: nat, ids: set<string>)
    requires Inv(s) && Enabled(s, p, a) && s.db.users.Keys <= ids
    requires q in After(s, p, a).txs && PastCheck(After(s, p, a).txs[q]) && (q in s.txs ==> !PastCheck(s.txs[q]))
    ensures SettledIn(After(s, p, a).db.users, After(s, p, a).txs[q].w, ids + After(s, p, a).db.users.Keys)
  {
    TxFollows(s, p, a, q);
    PrivateIsOwnOnly(s, p, a);
    ClaimsByReading(s, p, a, NameKey(After(s, p, a).txs[q].w));
  }

  /** Neither of two transactions past their checks commits under the other's account: SCIM's renames come
      one at a time, and a create's id is new. */
  lemma CommitMovesAnother(s: State, p: nat, q: nat, ids: set<string>)
    requires p in s.txs && q in s.txs && p != q && PastCheck(s.txs[p]) && PastCheck(s.txs[q]) && OneRenames(s)
    requires s.txs[p].w.Create? ==> s.txs[p].w.id !in ids
    requires !s.txs[q].w.Create? && s.txs[q].w.id in ids
    ensures s.txs[p].w.id != s.txs[q].w.id
  {
  }

  lemma SettledFollows(before: map<string, User>, after: map<string, User>, w: Write, ids: set<string>,
                       moved: set<string>)
    requires w.Renames() && SettledIn(before, w, ids) && NamesMove(before, after, moved)
    requires Holders(after, NameKey(w)) <= Holders(before, NameKey(w))
    requires !w.Create? && w.id in ids ==> w.id !in moved
    ensures SettledIn(after, w, ids + after.Keys)
  {
  }

  /** No other transaction takes the name: that would need the lock on it. */
  lemma LockedNameOnlyLoses(s: State, p: nat, a: Action, q: nat)
    requires Inv(s) && Enabled(s, p, a) && q in s.txs && PastCheck(s.txs[q]) && (a.Commit? ==> p != q)
    ensures
      var name := NameKey(s.txs[q].w);
      Holders(After(s, p, a).db.users, name) <= Holders(s.db.users, name)
  {
    var name := NameKey(s.txs[q].w);
    ClaimsLock(s, q, name);
    if a.Commit? && Claims(s.txs[p], name) {
      ClaimsLock(s, p, name);
    }
    HoldersFollow(s, p, a, name);
  }

  lemma SettledStays(s: State, p: nat, a: Action, q: nat, ids: set<string>)
    requires Inv(s) && Enabled(s, p, a) && OneRenames(s) && AllSettled(s, ids) && IdIsNew(s, p, a, ids)
    requires q in s.txs && PastCheck(s.txs[q]) && (a.Commit? ==> p != q)
    ensures SettledIn(After(s, p, a).db.users, s.txs[q].w, ids + After(s, p, a).db.users.Keys)
  {
    var before, after, w := s.db.users, After(s, p, a).db.users, s.txs[q].w;
    LockedNameOnlyLoses(s, p, a, q);
    if a.Commit? {
      CommitMovesNames(s, p);
      if PastCheck(s.txs[p]) && !w.Create? && w.id in ids {
        CommitMovesAnother(s, p, q, ids);
      }
      SettledFollows(before, after, w, ids, if PastCheck(s.txs[p]) then {s.txs[p].w.id} else {});
    } else {
      StepMovesNames(s, p, a);
      SettledFollows(before, after, w, ids, {});
    }
  }

  lemma StepNeverRises(s: State, p: nat, a: Action, name: string, ids: set<string>)
    requires Inv(s) && Enabled(s, p, a) && AllSettled(s, ids)
    ensures |Holders(After(s, p, a).db.users, name)| <= Max(1, |Holders(s.db.users, name)|)
  {
    var holders := Holders(After(s, p, a).db.users, name);
    HoldersFollow(s, p, a, name);
    if a.Commit? && Claims(s.txs[p], name) {
      assert SettledIn(s.db.users, s.txs[p].w, ids) && TxOk(s, p);
      SubsetSize(holders, if holders <= Holders(s.db.users, name) then Holders(s.db.users, name) else {s.txs[p].w.id});
    } else {
      SubsetSize(holders, Holders(s.db.users, name));
    }
  }

  lemma {:induction false} RunStaysSettled(run: seq<State>, events: seq<Event>, n: nat)
    requires IsRun(run, events) && Initial(run[0]) && n < |run|
    requires NewIds(run, events) && forall s :: s in run ==> OneRenames(s)
    ensures AllSettled(run[n], EverStored(run, n))
  {
    if n > 0 {
      RunStaysSettled(run, events, n - 1);
      RunKeepsInv(run, events, n - 1);
      assert OneRenames(run[n - 1]) && EverStored(run, n) == EverStored(run, n - 1) + run[n].db.users.Keys;
      StepStaysSettled(run[n - 1], events[n - 1].p, events[n - 1].a, EverStored(run, n - 1));
    }
  }

  predicate Steady(before: nat, after: nat) { after <= Max(1, before) }

  lemma {:induction false} SteadyThroughout(sizes: seq<nat>, i: nat, j: nat)
    requires i <= j < |sizes| && forall k :: 0 < k < |sizes| ==> Steady(sizes[k - 1], sizes[k])
    ensures sizes[j] <= Max(1, sizes[i])
    decreases j
  {
    if i < j {
      SteadyThroughout(sizes, i, j - 1);
    }
  }

  lemma RunStepIsSteady(run: seq<State>, events: seq<Event>, k: nat, name: string)
    requires IsRun(run, events) && Initial(run[0]) && 0 < k < |run|
    requires NewIds(run, events) && forall s :: s in run ==> OneRenames(s)
    ensures Steady(|Holders(run[k - 1].db.users, name)|, |Holders(run[k].db.users, name)|)
  {
    RunKeepsInv(run, events, k - 1);
    RunStaysSettled(run, events, k - 1);
    StepNeverRises(run[k - 1], events[k - 1].p, events[k - 1].a, name, EverStored(run, k - 1));
  }

  /** With SCIM's renames one at a time and new accounts under new ids, no name is ever held by more
      accounts than at any earlier moment, beyond one, from any table and with any other transactions
      in between. */
  lemma MutexKeepsNamesFromRising(run: seq<State>, events: seq<Event>, i: nat, j: nat, name: string)
    requires IsRun(run, events) && Initial(run[0]) && i <= j < |run|
    requires NewIds(run, events) && forall s :: s in run ==> OneRenames(s)
    ensures |Holders(run[j].db.users, name)| <= Max(1, |Holders(run[i].db.users, name)|)
  {
    var sizes := seq(|run|, k requires 0 <= k < |run| => |Holders(run[k].db.users, name)|);
    forall k | 0 < k < |sizes| ensures Steady(sizes[k - 1], sizes[k]) {
      RunStepIsSteady(run, events, k, name);
    }
    SteadyThroughout(sizes, i, j);
  }

  // ----- and every commit is its write run alone, name checks included -----

  /** The transaction has passed the UNIQUE(username) check of its UPDATE. */
  predicate PastUnique(tx: Tx) {
    (tx.RowHeld? || tx.Swept?) && (tx.w.ScimUpdate? || tx.w.TakeOver?)
  }

  predicate AllUnique(s: State) {
    forall p :: p in s.txs && PastUnique(s.txs[p]) ==>
      !ExactNameTaken(s.db.users, s.txs[p].w.row.username, s.txs[p].w.id)
  }

  lemma CommitMovesTo(s: State, p: nat)
    requires Inv(s) && Enabled(s, p, Commit) && PastCheck(s.txs[p])
    ensures
      var w, after := s.txs[p].w, After(s, p, Commit).db.users;
      w.id in after ==> after[w.id].username == w.row.username
  {
    assert TxOk(s, p);
  }

  /** Another account could take the very name only under the lock on its lowered form. */
  lemma UniqueStays(s: State, p: nat, a: Action, q: nat)
    requires Inv(s) && Enabled(s, p, a) && AllUnique(s)
    requires q in s.txs && PastUnique(s.txs[q]) && (a.Commit? ==> p != q)
    ensures !ExactNameTaken(After(s, p, a).db.users, s.txs[q].w.row.username, s.txs[q].w.id)
  {
    if a.Commit? {
      CommitMovesNames(s, p);
      if PastCheck(s.txs[p]) {
        CommitMovesTo(s, p);
        ClaimsLock(s, p, NameKey(s.txs[p].w));
        ClaimsLock(s, q, NameKey(s.txs[q].w));
      }
    } else {
      StepMovesNames(s, p, a);
    }
  }

  lemma NewlyUnique(s: State, p: nat, a: Action)
    requires Enabled(s, p, a) && Private(a) && p in After(s, p, a).txs && PastUnique(After(s, p, a).txs[p])
    requires p in s.txs ==> !PastUnique(s.txs[p])
    ensures !ExactNameTaken(After(s, p, a).db.users, After(s, p, a).txs[p].w.row.username, After(s, p, a).txs[p].w.id)
  {
  }

  lemma StepStaysUnique(s: State, p: nat, a: Action)
    requires Inv(s) && Enabled(s, p, a) && AllUnique(s)
    ensures AllUnique(After(s, p, a))
  {
    var s' := After(s, p, a);
    forall q | q in s'.txs && PastUnique(s'.txs[q])
      ensures !ExactNameTaken(s'.db.users, s'.txs[q].w.row.username, s'.txs[q].w.id)
    {
      TxFollows(s, p, a, q);
      if q in s.txs && PastUnique(s.txs[q]) {
        UniqueStays(s, p, a, q);
      } else {
        NewlyUnique(s, p, a);
      }
    }
  }

  lemma {:induction false} RunStaysUnique(run: seq<State>, events: seq<Event>, n: nat)
    requires IsRun(run, events) && Initial(run[0]) && n < |run|
    ensures AllUnique(run[n])
  {
    if n > 0 {
      RunStaysUnique(run, events, n - 1);
      RunKeepsInv(run, events, n - 1);
      StepStaysUnique(run[n - 1], events[n - 1].p, events[n - 1].a);
    }
  }

  lemma SettledIsFree(users: map<string, User>, w: Write, ids: set<string>)
    requires w.Renames() && SettledIn(users, w, ids) && (w.Create? <==> w.id !in users)
    requires w.Create? || !ExactNameTaken(users, w.row.username, w.id)
    ensures !NameRefused(users, w.row.username, w.id)
  {
    forall other | other in users && other != w.id && Lower(users[other].username) == NameKey(w)
      ensures w.id in Holders(users, NameKey(w))
    {
      assert other in Holders(users, NameKey(w));
    }
  }

  lemma SettledCommits(s: State, p: nat, ids: set<string>)
    requires Inv(s) && Enabled(s, p, Commit) && AllSettled(s, ids) && AllUnique(s)
    ensures Apply(s.db, s.txs[p].w) == (After(s, p, Commit).db, Ok)
  {
    CommitIsAtomic(s, p);
    var w := s.txs[p].w;
    if w.Renames() {
      assert TxOk(s, p) && SettledIn(s.db.users, w, ids);
      SettledIsFree(s.db.users, w, ids);
    }
  }

  /** With SCIM's renames one at a time and new accounts under new ids, every step from any table, clashing or
      not, is nothing, a logout's deletes, or one whole write run alone, name checks included. */
  lemma MutexMakesRunsSerial(run: seq<State>, events: seq<Event>, n: nat)
    requires IsRun(run, events) && Initial(run[0]) && n < |events|
    requires NewIds(run, events) && forall s :: s in run ==> OneRenames(s)
    ensures AtomicStep(run[n].db, run[n + 1].db, true)
    ensures events[n].a.Commit? ==> Apply(run[n].db, run[n].txs[events[n].p].w) == (run[n + 1].db, Ok)
  {
    RunKeepsInv(run, events, n);
    RunStaysSettled(run, events, n);
    RunStaysUnique(run, events, n);
    SettledStepIsAtomic(run[n], events[n].p, events[n].a, EverStored(run, n));
  }

  lemma SettledStepIsAtomic(s: State, p: nat, a: Action, ids: set<string>)
    requires Inv(s) && Enabled(s, p, a) && AllSettled(s, ids) && AllUnique(s)
    ensures AtomicStep(s.db, After(s, p, a).db, true)
    ensures a.Commit? ==> Apply(s.db, s.txs[p].w) == (After(s, p, a).db, Ok)
  {
    if a.Commit? {
      CommitIsAtomic(s, p);
      SettledCommits(s, p, ids);
      assert Land(s.db, s.txs[p].w) == (After(s, p, a).db, Ok);
    } else {
      OtherStepIsAtomic(s, p, a);
    }
  }

  lemma OtherStepIsAtomic(s: State, p: nat, a: Action)
    requires Inv(s) && Enabled(s, p, a) && !a.Commit?
    ensures AtomicStep(s.db, After(s, p, a).db, true)
  {
    match a
    case Statement(w) => if Land(s.db, w).1.Ok? { assert Apply(s.db, w) == (After(s, p, a).db, Ok); }
    case DropSessions(tokens) => assert After(s, p, a).db == s.db.(sessions := s.db.sessions - tokens);
    case _ => PrivateIsOwnOnly(s, p, a);
  }

  // ----- without the mutex, where a name clash already exists -----

  /** Accounts `u` and `v` of a table whose names differ only in letter case, and a name that no
      account holds. */
  datatype Clash = Clash(db: Db, used: set<string>, u: string, v: string, other: string) {
    ghost predicate Valid() {
      && UniqueNames(db.users) && Vouched(db) && db.sessions.Keys <= used
      && u in db.users && v in db.users && u != v
      && Lower(db.users[u].username) == Lower(db.users[v].username)
      && Holders(db.users, Lower(other)) == {}
    }

    function Row(): User
      requires u in db.users
    {
      db.users[u]
    }

    function Mine(): string
      requires u in db.users
    {
      Row().username
    }

    function Rename(name: string): Write
      requires u in db.users
    {
      ScimUpdate(u, Row().(username := name), Row().role, Row().status, Row().subject)
    }

    function Users(name: string): map<string, User>
      requires u in db.users
    {
      db.users[u := Row().(username := name)]
    }

    function Named(name: string, locks: map<string, nat>, txs: map<nat, Tx>): State
      requires u in db.users
    {
      State(db.(users := Users(name)), used, map[], locks, txs, false)
    }

    function Waiting(name: string, txs: map<nat, Tx>): State
      requires u in db.users
    {
      Named(name, map[Lower(Mine()) := 1], txs[1 := OwnRead(Rename(Mine()), true)])
    }

    lemma OtherIsNew()
      requires Valid()
      ensures Lower(Mine()) != Lower(other)
      ensures forall id :: id in db.users ==> Lower(db.users[id].username) != Lower(other)
    {
      forall id | id in db.users ensures Lower(db.users[id].username) != Lower(other) {
        assert id !in Holders(db.users, Lower(other));
      }
    }

    lemma KeeperReadsItsName() returns (run: seq<State>)
      requires Valid()
      ensures IsRun(run, [Event(1, Begin(Rename(Mine()))), Event(1, LockName), Event(1, ReadOwn)])
      ensures run[0] == Named(Mine(), map[], map[]) && run[3] == Waiting(Mine(), map[])
    {
      var s0 := Named(Mine(), map[], map[]);
      var s1 := After(s0, 1, Begin(Rename(Mine())));
      var s2 := After(s1, 1, LockName);
      run := [s0, s1, s2, After(s2, 1, ReadOwn)];
    }

    function Locked(tx: Tx): State
      requires u in db.users
    {
      Named(Mine(), map[Lower(Mine()) := 1, Lower(other) := 2], map[1 := OwnRead(Rename(Mine()), true), 2 := tx])
    }

    lemma NewNameIsLocked() returns (run: seq<State>)
      requires Valid()
      ensures IsRun(run, [Event(2, Begin(Rename(other))), Event(2, LockName)])
      ensures run[0] == Waiting(Mine(), map[]) && run[2] == Locked(NameLocked(Rename(other)))
    {
      OtherIsNew();
      var s0 := Waiting(Mine(), map[]);
      var s1 := After(s0, 2, Begin(Rename(other)));
      run := [s0, s1, After(s1, 2, LockName)];
    }

    lemma LockedNameIsFree() returns (run: seq<State>)
      requires Valid()
      ensures IsRun(run, [Event(2, ReadOwn), Event(2, ReadOthers)])
      ensures run[0] == Locked(NameLocked(Rename(other))) && run[2] == Locked(NameFree(Rename(other)))
    {
      OtherIsNew();
      var s0 := Locked(NameLocked(Rename(other)));
      var s1 := After(s0, 2, ReadOwn);
      assert s1 == Locked(OwnRead(Rename(other), false));
      assert OthersFree(s1.db.users, Rename(other));
      run := [s0, s1, After(s1, 2, ReadOthers)];
    }

    lemma NewNameIsFree() returns (run: seq<State>)
      requires Valid()
      ensures IsRun(run, [Event(2, Begin(Rename(other))), Event(2, LockName), Event(2, ReadOwn), Event(2, ReadOthers)])
      ensures run[0] == Waiting(Mine(), map[])
      ensures run[4] == Named(Mine(), map[Lower(Mine()) := 1, Lower(other) := 2],
                              map[1 := OwnRead(Rename(Mine()), true), 2 := NameFree(Rename(other))])
    {
      var locked := NewNameIsLocked();
      var free := LockedNameIsFree();
      var joined, _ := JoinRuns(locked, [Event(2, Begin(Rename(other))), Event(2, LockName)],
                                free, [Event(2, ReadOwn), Event(2, ReadOthers)]);
      run := joined;
      assert run == [locked[0], locked[1], locked[2], free[1], free[2]];
    }

    lemma NameIsUnique(name: string, next: string)
      requires Valid() && (next == Mine() || next == other)
      ensures !ExactNameTaken(Users(name), next, u)
    {
      OtherIsNew();
    }

    lemma RenameLocks(p: nat, name: string, next: string, locks: map<string, nat>, txs: map<nat, Tx>) returns (s: State)
      requires Valid() && (next == Mine() || next == other) && p in txs && txs[p] == NameFree(Rename(next))
      ensures Enabled(Named(name, locks, txs), p, LockRow) && s == After(Named(name, locks, txs), p, LockRow)
      ensures s == Named(name, locks, txs).(rowLock := map[u := p],
                                            txs := txs[p := RowHeld(Rename(next), Row().(username := next))])
    {
      NameIsUnique(name, next);
      s := After(Named(name, locks, txs), p, LockRow);
    }

    lemma RenameLands(p: nat, name: string, next: string, locks: map<string, nat>, txs: map<nat, Tx>, held: State)
      returns (s: State)
      requires Valid() && p in txs
      requires held == Named(name, locks, txs).(rowLock := map[u := p],
                                                txs := txs[p := RowHeld(Rename(next), Row().(username := next))])
      ensures Enabled(held, p, Commit) && s == After(held, p, Commit)
      ensures s == Named(next, Others(locks, p), txs[p := Finished(Rename(next), true)])
    {
      s := After(held, p, Commit);
      assert s.rowLock == map[];
      assert s.db.users == Users(next);
      assert s.txs == txs[p := Finished(Rename(next), true)];
    }

    lemma RenameCommits(p: nat, name: string, next: string, locks: map<string, nat>, txs: map<nat, Tx>)
      returns (run: seq<State>)
      requires Valid() && (next == Mine() || next == other) && p in txs && txs[p] == NameFree(Rename(next))
      ensures IsRun(run, [Event(p, LockRow), Event(p, Commit)]) && run[0] == Named(name, locks, txs)
      ensures run[2] == Named(next, Others(locks, p), txs[p := Finished(Rename(next), true)])
    {
      var held := RenameLocks(p, name, next, locks, txs);
      var done := RenameLands(p, name, next, locks, txs, held);
      run := [Named(name, locks, txs), held, done];
    }

    /** One of the clashing accounts is renamed away while a transaction that read "own name kept" still waits. */
    lemma NameLeaves() returns (run: seq<State>, events: seq<Event>)
      requires Valid()
      ensures IsRun(run, events) && |run| == 10 && run[0] == Named(Mine(), map[], map[])
      ensures
        var txs := map[1 := OwnRead(Rename(Mine()), true), 2 := Finished(Rename(other), true)];
        run[9] == Named(other, map[Lower(Mine()) := 1], txs)
    {
      OtherIsNew();
      var first := KeeperReadsItsName();
      var second := NewNameIsFree();
      run, events := JoinRuns(first, [Event(1, Begin(Rename(Mine()))), Event(1, LockName), Event(1, ReadOwn)],
        second, [Event(2, Begin(Rename(other))), Event(2, LockName), Event(2, ReadOwn), Event(2, ReadOthers)]);
      var third := RenameCommits(2, Mine(), other, run[7].nameLock, run[7].txs);
      run, events := JoinRuns(run, events, third, [Event(2, LockRow), Event(2, Commit)]);
      assert run[9] == third[2];
      assert Others(map[Lower(Mine()) := 1, Lower(other) := 2], 2) == map[Lower(Mine()) := 1];
    }

    /** That transaction then takes the name back without looking again. */
    lemma TakesNameBack() returns (run: seq<State>, events: seq<Event>)
      requires Valid()
      ensures IsRun(run, events) && |run| == 13 && run[0] == Named(Mine(), map[], map[])
      ensures run[9].db.users == Users(other) && run[12].db.users == Users(Mine())
    {
      run, events := NameLeaves();
      var waiting := run[9];
      var free := After(waiting, 1, ReadOthers);
      assert free == Named(other, waiting.nameLock, waiting.txs[1 := NameFree(Rename(Mine()))]);
      run, events := JoinRuns(run, events, [waiting, free], [Event(1, ReadOthers)]);
      var fourth := RenameCommits(1, other, Mine(), free.nameLock, free.txs);
      run, events := JoinRuns(run, events, fourth, [Event(1, LockRow), Event(1, Commit)]);
      assert run[9] == waiting && run[12] == fourth[2];
    }

    lemma OneHolderFewer()
      requires Valid()
      ensures Users(Mine()) == db.users
      ensures
        var name := Lower(Mine());
        |Holders(Users(Mine()), name)| > Max(1, |Holders(Users(other), name)|)
    {
      OtherIsNew();
      assert Users(Mine()) == db.users;
      var name := Lower(Mine());
      var all := Holders(db.users, name);
      assert u in all && v in all && Holders(Users(other), name) == all - {u};
      SubsetSize({u, v}, all);
    }

    /** The clashing name loses a holder and gets it back. */
    lemma HoldersRise() returns (run: seq<State>, events: seq<Event>)
      requires Valid()
      ensures IsRun(run, events) && |run| == 13 && Initial(run[0]) && run[0].db == db
      ensures
        var name := Lower(Mine());
        |Holders(run[12].db.users, name)| > Max(1, |Holders(run[9].db.users, name)|)
    {
      run, events := TakesNameBack();
      OneHolderFewer();
    }
  }

  lemma JoinRuns(first: seq<State>, firstEvents: seq<Event>, second: seq<State>, secondEvents: seq<Event>)
    returns (run: seq<State>, events: seq<Event>)
    requires IsRun(first, firstEvents) && IsRun(second, secondEvents) && first[|firstEvents|] == second[0]
    ensures IsRun(run, events)
    ensures run == first + second[1..] && events == firstEvents + secondEvents
  {
    run, events := first + second[1..], firstEvents + secondEvents;
    forall i | 0 <= i < |events|
      ensures Enabled(run[i], events[i].p, events[i].a) && run[i + 1] == After(run[i], events[i].p, events[i].a)
    {
      if i >= |firstEvents| {
        var k := i - |firstEvents|;
        assert events[i] == secondEvents[k] && run[i] == second[k] && run[i + 1] == second[k + 1];
      }
    }
  }

  // ----- exactly when no name's holders ever rise without the mutex -----

  /** In the run, no name is ever held by more accounts than at an earlier moment, beyond one. */
  ghost predicate NeverRises(run: seq<State>) {
    forall i, j, name :: 0 <= i <= j < |run| ==>
      |Holders(run[j].db.users, name)| <= Max(1, |Holders(run[i].db.users, name)|)
  }

  ghost predicate NoRunRises(db: Db) {
    forall run: seq<State>, events: seq<Event> ::
      IsRun(run, events) && Initial(run[0]) && run[0].db == db ==> NeverRises(run)
  }

  lemma AtMostOneHolder(users: map<string, User>, name: string)
    requires NoNameClash(users)
    ensures |Holders(users, name)| <= 1
  {
    if id :| id in Holders(users, name) {
      assert Holders(users, name) <= {id};
      SubsetSize(Holders(users, name), {id});
    }
  }

  /** A name longer than every stored one. */
  lemma {:induction false} SomeNameIsFree(users: map<string, User>) returns (name: string)
    ensures Holders(users, Lower(name)) == {}
    ensures |name| > 0 && forall id :: id in users ==> |users[id].username| < |name|
    decreases |users|
  {
    if users == map[] {
      name := "a";
    } else {
      var id :| id in users;
      var rest := users - {id};
      assert |rest| < |users| by {
        assert rest.Keys == users.Keys - {id};
      }
      name := SomeNameIsFree(rest);
      name := name + users[id].username;
    }
    assert forall other :: other in users ==> |Lower(users[other].username)| < |Lower(name)|;
  }

  /** No run from a table ever raises a name's holders above what they were at any earlier moment,
      beyond one, exactly when no two names of the table clash. */
  lemma NoRunRisesExactlyWithoutClash(db: Db)
    requires Vouched(db) && UniqueNames(db.users)
    ensures NoRunRises(db) <==> NoNameClash(db.users)
  {
    if NoNameClash(db.users) {
      forall run: seq<State>, events: seq<Event> | IsRun(run, events) && Initial(run[0]) && run[0].db == db
        ensures NeverRises(run)
      {
        forall i, j, name | 0 <= i <= j < |run|
          ensures |Holders(run[j].db.users, name)| <= Max(1, |Holders(run[i].db.users, name)|)
        {
          AtMostOneHolder(db.users, name);
          HoldersNeverExceedTheStart(run, events, j, name);
        }
      }
    } else {
      var u, v :| u in db.users && v in db.users && u != v
        && Lower(db.users[u].username) == Lower(db.users[v].username);
      var other := SomeNameIsFree(db.users);
      var clash := Clash(db, db.sessions.Keys, u, v, other);
      var run, events := clash.HoldersRise();
      assert !NeverRises(run);
    }
  }
}
