/** Group writes side by side with everything that touches memberships from outside
    (internal/scim/handler.go:580-717, internal/store/sqlstore.go:361-372, 709-770). A PUT or PATCH reads
    the members, looks up the new ones and writes the difference under the handler's mutex, one store
    statement at a time; accounts and the group itself are deleted without it, and the foreign keys take
    their memberships along. */
module GroupRuns {
  import opened Basics
  import opened Groups

  /** A PUT or PATCH of the one group these runs follow, by what it means for the members. `at` is its
      place in the log and `before` the members it read. */
  datatype Process =
    | Waits(actions: seq<Action>)
    | Reads(actions: seq<Action>)
    | Checks(actions: seq<Action>, at: nat, before: set<string>, left: set<string>)
    | Writes(actions: seq<Action>, at: nat, before: set<string>, gone: set<string>, come: set<string>)
    | Done(actions: seq<Action>, at: nat)
    | Stopped

  /** What happened to the members: a finished write, counted from the moment it read them; what an
      unfinished one has written so far; memberships that went with a deleted account or group. */
  datatype Entry = Whole(actions: seq<Action>) | Partly(gone: set<string>, come: set<string>) | Taken(ids: set<string>)

  /** `ids` is every account id ever stored, `accounts` the stored ones and `managed` those of SCIM. */
  datatype State = State(
    members: set<string>,
    stands: bool,
    ids: set<string>,
    accounts: set<string>,
    managed: set<string>,
    holder: Option<nat>,
    procs: map<nat, Process>,
    log: seq<Entry>)

  /** `pick` is the member the next lookup, removal or addition is about. */
  datatype Step =
    | Begin(actions: seq<Action>)
    | Advance(pick: string)
    | Stop
    | CreateAccount(id: string, scim: bool)
    | ManageAccount(id: string)
    | DeleteAccount(id: string)
    | DeleteGroup

  function Final(proc: Process): set<string>
    requires proc.Checks? || proc.Writes?
  {
    PerformAll(proc.before, proc.actions)
  }

  predicate Running(proc: Process) { !proc.Done? && !proc.Stopped? }

  predicate Inside(proc: Process) { proc.Reads? || proc.Checks? || proc.Writes? }

  /** Members still to remove, and then to add. */
  function ToRemove(proc: Process): set<string>
    requires proc.Writes?
  {
    proc.before - Final(proc) - proc.gone
  }

  function ToAdd(proc: Process): set<string>
    requires proc.Writes?
  {
    Final(proc) - proc.before - proc.come
  }

  predicate PickOk(proc: Process, pick: string) {
    match proc
    case Checks(_, _, _, left) => left == {} || pick in left
    case Writes(_, _, _, _, _) =>
      if ToRemove(proc) != {} then pick in ToRemove(proc) else ToAdd(proc) == {} || pick in ToAdd(proc)
    case _ => true
  }

  predicate Enabled(s: State, p: nat, a: Step) {
    match a
    case Begin(_) => p !in s.procs
    case Advance(pick) =>
      p in s.procs && Running(s.procs[p]) && PickOk(s.procs[p], pick) && (s.procs[p].Waits? ==> s.holder.None?)
    case Stop => p in s.procs && Running(s.procs[p])
    case CreateAccount(id, _) => id !in s.ids
    case ManageAccount(id) => id in s.accounts
    case DeleteAccount(id) => id in s.accounts
    case DeleteGroup => s.stands
  }

  function Release(s: State, p: nat, proc: Process): State {
    s.(holder := if s.holder == Some(p) then None else s.holder, procs := s.procs[p := proc])
  }

  /** The log with what it says of one write brought up to date. */
  function Restated(log: seq<Entry>, at: nat, entry: Entry): seq<Entry> {
    if at < |log| then log[at := entry] else log
  }

  /** One statement of process `p`. */
  function Advanced(s: State, p: nat, pick: string): State
    requires Enabled(s, p, Advance(pick))
  {
    var proc := s.procs[p];
    match proc
    case Waits(actions) => s.(holder := Some(p), procs := s.procs[p := Reads(actions)])
    case Reads(actions) =>
      if !s.stands then Release(s, p, Stopped)
      else
        s.(procs := s.procs[p := Checks(actions, |s.log|, s.members, PerformAll(s.members, actions) - s.members)],
           log := s.log + [Partly({}, {})])
    case Checks(actions, at, before, left) =>
      if left == {} then s.(procs := s.procs[p := Writes(actions, at, before, {}, {})])
      else if pick in s.managed then s.(procs := s.procs[p := Checks(actions, at, before, left - {pick})])
      else Release(s, p, Stopped)
    case Writes(actions, at, before, gone, come) =>
      if ToRemove(proc) != {} then
        s.(members := s.members - {pick}, procs := s.procs[p := Writes(actions, at, before, gone + {pick}, come)],
           log := Restated(s.log, at, Partly(gone + {pick}, come)))
      else if ToAdd(proc) != {} then
        if s.stands && pick in s.accounts then
          s.(members := s.members + {pick}, procs := s.procs[p := Writes(actions, at, before, gone, come + {pick})],
             log := Restated(s.log, at, Partly(gone, come + {pick})))
        else Release(s, p, Stopped)
      else Release(s.(log := Restated(s.log, at, Whole(actions))), p, Done(actions, at))
  }

  function After(s: State, p: nat, a: Step): State
    requires Enabled(s, p, a)
  {
    match a
    case Begin(actions) => s.(procs := s.procs[p := Waits(actions)])
    case Advance(pick) => Advanced(s, p, pick)
    case Stop => Release(s, p, Stopped)
    case CreateAccount(id, scim) =>
      s.(ids := s.ids + {id}, accounts := s.accounts + {id}, managed := if scim then s.managed + {id} else s.managed)
    case ManageAccount(id) => s.(managed := s.managed + {id})
    case DeleteAccount(id) =>
      s.(members := s.members - {id}, accounts := s.accounts - {id}, managed := s.managed - {id},
         log := s.log + [Taken({id})])
    case DeleteGroup => s.(members := {}, stands := false, log := s.log + [Taken(s.members)])
  }

  // ----- the log tells the members -----

  function Effect(members: set<string>, entry: Entry): set<string> {
    match entry
    case Whole(actions) => PerformAll(members, actions)
    case Partly(gone, come) => members - gone + come
    case Taken(ids) => members - ids
  }

  /** The members after the entries one at a time. */
  function Serial(start: set<string>, log: seq<Entry>): set<string> {
    if log == [] then start else Effect(Serial(start, log[..|log| - 1]), log[|log| - 1])
  }

  /** What the entries from `from` on took away. */
  function TakenSince(log: seq<Entry>, from: nat): set<string> {
    if |log| <= from then {}
    else
      var last := |log| - 1;
      TakenSince(log[..last], from) + if log[last].Taken? then log[last].ids else {}
  }

  lemma {:induction false} TakenAgree(log: seq<Entry>, other: seq<Entry>, from: nat)
    requires |log| == |other| && forall i :: from <= i < |log| ==> log[i] == other[i]
    ensures TakenSince(log, from) == TakenSince(other, from)
    decreases |log|
  {
    if |log| > from {
      TakenAgree(log[..|log| - 1], other[..|log| - 1], from);
    }
  }

  lemma TakenGrows(log: seq<Entry>, entry: Entry, from: nat)
    requires from <= |log|
    ensures TakenSince(log + [entry], from) == TakenSince(log, from) + if entry.Taken? then entry.ids else {}
  {
    assert (log + [entry])[..|log|] == log;
  }

  predicate OnlyTaken(log: seq<Entry>, from: nat) {
    forall i :: from <= i < |log| ==> log[i].Taken?
  }

  /** An entry followed by nothing but deletions. */
  lemma {:induction false} SerialFrom(start: set<string>, log: seq<Entry>, at: nat)
    requires at < |log| && OnlyTaken(log, at + 1)
    ensures Serial(start, log) == Effect(Serial(start, log[..at]), log[at]) - TakenSince(log, at + 1)
    decreases |log|
  {
    var last := |log| - 1;
    if at == last {
    } else {
      var earlier := log[..last];
      SerialFrom(start, earlier, at);
      assert earlier[..at] == log[..at] && earlier[at] == log[at];
    }
  }

  /** Replacing that entry. */
  lemma SerialReplaced(start: set<string>, log: seq<Entry>, at: nat, entry: Entry)
    requires at < |log| && OnlyTaken(log, at + 1)
    ensures Serial(start, log[at := entry]) == Effect(Serial(start, log[..at]), entry) - TakenSince(log, at + 1)
  {
    var changed := log[at := entry];
    SerialFrom(start, changed, at);
    assert changed[..at] == log[..at];
    TakenAgree(changed, log, at + 1);
  }

  lemma SerialGrows(start: set<string>, log: seq<Entry>, entry: Entry)
    ensures Serial(start, log + [entry]) == Effect(Serial(start, log), entry)
  {
    assert (log + [entry])[..|log|] == log;
  }

  // ----- what one step keeps -----

  /** Where an unfinished write stands: the log from its entry on, and what the entry says so far. */
  predicate Underway(start: set<string>, s: State, proc: Process)
    requires proc.Checks? || proc.Writes?
  {
    && proc.at < |s.log| && OnlyTaken(s.log, proc.at + 1) && Serial(start, s.log[..proc.at]) == proc.before
    && (forall id :: id in TakenSince(s.log, proc.at + 1) ==> id in s.ids && (id !in s.accounts || !s.stands))
    && (proc.Checks? ==> s.log[proc.at] == Partly({}, {}))
    && (proc.Writes? ==>
         && s.log[proc.at] == Partly(proc.gone, proc.come)
         && proc.gone <= proc.before - Final(proc) && proc.come <= Final(proc) - proc.before)
  }

  /** Every id a write is about to add was found to be managed. */
  predicate LookedUp(s: State, proc: Process) {
    match proc
    case Checks(_, _, before, left) => forall id :: id in Final(proc) - before - left && id in s.accounts ==>
      id in s.managed
    case Writes(_, _, before, _, _) => forall id :: id in Final(proc) - before && id in s.accounts ==> id in s.managed
    case _ => true
  }

  predicate KnownIds(s: State, proc: Process) {
    match proc
    case Checks(_, _, before, left) => Final(proc) - before - left <= s.ids
    case Writes(_, _, before, _, _) => Final(proc) - before <= s.ids
    case _ => true
  }

  predicate ProcOk(start: set<string>, s: State, p: nat, proc: Process) {
    && LookedUp(s, proc) && KnownIds(s, proc)
    && (Inside(proc) ==> s.holder == Some(p))
    && (proc.Checks? || proc.Writes? ==> Underway(start, s, proc))
    && (proc.Done? ==> proc.at < |s.log| && s.log[proc.at] == Whole(proc.actions))
  }

  predicate TablesOk(s: State) {
    s.members <= s.managed <= s.accounts <= s.ids && (!s.stands ==> s.members == {})
  }

  ghost predicate Inv(start: set<string>, s: State) {
    && TablesOk(s) && s.members == Serial(start, s.log)
    && forall p :: p in s.procs ==> ProcOk(start, s, p, s.procs[p])
  }

  /** An outside step: the log grows by what it takes away, and nothing else of a write changes. */
  predicate Outside(a: Step) { a.CreateAccount? || a.ManageAccount? || a.DeleteAccount? || a.DeleteGroup? }

  lemma OutsideKeepsProc(start: set<string>, s: State, p: nat, a: Step, q: nat)
    requires Inv(start, s) && Enabled(s, p, a) && Outside(a) && q in s.procs
    ensures ProcOk(start, After(s, p, a), q, s.procs[q])
  {
    var s', proc := After(s, p, a), s.procs[q];
    assert ProcOk(start, s, q, proc);
    if (proc.Checks? || proc.Writes?) && s'.log != s.log {
      var entry := s'.log[|s.log|];
      assert s'.log == s.log + [entry] && entry.Taken?;
      TakenGrows(s.log, entry, proc.at + 1);
      assert s'.log[..proc.at] == s.log[..proc.at];
    }
  }

  lemma OutsideKeepsTables(start: set<string>, s: State, p: nat, a: Step)
    requires Inv(start, s) && Enabled(s, p, a) && Outside(a)
    ensures TablesOk(After(s, p, a)) && After(s, p, a).members == Serial(start, After(s, p, a).log)
  {
    if a.DeleteAccount? {
      DeletionKeepsTables(start, s, p, a.id);
    } else if a.DeleteGroup? {
      SerialGrows(start, s.log, Taken(s.members));
      assert s.members - s.members == {};
    }
  }

  lemma DeletionKeepsTables(start: set<string>, s: State, p: nat, id: string)
    requires Inv(start, s) && Enabled(s, p, DeleteAccount(id))
    ensures
      var s' := After(s, p, DeleteAccount(id));
      TablesOk(s') && s'.members == Serial(start, s'.log)
  {
    var s' := After(s, p, DeleteAccount(id));
    SerialGrows(start, s.log, Taken({id}));
    assert s'.log == s.log + [Taken({id})];
    SubsetsShrink(s.members, s.managed, id);
    SubsetsShrink(s.managed, s.accounts, id);
    assert s'.members == Effect(s.members, Taken({id}));
  }

  lemma SubsetsShrink(a: set<string>, b: set<string>, id: string)
    requires a <= b
    ensures a - {id} <= b - {id} <= b
  {
  }

  lemma ReadKeepsInv(start: set<string>, s: State, p: nat, pick: string)
    requires Inv(start, s) && Enabled(s, p, Advance(pick)) && s.procs[p].Reads?
    ensures
      var s' := After(s, p, Advance(pick));
      TablesOk(s') && s'.members == Serial(start, s'.log) && ProcOk(start, s', p, s'.procs[p])
  {
    assert ProcOk(start, s, p, s.procs[p]);
    if s.stands {
      SerialGrows(start, s.log, Partly({}, {}));
      assert (s.log + [Partly({}, {})])[..|s.log|] == s.log;
    }
  }

  /** What the log tells of the members once a write has brought its entry up to date. */
  lemma WriteIsTold(start: set<string>, s: State, p: nat, pick: string)
    requires Inv(start, s) && Enabled(s, p, Advance(pick)) && s.procs[p].Writes?
    ensures
      var s' := After(s, p, Advance(pick));
      s'.members == Serial(start, s'.log)
  {
    var proc := s.procs[p];
    assert ProcOk(start, s, p, proc);
    var s' := After(s, p, Advance(pick));
    SerialFrom(start, s.log, proc.at);
    if s'.log != s.log {
      SerialReplaced(start, s.log, proc.at, s'.log[proc.at]);
    }
  }

  lemma WriteStaysOk(start: set<string>, s: State, p: nat, pick: string)
    requires Inv(start, s) && Enabled(s, p, Advance(pick)) && s.procs[p].Writes?
    ensures
      var s' := After(s, p, Advance(pick));
      TablesOk(s') && ProcOk(start, s', p, s'.procs[p])
  {
    var proc := s.procs[p];
    assert ProcOk(start, s, p, proc);
    var s' := After(s, p, Advance(pick));
    if s'.log != s.log {
      TakenAgree(s'.log, s.log, proc.at + 1);
      assert s'.log[..proc.at] == s.log[..proc.at];
    }
  }

  lemma WriteKeepsInv(start: set<string>, s: State, p: nat, pick: string)
    requires Inv(start, s) && Enabled(s, p, Advance(pick)) && s.procs[p].Writes?
    ensures
      var s' := After(s, p, Advance(pick));
      TablesOk(s') && s'.members == Serial(start, s'.log) && ProcOk(start, s', p, s'.procs[p])
  {
    WriteIsTold(start, s, p, pick);
    WriteStaysOk(start, s, p, pick);
  }

  lemma CheckKeepsInv(start: set<string>, s: State, p: nat, pick: string)
    requires Inv(start, s) && Enabled(s, p, Advance(pick)) && s.procs[p].Checks?
    ensures ProcOk(start, After(s, p, Advance(pick)), p, After(s, p, Advance(pick)).procs[p])
  {
    assert ProcOk(start, s, p, s.procs[p]);
  }

  /** A write's own step changes the log only at its own entry, which is not a finished one. */
  lemma OwnStepSparesOthers(start: set<string>, s: State, p: nat, a: Step, q: nat)
    requires Inv(start, s) && Enabled(s, p, a) && !Outside(a) && q in s.procs && q != p
    ensures q in After(s, p, a).procs && ProcOk(start, After(s, p, a), q, After(s, p, a).procs[q])
  {
    assert ProcOk(start, s, q, s.procs[q]);
    if p in s.procs {
      assert ProcOk(start, s, p, s.procs[p]);
    }
  }

  lemma StepKeepsInv(start: set<string>, s: State, p: nat, a: Step)
    requires Inv(start, s) && Enabled(s, p, a)
    ensures Inv(start, After(s, p, a))
  {
    var s' := After(s, p, a);
    if Outside(a) {
      OutsideKeepsTables(start, s, p, a);
      forall q | q in s'.procs ensures ProcOk(start, s', q, s'.procs[q]) {
        OutsideKeepsProc(start, s, p, a, q);
      }
    } else {
      OwnStepKeepsInv(start, s, p, a);
      forall q | q in s'.procs ensures ProcOk(start, s', q, s'.procs[q]) {
        if q != p {
          OwnStepSparesOthers(start, s, p, a, q);
        }
      }
    }
  }

  lemma OwnStepKeepsInv(start: set<string>, s: State, p: nat, a: Step)
    requires Inv(start, s) && Enabled(s, p, a) && !Outside(a)
    ensures
      var s' := After(s, p, a);
      TablesOk(s') && s'.members == Serial(start, s'.log) && p in s'.procs && ProcOk(start, s', p, s'.procs[p])
  {
    if a.Advance? {
      assert ProcOk(start, s, p, s.procs[p]);
      match s.procs[p]
      case Reads(_) => ReadKeepsInv(start, s, p, a.pick);
      case Writes(_, _, _, _, _) => WriteKeepsInv(start, s, p, a.pick);
      case Checks(_, _, _, _) => CheckKeepsInv(start, s, p, a.pick);
      case Waits(_) =>
    }
  }

  // ----- runs -----

  datatype Event = Event(p: nat, a: Step)

  ghost predicate IsRun(run: seq<State>, events: seq<Event>) {
    && |run| == |events| + 1 && TablesOk(run[0]) && run[0].holder.None? && run[0].procs == map[] && run[0].log == []
    && forall i :: 0 <= i < |events| ==>
      Enabled(run[i], events[i].p, events[i].a) && run[i + 1] == After(run[i], events[i].p, events[i].a)
  }

  lemma {:induction false} RunKeepsInv(run: seq<State>, events: seq<Event>, n: nat)
    requires IsRun(run, events) && n < |run|
    ensures Inv(run[0].members, run[n])
  {
    if n > 0 {
      RunKeepsInv(run, events, n - 1);
      StepKeepsInv(run[0].members, run[n - 1], events[n - 1].p, events[n - 1].a);
    }
  }

  /** However writes, deletions and failures interleave, the members are at every moment those of the log
      run one entry after another: a finished write whole and at the place where it read the members, an
      unfinished one by what it has written, a deletion by what it took. */
  lemma PatchesSerialize(run: seq<State>, events: seq<Event>, n: nat)
    requires IsRun(run, events) && n < |run|
    ensures run[n].members == Serial(run[0].members, run[n].log)
    ensures forall p :: p in run[n].procs && run[n].procs[p].Done? ==>
      run[n].procs[p].at < |run[n].log| && run[n].log[run[n].procs[p].at] == Whole(run[n].procs[p].actions)
  {
    RunKeepsInv(run, events, n);
    forall p | p in run[n].procs && run[n].procs[p].Done?
      ensures run[n].procs[p].at < |run[n].log| && run[n].log[run[n].procs[p].at] == Whole(run[n].procs[p].actions)
    {
      assert ProcOk(run[0].members, run[n], p, run[n].procs[p]);
    }
  }

  /** In every state every member is a stored account that SCIM manages; a deleted account is no member,
      and neither is anyone once the group is gone. */
  lemma MembersAreManaged(run: seq<State>, events: seq<Event>, n: nat)
    requires IsRun(run, events) && n < |run|
    ensures run[n].members <= run[n].managed <= run[n].accounts && (!run[n].stands ==> run[n].members == {})
  {
    RunKeepsInv(run, events, n);
  }

  lemma {:induction false} DeletedStaysDeleted(run: seq<State>, events: seq<Event>, i: nat, j: nat, id: string)
    requires IsRun(run, events) && i <= j < |run| && id in run[i].ids && id !in run[i].accounts
    ensures id in run[j].ids && id !in run[j].accounts
    decreases j
  {
    if i < j {
      DeletedStaysDeleted(run, events, i, j - 1, id);
      assert run[j] == After(run[j - 1], events[j - 1].p, events[j - 1].a);
    }
  }

  /** No write, under way or later, makes a deleted account a member again. */
  lemma DeletedIsNeverAdded(run: seq<State>, events: seq<Event>, n: nat, m: nat)
    requires IsRun(run, events) && n < |events| && events[n].a.DeleteAccount? && n < m < |run|
    ensures events[n].a.id !in run[m].members
  {
    RunKeepsInv(run, events, n);
    DeletedStaysDeleted(run, events, n + 1, m, events[n].a.id);
    RunKeepsInv(run, events, m);
  }

  // ----- no member added is lost -----

  predicate Spares(action: Action, id: string) {
    match action
    case AddAll(_) => true
    case RemoveAll(ids) => id !in ids
    case Clear => false
    case ReplaceAll(ids) => id in ids
  }

  predicate SparesAll(actions: seq<Action>, id: string) {
    forall a :: a in actions ==> Spares(a, id)
  }

  /** The entry takes no membership of `id` away. */
  predicate Keeps(entry: Entry, id: string) {
    match entry
    case Whole(actions) => SparesAll(actions, id)
    case Partly(gone, _) => id !in gone
    case Taken(ids) => id !in ids
  }

  lemma {:induction false} SparedStays(members: set<string>, actions: seq<Action>, id: string)
    requires id in members && SparesAll(actions, id)
    ensures id in PerformAll(members, actions)
    decreases |actions|
  {
    if actions != [] {
      assert actions[0] in actions;
      SparedStays(Perform(members, actions[0]), actions[1..], id);
    }
  }

  predicate Includes(action: Action, id: string) {
    (action.AddAll? || action.ReplaceAll?) && id in action.ids
  }

  /** The last word of the actions on `id` is an add, or a replacement that names it. */
  predicate Adds(actions: seq<Action>, id: string) {
    exists i :: 0 <= i < |actions| && Includes(actions[i], id) && SparesAll(actions[i + 1..], id)
  }

  lemma AddedIsMember(members: set<string>, actions: seq<Action>, id: string)
    requires Adds(actions, id)
    ensures id in PerformAll(members, actions)
  {
    var i :| 0 <= i < |actions| && Includes(actions[i], id) && SparesAll(actions[i + 1..], id);
    assert actions == actions[..i] + actions[i..] && actions[i..][1..] == actions[i + 1..];
    PerformInTurn(members, actions[..i], actions[i..]);
    SparedStays(Perform(PerformAll(members, actions[..i]), actions[i]), actions[i + 1..], id);
  }

  lemma {:induction false} AddSurvives(start: set<string>, log: seq<Entry>, k: nat, id: string)
    requires k < |log| && log[k].Whole? && Adds(log[k].actions, id)
    requires forall j :: k < j < |log| ==> Keeps(log[j], id)
    ensures id in Serial(start, log)
    decreases |log|
  {
    var earlier, last := log[..|log| - 1], log[|log| - 1];
    if k == |log| - 1 {
      AddedIsMember(Serial(start, earlier), last.actions, id);
    } else {
      AddSurvives(start, earlier, k, id);
      if last.Whole? {
        SparedStays(Serial(start, earlier), last.actions, id);
      }
    }
  }

  /** A member added by a finished write is a member, unless a write that read the members later took it
      away, whole or in part, or its account or the group was deleted since. */
  lemma NoAddIsLost(run: seq<State>, events: seq<Event>, n: nat, p: nat, id: string)
    requires IsRun(run, events) && n < |run| && p in run[n].procs && run[n].procs[p].Done?
    requires Adds(run[n].procs[p].actions, id) && id !in run[n].members
    ensures exists j :: run[n].procs[p].at < j < |run[n].log| && !Keeps(run[n].log[j], id)
  {
    PatchesSerialize(run, events, n);
    var at := run[n].procs[p].at;
    if forall j :: at < j < |run[n].log| ==> Keeps(run[n].log[j], id) {
      AddSurvives(run[0].members, run[n].log, at, id);
    }
  }

  // ----- no write is refused without a reason -----

  predicate HeldInside(s: State) {
    s.holder.Some? ==> s.holder.value in s.procs && Inside(s.procs[s.holder.value])
  }

  lemma StepHoldsInside(s: State, p: nat, a: Step)
    requires Enabled(s, p, a) && HeldInside(s)
    ensures HeldInside(After(s, p, a))
  {
  }

  /** Only a write that has not left its section holds the mutex, so the next one waits for nobody else. */
  lemma {:induction false} MutexIsReleased(run: seq<State>, events: seq<Event>, n: nat)
    requires IsRun(run, events) && n < |run|
    ensures HeldInside(run[n])
  {
    if n > 0 {
      MutexIsReleased(run, events, n - 1);
      StepHoldsInside(run[n - 1], events[n - 1].p, events[n - 1].a);
    }
  }

  /** The group is there, and everyone the actions may add is a stored account that SCIM manages. */
  ghost predicate Smooth(s: State, actions: seq<Action>) {
    s.stands && forall a, id :: a in actions && Includes(a, id) ==> id in s.managed && id in s.accounts
  }

  predicate OnItsWay(proc: Process, actions: seq<Action>) {
    !proc.Stopped? && proc.actions == actions && (proc.Checks? ==> proc.left <= Final(proc) - proc.before)
  }

  /** Nobody becomes a member whom no action includes. */
  lemma {:induction false} OnlyIncludedCome(members: set<string>, actions: seq<Action>, id: string)
    requires id !in members && forall a :: a in actions ==> !Includes(a, id)
    ensures id !in PerformAll(members, actions)
    decreases |actions|
  {
    if actions != [] {
      assert actions[0] in actions;
      OnlyIncludedCome(Perform(members, actions[0]), actions[1..], id);
    }
  }

  lemma ComersAreManaged(s: State, before: set<string>, actions: seq<Action>)
    requires Smooth(s, actions)
    ensures PerformAll(before, actions) - before <= s.managed * s.accounts
  {
    forall id | id in PerformAll(before, actions) - before ensures id in s.managed * s.accounts {
      if forall a :: a in actions ==> !Includes(a, id) {
        OnlyIncludedCome(before, actions, id);
      }
    }
  }

  /** How far a write has to go: what it has yet to look up, or to write. */
  function Stage(proc: Process): nat {
    if proc.Waits? then 4 else if proc.Reads? then 3 else if proc.Checks? then 2 else if proc.Writes? then 1 else 0
  }

  function Left(proc: Process): nat {
    if proc.Checks? then |proc.left| else if proc.Writes? then |ToRemove(proc)| + |ToAdd(proc)| else 0
  }

  predicate Closer(proc: Process, next: Process) {
    Stage(next) < Stage(proc) || (Stage(next) == Stage(proc) && Left(next) < Left(proc))
  }

  lemma OneFewer(big: set<string>, small: set<string>, id: string)
    requires id in big && small == big - {id}
    ensures |small| < |big|
  {
  }

  lemma CheckIsCloser(s: State, p: nat, pick: string)
    requires Enabled(s, p, Advance(pick)) && s.procs[p].Checks? && OnItsWay(s.procs[p], s.procs[p].actions)
    requires Smooth(s, s.procs[p].actions)
    ensures
      var next := Advanced(s, p, pick).procs[p];
      OnItsWay(next, s.procs[p].actions) && Closer(s.procs[p], next)
  {
    var proc := s.procs[p];
    ComersAreManaged(s, proc.before, proc.actions);
    if proc.left != {} {
      OneFewer(proc.left, proc.left - {pick}, pick);
    }
  }

  lemma RemovalIsCloser(s: State, p: nat, pick: string)
    requires Enabled(s, p, Advance(pick)) && s.procs[p].Writes? && ToRemove(s.procs[p]) != {}
    ensures
      var next := Advanced(s, p, pick).procs[p];
      OnItsWay(next, s.procs[p].actions) && Closer(s.procs[p], next)
  {
    var proc := s.procs[p];
    var next := proc.(gone := proc.gone + {pick});
    OneFewer(ToRemove(proc), ToRemove(next), pick);
    assert ToAdd(next) == ToAdd(proc);
  }

  lemma AdditionIsCloser(s: State, p: nat, pick: string)
    requires Enabled(s, p, Advance(pick)) && s.procs[p].Writes? && ToRemove(s.procs[p]) == {}
    requires Smooth(s, s.procs[p].actions)
    ensures
      var next := Advanced(s, p, pick).procs[p];
      OnItsWay(next, s.procs[p].actions) && Closer(s.procs[p], next)
  {
    var proc := s.procs[p];
    ComersAreManaged(s, proc.before, proc.actions);
    if ToAdd(proc) != {} {
      var next := proc.(come := proc.come + {pick});
      OneFewer(ToAdd(proc), ToAdd(next), pick);
      assert ToRemove(next) == ToRemove(proc);
    }
  }

  /** Each of its own statements brings an undisturbed write closer to its end. */
  lemma StepIsCloser(s: State, p: nat, pick: string)
    requires Enabled(s, p, Advance(pick)) && OnItsWay(s.procs[p], s.procs[p].actions)
    requires Smooth(s, s.procs[p].actions)
    ensures
      var next := Advanced(s, p, pick).procs[p];
      OnItsWay(next, s.procs[p].actions) && Closer(s.procs[p], next)
  {
    var proc := s.procs[p];
    if proc.Checks? {
      CheckIsCloser(s, p, pick);
    } else if proc.Writes? && ToRemove(proc) != {} {
      RemovalIsCloser(s, p, pick);
    } else if proc.Writes? {
      AdditionIsCloser(s, p, pick);
    }
  }

  lemma OthersLeaveIt(s: State, q: nat, a: Step, p: nat)
    requires Enabled(s, q, a) && p in s.procs && (q != p || !(a.Advance? || a.Stop?))
    ensures p in After(s, q, a).procs && After(s, q, a).procs[p] == s.procs[p]
  {
  }

  lemma StaysOnItsWay(run: seq<State>, events: seq<Event>, k: nat, p: nat, actions: seq<Action>)
    requires IsRun(run, events) && k < |events| && p in run[k].procs && OnItsWay(run[k].procs[p], actions)
    requires Smooth(run[k], actions) && events[k] != Event(p, Stop)
    ensures p in run[k + 1].procs && OnItsWay(run[k + 1].procs[p], actions)
  {
    if events[k].p == p && events[k].a.Advance? {
      StepIsCloser(run[k], p, events[k].a.pick);
    } else {
      OthersLeaveIt(run[k], events[k].p, events[k].a, p);
    }
  }

  /** A write to a group that stays, adding only accounts that stay and are managed, is never refused: unless it is
      cut off it is done or on its way, whatever else happens. */
  lemma WriteIsNotRefused(run: seq<State>, events: seq<Event>, i: nat, n: nat, p: nat, actions: seq<Action>)
    requires IsRun(run, events) && i < n < |run| && events[i] == Event(p, Begin(actions))
    requires forall k :: i < k < n ==> Smooth(run[k], actions) && events[k] != Event(p, Stop)
    ensures p in run[n].procs && OnItsWay(run[n].procs[p], actions)
  {
    var good := seq(|run|, k requires 0 <= k < |run| => p in run[k].procs && OnItsWay(run[k].procs[p], actions));
    assert good[i + 1];
    forall j, k | i + 1 <= j < n && k == j + 1 && good[j] ensures good[k] {
      StaysOnItsWay(run, events, j, p, actions);
    }
    Throughout(good, i + 1, n);
  }
}
