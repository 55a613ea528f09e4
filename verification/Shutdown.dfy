/** The counter of detached requests, a condition variable under a mutex (internal/api/server.go:47-109),
    and the two bounded waits before the store closes (cmd/server/main.go:170-189). Every process takes
    one lock, one unlock or one broadcast at a time, in any interleaving. */
module Shutdown {

  /** A tracked request: registering, running, deregistering, broadcasting. A call of WaitDetached:
      waiting for the lock, checking the counter under it, asleep, returned. */
  datatype Pc =
    | NotYet | Adding | Running | Removing | Signalling | Gone
    | Waiting | Checking | Asleep | Returned

  datatype Holder = Nobody | Held(owner: nat)

  datatype State = State(n: int, holder: Holder, procs: seq<Pc>)

  predicate CanStep(s: State, p: nat) {
    p < |s.procs| &&
    match s.procs[p]
    case NotYet | Running | Waiting => s.holder.Nobody?
    case Adding | Removing | Checking => s.holder == Held(p)
    case Signalling => true
    case Gone | Asleep | Returned => false
  }

  function Woken(pc: Pc): Pc { if pc.Asleep? then Waiting else pc }

  function AllWoken(procs: seq<Pc>): seq<Pc> {
    seq(|procs|, i requires 0 <= i < |procs| => Woken(procs[i]))
  }

  function After(s: State, p: nat): State
    requires CanStep(s, p)
  {
    match s.procs[p]
    case NotYet => State(s.n, Held(p), s.procs[p := Adding])
    case Adding => State(s.n + 1, Nobody, s.procs[p := Running])
    case Running => State(s.n, Held(p), s.procs[p := Removing])
    case Removing => State(s.n - 1, Nobody, s.procs[p := Signalling])
    case Signalling => s.(procs := AllWoken(s.procs)[p := Gone])
    case Waiting => State(s.n, Held(p), s.procs[p := Checking])
    case Checking => State(s.n, Nobody, s.procs[p := if s.n > 0 then Asleep else Returned])
    case _ => s
  }

  // ----- the counter counts -----

  predicate Counted(pc: Pc) { pc.Running? || pc.Removing? }

  function Count(procs: seq<Pc>): nat {
    if procs == [] then 0 else Count(procs[..|procs| - 1]) + if Counted(procs[|procs| - 1]) then 1 else 0
  }

  lemma {:induction false} CountUpdate(procs: seq<Pc>, p: nat, pc: Pc)
    requires p < |procs|
    ensures Count(procs[p := pc]) == Count(procs) - (if Counted(procs[p]) then 1 else 0) + if Counted(pc) then 1 else 0
  {
    var last := |procs| - 1;
    if p == last {
      assert procs[p := pc][..last] == procs[..last];
    } else {
      assert procs[p := pc][..last] == procs[..last][p := pc];
      CountUpdate(procs[..last], p, pc);
    }
  }

  lemma {:induction false} CountWoken(procs: seq<Pc>)
    ensures Count(AllWoken(procs)) == Count(procs)
  {
    if procs != [] {
      var last := |procs| - 1;
      assert AllWoken(procs)[..last] == AllWoken(procs[..last]);
      CountWoken(procs[..last]);
    }
  }

  lemma {:induction false} CountedCounts(procs: seq<Pc>)
    ensures Count(procs) == 0 <==> forall p :: 0 <= p < |procs| ==> !Counted(procs[p])
  {
    if procs != [] {
      var last := |procs| - 1;
      CountedCounts(procs[..last]);
      assert forall p :: 0 <= p < last ==> procs[..last][p] == procs[p];
    }
  }

  predicate Holds(pc: Pc) { pc.Adding? || pc.Removing? || pc.Checking? }

  predicate BroadcastComing(procs: seq<Pc>) {
    exists r :: 0 <= r < |procs| && procs[r].Signalling?
  }

  ghost predicate Inv(s: State) {
    && s.n == Count(s.procs)
    && (forall p :: 0 <= p < |s.procs| ==> (Holds(s.procs[p]) <==> s.holder == Held(p)))
    && (s.holder.Held? ==> s.holder.owner < |s.procs|)
    && (forall w :: 0 <= w < |s.procs| && s.procs[w].Asleep? && s.n == 0 ==> BroadcastComing(s.procs))
  }

  lemma StepCounts(s: State, p: nat)
    requires s.n == Count(s.procs) && CanStep(s, p)
    ensures After(s, p).n == Count(After(s, p).procs)
  {
    if s.procs[p].Signalling? {
      CountWoken(s.procs);
      CountUpdate(AllWoken(s.procs), p, Gone);
    } else {
      CountUpdate(s.procs, p, After(s, p).procs[p]);
    }
  }

  lemma StepKeepsInv(s: State, p: nat)
    requires Inv(s) && CanStep(s, p)
    ensures Inv(After(s, p))
  {
    var s' := After(s, p);
    StepCounts(s, p);
    forall w | 0 <= w < |s'.procs| && s'.procs[w].Asleep? && s'.n == 0 ensures BroadcastComing(s'.procs) {
      if s.procs[p].Removing? {
        assert s'.procs[p].Signalling?;
      } else {
        assert s.procs[w].Asleep? && s.n == 0;
        var r :| 0 <= r < |s.procs| && s.procs[r].Signalling?;
        assert s'.procs[r].Signalling?;
      }
    }
  }

  // ----- runs -----

  predicate Starts(s: State) {
    && s.n == 0 && s.holder.Nobody?
    && forall p :: 0 <= p < |s.procs| ==> s.procs[p].NotYet? || s.procs[p].Waiting?
  }

  ghost predicate IsRun(run: seq<State>, steps: seq<nat>) {
    && |run| == |steps| + 1 && Starts(run[0])
    && forall i :: 0 <= i < |steps| ==> CanStep(run[i], steps[i]) && run[i + 1] == After(run[i], steps[i])
  }

  lemma {:induction false} RunKeepsInv(run: seq<State>, steps: seq<nat>, i: nat)
    requires IsRun(run, steps) && i < |run|
    ensures Inv(run[i])
  {
    if i == 0 {
      CountedCounts(run[0].procs);
      assert forall p :: 0 <= p < |run[0].procs| ==> !Counted(run[0].procs[p]) && !Holds(run[0].procs[p]);
    } else {
      RunKeepsInv(run, steps, i - 1);
      StepKeepsInv(run[i - 1], steps[i - 1]);
    }
  }

  predicate NoneRuns(procs: seq<Pc>) {
    forall r :: 0 <= r < |procs| ==> !procs[r].Running? && !procs[r].Removing?
  }

  /** WaitDetached returns only at a moment when no tracked request is running, however many register
      while it waits. */
  lemma ReturnsWhenNoneRuns(run: seq<State>, steps: seq<nat>, i: nat, w: nat)
    requires IsRun(run, steps) && i < |steps| && w < |run[i].procs|
    requires !run[i].procs[w].Returned? && run[i + 1].procs[w].Returned?
    ensures NoneRuns(run[i + 1].procs)
  {
    RunKeepsInv(run, steps, i + 1);
    CountedCounts(run[i + 1].procs);
    assert steps[i] == w && run[i].n <= 0 && run[i + 1].n == run[i].n;
  }

  /** No wakeup is lost: while a waiter sleeps and nothing is counted, a broadcast is on its way. */
  lemma BroadcastPending(run: seq<State>, steps: seq<nat>, i: nat, w: nat)
    requires IsRun(run, steps) && i < |run| && w < |run[i].procs| && run[i].procs[w].Asleep? && run[i].n == 0
    ensures exists r :: 0 <= r < |run[i].procs| && run[i].procs[r].Signalling? && CanStep(run[i], r)
                     && After(run[i], r).procs[w].Waiting?
  {
    RunKeepsInv(run, steps, i);
    var r :| 0 <= r < |run[i].procs| && run[i].procs[r].Signalling?;
    assert After(run[i], r).procs[w].Waiting?;
  }

  /** A run stops only when every request is gone and every waiter has returned. */
  lemma StuckMeansDone(run: seq<State>, steps: seq<nat>, i: nat)
    requires IsRun(run, steps) && i < |run|
    requires forall p :: 0 <= p < |run[i].procs| ==> !CanStep(run[i], p)
    ensures forall p :: 0 <= p < |run[i].procs| ==> run[i].procs[p].Gone? || run[i].procs[p].Returned?
  {
    var s := run[i];
    RunKeepsInv(run, steps, i);
    CountedCounts(s.procs);
    if s.holder.Held? {
      assert CanStep(s, s.holder.owner);
    }
    assert s.holder.Nobody?;
    forall p | 0 <= p < |s.procs| ensures !s.procs[p].Signalling? && !Counted(s.procs[p]) {
      assert !CanStep(s, p);
    }
    assert !BroadcastComing(s.procs);
    forall p | 0 <= p < |s.procs| ensures s.procs[p].Gone? || s.procs[p].Returned? {
      assert !CanStep(s, p) && !Holds(s.procs[p]);
    }
  }

  // ----- and every run stops -----

  /** Steps a process has left, a broadcast counting for the waiters it can wake. */
  function Rank(pc: Pc, wake: nat): nat {
    match pc
    case NotYet => wake + 5
    case Adding => wake + 4
    case Running => wake + 3
    case Removing => wake + 2
    case Signalling => wake + 1
    case Gone => 0
    case Waiting => 3
    case Checking => 2
    case Asleep => 1
    case Returned => 0
  }

  function Work(procs: seq<Pc>, wake: nat): nat {
    if procs == [] then 0 else Work(procs[..|procs| - 1], wake) + Rank(procs[|procs| - 1], wake)
  }

  lemma {:induction false} WorkUpdate(procs: seq<Pc>, wake: nat, p: nat, pc: Pc)
    requires p < |procs|
    ensures Work(procs[p := pc], wake) == Work(procs, wake) - Rank(procs[p], wake) + Rank(pc, wake)
  {
    var last := |procs| - 1;
    if p == last {
      assert procs[p := pc][..last] == procs[..last];
    } else {
      assert procs[p := pc][..last] == procs[..last][p := pc];
      WorkUpdate(procs[..last], wake, p, pc);
    }
  }

  lemma {:induction false} WorkWoken(procs: seq<Pc>, wake: nat)
    ensures Work(AllWoken(procs), wake) <= Work(procs, wake) + 2 * |procs|
  {
    if procs != [] {
      var last := |procs| - 1;
      assert AllWoken(procs)[..last] == AllWoken(procs[..last]);
      WorkWoken(procs[..last], wake);
    }
  }

  lemma StepWorks(s: State, p: nat)
    requires CanStep(s, p)
    ensures |After(s, p).procs| == |s.procs|
    ensures Work(After(s, p).procs, 2 * |s.procs|) < Work(s.procs, 2 * |s.procs|)
  {
    var wake := 2 * |s.procs|;
    if s.procs[p].Signalling? {
      WorkWoken(s.procs, wake);
      WorkUpdate(AllWoken(s.procs), wake, p, Gone);
    } else {
      WorkUpdate(s.procs, wake, p, After(s, p).procs[p]);
    }
  }

  /** Every run is finite: no more steps than the work its processes started with. With
      StuckMeansDone, once the requests have run out WaitDetached always returns. */
  lemma {:induction false} RunsAreFinite(run: seq<State>, steps: seq<nat>, i: nat)
    requires IsRun(run, steps) && i < |run|
    ensures |run[i].procs| == |run[0].procs|
    ensures i + Work(run[i].procs, 2 * |run[0].procs|) <= Work(run[0].procs, 2 * |run[0].procs|)
  {
    if i > 0 {
      RunsAreFinite(run, steps, i - 1);
      StepWorks(run[i - 1], steps[i - 1]);
    }
  }

  // ----- the two bounded waits -----

  /** waitForBackupWork: about to look at the scheduled backup, blocked on it or the deadline, blocked
      on the handlers or the deadline, returned. */
  datatype Main = Looking | OnBackup | OnHandlers | Back(leftBackup: bool, leftHandlers: bool)

  /** `counter.procs[0]` is the call of WaitDetached started before either wait; the handlers' channel
      is closed once it returned. */
  datatype Waits = Waits(counter: State, backupDone: bool, expired: bool, main: Main, leftBackup: bool)

  predicate HandlersDone(w: Waits) { |w.counter.procs| > 0 && w.counter.procs[0].Returned? }

  /** One thing that happens; a select with both channels ready takes either. */
  datatype Event = Counter(p: nat) | BackupEnds | Deadline | Proceed(onDeadline: bool)

  predicate Happens(w: Waits, e: Event) {
    match e
    case Counter(p) => CanStep(w.counter, p)
    case BackupEnds => true
    case Deadline => true
    case Proceed(onDeadline) =>
      match w.main
      case Looking => !onDeadline
      case OnBackup => if onDeadline then w.expired else w.backupDone
      case OnHandlers => if onDeadline then w.expired else HandlersDone(w)
      case Back(_, _) => false
  }

  function Next(w: Waits, e: Event): Waits
    requires Happens(w, e)
  {
    match e
    case Counter(p) => w.(counter := After(w.counter, p))
    case BackupEnds => w.(backupDone := true)
    case Deadline => w.(expired := true)
    case Proceed(onDeadline) =>
      match w.main
      case Looking => w.(main := if w.backupDone then OnHandlers else OnBackup)
      case OnBackup => w.(main := OnHandlers, leftBackup := onDeadline)
      case OnHandlers => w.(main := Back(w.leftBackup, onDeadline))
      case Back(_, _) => w
  }

  ghost predicate IsWait(run: seq<Waits>, events: seq<Event>) {
    && |run| == |events| + 1 && run[0].main.Looking? && !run[0].leftBackup
    && |run[0].counter.procs| > 0 && run[0].counter.procs[0].Waiting? && Starts(run[0].counter)
    && forall i :: 0 <= i < |events| ==> Happens(run[i], events[i]) && run[i + 1] == Next(run[i], events[i])
  }

  predicate WaitInv(w: Waits) {
    && (w.leftBackup ==> w.expired)
    && (w.main.OnHandlers? ==> w.leftBackup || w.backupDone)
    && (w.main.Back? ==>
         && (if w.main.leftBackup then w.expired else w.backupDone)
         && (if w.main.leftHandlers then w.expired else HandlersDone(w)))
  }

  lemma StaysReturned(s: State, p: nat, w: nat)
    requires CanStep(s, p) && w < |s.procs| && s.procs[w].Returned?
    ensures After(s, p).procs[w].Returned?
  {
  }

  /** waitForBackupWork returns only when both waits are over or the shared deadline has passed, and
      says it abandons work only after the deadline. */
  lemma {:induction false} ReturnsWhenDoneOrLate(run: seq<Waits>, events: seq<Event>, i: nat)
    requires IsWait(run, events) && i < |run|
    ensures WaitInv(run[i])
    ensures run[i].main.Back? ==> run[i].expired || (run[i].backupDone && HandlersDone(run[i]))
  {
    if i > 0 {
      ReturnsWhenDoneOrLate(run, events, i - 1);
      if events[i - 1].Counter? && HandlersDone(run[i - 1]) {
        StaysReturned(run[i - 1].counter, events[i - 1].p, 0);
      }
    }
  }

  /** The waits begin without having abandoned anything. */
  lemma {:induction false} NothingLeftYet(run: seq<Waits>, events: seq<Event>, i: nat)
    requires IsWait(run, events) && i < |run| && run[i].main.Looking?
    ensures !run[i].leftBackup
  {
    if i > 0 {
      NothingLeftYet(run, events, i - 1);
    }
  }

  /** A backup that is over by the time the waits begin is never reported as abandoned, however late that is. */
  lemma {:induction false} DoneIsNotAbandoned(run: seq<Waits>, events: seq<Event>, i: nat, j: nat)
    requires IsWait(run, events) && i <= j < |run| && run[i].main.Looking? && run[i].backupDone
    ensures run[j].backupDone && !run[j].leftBackup && !run[j].main.OnBackup?
    ensures run[j].main.Back? ==> !run[j].main.leftBackup
    decreases j
  {
    if i == j {
      NothingLeftYet(run, events, i);
    } else {
      DoneIsNotAbandoned(run, events, i, j - 1);
    }
  }

  /** Past the deadline nothing blocks it: it returns within three steps of its own, whatever the
      backup and the handlers do. */
  lemma LateNeverBlocks(w: Waits)
    requires w.expired && !w.main.Back?
    ensures exists e: Event :: e.Proceed? && Happens(w, e)
    ensures forall e: Event :: e.Proceed? && Happens(w, e) ==> Stage(Next(w, e).main) > Stage(w.main)
  {
    assert Happens(w, Proceed(!w.main.Looking?));
  }

  function Stage(m: Main): nat {
    match m
    case Looking => 0
    case OnBackup => 1
    case OnHandlers => 2
    case Back(_, _) => 3
  }

  /** In time, a finished pair of waits does not block either. */
  lemma DoneNeverBlocks(w: Waits)
    requires w.backupDone && HandlersDone(w) && !w.main.Back?
    ensures Happens(w, Proceed(false)) && Stage(Next(w, Proceed(false)).main) > Stage(w.main)
  {
  }
}
