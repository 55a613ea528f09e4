/** The fixed-window attempt limiter (internal/api/server.go:111-205) and the sign-in handler as its
    client (internal/api/auth_handlers.go:36-99). Times are whole nanoseconds after Go's zero time. */
module Limiter {
  import opened Basics

  datatype Window = Window(count: int, reset: int)

  /** The zero attemptWindow a map answers for an unknown key. */
  const NONE := Window(0, 0)

  const CAP := 10000

  type Table = map<string, Window>

  function Entry(m: Table, key: string): Window {
    if key in m then m[key] else NONE
  }

  function Bump(entry: Window, now: int, window: nat): Window {
    if now > entry.reset then Window(1, now + window) else entry.(count := entry.count + 1)
  }

  function Unexpired(m: Table, now: int): Table {
    map k | k in m && now <= m[k].reset :: m[k]
  }

  datatype Victim = Nobody | Evicted(key: string)

  /** One call of allowAttempt: the clock reading it was made with and the live entry it threw out. */
  datatype Attempt = Attempt(key: string, limit: nat, window: nat, now: int, victim: Victim)

  predicate Full(m: Table, key: string) { key !in m && |m| >= CAP }

  /** The victim is a live entry, and there is one exactly when pruning leaves the table full. */
  predicate Possible(m: Table, a: Attempt) {
    if Full(m, a.key) && |Unexpired(m, a.now)| >= CAP then a.victim.Evicted? && a.victim.key in Unexpired(m, a.now)
    else a.victim.Nobody?
  }

  function Room(m: Table, a: Attempt): Table {
    if !Full(m, a.key) then m
    else
      match a.victim
      case Nobody => Unexpired(m, a.now)
      case Evicted(key) => Unexpired(m, a.now) - {key}
  }

  function After(m: Table, a: Attempt): Table {
    Room(m, a)[a.key := Bump(Entry(m, a.key), a.now, a.window)]
  }

  predicate Allowed(m: Table, a: Attempt) {
    Bump(Entry(m, a.key), a.now, a.window).count <= a.limit
  }

  predicate Exhausted(w: Window, limit: nat, now: int) {
    now < w.reset && w.count >= limit
  }

  lemma KeysBound(small: Table, big: Table)
    requires small.Keys <= big.Keys
    ensures |small| <= |big|
  {
    SubsetSize(small.Keys, big.Keys);
  }

  lemma AttemptKeepsBound(m: Table, a: Attempt)
    requires |m| <= CAP && Possible(m, a)
    ensures |After(m, a)| <= CAP
  {
    var room := Room(m, a);
    if a.key in m {
      assert After(m, a).Keys == m.Keys;
    } else {
      assert |room| < CAP by {
        KeysBound(Unexpired(m, a.now), m);
        if a.victim.Evicted? {
          assert room.Keys == Unexpired(m, a.now).Keys - {a.victim.key};
        }
      }
      assert After(m, a).Keys == room.Keys + {a.key};
    }
  }

  // ----- the limiter as written -----

  class AttemptLimiter {
    var attempts: Table

    constructor ()
      ensures attempts == map[]
    {
      attempts := map[];
    }

    method MakeRoom(now: int) returns (ghost victim: Victim)
      modifies this
      ensures if |Unexpired(old(attempts), now)| >= CAP
              then victim.Evicted? && victim.key in Unexpired(old(attempts), now)
                   && attempts == Unexpired(old(attempts), now) - {victim.key}
              else victim.Nobody? && attempts == Unexpired(old(attempts), now)
    {
      var candidates := attempts.Keys;
      ghost var before := attempts;
      while candidates != {}
        invariant candidates <= before.Keys
        invariant attempts == map k | k in before && (k in candidates || now <= before[k].reset) :: before[k]
        decreases |candidates|
      {
        var candidate :| candidate in candidates;
        if now > attempts[candidate].reset {
          attempts := attempts - {candidate};
        }
        candidates := candidates - {candidate};
      }
      assert attempts == Unexpired(before, now);
      victim := Nobody;
      if |attempts| >= CAP {
        assert attempts != map[];
        var first :| first in attempts;
        attempts := attempts - {first};
        victim := Evicted(first);
      }
    }

    method AllowAttempt(key: string, limit: nat, window: nat, now: int) returns (allowed: bool, ghost a: Attempt)
      modifies this
      ensures a == Attempt(key, limit, window, now, a.victim)
      ensures Possible(old(attempts), a) && attempts == After(old(attempts), a)
      ensures allowed == Allowed(old(attempts), a)
    {
      a := Attempt(key, limit, window, now, Nobody);
      if key !in attempts && |attempts| >= CAP {
        ghost var victim := MakeRoom(now);
        a := a.(victim := victim);
      }
      var entry := Bump(if key in attempts then attempts[key] else NONE, now, window);
      attempts := attempts[key := entry];
      allowed := entry.count <= limit;
    }

    method AttemptsExhausted(key: string, limit: nat, now: int) returns (exhausted: bool)
      requires 0 <= now
      ensures exhausted <==> Exhausted(Entry(attempts, key), limit, now)
    {
      exhausted := key in attempts && now < attempts[key].reset && attempts[key].count >= limit;
    }
  }

  // ----- runs -----

  ghost predicate IsRun(run: seq<Table>, calls: seq<Attempt>) {
    && |run| == |calls| + 1 && run[0] == map[]
    && forall i :: 0 <= i < |calls| ==> Possible(run[i], calls[i]) && run[i + 1] == After(run[i], calls[i])
  }

  lemma {:induction false} TableStaysBounded(run: seq<Table>, calls: seq<Attempt>, n: nat)
    requires IsRun(run, calls) && n < |run|
    ensures |run[n]| <= 10000
  {
    if n > 0 {
      TableStaysBounded(run, calls, n - 1);
      AttemptKeepsBound(run[n - 1], calls[n - 1]);
    }
  }

  ghost predicate AfterZero(calls: seq<Attempt>) {
    forall i :: 0 <= i < |calls| ==> 0 < calls[i].now
  }

  /** Calls take the lock in the order of their clock readings. */
  ghost predicate Ordered(calls: seq<Attempt>) {
    && AfterZero(calls)
    && (forall i, j :: 0 <= i < j < |calls| ==> calls[i].now <= calls[j].now)
  }

  ghost predicate NeverEvicted(calls: seq<Attempt>, key: string) {
    forall i :: 0 <= i < |calls| ==> calls[i].victim != Evicted(key)
  }

  /** A table that only ever grows, after the first `n` calls. */
  function Unbounded(calls: seq<Attempt>, n: nat): Table
    requires n <= |calls|
  {
    if n == 0 then map[]
    else
      var m, a := Unbounded(calls, n - 1), calls[n - 1];
      m[a.key := Bump(Entry(m, a.key), a.now, a.window)]
  }

  /** The bounded table knows what the unbounded one knows, or has forgotten a window that is over. */
  ghost predicate Agree(run: seq<Table>, calls: seq<Attempt>, key: string, n: nat)
    requires n <= |calls| < |run|
  {
    || Entry(run[n], key) == Entry(Unbounded(calls, n), key)
    || (key !in run[n] && n > 0 && calls[n - 1].now > Entry(Unbounded(calls, n), key).reset)
  }

  lemma {:induction false} TablesAgree(run: seq<Table>, calls: seq<Attempt>, key: string, n: nat)
    requires IsRun(run, calls) && Ordered(calls) && NeverEvicted(calls, key) && n <= |calls|
    ensures Agree(run, calls, key, n)
  {
    if n > 0 {
      TablesAgree(run, calls, key, n - 1);
      var a := calls[n - 1];
      assert run[n] == After(run[n - 1], a) && a.victim != Evicted(key);
      assert n > 1 ==> calls[n - 2].now <= a.now;
      AttemptAgrees(run[n - 1], Unbounded(calls, n - 1), a, key, if n > 1 then calls[n - 2].now else 0);
    }
  }

  /** One attempt on both tables, `last` being the reading of the attempt before. */
  lemma AttemptAgrees(m: Table, u: Table, a: Attempt, key: string, last: int)
    requires Possible(m, a) && a.victim != Evicted(key) && 0 < a.now && last <= a.now
    requires Entry(m, key) == Entry(u, key) || (key !in m && last > Entry(u, key).reset)
    ensures
      var m', u' := After(m, a), u[a.key := Bump(Entry(u, a.key), a.now, a.window)];
      Entry(m', key) == Entry(u', key) || (key !in m' && a.now > Entry(u', key).reset)
  {
  }

  /** Forgetting expired windows changes no answer about a key that was never thrown out live. */
  lemma PruningIsInvisible(run: seq<Table>, calls: seq<Attempt>, key: string, n: nat, limit: nat, now: int)
    requires IsRun(run, calls) && Ordered(calls) && NeverEvicted(calls, key) && n <= |calls|
    ensures n < |calls| && calls[n].key == key ==> Allowed(run[n], calls[n]) == Allowed(Unbounded(calls, n), calls[n])
    ensures 0 <= now && (n > 0 ==> calls[n - 1].now <= now)
         ==> Exhausted(Entry(run[n], key), limit, now) == Exhausted(Entry(Unbounded(calls, n), key), limit, now)
  {
    TablesAgree(run, calls, key, n);
    if 0 < n < |calls| {
      assert calls[n - 1].now <= calls[n].now;
    }
  }

  /** A run in which `key` always has the same limit and window and is never thrown out live. */
  ghost predicate Fair(run: seq<Table>, calls: seq<Attempt>, key: string, limit: nat, window: nat) {
    && IsRun(run, calls) && NeverEvicted(calls, key)
    && forall i :: 0 <= i < |calls| && calls[i].key == key ==> calls[i].limit == limit && calls[i].window == window
  }

  // ----- runs of one key alone -----

  function Call(key: string, limit: nat, window: nat, now: int): Attempt {
    Attempt(key, limit, window, now, Nobody)
  }

  /** The table after calls for one key only: never more than one entry, so nothing is thrown out. */
  function Alone(key: string, w: Window): Table {
    if w == NONE then map[] else map[key := w]
  }

  function States(window: nat, nows: seq<int>, n: nat): Window
    requires n <= |nows|
  {
    if n == 0 then NONE else Bump(States(window, nows, n - 1), nows[n - 1], window)
  }

  lemma {:induction false} StatesCount(window: nat, nows: seq<int>, n: nat)
    requires 0 < n <= |nows| && forall i :: 0 <= i < |nows| ==> 0 < nows[i]
    ensures States(window, nows, n).count >= 1
  {
    if n > 1 {
      StatesCount(window, nows, n - 1);
    }
  }

  lemma AloneStep(w: Window, a: Attempt)
    requires a.victim.Nobody? && Bump(w, a.now, a.window) != NONE
    ensures Possible(Alone(a.key, w), a) && After(Alone(a.key, w), a) == Alone(a.key, Bump(w, a.now, a.window))
  {
    if w != NONE {
      assert Alone(a.key, w).Keys == {a.key};
    }
  }

  /** The run of calls for one key at the given clock readings. */
  function LonelyTables(key: string, limit: nat, window: nat, nows: seq<int>): seq<Table> {
    seq(|nows| + 1, i requires 0 <= i <= |nows| => Alone(key, States(window, nows, i)))
  }

  function LonelyCalls(key: string, limit: nat, window: nat, nows: seq<int>): seq<Attempt> {
    seq(|nows|, i requires 0 <= i < |nows| => Call(key, limit, window, nows[i]))
  }

  lemma LonelyStep(key: string, limit: nat, window: nat, nows: seq<int>, i: nat)
    requires i < |nows| && forall j :: 0 <= j < |nows| ==> 0 < nows[j]
    ensures
      var run, call := LonelyTables(key, limit, window, nows), Call(key, limit, window, nows[i]);
      Possible(run[i], call) && run[i + 1] == After(run[i], call)
  {
    StatesCount(window, nows, i + 1);
    AloneStep(States(window, nows, i), Call(key, limit, window, nows[i]));
  }

  lemma LonelyEntry(key: string, limit: nat, window: nat, nows: seq<int>, i: nat)
    requires i <= |nows|
    ensures Entry(LonelyTables(key, limit, window, nows)[i], key) == States(window, nows, i)
  {
  }

  lemma LonelyIsFair(key: string, limit: nat, window: nat, nows: seq<int>)
    requires forall i :: 0 <= i < |nows| ==> 0 < nows[i]
    ensures Fair(LonelyTables(key, limit, window, nows), LonelyCalls(key, limit, window, nows), key, limit, window)
  {
    var run, calls := LonelyTables(key, limit, window, nows), LonelyCalls(key, limit, window, nows);
    forall i | 0 <= i < |calls| ensures Possible(run[i], calls[i]) && run[i + 1] == After(run[i], calls[i]) {
      LonelyStep(key, limit, window, nows, i);
    }
  }

  // ----- sign-in as a client of the limiter -----

  const CLIENT_LIMIT := 20
  const CLIENT_WINDOW := 60_000_000_000
  const LOGIN_LIMIT := 10
  const LOGIN_WINDOW := 900_000_000_000

  /** One sign-in: whether its body decodes, names a user and a password, and solves the puzzle or needs
      none; whether the account lookup works and the password is that of an active account; and the
      clock when it arrives, when the account's limit is checked and when a failure is counted. */
  datatype Login = Login(decodes: bool, complete: bool, solved: bool, found: bool, ok: bool,
                         arrived: int, checked: int, counted: int)

  datatype Answer = TooMany | BadRequest | Forbidden | Refused | Failed | WrongPassword | SignedIn

  /** The answer of a sign-in the client limit let through, `w` being the account's window. */
  function AnswerTo(l: Login, w: Window): Answer {
    if !l.decodes || !l.complete then BadRequest
    else if !l.solved then Forbidden
    else if Exhausted(w, LOGIN_LIMIT, l.checked) then Refused
    else if !l.found then Failed
    else if l.ok then SignedIn
    else WrongPassword
  }

  /** The gates in order: a malformed request, an unsolved puzzle, a used-up account, a failed lookup, and only
      then the password. */
  lemma GatesInOrder(l: Login, w: Window)
    ensures
      var answer, fits := AnswerTo(l, w), l.decodes && l.complete;
      var blocked := w.count >= 10 && l.checked < w.reset;
      && (answer.BadRequest? <==> !fits)
      && (answer.Forbidden? <==> fits && !l.solved)
      && (answer.Refused? <==> fits && l.solved && blocked)
      && (answer.Failed? <==> fits && l.solved && !blocked && !l.found)
      && (answer.SignedIn? <==> fits && l.solved && !blocked && l.found && l.ok)
      && (answer.WrongPassword? <==> fits && l.solved && !blocked && l.found && !l.ok)
  {
  }

  /** The handler from its client limit to the answer. `before` is the table after the client limit;
      only a wrong password changes it again. */
  method HandleLogin(limiter: AttemptLimiter, client: string, account: string, l: Login)
    returns (answer: Answer, ghost first: Attempt, ghost before: Table, ghost second: Attempt)
    requires 0 <= l.checked
    modifies limiter
    ensures first == Attempt(client, 20, 60 * 1_000_000_000, l.arrived, first.victim)
    ensures Possible(old(limiter.attempts), first) && before == After(old(limiter.attempts), first)
    ensures answer == if Allowed(old(limiter.attempts), first) then AnswerTo(l, Entry(before, account)) else TooMany
    ensures !answer.WrongPassword? ==> limiter.attempts == before
    ensures answer.WrongPassword? ==>
      && second == Attempt(account, 10, 15 * 60 * 1_000_000_000, l.counted, second.victim)
      && Possible(before, second) && limiter.attempts == After(before, second)
  {
    var allowed;
    allowed, first := limiter.AllowAttempt(client, CLIENT_LIMIT, CLIENT_WINDOW, l.arrived);
    before, second := limiter.attempts, first;
    if !allowed {
      return TooMany, first, before, second;
    }
    if !l.decodes {
      return BadRequest, first, before, second;
    }
    if !l.complete {
      return BadRequest, first, before, second;
    }
    if !l.solved {
      return Forbidden, first, before, second;
    }
    var exhausted := limiter.AttemptsExhausted(account, LOGIN_LIMIT, l.checked);
    if exhausted {
      return Refused, first, before, second;
    }
    if !l.found {
      return Failed, first, before, second;
    }
    if !l.ok {
      allowed, second := limiter.AllowAttempt(account, LOGIN_LIMIT, LOGIN_WINDOW, l.counted);
      return WrongPassword, first, before, second;
    }
    answer := SignedIn;
  }

  // ----- how many passwords a window lets be wrong -----

  /** The check of one sign-in that ended in a wrong password: how many attempts the table had counted by
      then, for this account or others, and the clock. */
  datatype Check = Check(at: nat, now: int)

  /** A run of the shared table in which every attempt on `account` is a sign-in's wrong password, counted
      after its check passed. An attempt reads the clock before it takes the lock and may reach it late; a
      check reads the clock under the lock, so no attempt before it has a later reading. */
  ghost predicate IsGuessing(run: seq<Table>, calls: seq<Attempt>, checks: seq<Check>, account: string) {
    && IsRun(run, calls) && AfterZero(calls) && NeverEvicted(calls, account) && |checks| == |calls|
    && forall k :: 0 <= k < |calls| && calls[k].key == account ==> PassedCheck(run, calls, checks[k], account, k)
  }

  ghost predicate PassedCheck(run: seq<Table>, calls: seq<Attempt>, check: Check, account: string, k: nat)
    requires k < |calls| < |run|
  {
    && calls[k].limit == LOGIN_LIMIT && calls[k].window == LOGIN_WINDOW
    && check.at <= k && check.now <= calls[k].now && (forall j :: 0 <= j < check.at ==> calls[j].now <= check.now)
    && !Exhausted(Entry(run[check.at], account), LOGIN_LIMIT, check.now)
  }

  /** Sign-ins of the account that have passed their check and not been counted when the `k`th attempt is. */
  function InFlight(calls: seq<Attempt>, checks: seq<Check>, account: string, k: nat): set<nat>
    requires |checks| == |calls|
  {
    set j: nat | k <= j < |calls| && calls[j].key == account && checks[j].at <= k
  }

  ghost predicate AtMostInFlight(calls: seq<Attempt>, checks: seq<Check>, account: string, m: nat)
    requires |checks| == |calls|
  {
    forall k :: 0 <= k < |calls| && calls[k].key == account ==> |InFlight(calls, checks, account, k)| <= m
  }

  /** The `i`th attempt is the account's and opens a window. */
  predicate Opens(run: seq<Table>, calls: seq<Attempt>, account: string, i: nat)
    requires i < |calls| < |run|
  {
    calls[i].key == account && calls[i].now > Entry(run[i], account).reset
  }

  /** Passwords found wrong by the `i`th to the `n`th attempt, counted before `reset`. */
  function Guesses(calls: seq<Attempt>, account: string, i: nat, n: nat, reset: int): set<nat>
    requires n <= |calls|
  {
    set k: nat | i <= k < n && calls[k].key == account && calls[k].now < reset
  }

  lemma GuessesGrow(calls: seq<Attempt>, account: string, i: nat, n: nat, reset: int)
    requires i <= n < |calls|
    ensures
      var before, after := Guesses(calls, account, i, n, reset), Guesses(calls, account, i, n + 1, reset);
      && after == (if calls[n].key == account && calls[n].now < reset then before + {n} else before)
      && |before| <= |after| <= |before| + 1
      && (calls[n].key == account && calls[n].now < reset ==> |after| == |before| + 1)
  {
  }

  /** The account's entry is still the window the `i`th attempt opened, and has counted every guess. */
  predicate StillCounts(run: seq<Table>, calls: seq<Attempt>, account: string, i: nat, n: nat)
    requires i < |calls| < |run| && n <= |calls|
  {
    var reset, w := calls[i].now + LOGIN_WINDOW, Entry(run[n], account);
    w.reset == reset && w.count >= |Guesses(calls, account, i, n, reset)|
  }

  /** What of a guessing run the account's window depends on. */
  ghost predicate IsCounting(run: seq<Table>, calls: seq<Attempt>, account: string) {
    && IsRun(run, calls) && AfterZero(calls) && NeverEvicted(calls, account)
    && forall k :: 0 <= k < |calls| && calls[k].key == account ==> calls[k].window == LOGIN_WINDOW
  }

  lemma GuessingCounts(run: seq<Table>, calls: seq<Attempt>, checks: seq<Check>, account: string)
    requires IsGuessing(run, calls, checks, account)
    ensures IsCounting(run, calls, account)
  {
    forall k | 0 <= k < |calls| && calls[k].key == account ensures calls[k].window == LOGIN_WINDOW {
      assert PassedCheck(run, calls, checks[k], account, k);
    }
  }

  /** Until the window is over it counts every guess, whatever else the table does. */
  lemma {:induction false} WindowHolds(run: seq<Table>, calls: seq<Attempt>, account: string, i: nat, n: nat)
    requires IsCounting(run, calls, account) && i < n <= |calls| && Opens(run, calls, account, i)
    requires forall k :: i <= k < n ==> calls[k].now <= calls[i].now + LOGIN_WINDOW
    ensures StillCounts(run, calls, account, i, n)
    decreases n
  {
    if n == i + 1 {
      WindowStarts(run, calls, account, i);
    } else {
      WindowHolds(run, calls, account, i, n - 1);
      WindowCounts(run, calls, account, i, n - 1);
    }
  }

  lemma WindowStarts(run: seq<Table>, calls: seq<Attempt>, account: string, i: nat)
    requires IsCounting(run, calls, account) && i < |calls| && Opens(run, calls, account, i)
    ensures StillCounts(run, calls, account, i, i + 1)
  {
    assert run[i + 1] == After(run[i], calls[i]);
    NoneYet(calls, account, i, calls[i].now + LOGIN_WINDOW);
    GuessesGrow(calls, account, i, i, calls[i].now + LOGIN_WINDOW);
  }

  lemma WindowCounts(run: seq<Table>, calls: seq<Attempt>, account: string, i: nat, k: nat)
    requires IsCounting(run, calls, account) && i <= k < |calls|
    requires StillCounts(run, calls, account, i, k) && calls[k].now <= calls[i].now + LOGIN_WINDOW
    ensures StillCounts(run, calls, account, i, k + 1)
  {
    GuessesGrow(calls, account, i, k, calls[i].now + LOGIN_WINDOW);
    LiveEntryStays(run, calls, account, k);
  }

  /** An entry that is live and not thrown out is only ever changed by an attempt on its own key. */
  lemma LiveEntryStays(run: seq<Table>, calls: seq<Attempt>, key: string, k: nat)
    requires IsRun(run, calls) && NeverEvicted(calls, key) && k < |calls| && calls[k].now <= Entry(run[k], key).reset
    ensures Entry(run[k + 1], key)
         == if calls[k].key == key then Bump(Entry(run[k], key), calls[k].now, calls[k].window) else Entry(run[k], key)
  {
    assert run[k + 1] == After(run[k], calls[k]) && calls[k].victim != Evicted(key);
  }

  lemma NoneYet(calls: seq<Attempt>, account: string, i: nat, reset: int)
    requires i <= |calls|
    ensures Guesses(calls, account, i, i, reset) == {}
  {
  }

  /** The latest guess. */
  lemma {:induction false} LastGuess(calls: seq<Attempt>, account: string, i: nat, n: nat, reset: int) returns (t: nat)
    requires i <= n <= |calls| && Guesses(calls, account, i, n, reset) != {}
    ensures t in Guesses(calls, account, i, n, reset)
    ensures Guesses(calls, account, i, t + 1, reset) == Guesses(calls, account, i, n, reset)
    decreases n
  {
    assert i < n;
    GuessesGrow(calls, account, i, n - 1, reset);
    if n - 1 in Guesses(calls, account, i, n, reset) {
      t := n - 1;
    } else {
      t := LastGuess(calls, account, i, n - 1, reset);
    }
  }

  /** The guess that makes them ten. */
  lemma {:induction false} TenthGuess(calls: seq<Attempt>, account: string, i: nat, n: nat, reset: int) returns (t: nat)
    requires i <= n <= |calls| && |Guesses(calls, account, i, n, reset)| >= LOGIN_LIMIT
    ensures t in Guesses(calls, account, i, n, reset) && |Guesses(calls, account, i, t + 1, reset)| == LOGIN_LIMIT
    decreases n
  {
    NoneYet(calls, account, i, reset);
    if |Guesses(calls, account, i, n, reset)| == LOGIN_LIMIT {
      t := LastGuess(calls, account, i, n, reset);
    } else {
      GuessesGrow(calls, account, i, n - 1, reset);
      t := TenthGuess(calls, account, i, n - 1, reset);
    }
  }

  /** A guess counted after the tenth had passed its check before the tenth was counted. */
  lemma LaterGuessWasInFlight(run: seq<Table>, calls: seq<Attempt>, checks: seq<Check>, account: string, i: nat,
                              t: nat, j: nat)
    requires IsGuessing(run, calls, checks, account) && i <= t < j < |calls| && Opens(run, calls, account, i)
    requires
      var reset := calls[i].now + LOGIN_WINDOW;
      |Guesses(calls, account, i, t + 1, reset)| == LOGIN_LIMIT && j in Guesses(calls, account, i, |calls|, reset)
    ensures checks[j].at <= t
  {
    assert PassedCheck(run, calls, checks[j], account, j);
    ExhaustedAfterTen(run, calls, checks, account, i, t, checks[j].at, checks[j].now);
  }

  lemma ExhaustedAfterTen(run: seq<Table>, calls: seq<Attempt>, checks: seq<Check>, account: string, i: nat, t: nat,
                          c: nat, now: int)
    requires IsGuessing(run, calls, checks, account) && i <= t < |calls| && c <= |calls|
      && Opens(run, calls, account, i)
    requires
      var reset := calls[i].now + LOGIN_WINDOW;
      |Guesses(calls, account, i, t + 1, reset)| >= LOGIN_LIMIT && now < reset
    requires forall j :: 0 <= j < c ==> calls[j].now <= now
    ensures c > t ==> Exhausted(Entry(run[c], account), LOGIN_LIMIT, now)
  {
    if c > t {
      var reset := calls[i].now + LOGIN_WINDOW;
      GuessingCounts(run, calls, checks, account);
      WindowHolds(run, calls, account, i, c);
      SubsetSize(Guesses(calls, account, i, t + 1, reset), Guesses(calls, account, i, c, reset));
    }
  }

  lemma TenthThenInFlight(run: seq<Table>, calls: seq<Attempt>, checks: seq<Check>, account: string, i: nat, t: nat)
    requires IsGuessing(run, calls, checks, account) && i <= t < |calls| && Opens(run, calls, account, i)
    requires calls[t].key == account
    requires |Guesses(calls, account, i, t + 1, calls[i].now + LOGIN_WINDOW)| == LOGIN_LIMIT
    ensures
      var reset, flying := calls[i].now + LOGIN_WINDOW, InFlight(calls, checks, account, t);
      && Guesses(calls, account, i, |calls|, reset) <= Guesses(calls, account, i, t + 1, reset) + (flying - {t})
      && t in flying
  {
    var reset := calls[i].now + LOGIN_WINDOW;
    var first, flying := Guesses(calls, account, i, t + 1, reset), InFlight(calls, checks, account, t);
    assert PassedCheck(run, calls, checks[t], account, t);
    forall j | j in Guesses(calls, account, i, |calls|, reset) && j !in first ensures j in flying - {t} {
      LaterGuessWasInFlight(run, calls, checks, account, i, t, j);
    }
  }

  /** From the failure that opens an account's window to the window's reset instant, while other keys come
      and go in the table, at most 10 + m - 1 passwords are found wrong if no more than m sign-ins of the
      account are in flight at once. */
  lemma GuessesPerWindow(run: seq<Table>, calls: seq<Attempt>, checks: seq<Check>, account: string, m: nat, i: nat)
    requires IsGuessing(run, calls, checks, account) && AtMostInFlight(calls, checks, account, m)
    requires i < |calls| && Opens(run, calls, account, i)
    ensures |Guesses(calls, account, i, |calls|, calls[i].now + LOGIN_WINDOW)| <= LOGIN_LIMIT + m - 1
  {
    var reset := calls[i].now + LOGIN_WINDOW;
    var all := Guesses(calls, account, i, |calls|, reset);
    assert PassedCheck(run, calls, checks[i], account, i) && i in InFlight(calls, checks, account, i);
    if |all| >= LOGIN_LIMIT {
      var t := TenthGuess(calls, account, i, |calls|, reset);
      var first, flying := Guesses(calls, account, i, t + 1, reset), InFlight(calls, checks, account, t);
      TenthThenInFlight(run, calls, checks, account, i, t);
      SubsetSize(all, first + (flying - {t}));
    }
  }

  /** One at a time: at most ten. */
  lemma TenGuessesPerWindow(run: seq<Table>, calls: seq<Attempt>, checks: seq<Check>, account: string, i: nat)
    requires IsGuessing(run, calls, checks, account) && AtMostInFlight(calls, checks, account, 1)
    requires i < |calls| && Opens(run, calls, account, i)
    ensures |Guesses(calls, account, i, |calls|, calls[i].now + LOGIN_WINDOW)| <= LOGIN_LIMIT
  {
    GuessesPerWindow(run, calls, checks, account, 1, i);
  }

  // ----- and that bound is reached -----

  /** Nine sign-ins one after another, then `m` that all pass their check before the first is counted. */
  function Instants(m: nat): seq<int> {
    seq(LOGIN_LIMIT - 1 + m, i => 1)
  }

  function Overlapping(m: nat): seq<Check> {
    seq(LOGIN_LIMIT - 1 + m, i requires 0 <= i => Check(Min(i, LOGIN_LIMIT - 1), 1))
  }

  lemma {:induction false} InstantStates(m: nat, n: nat)
    requires 0 < n <= LOGIN_LIMIT - 1 + m
    ensures States(LOGIN_WINDOW, Instants(m), n) == Window(n, 1 + LOGIN_WINDOW)
  {
    if n > 1 {
      InstantStates(m, n - 1);
    }
  }

  lemma {:induction false} Numbers(n: nat) returns (all: set<nat>)
    ensures |all| == n && forall k :: k in all <==> 0 <= k < n
  {
    all := {};
    if n > 0 {
      var fewer := Numbers(n - 1);
      all := fewer + {n - 1};
    }
  }

  lemma OverlapPasses(account: string, m: nat, k: nat)
    requires k < LOGIN_LIMIT - 1 + m
    ensures
      var run, calls := LonelyTables(account, LOGIN_LIMIT, LOGIN_WINDOW, Instants(m)),
                        LonelyCalls(account, LOGIN_LIMIT, LOGIN_WINDOW, Instants(m));
      PassedCheck(run, calls, Overlapping(m)[k], account, k)
  {
    var at := Min(k, LOGIN_LIMIT - 1);
    LonelyEntry(account, LOGIN_LIMIT, LOGIN_WINDOW, Instants(m), at);
    if at > 0 {
      InstantStates(m, at);
    }
  }

  lemma OverlapIsBounded(account: string, m: nat, k: nat)
    requires 0 < m && k < LOGIN_LIMIT - 1 + m
    ensures
      var calls := LonelyCalls(account, LOGIN_LIMIT, LOGIN_WINDOW, Instants(m));
      |InFlight(calls, Overlapping(m), account, k)| <= m
  {
    var calls := LonelyCalls(account, LOGIN_LIMIT, LOGIN_WINDOW, Instants(m));
    var flying := InFlight(calls, Overlapping(m), account, k);
    var all := Numbers(LOGIN_LIMIT - 1 + m);
    var before := Numbers(k);
    if k < LOGIN_LIMIT - 1 {
      assert flying <= {k};
      SubsetSize(flying, {k});
    } else {
      assert flying <= all - before && before <= all;
      SubsetSize(flying, all - before);
      assert |all - before| == |all| - |before|;
    }
  }

  /** With `m` sign-ins in flight, 10 + m - 1 wrong passwords in one window do happen. */
  lemma GuessBoundIsReached(account: string, m: nat) returns (run: seq<Table>, calls: seq<Attempt>, checks: seq<Check>)
    requires 0 < m
    ensures IsGuessing(run, calls, checks, account) && AtMostInFlight(calls, checks, account, m)
    ensures 0 < |calls| && Opens(run, calls, account, 0)
    ensures |Guesses(calls, account, 0, |calls|, calls[0].now + LOGIN_WINDOW)| == LOGIN_LIMIT + m - 1
  {
    run := LonelyTables(account, LOGIN_LIMIT, LOGIN_WINDOW, Instants(m));
    calls := LonelyCalls(account, LOGIN_LIMIT, LOGIN_WINDOW, Instants(m));
    checks := Overlapping(m);
    LonelyIsFair(account, LOGIN_LIMIT, LOGIN_WINDOW, Instants(m));
    LonelyEntry(account, LOGIN_LIMIT, LOGIN_WINDOW, Instants(m), 0);
    forall k | 0 <= k < |calls| && calls[k].key == account ensures PassedCheck(run, calls, checks[k], account, k) {
      OverlapPasses(account, m, k);
    }
    forall k | 0 <= k < |calls| && calls[k].key == account ensures |InFlight(calls, checks, account, k)| <= m {
      OverlapIsBounded(account, m, k);
    }
    var all := Numbers(LOGIN_LIMIT - 1 + m);
    assert Guesses(calls, account, 0, |calls|, calls[0].now + LOGIN_WINDOW) == all;
  }
}
