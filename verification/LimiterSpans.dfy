/** How many attempts the limiter allows in a span of time as long as its window, the clock being read
    before the lock is taken (internal/api/server.go:159-205). */
module LimiterSpans {
  import opened Basics
  import opened Limiter

  /** How many of the calls from the `k`th on were made for `key` with a clock reading in [from, to] and allowed. */
  function AllowedBetween(run: seq<Table>, calls: seq<Attempt>, key: string, from: int, to: int, k: nat): nat
    requires k <= |calls| < |run|
    decreases |calls| - k
  {
    if k == |calls| then 0
    else
      (if calls[k].key == key && from <= calls[k].now <= to && Allowed(run[k], calls[k]) then 1 else 0)
      + AllowedBetween(run, calls, key, from, to, k + 1)
  }

  /** The same in the span as long as the window that begins at `from`. */
  function AllowedIn(run: seq<Table>, calls: seq<Attempt>, key: string, window: nat, from: int): nat
    requires |calls| < |run|
  {
    AllowedBetween(run, calls, key, from, from + window, 0)
  }

  /** Whoever takes the lock later read the clock at most `skew` before anyone who took it earlier. */
  ghost predicate Late(calls: seq<Attempt>, skew: nat) {
    && AfterZero(calls)
    && (forall i, j :: 0 <= i < j < |calls| ==> calls[i].now <= calls[j].now + skew)
  }

  /** The table is never full, so nothing is pruned or thrown out. */
  ghost predicate Roomy(run: seq<Table>) {
    forall i :: 0 <= i < |run| ==> |run[i]| < CAP
  }

  function Times(n: nat, x: nat): nat {
    if n == 0 then 0 else Times(n - 1, x) + x
  }

  lemma {:induction false} TimesIsProduct(n: nat, x: nat)
    ensures Times(n, x) == n * x
  {
    if n > 0 {
      TimesIsProduct(n - 1, x);
    }
  }

  // ----- the windows of one key -----

  /** One attempt as the window of `key` sees it: it counts within the window, or opens the next one, at most
      `early` before the instant after the reset. */
  predicate WindowStep(m: Table, a: Attempt, key: string, limit: nat, window: nat, early: nat, w: Window,
                       next: Window) {
    if a.key != key then next == w
    else
      && (Allowed(m, a) <==> next.count <= limit)
      && (|| (a.now <= w.reset && next == Window(w.count + 1, w.reset))
          || (a.now + early > w.reset && next == Window(1, a.now + window)))
  }

  /** `ws` lists the latest window of `key` before each attempt and at the end, remembered or not. */
  ghost predicate Windows(run: seq<Table>, calls: seq<Attempt>, key: string, limit: nat, window: nat, early: nat,
                          ws: seq<Window>) {
    && |run| == |calls| + 1 && |ws| == |calls| + 1 && ws[0] == NONE && AfterZero(calls)
    && forall k :: 0 <= k < |calls| ==> WindowStep(run[k], calls[k], key, limit, window, early, ws[k], ws[k + 1])
  }

  lemma OrderedWindows(run: seq<Table>, calls: seq<Attempt>, key: string, limit: nat, window: nat)
    returns (ws: seq<Window>)
    requires Fair(run, calls, key, limit, window) && Ordered(calls)
    ensures Windows(run, calls, key, limit, window, 0, ws)
  {
    ws := seq(|calls| + 1, k requires 0 <= k <= |calls| => Entry(Unbounded(calls, k), key));
    forall k | 0 <= k < |calls| ensures WindowStep(run[k], calls[k], key, limit, window, 0, ws[k], ws[k + 1]) {
      PruningIsInvisible(run, calls, key, k, 1, 0);
    }
  }

  lemma RoomyWindows(run: seq<Table>, calls: seq<Attempt>, key: string, limit: nat, window: nat)
    returns (ws: seq<Window>)
    requires Fair(run, calls, key, limit, window) && Roomy(run) && AfterZero(calls)
    ensures Windows(run, calls, key, limit, window, 0, ws)
  {
    ws := seq(|calls| + 1, k requires 0 <= k <= |calls| => Entry(run[k], key));
    forall k | 0 <= k < |calls| ensures WindowStep(run[k], calls[k], key, limit, window, 0, ws[k], ws[k + 1]) {
      assert |run[k]| < CAP && run[k + 1] == After(run[k], calls[k]);
    }
  }

  /** The latest window of `key`, whether the table still knows it or not. */
  function Latest(run: seq<Table>, calls: seq<Attempt>, key: string, k: nat): Window
    requires k <= |calls| < |run|
  {
    if k == 0 then NONE else if calls[k - 1].key == key then Entry(run[k], key) else Latest(run, calls, key, k - 1)
  }

  /** The table knows it, or dropped it at a reading past its reset. */
  ghost predicate Known(run: seq<Table>, calls: seq<Attempt>, key: string, k: nat)
    requires k <= |calls| < |run|
  {
    || Entry(run[k], key) == Latest(run, calls, key, k)
    || (key !in run[k] && exists j :: 0 <= j < k && calls[j].now > Latest(run, calls, key, k).reset)
  }

  lemma OthersKeepOrPrune(m: Table, a: Attempt, key: string)
    requires Possible(m, a) && a.victim != Evicted(key) && a.key != key
    ensures Entry(After(m, a), key) == Entry(m, key) || (key !in After(m, a) && a.now > Entry(m, key).reset)
    ensures key !in m ==> key !in After(m, a)
  {
  }

  lemma {:induction false} KnownThroughout(run: seq<Table>, calls: seq<Attempt>, key: string, k: nat)
    requires IsRun(run, calls) && NeverEvicted(calls, key) && k <= |calls|
    ensures Known(run, calls, key, k)
  {
    if k > 0 {
      KnownThroughout(run, calls, key, k - 1);
      assert run[k] == After(run[k - 1], calls[k - 1]) && Possible(run[k - 1], calls[k - 1]);
      if calls[k - 1].key != key {
        OthersKeepOrPrune(run[k - 1], calls[k - 1], key);
      }
    }
  }

  /** A window dropped at another reading is opened again by at most `skew` too early a call. */
  lemma LatestStep(run: seq<Table>, calls: seq<Attempt>, key: string, limit: nat, window: nat, skew: nat, k: nat)
    requires Fair(run, calls, key, limit, window) && Late(calls, skew) && k < |calls|
    ensures WindowStep(run[k], calls[k], key, limit, window, skew, Latest(run, calls, key, k),
                       Latest(run, calls, key, k + 1))
  {
    KnownThroughout(run, calls, key, k);
    assert run[k + 1] == After(run[k], calls[k]);
  }

  lemma LateWindows(run: seq<Table>, calls: seq<Attempt>, key: string, limit: nat, window: nat, skew: nat)
    returns (ws: seq<Window>)
    requires Fair(run, calls, key, limit, window) && Late(calls, skew)
    ensures Windows(run, calls, key, limit, window, skew, ws)
  {
    ws := seq(|calls| + 1, k requires 0 <= k <= |calls| => Latest(run, calls, key, k));
    forall k | 0 <= k < |calls| ensures WindowStep(run[k], calls[k], key, limit, window, skew, ws[k], ws[k + 1]) {
      LatestStep(run, calls, key, limit, window, skew, k);
    }
  }

  lemma {:induction false} CountsArePositive(run: seq<Table>, calls: seq<Attempt>, key: string, limit: nat, window: nat,
                                             early: nat, ws: seq<Window>, k: nat)
    requires Windows(run, calls, key, limit, window, early, ws) && k <= |calls|
    ensures ws[k] == NONE || ws[k].count >= 1
  {
    if k > 0 {
      CountsArePositive(run, calls, key, limit, window, early, ws, k - 1);
      assert WindowStep(run[k - 1], calls[k - 1], key, limit, window, early, ws[k - 1], ws[k]);
    }
  }

  // ----- how many a span can see -----

  lemma {:induction false} NoneAfter(run: seq<Table>, calls: seq<Attempt>, key: string, from: int, to: int, k: nat)
    requires k <= |calls| < |run| && forall j :: k <= j < |calls| ==> calls[j].now > to
    ensures AllowedBetween(run, calls, key, from, to, k) == 0
    decreases |calls| - k
  {
    if k < |calls| {
      NoneAfter(run, calls, key, from, to, k + 1);
    }
  }

  function Left(limit: nat, count: int): int { if count < limit then limit - count else 0 }

  /** Windows of one key open at least this far apart. */
  function Apart(window: nat, early: nat): nat
    requires early <= window
  {
    window + 1 - early
  }

  /** What is still allowed when at most `more` windows open after the current one before every later
      reading is past the span, and at most `inside` of them within it: the rest of this one, the limit less one
      of each of those, and the opening attempts within the span. */
  lemma {:induction false} WithinWindows(run: seq<Table>, calls: seq<Attempt>, key: string, limit: nat, window: nat,
                                         early: nat, ws: seq<Window>, skew: nat, from: int, k: nat, more: nat,
                                         inside: nat)
    requires early <= window && Windows(run, calls, key, limit, window, early, ws) && Late(calls, skew) && limit > 0
    requires k <= |calls| && ws[k].count >= 1
    requires
      var apart := Apart(window, early);
      var next := ws[k].reset - window + apart;
      && from + window + skew < next + Times(more, apart)
      && from + window < Max(from, next) + Times(inside, apart)
    ensures AllowedBetween(run, calls, key, from, from + window, k)
         <= Left(limit, ws[k].count) + Times(more, limit - 1) + inside
    decreases |calls| - k
  {
    if k < |calls| {
      assert WindowStep(run[k], calls[k], key, limit, window, early, ws[k], ws[k + 1]);
      var now := calls[k].now;
      if calls[k].key != key || ws[k + 1] == Window(ws[k].count + 1, ws[k].reset) {
        WithinWindows(run, calls, key, limit, window, early, ws, skew, from, k + 1, more, inside);
      } else if now > from + window + skew {
        NoneAfter(run, calls, key, from, from + window, k);
      } else {
        var seen := if from <= now <= from + window then 1 else 0;
        WithinWindows(run, calls, key, limit, window, early, ws, skew, from, k + 1, more - 1, inside - seen);
      }
    }
  }

  lemma {:induction false} SpanFrom(run: seq<Table>, calls: seq<Attempt>, key: string, limit: nat, window: nat,
                                    early: nat, ws: seq<Window>, skew: nat, from: int, k: nat, more: nat, inside: nat)
    requires early <= window && Windows(run, calls, key, limit, window, early, ws) && Late(calls, skew)
    requires limit > 0 && k <= |calls| && inside > 0
    requires 2 * window + skew < Times(more + 1, Apart(window, early)) && window < Times(inside, Apart(window, early))
    ensures AllowedBetween(run, calls, key, from, from + window, k) <= Times(more + 1, limit - 1) + inside
    decreases |calls| - k
  {
    CountsArePositive(run, calls, key, limit, window, early, ws, k);
    if k < |calls| && (ws[k] == NONE || ws[k].reset < from) {
      assert WindowStep(run[k], calls[k], key, limit, window, early, ws[k], ws[k + 1]);
      if calls[k].key == key && calls[k].now >= from {
        WithinWindows(run, calls, key, limit, window, early, ws, skew, from, k + 1, more, inside - 1);
      } else {
        SpanFrom(run, calls, key, limit, window, early, ws, skew, from, k + 1, more, inside);
      }
    } else if k < |calls| {
      WithinWindows(run, calls, key, limit, window, early, ws, skew, from, k, more, inside);
    }
  }

  lemma {:induction false} NoneAllowed(run: seq<Table>, calls: seq<Attempt>, key: string, window: nat, early: nat,
                                       ws: seq<Window>, from: int, to: int, k: nat)
    requires Windows(run, calls, key, 0, window, early, ws) && k <= |calls|
    ensures AllowedBetween(run, calls, key, from, to, k) == 0
    decreases |calls| - k
  {
    if k < |calls| {
      NoneAllowed(run, calls, key, window, early, ws, from, to, k + 1);
      assert WindowStep(run[k], calls[k], key, 0, window, early, ws[k], ws[k + 1]);
      CountsArePositive(run, calls, key, 0, window, early, ws, k);
    }
  }

  /** The most that `windows` windows allow in a span that sees `inside` of them open. */
  function MostOf(limit: nat, windows: nat, inside: nat): nat {
    if limit == 0 then 0 else windows * (limit - 1) + inside
  }

  /** A span as long as the window meets at most `more` + 1 windows of a key, and sees at most `inside` open, when
      so many of the distances between openings outlast the time that windows and lateness leave for them. */
  lemma WindowsBound(run: seq<Table>, calls: seq<Attempt>, key: string, limit: nat, window: nat, early: nat,
                     ws: seq<Window>, skew: nat, from: int, more: nat, inside: nat)
    requires early <= window && Windows(run, calls, key, limit, window, early, ws) && Late(calls, skew) && inside > 0
    requires 2 * window + skew < (more + 1) * Apart(window, early) && window < inside * Apart(window, early)
    ensures AllowedIn(run, calls, key, window, from) <= MostOf(limit, more + 1, inside)
  {
    if limit == 0 {
      NoneAllowed(run, calls, key, window, early, ws, from, from + window, 0);
    } else {
      TimesIsProduct(more + 1, Apart(window, early));
      TimesIsProduct(inside, Apart(window, early));
      TimesIsProduct(more + 1, limit - 1);
      SpanFrom(run, calls, key, limit, window, early, ws, skew, from, 0, more, inside);
    }
  }

  function Most(limit: nat): nat { if limit == 0 then 0 else 2 * limit - 1 }

  /** Calls in the order of their readings: no span as long as the window ever sees more than 2 * limit - 1
      attempts allowed. */
  lemma SpanIsBounded(run: seq<Table>, calls: seq<Attempt>, key: string, limit: nat, window: nat, from: int)
    requires Fair(run, calls, key, limit, window) && Ordered(calls)
    ensures AllowedIn(run, calls, key, window, from) <= Most(limit)
  {
    var ws := OrderedWindows(run, calls, key, limit, window);
    WindowsBound(run, calls, key, limit, window, 0, ws, 0, from, 1, 1);
  }

  /** How many windows of a key, opening `apart` from each other, a span as long as the window can meet with
      readings late by `skew`. */
  function Met(window: nat, skew: nat, apart: nat): nat
    requires apart > 0
  {
    (2 * window + skew) / apart + 1
  }

  lemma QuotientIsEnough(x: nat, q: nat)
    requires q > 0
    ensures x / q * q <= x < (x / q + 1) * q
  {
    assert x == x / q * q + x % q;
  }

  /** With readings late by at most `skew`, while the table never fills. */
  lemma LateSpanIsBounded(run: seq<Table>, calls: seq<Attempt>, key: string, limit: nat, window: nat, skew: nat,
                          from: int)
    requires Fair(run, calls, key, limit, window) && Late(calls, skew) && Roomy(run)
    ensures AllowedIn(run, calls, key, window, from) <= MostOf(limit, Met(window, skew, window + 1), 1)
  {
    var ws := RoomyWindows(run, calls, key, limit, window);
    QuotientIsEnough(2 * window + skew, window + 1);
    WindowsBound(run, calls, key, limit, window, 0, ws, skew, from, Met(window, skew, window + 1) - 1, 1);
  }

  /** How many open within a span that long. */
  function OpenInside(window: nat, apart: nat): nat
    requires apart > 0
  {
    window / apart + 1
  }

  /** The same when the table may fill and be pruned, for readings late by no more than the window. */
  lemma PrunedSpanIsBounded(run: seq<Table>, calls: seq<Attempt>, key: string, limit: nat, window: nat, skew: nat,
                            from: int)
    requires Fair(run, calls, key, limit, window) && Late(calls, skew) && skew <= window
    ensures
      var apart := Apart(window, skew);
      AllowedIn(run, calls, key, window, from) <= MostOf(limit, Met(window, skew, apart), OpenInside(window, apart))
  {
    var apart := Apart(window, skew);
    var ws := LateWindows(run, calls, key, limit, window, skew);
    QuotientIsEnough(2 * window + skew, apart);
    QuotientIsEnough(window, apart);
    WindowsBound(run, calls, key, limit, window, skew, ws, skew, from, Met(window, skew, apart) - 1,
      OpenInside(window, apart));
  }

  // ----- that many are seen -----

  /** Calls for one key alone at these readings, from the window `w`: how many are allowed in the span. */
  function Counted(nows: seq<int>, w: Window, limit: nat, window: nat, from: int, to: int): nat {
    if nows == [] then 0
    else
      var next := Bump(w, nows[0], window);
      (if from <= nows[0] <= to && next.count <= limit then 1 else 0)
      + Counted(nows[1..], next, limit, window, from, to)
  }

  function Final(nows: seq<int>, w: Window, window: nat): Window {
    if nows == [] then w else Final(nows[1..], Bump(w, nows[0], window), window)
  }

  lemma LonelyIsRoomy(key: string, limit: nat, window: nat, nows: seq<int>)
    ensures Roomy(LonelyTables(key, limit, window, nows))
  {
    var run := LonelyTables(key, limit, window, nows);
    forall i | 0 <= i < |run| ensures |run[i]| < CAP {
      assert run[i].Keys <= {key};
      SubsetSize(run[i].Keys, {key});
    }
  }

  lemma {:induction false} LonelyCounted(run: seq<Table>, calls: seq<Attempt>, key: string, limit: nat, window: nat,
                                         ws: seq<Window>, nows: seq<int>, from: int, to: int, k: nat)
    requires Windows(run, calls, key, limit, window, 0, ws) && k <= |nows| == |calls|
    requires forall i :: 0 <= i < |calls| ==> calls[i].key == key && calls[i].now == nows[i]
    ensures AllowedBetween(run, calls, key, from, to, k) == Counted(nows[k..], ws[k], limit, window, from, to)
    decreases |nows| - k
  {
    if k < |nows| {
      LonelyCounted(run, calls, key, limit, window, ws, nows, from, to, k + 1);
      assert WindowStep(run[k], calls[k], key, limit, window, 0, ws[k], ws[k + 1]);
      assert nows[k..][1..] == nows[k + 1..] && nows[k..][0] == nows[k];
    }
  }

  lemma {:induction false} CountedJoins(a: seq<int>, b: seq<int>, w: Window, limit: nat, window: nat,
                                        from: int, to: int)
    ensures Final(a + b, w, window) == Final(b, Final(a, w, window), window)
    ensures Counted(a + b, w, limit, window, from, to)
         == Counted(a, w, limit, window, from, to) + Counted(b, Final(a, w, window), limit, window, from, to)
    decreases |a|
  {
    if a == [] {
      assert a + b == b;
    } else {
      assert (a + b)[1..] == a[1..] + b;
      CountedJoins(a[1..], b, Bump(w, a[0], window), limit, window, from, to);
    }
  }

  function Repeated(n: nat, now: int): (nows: seq<int>)
    ensures |nows| == n && forall i :: 0 <= i < n ==> nows[i] == now
  {
    if n == 0 then [] else [now] + Repeated(n - 1, now)
  }

  lemma {:induction false} CountedRepeats(n: nat, now: int, w: Window, limit: nat, window: nat, from: int, to: int)
    requires from <= now <= to && now <= w.reset && w.count + n <= limit
    ensures Counted(Repeated(n, now), w, limit, window, from, to) == n
    ensures Final(Repeated(n, now), w, window) == Window(w.count + n, w.reset)
    decreases n
  {
    if n > 0 {
      assert Repeated(n, now)[1..] == Repeated(n - 1, now);
      CountedRepeats(n - 1, now, Bump(w, now, window), limit, window, from, to);
    }
  }

  /** The `k`th window opens a nanosecond past the one before; the rest of its limit is used within the span
      from 1 + window, by readings that are late when the window opens after it. */
  function Opening(window: nat, k: nat): int { 1 + Times(k, window + 1) }

  function Inside(window: nat, k: nat): int { if k == 0 then 1 + window else 1 + 2 * window }

  function Burst(limit: nat, window: nat, k: nat): seq<int>
    requires limit > 0
  {
    [Opening(window, k)] + Repeated(limit - 1, Inside(window, k))
  }

  function Bursts(limit: nat, window: nat, n: nat): seq<int>
    requires limit > 0
  {
    if n == 0 then [] else Bursts(limit, window, n - 1) + Burst(limit, window, n - 1)
  }

  lemma {:induction false} OpeningIsLater(window: nat, k: nat)
    requires k >= 2
    ensures Opening(window, k) >= 3 + 2 * window
    decreases k
  {
    if k > 2 {
      OpeningIsLater(window, k - 1);
    } else {
      assert Times(2, window + 1) == Times(1, window + 1) + (window + 1);
    }
  }

  lemma BurstCounted(limit: nat, window: nat, k: nat, w: Window)
    requires limit > 0 && window > 0 && w.reset < Opening(window, k)
    ensures Counted(Burst(limit, window, k), w, limit, window, 1 + window, 1 + 2 * window)
         == limit - 1 + if k == 1 then 1 else 0
    ensures Final(Burst(limit, window, k), w, window) == Window(limit, Opening(window, k) + window)
  {
    var opening, rest := Opening(window, k), Repeated(limit - 1, Inside(window, k));
    assert Burst(limit, window, k)[1..] == rest;
    if k >= 2 {
      OpeningIsLater(window, k);
    } else if k == 1 {
      assert Times(1, window + 1) == Times(0, window + 1) + (window + 1);
    }
    var first := Window(1, opening + window);
    CountedRepeats(limit - 1, Inside(window, k), first, limit, window, 1 + window, 1 + 2 * window);
  }

  lemma {:induction false} BurstsCounted(limit: nat, window: nat, n: nat)
    requires limit > 0 && window > 0
    ensures Counted(Bursts(limit, window, n), NONE, limit, window, 1 + window, 1 + 2 * window)
         == Times(n, limit - 1) + if n >= 2 then 1 else 0
    ensures Final(Bursts(limit, window, n), NONE, window).reset < Opening(window, n)
  {
    if n > 0 {
      BurstsCounted(limit, window, n - 1);
      var before := Bursts(limit, window, n - 1);
      BurstCounted(limit, window, n - 1, Final(before, NONE, window));
      CountedJoins(before, Burst(limit, window, n - 1), NONE, limit, window, 1 + window, 1 + 2 * window);
    }
  }

  /** Readings from 1 on, each at most `skew` before any earlier one. */
  ghost predicate LateBy(nows: seq<int>, skew: nat) {
    && (forall i :: 0 <= i < |nows| ==> 0 < nows[i])
    && forall i, j :: 0 <= i < j < |nows| ==> nows[i] <= nows[j] + skew
  }

  lemma LateJoins(a: seq<int>, b: seq<int>, skew: nat, latest: int, first: int)
    requires LateBy(a, skew) && LateBy(b, skew) && latest <= first + skew
    requires forall i :: 0 <= i < |a| ==> a[i] <= latest
    requires forall i :: 0 <= i < |b| ==> first <= b[i]
    ensures LateBy(a + b, skew)
  {
  }

  lemma {:induction false} BurstsAreLate(limit: nat, window: nat, n: nat, skew: nat)
    requires limit > 0 && window > 0 && n > 0 && Opening(window, n - 1) <= 1 + 2 * window + skew
    ensures LateBy(Bursts(limit, window, n), skew)
    ensures forall i :: 0 <= i < |Bursts(limit, window, n)| ==> Bursts(limit, window, n)[i] <= Opening(window, n)
  {
    var opening, inside := Opening(window, n - 1), Inside(window, n - 1);
    var rest := Repeated(limit - 1, inside);
    if n >= 3 {
      OpeningIsLater(window, n - 1);
    }
    OpeningIsLater(window, n + 1);
    if n > 1 {
      assert Opening(window, n - 1) == Opening(window, n - 2) + window + 1;
      BurstsAreLate(limit, window, n - 1, skew);
    } else {
      assert Bursts(limit, window, 0) == [];
    }
    assert Opening(window, n) == opening + window + 1;
    var before := Bursts(limit, window, n - 1);
    LateJoins(before, [opening], skew, opening, opening);
    LateJoins(before + [opening], rest, skew, opening, inside);
    assert before + Burst(limit, window, n - 1) == before + [opening] + rest;
  }

  lemma BurstsRun(key: string, limit: nat, window: nat, skew: nat, n: nat)
    returns (run: seq<Table>, calls: seq<Attempt>)
    requires limit > 0 && window > 0 && n >= 2 && Opening(window, n - 1) <= 1 + 2 * window + skew
    ensures Fair(run, calls, key, limit, window) && Late(calls, skew) && Roomy(run)
    ensures AllowedIn(run, calls, key, window, 1 + window) == MostOf(limit, n, 1)
  {
    var nows := Bursts(limit, window, n);
    BurstsAreLate(limit, window, n, skew);
    run, calls := LonelyTables(key, limit, window, nows), LonelyCalls(key, limit, window, nows);
    LonelyIsFair(key, limit, window, nows);
    LonelyIsRoomy(key, limit, window, nows);
    var ws := RoomyWindows(run, calls, key, limit, window);
    LonelyCounted(run, calls, key, limit, window, ws, nows, 1 + window, 1 + 2 * window, 0);
    assert nows[0..] == nows;
    BurstsCounted(limit, window, n);
    TimesIsProduct(n, limit - 1);
  }

  /** The bound of LateSpanIsBounded is reached, whatever the limit, the window and the lateness. */
  lemma LateBoundIsReached(key: string, limit: nat, window: nat, skew: nat)
    returns (run: seq<Table>, calls: seq<Attempt>)
    requires limit > 0 && window > 0
    ensures Fair(run, calls, key, limit, window) && Late(calls, skew) && Roomy(run)
    ensures AllowedIn(run, calls, key, window, 1 + window) == MostOf(limit, Met(window, skew, window + 1), 1)
  {
    var windows := Met(window, skew, window + 1);
    QuotientIsEnough(2 * window + skew, window + 1);
    TimesIsProduct(windows - 1, window + 1);
    run, calls := BurstsRun(key, limit, window, skew, windows);
  }

  /** And so is that of SpanIsBounded, with every call in its turn. */
  lemma BoundIsReached(key: string, limit: nat, window: nat) returns (run: seq<Table>, calls: seq<Attempt>)
    requires limit > 0 && window > 0
    ensures Fair(run, calls, key, limit, window) && Ordered(calls)
    ensures AllowedIn(run, calls, key, window, 1 + window) == Most(limit)
  {
    MetWhenOrdered(window);
    run, calls := LateBoundIsReached(key, limit, window, 0);
  }

  lemma MetWhenOrdered(window: nat)
    requires window > 0
    ensures Met(window, 0, window + 1) == 2
  {
  }

  // ----- when the clock is read too early for the bound -----

  ghost predicate KeepsMost(run: seq<Table>, calls: seq<Attempt>, key: string, limit: nat, window: nat) {
    |calls| < |run| && forall from :: AllowedIn(run, calls, key, window, from) <= Most(limit)
  }

  lemma NearlyOrderedKeepsMost(run: seq<Table>, calls: seq<Attempt>, key: string, limit: nat, window: nat, skew: nat,
                               from: int)
    requires Fair(run, calls, key, limit, window) && Late(calls, skew) && Roomy(run) && (limit <= 1 || skew <= 1)
    ensures AllowedIn(run, calls, key, window, from) <= Most(limit)
  {
    if skew <= 1 {
      var ws := RoomyWindows(run, calls, key, limit, window);
      WindowsBound(run, calls, key, limit, window, 0, ws, skew, from, 1, 1);
    } else {
      LateSpanIsBounded(run, calls, key, limit, window, skew, from);
    }
  }

  /** While the table never fills, readings one nanosecond late still keep 2 * limit - 1, and none later do. */
  lemma LateByOneKeepsMost(key: string, limit: nat, window: nat, skew: nat)
    requires window > 0
    ensures limit <= 1 || skew <= 1 <==>
      forall run: seq<Table>, calls: seq<Attempt> ::
        Fair(run, calls, key, limit, window) && Late(calls, skew) && Roomy(run)
        ==> KeepsMost(run, calls, key, limit, window)
  {
    if limit <= 1 || skew <= 1 {
      forall run: seq<Table>, calls: seq<Attempt>
        | Fair(run, calls, key, limit, window) && Late(calls, skew) && Roomy(run)
        ensures KeepsMost(run, calls, key, limit, window)
      {
        forall from ensures AllowedIn(run, calls, key, window, from) <= Most(limit) {
          NearlyOrderedKeepsMost(run, calls, key, limit, window, skew, from);
        }
      }
    } else {
      assert Times(2, window + 1) == Times(1, window + 1) + (window + 1);
      var run, calls := BurstsRun(key, limit, window, skew, 3);
      assert AllowedIn(run, calls, key, window, 1 + window) == 3 * (limit - 1) + 1;
      assert !KeepsMost(run, calls, key, limit, window);
    }
  }

  // ----- once the table fills, any lateness is too much -----

  /** Keys that are longer than `key`, and no two the same. */
  function Filler(key: string, i: nat): string { key + seq(i + 1, j => 'x') }

  function Filled(key: string, window: nat, n: nat): Table {
    if n == 0 then map[] else Filled(key, window, n - 1)[Filler(key, n - 1) := Window(1, 1 + window)]
  }

  predicate FilledBy(m: Table, key: string, window: nat, n: nat) {
    |m| == n && forall k :: k in m ==> |key| < |k| <= |key| + n && m[k] == Window(1, 1 + window)
  }

  lemma {:induction false} FilledSize(key: string, window: nat, n: nat)
    ensures FilledBy(Filled(key, window, n), key, window, n)
    decreases n
  {
    if n > 0 {
      FilledSize(key, window, n - 1);
      assert Filler(key, n - 1) !in Filled(key, window, n - 1);
    }
  }

  function WithKey(m: Table, key: string, n: nat, reset: int): Table {
    if n == 0 then m else m[key := Window(n, reset)]
  }

  /** The table after a new key came to a full one a nanosecond past every reset. */
  function Pruned(key: string, window: nat): Table {
    map[Filler(key, CAP) := Window(1, 2 + 2 * window)]
  }

  /** Other keys fill the table but for one entry and `key` uses up its limit, all at 1; a new key comes at
      2 + window; and calls for `key` that read the clock a nanosecond before that come after it. */
  function PlayedCall(key: string, limit: nat, window: nat, i: nat): Attempt {
    if i < CAP - 1 then Call(Filler(key, i), limit, window, 1)
    else if i < CAP - 1 + limit then Call(key, limit, window, 1)
    else if i == CAP - 1 + limit then Call(Filler(key, CAP), limit, window, 2 + window)
    else Call(key, limit, window, 1 + window)
  }

  function PlayedTable(key: string, limit: nat, window: nat, i: nat): Table {
    if i < CAP then Filled(key, window, i)
    else if i < CAP + limit then WithKey(Filled(key, window, CAP - 1), key, i - (CAP - 1), 1 + window)
    else WithKey(Pruned(key, window), key, i - (CAP + limit), 1 + 2 * window)
  }

  predicate PlayedStep(m: Table, a: Attempt, next: Table, key: string) {
    Possible(m, a) && After(m, a) == next && (a.key == key ==> Allowed(m, a))
  }

  lemma FillStep(key: string, limit: nat, window: nat, i: nat)
    requires i < CAP - 1
    ensures PlayedStep(Filled(key, window, i), Call(Filler(key, i), limit, window, 1), Filled(key, window, i + 1), key)
  {
    FilledSize(key, window, i);
    assert Filler(key, i) !in Filled(key, window, i) && |Filler(key, i)| > |key|;
  }

  /** The `n`th call of a window that the first opened. */
  lemma UseStep(m: Table, key: string, limit: nat, window: nat, now: int, n: nat)
    requires key !in m && |m| < CAP && 0 < n <= limit && 0 < now
    ensures PlayedStep(WithKey(m, key, n - 1, now + window), Call(key, limit, window, now),
                       WithKey(m, key, n, now + window), key)
  {
  }

  lemma AllPruned(m: Table, a: Attempt)
    requires Full(m, a.key) && a.victim.Nobody? && 0 < a.now && forall k :: k in m ==> m[k].reset < a.now
    ensures Possible(m, a) && After(m, a) == map[a.key := Window(1, a.now + a.window)]
  {
    assert Unexpired(m, a.now) == map[];
  }

  lemma WithKeySize(m: Table, key: string, n: nat, reset: int)
    requires key !in m && n > 0
    ensures |WithKey(m, key, n, reset)| == |m| + 1
  {
    assert WithKey(m, key, n, reset).Keys == m.Keys + {key};
  }

  lemma PruneStep(m: Table, key: string, other: string, limit: nat, window: nat)
    requires limit > 0 && |m| == CAP - 1 && key !in m && other !in m && other != key
    requires forall k :: k in m ==> m[k] == Window(1, 1 + window)
    ensures
      var full, a := WithKey(m, key, limit, 1 + window), Call(other, limit, window, 2 + window);
      Possible(full, a) && After(full, a) == map[other := Window(1, 2 + 2 * window)]
  {
    WithKeySize(m, key, limit, 1 + window);
    AllPruned(WithKey(m, key, limit, 1 + window), Call(other, limit, window, 2 + window));
  }

  lemma PlayedSteps(key: string, limit: nat, window: nat, i: nat)
    requires limit > 0 && i < CAP + 2 * limit
    ensures PlayedStep(PlayedTable(key, limit, window, i), PlayedCall(key, limit, window, i),
                       PlayedTable(key, limit, window, i + 1), key)
  {
    var others := Filled(key, window, CAP - 1);
    FilledSize(key, window, CAP - 1);
    if i < CAP - 1 {
      FillStep(key, limit, window, i);
    } else if i < CAP - 1 + limit {
      UseStep(others, key, limit, window, 1, i - (CAP - 1) + 1);
    } else if i == CAP - 1 + limit {
      assert |Filler(key, CAP)| > |key| + CAP;
      PruneStep(others, key, Filler(key, CAP), limit, window);
    } else {
      assert |Filler(key, CAP)| > |key|;
      UseStep(Pruned(key, window), key, limit, window, 1 + window, i - (CAP + limit) + 1);
    }
  }

  function PlayedCalls(key: string, limit: nat, window: nat): seq<Attempt> {
    seq(CAP + 2 * limit, i requires 0 <= i => PlayedCall(key, limit, window, i))
  }

  function PlayedTables(key: string, limit: nat, window: nat): seq<Table> {
    seq(CAP + 2 * limit + 1, i requires 0 <= i => PlayedTable(key, limit, window, i))
  }

  /** A run whose steps are all possible, and whose calls for `key` are alike and never throw it out. */
  lemma FairBySteps(run: seq<Table>, calls: seq<Attempt>, key: string, limit: nat, window: nat)
    requires |run| == |calls| + 1 && run[0] == map[]
    requires forall i, j :: 0 <= i < |calls| && j == i + 1 ==> PlayedStep(run[i], calls[i], run[j], key)
    requires forall i :: 0 <= i < |calls| ==>
      calls[i].victim != Evicted(key) && (calls[i].key == key ==> calls[i].limit == limit && calls[i].window == window)
    ensures Fair(run, calls, key, limit, window)
  {
    forall i | 0 <= i < |calls| ensures Possible(run[i], calls[i]) && run[i + 1] == After(run[i], calls[i]) {
      assert PlayedStep(run[i], calls[i], run[i + 1], key);
    }
  }

  lemma PlayedIsFair(key: string, limit: nat, window: nat)
    requires limit > 0
    ensures Fair(PlayedTables(key, limit, window), PlayedCalls(key, limit, window), key, limit, window)
  {
    var run, calls := PlayedTables(key, limit, window), PlayedCalls(key, limit, window);
    forall i, j | 0 <= i < |calls| && j == i + 1 ensures PlayedStep(run[i], calls[i], run[j], key) {
      PlayedSteps(key, limit, window, i);
    }
    FairBySteps(run, calls, key, limit, window);
  }

  lemma PlayedIsLate(key: string, limit: nat, window: nat)
    ensures Late(PlayedCalls(key, limit, window), 1)
  {
  }

  /** How many calls for `key` are left. */
  function KeyCallsLeft(limit: nat, k: nat): int {
    if k < CAP then 2 * limit else if k < CAP + limit then CAP - 1 + 2 * limit - k else CAP + 2 * limit - k
  }

  lemma {:induction false} PlayedAllows(run: seq<Table>, calls: seq<Attempt>, key: string, limit: nat, window: nat,
                                        k: nat)
    requires |run| == |calls| + 1 && k <= |calls| == CAP + 2 * limit
    requires forall i :: 0 <= i < |calls| ==>
      calls[i] == PlayedCall(key, limit, window, i) && (calls[i].key == key ==> Allowed(run[i], calls[i]))
    ensures AllowedBetween(run, calls, key, 1, 1 + window, k) == KeyCallsLeft(limit, k)
    decreases |calls| - k
  {
    if k < |calls| {
      PlayedAllows(run, calls, key, limit, window, k + 1);
      assert calls[k] == PlayedCall(key, limit, window, k);
    }
  }

  /** Two whole limits in one span, of readings one nanosecond late. */
  lemma PrunedSpan(key: string, limit: nat, window: nat) returns (run: seq<Table>, calls: seq<Attempt>)
    requires limit > 0
    ensures Fair(run, calls, key, limit, window) && Late(calls, 1)
    ensures AllowedIn(run, calls, key, window, 1) == 2 * limit
  {
    run, calls := PlayedTables(key, limit, window), PlayedCalls(key, limit, window);
    PlayedIsFair(key, limit, window);
    PlayedIsLate(key, limit, window);
    forall i | 0 <= i < |calls| ensures calls[i].key == key ==> Allowed(run[i], calls[i]) {
      PlayedSteps(key, limit, window, i);
    }
    PlayedAllows(run, calls, key, limit, window, 0);
  }

  /** When the table may fill, only calls in the order of their readings keep 2 * limit - 1. */
  lemma OnlyOrderKeepsMost(key: string, limit: nat, window: nat, skew: nat)
    requires limit > 0
    ensures skew == 0 <==>
      forall run: seq<Table>, calls: seq<Attempt> ::
        Fair(run, calls, key, limit, window) && Late(calls, skew) ==> KeepsMost(run, calls, key, limit, window)
  {
    if skew == 0 {
      forall run: seq<Table>, calls: seq<Attempt> | Fair(run, calls, key, limit, window) && Late(calls, skew)
        ensures KeepsMost(run, calls, key, limit, window)
      {
        forall from ensures AllowedIn(run, calls, key, window, from) <= Most(limit) {
          SpanIsBounded(run, calls, key, limit, window, from);
        }
      }
    } else {
      var run, calls := PrunedSpan(key, limit, window);
      assert Late(calls, skew) && !KeepsMost(run, calls, key, limit, window);
    }
  }

  /** Every call for `key` is answered as a table that only grows would. */
  ghost predicate AnswersAlike(run: seq<Table>, calls: seq<Attempt>, key: string) {
    |calls| < |run| &&
    forall n :: 0 <= n < |calls| && calls[n].key == key ==>
      Allowed(run[n], calls[n]) == Allowed(Unbounded(calls, n), calls[n])
  }

  /** The window of `key` in a table that only grows. */
  lemma {:induction false} PlayedUnbounded(calls: seq<Attempt>, key: string, limit: nat, window: nat, n: nat)
    requires n <= |calls| && n <= CAP + limit && limit > 0
    requires forall i :: 0 <= i < |calls| ==> calls[i] == PlayedCall(key, limit, window, i)
    ensures Entry(Unbounded(calls, n), key)
         == if n < CAP then NONE else Window(Min(n - (CAP - 1), limit), 1 + window)
  {
    if n > 0 {
      PlayedUnbounded(calls, key, limit, window, n - 1);
      assert calls[n - 1] == PlayedCall(key, limit, window, n - 1);
      assert |Filler(key, n - 1)| > |key| && |Filler(key, CAP)| > |key|;
    }
  }

  /** A window pruned before a late call reaches the lock is opened again. */
  lemma ReopensPruned(key: string, limit: nat, window: nat) returns (run: seq<Table>, calls: seq<Attempt>)
    requires limit > 0
    ensures Fair(run, calls, key, limit, window) && Late(calls, 1) && !AnswersAlike(run, calls, key)
  {
    run, calls := PlayedTables(key, limit, window), PlayedCalls(key, limit, window);
    PlayedIsFair(key, limit, window);
    PlayedIsLate(key, limit, window);
    PlayedSteps(key, limit, window, CAP + limit);
    PlayedUnbounded(calls, key, limit, window, CAP + limit);
    var n := CAP + limit;
    assert Allowed(run[n], calls[n]) && !Allowed(Unbounded(calls, n), calls[n]);
  }

  /** Pruning goes unnoticed by a key that is never thrown out live exactly when calls come in the order of
      their readings. */
  lemma OnlyOrderHidesPruning(key: string, limit: nat, window: nat, skew: nat)
    requires limit > 0
    ensures skew == 0 <==>
      forall run: seq<Table>, calls: seq<Attempt> ::
        Fair(run, calls, key, limit, window) && Late(calls, skew) ==> AnswersAlike(run, calls, key)
  {
    if skew == 0 {
      forall run: seq<Table>, calls: seq<Attempt> | Fair(run, calls, key, limit, window) && Late(calls, skew)
        ensures AnswersAlike(run, calls, key)
      {
        forall n | 0 <= n < |calls| && calls[n].key == key
          ensures Allowed(run[n], calls[n]) == Allowed(Unbounded(calls, n), calls[n])
        {
          PruningIsInvisible(run, calls, key, n, limit, 0);
        }
      }
    } else {
      var run, calls := ReopensPruned(key, limit, window);
      assert Late(calls, skew);
    }
  }

  // ----- readings later than the window -----

  /** A table full but for one entry, whose windows outlast that of `key`. */
  function Outlasting(key: string, window: nat): Table { Filled(key, window + 1, CAP - 1) }

  /** With `key` counted at 1 and a new key at 2 + window in turn, each reading late by more than the window:
      the new key prunes the one, and makes room for it by being thrown out itself. */
  function TurnCall(key: string, limit: nat, window: nat, i: nat): Attempt {
    if i < CAP - 1 then Call(Filler(key, i), limit, window + 1, 1)
    else if i == CAP - 1 then Call(key, limit, window, 1)
    else if (i - (CAP - 1)) % 2 == 0 then Attempt(key, limit, window, 1, Evicted(Filler(key, CAP)))
    else Call(Filler(key, CAP), limit, window, 2 + window)
  }

  function TurnTable(key: string, window: nat, i: nat): Table {
    if i < CAP then Filled(key, window + 1, i)
    else if (i - (CAP - 1)) % 2 == 1 then Outlasting(key, window)[key := Window(1, 1 + window)]
    else Outlasting(key, window)[Filler(key, CAP) := Window(1, 2 + 2 * window)]
  }

  /** A new key prunes the entry of `key` alone. */
  lemma TurnAway(m: Table, key: string, other: string, limit: nat, window: nat)
    requires limit > 0 && |m| == CAP - 1 && key !in m && other !in m && other != key
    requires forall k :: k in m ==> m[k] == Window(1, 2 + window)
    ensures PlayedStep(m[key := Window(1, 1 + window)], Call(other, limit, window, 2 + window),
                       m[other := Window(1, 2 + 2 * window)], key)
  {
    var full := m[key := Window(1, 1 + window)];
    assert full.Keys == m.Keys + {key};
    assert Unexpired(full, 2 + window) == m;
  }

  /** And is thrown out for it. */
  lemma TurnBack(m: Table, key: string, other: string, limit: nat, window: nat)
    requires limit > 0 && |m| == CAP - 1 && key !in m && other !in m && other != key
    requires forall k :: k in m ==> m[k] == Window(1, 2 + window)
    ensures PlayedStep(m[other := Window(1, 2 + 2 * window)], Attempt(key, limit, window, 1, Evicted(other)),
                       m[key := Window(1, 1 + window)], key)
  {
    var full := m[other := Window(1, 2 + 2 * window)];
    assert full.Keys == m.Keys + {other};
    assert Unexpired(full, 1) == full;
    assert full - {other} == m;
  }

  lemma TurnSteps(key: string, limit: nat, window: nat, i: nat)
    requires limit > 0
    ensures PlayedStep(TurnTable(key, window, i), TurnCall(key, limit, window, i), TurnTable(key, window, i + 1), key)
  {
    var others, other := Outlasting(key, window), Filler(key, CAP);
    FilledSize(key, window + 1, CAP - 1);
    assert |other| > |key| + CAP;
    if i < CAP - 1 {
      FillStep(key, limit, window + 1, i);
    } else if i == CAP - 1 {
      UseStep(others, key, limit, window, 1, 1);
    } else if (i - (CAP - 1)) % 2 == 1 {
      TurnAway(others, key, other, limit, window);
    } else {
      TurnBack(others, key, other, limit, window);
    }
  }

  function TurnCalls(key: string, limit: nat, window: nat, turns: nat): seq<Attempt> {
    seq(CAP - 1 + 2 * turns, i requires 0 <= i => TurnCall(key, limit, window, i))
  }

  function TurnTables(key: string, window: nat, turns: nat): seq<Table> {
    seq(CAP + 2 * turns, i requires 0 <= i => TurnTable(key, window, i))
  }

  lemma FillersDiffer(key: string, i: nat)
    ensures Filler(key, i) != key
  {
    assert |Filler(key, i)| > |key|;
  }

  lemma TurnIsOwn(key: string, limit: nat, window: nat, i: nat)
    ensures
      var a := TurnCall(key, limit, window, i);
      a.victim != Evicted(key) && (a.key == key ==> a.limit == limit && a.window == window)
  {
    FillersDiffer(key, i);
    FillersDiffer(key, CAP);
  }

  lemma TurnsAreFair(key: string, limit: nat, window: nat, turns: nat)
    requires limit > 0
    ensures Fair(TurnTables(key, window, turns), TurnCalls(key, limit, window, turns), key, limit, window)
  {
    var run, calls := TurnTables(key, window, turns), TurnCalls(key, limit, window, turns);
    forall i, j | 0 <= i < |calls| && j == i + 1 ensures PlayedStep(run[i], calls[i], run[j], key) {
      TurnSteps(key, limit, window, i);
    }
    forall i | 0 <= i < |calls|
      ensures calls[i].victim != Evicted(key)
      ensures calls[i].key == key ==> calls[i].limit == limit && calls[i].window == window
    {
      TurnIsOwn(key, limit, window, i);
    }
    FairBySteps(run, calls, key, limit, window);
  }

  lemma TurnsAreLate(key: string, limit: nat, window: nat, turns: nat)
    ensures Late(TurnCalls(key, limit, window, turns), window + 1)
  {
  }

  function TurnsLeft(turns: nat, k: nat): int {
    if k < CAP then turns else (2 * turns - (k - (CAP - 1))) / 2
  }

  lemma {:induction false} TurnsAllowed(run: seq<Table>, calls: seq<Attempt>, key: string, limit: nat, window: nat,
                                        turns: nat, k: nat)
    requires |run| == |calls| + 1 && k <= |calls| == CAP - 1 + 2 * turns
    requires forall i :: 0 <= i < |calls| ==>
      calls[i] == TurnCall(key, limit, window, i) && (calls[i].key == key ==> Allowed(run[i], calls[i]))
    ensures AllowedBetween(run, calls, key, 1, 1 + window, k) == TurnsLeft(turns, k)
    decreases |calls| - k
  {
    if k < |calls| {
      TurnsAllowed(run, calls, key, limit, window, turns, k + 1);
      assert calls[k] == TurnCall(key, limit, window, k);
    }
  }

  lemma TurnsRun(key: string, limit: nat, window: nat, turns: nat) returns (run: seq<Table>, calls: seq<Attempt>)
    requires limit > 0
    ensures Fair(run, calls, key, limit, window) && Late(calls, window + 1)
    ensures AllowedIn(run, calls, key, window, 1) == turns
  {
    run, calls := TurnTables(key, window, turns), TurnCalls(key, limit, window, turns);
    TurnsAreFair(key, limit, window, turns);
    TurnsAreLate(key, limit, window, turns);
    forall i | 0 <= i < |calls| ensures calls[i].key == key ==> Allowed(run[i], calls[i]) {
      TurnSteps(key, limit, window, i);
    }
    TurnsAllowed(run, calls, key, limit, window, turns, 0);
  }

  /** No span of any run with readings late by at most `skew` sees more than `bound` attempts allowed. */
  ghost predicate Bounds(key: string, limit: nat, window: nat, skew: nat, bound: nat) {
    forall run: seq<Table>, calls: seq<Attempt>, from ::
      Fair(run, calls, key, limit, window) && Late(calls, skew) ==> AllowedIn(run, calls, key, window, from) <= bound
  }

  /** When the table may fill, there is any bound at all exactly when no reading is late by more than the window. */
  lemma BoundedWhileWithinTheWindow(key: string, limit: nat, window: nat, skew: nat)
    requires limit > 0
    ensures skew <= window <==> exists bound: nat :: Bounds(key, limit, window, skew, bound)
  {
    if skew <= window {
      var apart := Apart(window, skew);
      var bound := MostOf(limit, Met(window, skew, apart), OpenInside(window, apart));
      forall run: seq<Table>, calls: seq<Attempt>, from | Fair(run, calls, key, limit, window) && Late(calls, skew)
        ensures AllowedIn(run, calls, key, window, from) <= bound
      {
        PrunedSpanIsBounded(run, calls, key, limit, window, skew, from);
      }
      assert Bounds(key, limit, window, skew, bound);
    } else {
      forall bound: nat ensures !Bounds(key, limit, window, skew, bound) {
        var run, calls := TurnsRun(key, limit, window, bound + 1);
        assert Late(calls, skew) && AllowedIn(run, calls, key, window, 1) == bound + 1;
      }
    }
  }
}
