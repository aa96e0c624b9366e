/** The in-memory sliding-window rate limiter. It forgets what it no longer
    needs on every call and on every sweep; the claim is that nobody can tell.
    Times are seconds of a monotonic clock. */
module RateLimiter {
  import opened Octets
  import opened Texts

  type Windows = map<string, seq<real>>

  function TimesOf(w: Windows, key: string): seq<real> {
    if key in w then w[key] else []
  }

  /** `[t for t in times if t > cutoff]`. */
  function Recent(times: seq<real>, cutoff: real): (r: seq<real>)
    ensures |r| <= |times|
  {
    if times == [] then []
    else if times[0] > cutoff then [times[0]] + Recent(times[1..], cutoff)
    else Recent(times[1..], cutoff)
  }

  /** `check` and `is_allowed` on a bucket key. */
  function Asked(w: Windows, key: string, limit: int, window: int, now: real): (Windows, bool) {
    var times := Recent(TimesOf(w, key), now - window as real);
    if |times| >= limit then (w[key := times], false) else (w[key := times + [now]], true)
  }

  /** A key the sweep drops: it has the prefix and no hit in the window. */
  predicate Idle(w: Windows, key: string, prefix: string, window: int, now: real)
    requires key in w
  {
    prefix <= key && (w[key] == [] || w[key][|w[key]| - 1] <= now - window as real)
  }

  function IdleKeys(w: Windows, prefix: string, window: int, now: real): set<string> {
    set key | key in w && Idle(w, key, prefix, window, now)
  }

  function Pruned(w: Windows, prefix: string, window: int, now: real): Windows {
    w - IdleKeys(w, prefix, window, now)
  }

  /** The least whole number at or above `x`. */
  function Ceiling(x: real): (n: int)
    ensures (n - 1) as real < x <= n as real
  {
    -((-x).Floor)
  }

  function RetryAfter(w: Windows, key: string, window: int, now: real): int {
    var times := TimesOf(w, key);
    if times == [] then 0
    else
      var remaining := Ceiling(times[0] + window as real - now);
      if remaining < 1 then 1 else remaining
  }

  // ------------------------------------------------------------- bucket keys

  /** `path.strip("/")`. */
  function StripSlashes(path: string): string
    decreases |path|
  {
    if path == "" then ""
    else if path[0] == '/' then StripSlashes(path[1..])
    else if path[|path| - 1] == '/' then StripSlashes(path[..|path| - 1])
    else path
  }

  /** The text before the `n`-th slash, or all of it. */
  function FirstSegments(path: string, n: nat): string {
    if path == "" then ""
    else if path[0] == '/' then (if n <= 1 then "" else "/" + FirstSegments(path[1..], n - 1))
    else [path[0]] + FirstSegments(path[1..], n)
  }

  /** `_bucket`: the user and the first two path segments. */
  function Bucket(userId: string, path: string): string {
    userId + ":" + FirstSegments(StripSlashes(path), 2)
  }

  /** Stripping takes slashes off both ends and nothing else. */
  lemma {:induction false} StripTakesSlashesOff(path: string) returns (i: nat, j: nat)
    ensures i <= j <= |path| && StripSlashes(path) == path[i..j]
    ensures forall k :: 0 <= k < i || j <= k < |path| ==> path[k] == '/'
    ensures i < j ==> path[i] != '/' && path[j - 1] != '/'
    decreases |path|
  {
    if path == "" {
      i, j := 0, 0;
    } else if path[0] == '/' {
      var a, b := StripTakesSlashesOff(path[1..]);
      i, j := a + 1, b + 1;
    } else if path[|path| - 1] == '/' {
      i, j := StripTakesSlashesOff(path[..|path| - 1]);
    } else {
      i, j := 0, |path|;
    }
  }

  /** The first two segments of a path, or the one there is. */
  function Head(path: string): (parts: seq<string>)
    ensures parts != []
  {
    var all := Split('/', StripSlashes(path));
    if |all| <= 2 then all else all[..2]
  }

  lemma {:induction false} FirstSegmentsJoin(path: string, n: nat)
    requires n >= 1
    ensures var all := Split('/', path);
      FirstSegments(path, n) == Joined('/', if |all| <= n then all else all[..n])
  {
    if path != "" {
      var all, rest := Split('/', path), Split('/', path[1..]);
      if path[0] == '/' {
        assert all[1..] == rest && all[..1] == [""];
        if n > 1 {
          FirstSegmentsJoin(path[1..], n - 1);
          assert all[..if |all| <= n then |all| else n][1..] == rest[..if |rest| <= n - 1 then |rest| else n - 1];
        }
      } else {
        FirstSegmentsJoin(path[1..], n);
        assert all[1..] == rest[1..];
        assert |all| > n ==> all[..n][1..] == rest[..n][1..];
      }
    }
  }

  /** MAIN: a user's two paths share a bucket exactly when their first two
      segments agree, and two users never share one. User ids hold no colon. */
  lemma BucketsShared(user1: string, path1: string, user2: string, path2: string)
    requires ':' !in user1 && ':' !in user2
    ensures Bucket(user1, path1) == Bucket(user2, path2) <==> user1 == user2 && Head(path1) == Head(path2)
  {
    hide StripSlashes, FirstSegments;
    var s1, s2 := StripSlashes(path1), StripSlashes(path2);
    FirstSegmentsJoin(s1, 2);
    FirstSegmentsJoin(s2, 2);
    JoinedOfSplit('/', s1);
    JoinedOfSplit('/', s2);
    SplitOfJoined('/', Head(path1));
    SplitOfJoined('/', Head(path2));
    if Bucket(user1, path1) == Bucket(user2, path2) {
      SplitAtFirst(':', user1, FirstSegments(s1, 2), user2, FirstSegments(s2, 2));
    }
  }

  // ------------------------------------------------------------ the limiter

  class RateLimiter {
    var windows: Windows

    constructor ()
      ensures windows == map[]
    {
      windows := map[];
    }

    method IsAllowed(key: string, limit: int, window: int, now: real) returns (allowed: bool)
      modifies this
      ensures (windows, allowed) == Asked(old(windows), key, limit, window, now)
    {
      var times := KeepRecent(if key in windows then windows[key] else [], now - window as real);
      if |times| >= limit {
        windows := windows[key := times];
        return false;
      }
      times := times + [now];
      windows := windows[key := times];
      return true;
    }

    method Check(userId: string, path: string, limit: int, window: int, now: real) returns (allowed: bool)
      modifies this
      ensures (windows, allowed) == Asked(old(windows), Bucket(userId, path), limit, window, now)
    {
      allowed := IsAllowed(Bucket(userId, path), limit, window, now);
    }

    method HasRoom(key: string, limit: int, window: int, now: real) returns (room: bool)
      ensures room == Asked(windows, key, limit, window, now).1
    {
      var times := KeepRecent(if key in windows then windows[key] else [], now - window as real);
      room := |times| < limit;
    }

    method RetryAfterSeconds(key: string, window: int, now: real) returns (seconds: int)
      ensures seconds == RetryAfter(windows, key, window, now)
    {
      if key !in windows || windows[key] == [] {
        return 0;
      }
      var remaining := Ceiling(windows[key][0] + window as real - now);
      seconds := if remaining < 1 then 1 else remaining;
    }

    method Prune(window: int, prefix: string, now: real)
      modifies this
      ensures windows == Pruned(old(windows), prefix, window, now)
    {
      var stale := IdleKeys(windows, prefix, window, now);
      var left := stale;
      while left != {}
        invariant left <= stale
        invariant windows == old(windows) - (stale - left)
        decreases |left|
      {
        var key :| key in left;
        windows := windows - {key};
        left := left - {key};
      }
    }

    method Reset(key: Option<string>)
      modifies this
      ensures windows == match key case None => map[] case Some(k) => old(windows) - {k}
    {
      match key
      case None => windows := map[];
      case Some(k) => windows := windows - {k};
    }
  }

  method KeepRecent(times: seq<real>, cutoff: real) returns (kept: seq<real>)
    ensures kept == Recent(times, cutoff)
  {
    kept := [];
    var i := 0;
    while i < |times|
      invariant 0 <= i <= |times|
      invariant Recent(times, cutoff) == kept + Recent(times[i..], cutoff)
    {
      assert times[i..][1..] == times[i + 1..];
      if times[i] > cutoff {
        kept := kept + [times[i]];
      }
      i := i + 1;
    }
  }

  // ------------------------------------------------------------------- runs

  datatype Op =
    | Ask(key: string, limit: int, window: int, now: real)
    | Room(key: string, limit: int, window: int, now: real)
    | Sweep(prefix: string, window: int, now: real)
    | Clear(which: Option<string>, now: real)

  function Step(w: Windows, op: Op): (Windows, bool) {
    match op
    case Ask(key, limit, window, now) => Asked(w, key, limit, window, now)
    case Room(key, limit, window, now) => (w, Asked(w, key, limit, window, now).1)
    case Sweep(prefix, window, now) => (Pruned(w, prefix, window, now), false)
    case Clear(None, now) => (map[], false)
    case Clear(Some(key), now) => (w - {key}, false)
  }

  /** The naive limiter of one key: every allowed call, never forgotten. A
      call is allowed when fewer than `limit` of them lie in
      `(now - window, now]`. */
  function NaiveStep(log: seq<real>, key: string, op: Op): (seq<real>, bool) {
    match op
    case Ask(k, limit, window, now) =>
      if k != key then (log, false)
      else if |Recent(log, now - window as real)| < limit then (log + [now], true)
      else (log, false)
    case Room(k, limit, window, now) => (log, k == key && |Recent(log, now - window as real)| < limit)
    case Sweep(_, _, _) => (log, false)
    case Clear(which, _) => (if which == None || which == Some(key) then [] else log, false)
  }

  /** The answers a run gives about `key`. */
  function Answers(w: Windows, key: string, ops: seq<Op>): seq<bool>
    decreases ops
  {
    if ops == [] then []
    else
      var (w', answer) := Step(w, ops[0]);
      [Concerns(ops[0], key) && answer] + Answers(w', key, ops[1..])
  }

  predicate Concerns(op: Op, key: string) { (op.Ask? || op.Room?) && op.key == key }

  function NaiveAnswers(log: seq<real>, key: string, ops: seq<Op>): seq<bool>
    decreases ops
  {
    if ops == [] then []
    else
      var (log', answer) := NaiveStep(log, key, ops[0]);
      [answer] + NaiveAnswers(log', key, ops[1..])
  }

  function After(w: Windows, ops: seq<Op>): Windows
    decreases ops
  {
    if ops == [] then w else After(Step(w, ops[0]).0, ops[1..])
  }

  function NaiveAfter(log: seq<real>, key: string, ops: seq<Op>): seq<real>
    decreases ops
  {
    if ops == [] then log else NaiveAfter(NaiveStep(log, key, ops[0]).0, key, ops[1..])
  }

  /** One key is always asked with one limit and window; a sweep that could
      reach it sweeps a window at least as long. Every other key is free. */
  predicate Fits(op: Op, key: string, limit: int, window: int) {
    && (Concerns(op, key) ==> op.limit == limit && op.window == window)
    && (op.Sweep? && op.prefix <= key ==> op.window >= window)
  }

  /** Such a run, under a clock that never goes back. */
  predicate Disciplined(ops: seq<Op>, key: string, limit: int, window: int, clock: real)
    decreases ops
  {
    ops == [] ||
    (clock <= ops[0].now && Fits(ops[0], key, limit, window) && Disciplined(ops[1..], key, limit, window, ops[0].now))
  }

  function ClockAfter(clock: real, ops: seq<Op>): real {
    if ops == [] then clock else ops[|ops| - 1].now
  }

  // -------------------------------------------------------------- list facts

  predicate Ordered(times: seq<real>, clock: real) {
    && (forall i, j :: 0 <= i < j < |times| ==> times[i] <= times[j])
    && forall i :: 0 <= i < |times| ==> times[i] <= clock
  }

  lemma {:induction false} RecentSnoc(times: seq<real>, t: real, cutoff: real)
    ensures Recent(times + [t], cutoff) == Recent(times, cutoff) + (if t > cutoff then [t] else [])
  {
    if times == [] {
      assert times + [t] == [t];
    } else {
      assert (times + [t])[1..] == times[1..] + [t];
      RecentSnoc(times[1..], t, cutoff);
    }
  }

  lemma {:induction false} RecentRecent(times: seq<real>, early: real, late: real)
    requires early <= late
    ensures Recent(Recent(times, early), late) == Recent(times, late)
  {
    if times != [] {
      RecentRecent(times[1..], early, late);
      var r := Recent(times[1..], early);
      assert ([times[0]] + r)[1..] == r;
    }
  }

  lemma {:induction false} RecentNone(times: seq<real>, cutoff: real)
    requires forall i :: 0 <= i < |times| ==> times[i] <= cutoff
    ensures Recent(times, cutoff) == []
  {
    if times != [] {
      RecentNone(times[1..], cutoff);
    }
  }

  lemma {:induction false} RecentAll(times: seq<real>, cutoff: real)
    requires forall i :: 0 <= i < |times| ==> times[i] > cutoff
    ensures Recent(times, cutoff) == times
  {
    if times != [] {
      RecentAll(times[1..], cutoff);
    }
  }

  lemma {:induction false} RecentMembers(times: seq<real>, cutoff: real, t: real)
    ensures t in Recent(times, cutoff) <==> t in times && t > cutoff
  {
    if times != [] {
      RecentMembers(times[1..], cutoff, t);
      assert times == [times[0]] + times[1..];
    }
  }

  lemma {:induction false} RecentOrdered(times: seq<real>, cutoff: real, clock: real)
    requires Ordered(times, clock)
    ensures Ordered(Recent(times, cutoff), clock)
    ensures forall i :: 0 <= i < |Recent(times, cutoff)| ==> Recent(times, cutoff)[i] > cutoff
  {
    if times != [] {
      RecentOrdered(times[1..], cutoff, clock);
      var r := Recent(times[1..], cutoff);
      forall i | 0 <= i < |r| ensures times[0] <= r[i] {
        RecentMembers(times[1..], cutoff, r[i]);
      }
    }
  }

  // -------------------------------------------------------------- refinement

  /** Everything still inside the window is remembered, and nothing else is
      made up. */
  ghost predicate Remembers(w: Windows, key: string, log: seq<real>, limit: int, window: int, clock: real) {
    && Ordered(log, clock) && Ordered(TimesOf(w, key), clock)
    && Agree(TimesOf(w, key), log, clock - window as real)
    && (|TimesOf(w, key)| <= limit || TimesOf(w, key) == [])
  }

  /** `times` is as good as `log` for every question from `start` on. */
  ghost predicate Agree(times: seq<real>, log: seq<real>, start: real) {
    forall cutoff :: cutoff >= start ==> Recent(times, cutoff) == Recent(log, cutoff)
  }

  lemma {:induction false} AgreeKept(times: seq<real>, log: seq<real>, start: real)
    requires Agree(times, log, start)
    ensures Agree(Recent(times, start), log, start)
  {
    forall cutoff | cutoff >= start ensures Recent(Recent(times, start), cutoff) == Recent(log, cutoff) {
      RecentRecent(times, start, cutoff);
    }
  }

  lemma AgreeSnoc(times: seq<real>, log: seq<real>, start: real, t: real)
    requires Agree(times, log, start)
    ensures Agree(times + [t], log + [t], start)
  {
    forall cutoff | cutoff >= start ensures Recent(times + [t], cutoff) == Recent(log + [t], cutoff) {
      RecentSnoc(times, t, cutoff);
      RecentSnoc(log, t, cutoff);
    }
  }

  lemma AskKeepsMemory(w: Windows, key: string, log: seq<real>, limit: int, window: int, clock: real, now: real)
    requires Remembers(w, key, log, limit, window, clock) && clock <= now
    ensures var (w', allowed) := Asked(w, key, limit, window, now);
      var (log', expected) := NaiveStep(log, key, Ask(key, limit, window, now));
      allowed == expected && Remembers(w', key, log', limit, window, now)
  {
    hide Recent;
    var start := now - window as real;
    var times := TimesOf(w, key);
    RecentOrdered(times, start, clock);
    AgreeKept(times, log, start);
    AgreeSnoc(Recent(times, start), log, start, now);
  }

  lemma {:induction false} SweepKeepsMemory(w: Windows, key: string, log: seq<real>, limit: int, window: int,
                                            clock: real, op: Op)
    requires Remembers(w, key, log, limit, window, clock) && clock <= op.now
    requires op.Sweep? && Fits(op, key, limit, window)
    ensures Remembers(Step(w, op).0, key, log, limit, window, op.now)
  {
    var w' := Step(w, op).0;
    if key in w && Idle(w, key, op.prefix, op.window, op.now) {
      forall cutoff | cutoff >= op.now - window as real ensures Recent([], cutoff) == Recent(log, cutoff) {
        RecentNone(w[key], cutoff);
      }
    }
  }

  lemma StepKeepsMemory(w: Windows, key: string, log: seq<real>, limit: int, window: int, clock: real, op: Op)
    requires Remembers(w, key, log, limit, window, clock)
    requires clock <= op.now && Fits(op, key, limit, window)
    ensures (Concerns(op, key) && Step(w, op).1) == NaiveStep(log, key, op).1
    ensures Remembers(Step(w, op).0, key, NaiveStep(log, key, op).0, limit, window, op.now)
  {
    hide Recent, IdleKeys, Remembers;
    SameTimesRemember(w, Step(w, op).0, key, log, limit, window, clock, op.now);
    match op
    case Ask(k, _, _, now) =>
      if k == key {
        AskKeepsMemory(w, key, log, limit, window, clock, now);
      }
    case Room(k, _, _, now) =>
      if k == key {
        AskKeepsMemory(w, key, log, limit, window, clock, now);
      }
    case Sweep(_, _, _) => SweepKeepsMemory(w, key, log, limit, window, clock, op);
    case Clear(_, _) => EmptyRemembers(Step(w, op).0, key, limit, window, op.now);
  }

  /** A key whose hits stay as they are is remembered as time passes. */
  lemma SameTimesRemember(w: Windows, w': Windows, key: string, log: seq<real>, limit: int, window: int, clock: real,
                          now: real)
    requires Remembers(w, key, log, limit, window, clock) && clock <= now
    ensures TimesOf(w', key) == TimesOf(w, key) ==> Remembers(w', key, log, limit, window, now)
  {
    hide Recent;
  }

  lemma EmptyRemembers(w: Windows, key: string, limit: int, window: int, now: real)
    ensures key !in w ==> Remembers(w, key, [], limit, window, now)
  {
  }

  lemma {:induction false} RunKeepsMemory(w: Windows, key: string, log: seq<real>, limit: int, window: int,
                                          clock: real, ops: seq<Op>)
    requires Remembers(w, key, log, limit, window, clock) && Disciplined(ops, key, limit, window, clock)
    ensures Answers(w, key, ops) == NaiveAnswers(log, key, ops)
    ensures Remembers(After(w, ops), key, NaiveAfter(log, key, ops), limit, window, ClockAfter(clock, ops))
    decreases ops
  {
    if ops != [] {
      StepKeepsMemory(w, key, log, limit, window, clock, ops[0]);
      RunKeepsMemory(Step(w, ops[0]).0, key, NaiveStep(log, key, ops[0]).0, limit, window, ops[0].now, ops[1..]);
    }
  }

  /** MAIN: forgetting is invisible. Under any interleaving of calls on any
      keys, sweeps and resets, every answer about a key that keeps one limit
      and window is the answer of the history that forgets nothing. */
  lemma RefinesUnprunedHistory(key: string, limit: int, window: int, ops: seq<Op>, clock: real)
    requires Disciplined(ops, key, limit, window, clock)
    ensures Answers(map[], key, ops) == NaiveAnswers([], key, ops)
  {
    RunKeepsMemory(map[], key, [], limit, window, clock, ops);
  }

  // --------------------------------------------------------------- the sweep

  /** A run under a clock that never goes back. */
  predicate Advancing(ops: seq<Op>, clock: real)
    decreases ops
  {
    ops == [] || (clock <= ops[0].now && Advancing(ops[1..], ops[0].now))
  }

  predicate AllOrdered(w: Windows, clock: real) { forall key :: key in w ==> Ordered(w[key], clock) }

  lemma {:induction false} RunKeepsOrder(w: Windows, ops: seq<Op>, clock: real)
    requires AllOrdered(w, clock) && Advancing(ops, clock)
    ensures AllOrdered(After(w, ops), ClockAfter(clock, ops))
    decreases ops
  {
    if ops != [] {
      StepKeepsOrder(w, ops[0], clock);
      RunKeepsOrder(Step(w, ops[0]).0, ops[1..], ops[0].now);
    }
  }

  lemma StepKeepsOrder(w: Windows, op: Op, clock: real)
    requires AllOrdered(w, clock) && clock <= op.now
    ensures AllOrdered(Step(w, op).0, op.now)
  {
    hide Recent, IdleKeys;
    if op.Ask? {
      RecentOrdered(TimesOf(w, op.key), op.now - op.window as real, clock);
    }
  }

  /** MAIN: after any run, a sweep drops exactly the keys that have its prefix
      and no hit left in its window, and leaves every other as it was. */
  lemma SweepDropsExactlyTheIdle(ops: seq<Op>, clock: real, prefix: string, window: int, now: real, key: string)
    requires Advancing(ops, clock)
    ensures var w, swept := After(map[], ops), Pruned(After(map[], ops), prefix, window, now);
      && (key in swept <==>
          key in w && (prefix <= key ==> exists i :: 0 <= i < |w[key]| && w[key][i] > now - window as real))
      && (key in swept ==> swept[key] == w[key])
  {
    RunKeepsOrder(map[], ops, clock);
    var w := After(map[], ops);
    if key in w && w[key] != [] {
      assert Ordered(w[key], ClockAfter(clock, ops));
      assert w[key][|w[key]| - 1] in w[key];
    }
  }

  // --------------------------------------------------- what callers rely on

  /** Allowed calls in `(from, to]`. */
  function CallsIn(log: seq<real>, from: real, to: real): nat {
    if log == [] then 0
    else
      var last := log[|log| - 1];
      CallsIn(log[..|log| - 1], from, to) + (if from < last <= to then 1 else 0)
  }

  ghost predicate WithinLimit(log: seq<real>, limit: int, window: int) {
    forall i :: 0 <= i < |log| ==> |Recent(log[..i + 1], log[i] - window as real)| <= limit
  }

  lemma NaiveStepWithinLimit(log: seq<real>, key: string, limit: int, window: int, clock: real, op: Op)
    requires WithinLimit(log, limit, window) && Ordered(log, clock) && clock <= op.now && Fits(op, key, limit, window)
    ensures WithinLimit(NaiveStep(log, key, op).0, limit, window)
    ensures Ordered(NaiveStep(log, key, op).0, op.now)
  {
    hide Recent;
    var log' := NaiveStep(log, key, op).0;
    if |log'| > |log| {
      RecentSnoc(log, op.now, op.now - window as real);
      forall i | 0 <= i < |log'| ensures |Recent(log'[..i + 1], log'[i] - window as real)| <= limit {
        if i < |log| {
          assert log'[..i + 1] == log[..i + 1];
        } else {
          assert log'[..i + 1] == log + [op.now];
        }
      }
    }
  }

  lemma {:induction false} NaiveRunWithinLimit(log: seq<real>, key: string, limit: int, window: int, clock: real,
                                               ops: seq<Op>)
    requires WithinLimit(log, limit, window) && Ordered(log, clock) && Disciplined(ops, key, limit, window, clock)
    ensures WithinLimit(NaiveAfter(log, key, ops), limit, window)
    ensures Ordered(NaiveAfter(log, key, ops), ClockAfter(clock, ops))
    decreases ops
  {
    if ops != [] {
      NaiveStepWithinLimit(log, key, limit, window, clock, ops[0]);
      NaiveRunWithinLimit(NaiveStep(log, key, ops[0]).0, key, limit, window, ops[0].now, ops[1..]);
    }
  }

  lemma {:induction false} CallsInIsRecent(log: seq<real>, from: real, to: real)
    requires Ordered(log, to)
    ensures CallsIn(log, from, to) == |Recent(log, from)|
  {
    if log != [] {
      var init, last := log[..|log| - 1], log[|log| - 1];
      assert log == init + [last];
      CallsInIsRecent(init, from, to);
      RecentSnoc(init, last, from);
    }
  }

  lemma {:induction false} RecentShrinks(times: seq<real>, early: real, late: real)
    requires early <= late
    ensures |Recent(times, late)| <= |Recent(times, early)|
  {
    RecentRecent(times, early, late);
  }

  lemma WithinLimitInit(log: seq<real>, limit: int, window: int, clock: real)
    requires WithinLimit(log, limit, window) && Ordered(log, clock) && log != []
    ensures WithinLimit(log[..|log| - 1], limit, window) && Ordered(log[..|log| - 1], clock)
  {
    var init := log[..|log| - 1];
    forall i | 0 <= i < |init| ensures |Recent(init[..i + 1], init[i] - window as real)| <= limit {
      assert init[..i + 1] == log[..i + 1];
    }
  }

  lemma {:induction false} CallsBounded(log: seq<real>, limit: nat, window: int, from: real, clock: real)
    requires WithinLimit(log, limit, window) && Ordered(log, clock)
    ensures CallsIn(log, from, from + window as real) <= limit
  {
    hide Recent;
    if log != [] {
      var last := log[|log| - 1];
      if last <= from + window as real {
        assert log[..|log| - 1 + 1] == log;
        CallsInIsRecent(log, from, from + window as real);
        RecentShrinks(log, last - window as real, from);
      } else {
        WithinLimitInit(log, limit, window, clock);
        CallsBounded(log[..|log| - 1], limit, window, from, clock);
      }
    }
  }

  /** Whatever the run, no stretch of the window's length ever holds more
      than `limit` allowed calls of the key. */
  lemma NoWindowOverflows(key: string, limit: nat, window: int, ops: seq<Op>, clock: real, from: real)
    requires Disciplined(ops, key, limit, window, clock)
    ensures CallsIn(NaiveAfter([], key, ops), from, from + window as real) <= limit
  {
    NaiveRunWithinLimit([], key, limit, window, clock, ops);
    CallsBounded(NaiveAfter([], key, ops), limit, window, from, ClockAfter(clock, ops));
  }

  // -------------------------------------------------------------- Retry-After

  /** No call of the key is allowed, and it is not reset. */
  predicate Quiet(log: seq<real>, key: string, ops: seq<Op>)
    decreases ops
  {
    ops == [] || (NaiveStep(log, key, ops[0]).0 == log && Quiet(log, key, ops[1..]))
  }

  lemma {:induction false} QuietLeavesTheLog(log: seq<real>, key: string, ops: seq<Op>)
    requires Quiet(log, key, ops)
    ensures NaiveAfter(log, key, ops) == log
    decreases ops
  {
    if ops != [] {
      QuietLeavesTheLog(log, key, ops[1..]);
    }
  }

  /** After a refusal the next call is allowed exactly when the oldest
      remembered hit has left the window. */
  lemma RefusedUntilOldestLeaves(log: seq<real>, times: seq<real>, limit: int, window: int, clock: real, later: real)
    requires Ordered(times, clock) && clock <= later
    requires times == Recent(log, clock - window as real) && |times| == limit && limit >= 1
    ensures |Recent(log, later - window as real)| < limit <==> later >= times[0] + window as real
  {
    var cutoff := later - window as real;
    RecentRecent(log, clock - window as real, cutoff);
    assert Recent(log, cutoff) == Recent(times, cutoff);
    if later < times[0] + window as real {
      RecentAll(times, cutoff);
    }
  }

  /** `retry_after_s` at any time: the least whole number of seconds, one at
      least, after which the oldest remembered hit is out of the window, and 0
      if no hit is remembered. */
  lemma RetryAfterIsLeast(w: Windows, key: string, window: int, now: real, n: int)
    ensures TimesOf(w, key) == [] ==> RetryAfter(w, key, window, now) == 0
    ensures TimesOf(w, key) != [] ==>
      (n >= RetryAfter(w, key, window, now) <==>
       n >= 1 && now + n as real >= TimesOf(w, key)[0] + window as real)
  {
  }

  /** `retry_after_s` after a refusal. With a limit of at least one, waiting
      that long (whatever else happens meanwhile, short of an allowed call)
      makes the next call allowed, and no wait shorter by a second or more
      does: the answer is the least whole number of seconds, one at least.
      With a limit of zero or less it answers 0 and no wait helps. */
  lemma RetryAfterSoundAndTight(w: Windows, key: string, log: seq<real>, limit: int, window: int, clock: real,
                                now: real, ops: seq<Op>, later: real)
    requires Remembers(w, key, log, limit, window, clock) && clock <= now
    requires !Asked(w, key, limit, window, now).1
    requires Disciplined(ops, key, limit, window, now) && Quiet(log, key, ops) && ClockAfter(now, ops) <= later
    ensures var refused := Asked(w, key, limit, window, now).0;
      var seconds := RetryAfter(refused, key, window, now);
      var allowed := Asked(After(refused, ops), key, limit, window, later).1;
      if limit >= 1 then
        && seconds >= 1 && TimesOf(refused, key) != []
        && (later >= now + seconds as real ==> allowed)
        && (seconds > 1 && later <= now + (seconds - 1) as real ==> !allowed)
        && (allowed <==> later >= TimesOf(refused, key)[0] + window as real)
      else
        seconds == 0 && !allowed
  {
    var refused := Asked(w, key, limit, window, now).0;
    AskKeepsMemory(w, key, log, limit, window, clock, now);
    RunKeepsMemory(refused, key, log, limit, window, now, ops);
    QuietLeavesTheLog(log, key, ops);
    AskKeepsMemory(After(refused, ops), key, log, limit, window, ClockAfter(now, ops), later);
    var times := TimesOf(refused, key);
    RecentOrdered(TimesOf(w, key), now - window as real, clock);
    if limit >= 1 {
      assert times == Recent(log, now - window as real);
      assert ClockAfter(now, ops) >= now by { ClockAdvances(ops, key, limit, window, now); }
      RefusedUntilOldestLeaves(log, times, limit, window, now, later);
    }
  }

  lemma {:induction false} ClockAdvances(ops: seq<Op>, key: string, limit: int, window: int, clock: real)
    requires Disciplined(ops, key, limit, window, clock)
    ensures clock <= ClockAfter(clock, ops)
    decreases ops
  {
    if ops != [] {
      ClockAdvances(ops[1..], key, limit, window, ops[0].now);
    }
  }
}
