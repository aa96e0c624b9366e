/** The rate-limit middleware over one shared limiter: which rule a request
    falls under, which bucket it charges, and the sweep of per-client buckets
    that rides along. */
module RateLimitMiddleware {
  import opened Octets
  import opened RateLimiter
  import opened Texts

  datatype Rule = Rule(pattern: string, limit: int, window: int)

  const SIGNED_URL_PRINCIPAL := "__signed_url__"

  /** `per_client_prefix`. */
  const PER_CLIENT_PREFIX := SIGNED_URL_PRINCIPAL + "@"

  predicate DistinctPatterns(rules: seq<Rule>) {
    forall i, j :: 0 <= i < j < |rules| ==> rules[i].pattern != rules[j].pattern
  }

  predicate IsLiteralPrefix(rule: Rule, path: string) { '*' !in rule.pattern && rule.pattern <= path }

  predicate IsWildMatch(fnmatch: (string, string) -> bool, rule: Rule, path: string) {
    '*' in rule.pattern && fnmatch(path, rule.pattern)
  }

  /** `_pick_path`. The first wildcard rule that matches the whole path wins;
      else the longest literal prefix, wherever it stands in the list; else
      no rule. `fnmatch` is a parameter. */
  method PickPath(fnmatch: (string, string) -> bool, rules: seq<Rule>, path: string) returns (picked: Option<Rule>)
    ensures picked.Some? ==> picked.value in rules
    ensures forall i :: (0 <= i < |rules| && '*' in rules[i].pattern && fnmatch(path, rules[i].pattern)
                         && (forall j :: 0 <= j < i ==> !('*' in rules[j].pattern && fnmatch(path, rules[j].pattern)))
                         ==> picked == Some(rules[i]))
    ensures (forall i :: 0 <= i < |rules| ==> !('*' in rules[i].pattern && fnmatch(path, rules[i].pattern))) ==>
      match picked
      case None => forall i, rest :: 0 <= i < |rules| && '*' !in rules[i].pattern ==> rules[i].pattern + rest != path
      case Some(best) =>
        && '*' !in best.pattern && |best.pattern| <= |path| && best.pattern == path[..|best.pattern|]
        && forall i, rest :: 0 <= i < |rules| && '*' !in rules[i].pattern && rules[i].pattern + rest == path ==>
           |rules[i].pattern| <= |best.pattern|
  {
    var i := 0;
    while i < |rules|
      invariant 0 <= i <= |rules|
      invariant forall j :: 0 <= j < i ==> !IsWildMatch(fnmatch, rules[j], path)
    {
      if IsWildMatch(fnmatch, rules[i], path) {
        return Some(rules[i]);
      }
      i := i + 1;
    }
    var best: Option<Rule> := None;
    i := 0;
    while i < |rules|
      invariant 0 <= i <= |rules|
      invariant match best
        case None => forall j :: 0 <= j < i ==> !IsLiteralPrefix(rules[j], path)
        case Some(b) =>
          b in rules && IsLiteralPrefix(b, path)
          && forall j :: 0 <= j < i && IsLiteralPrefix(rules[j], path) ==> |rules[j].pattern| <= |b.pattern|
    {
      if IsLiteralPrefix(rules[i], path) && (best.None? || |rules[i].pattern| > |best.value.pattern|) {
        best := Some(rules[i]);
      }
      i := i + 1;
    }
    return best;
  }

  /** Which literal rule wins does not depend on the order they are listed
      in: two literal prefixes of one path with the same length are the same
      pattern. */
  lemma LongestPrefixUnique(rules: seq<Rule>, path: string, a: Rule, b: Rule)
    requires DistinctPatterns(rules) && a in rules && b in rules
    requires IsLiteralPrefix(a, path) && IsLiteralPrefix(b, path) && |a.pattern| == |b.pattern|
    ensures a == b
  {
    assert a.pattern == path[..|a.pattern|] == b.pattern;
  }

  // ---------------------------------------------------------------- requests

  /** `limits` (each rule by its pattern), the rules bucketed per client, and
      the default. */
  datatype Config = Config(rules: seq<Rule>, perClient: seq<Rule>, defaultLimit: int, defaultWindow: int)

  /** A request after the rule was picked, of an authenticated user or none.
      `client` is `client_bucket`'s text. */
  datatype Request = Request(user: Option<string>, rule: Option<Rule>, client: string, path: string, now: real)

  /** `max(window of the per-client rules, default=0)`. */
  function SweepWindow(rules: seq<Rule>): (w: int)
    ensures forall i :: 0 <= i < |rules| ==> rules[i].window <= w
    ensures rules != [] ==> exists i :: 0 <= i < |rules| && rules[i].window == w
  {
    if rules == [] then 0
    else if |rules| == 1 then rules[0].window
    else
      var rest := SweepWindow(rules[1..]);
      if rules[0].window > rest then rules[0].window else rest
  }

  predicate PerClient(cfg: Config, r: Request) {
    r.rule.Some? && r.user == Some(SIGNED_URL_PRINCIPAL) && r.rule.value in cfg.perClient
  }

  function Owner(cfg: Config, r: Request): string
    requires r.user.Some?
  {
    if PerClient(cfg, r) then PER_CLIENT_PREFIX + r.client else r.user.value
  }

  function RuleKey(owner: string, rule: Rule): string { owner + ":rule:" + rule.pattern }

  predicate SweepsNow(cfg: Config, lastSweep: real, r: Request) {
    PerClient(cfg, r) && r.now - lastSweep >= SweepWindow(cfg.perClient) as real
  }

  /** What one request does to the limiter: nothing without a user. */
  function OpsOf(cfg: Config, lastSweep: real, r: Request): seq<Op> {
    if r.user.None? then []
    else
      (if SweepsNow(cfg, lastSweep, r) then [Sweep(PER_CLIENT_PREFIX, SweepWindow(cfg.perClient), r.now)] else [])
      + match r.rule
        case Some(rule) => [Ask(RuleKey(Owner(cfg, r), rule), rule.limit, rule.window, r.now)]
        case None => [Ask(Bucket(r.user.value, r.path), cfg.defaultLimit, cfg.defaultWindow, r.now)]
  }

  function SweptAt(cfg: Config, lastSweep: real, r: Request): real {
    if SweepsNow(cfg, lastSweep, r) then r.now else lastSweep
  }

  /** What the request is told: whether its one charge was allowed, and yes if
      there was none. */
  predicate Answer(cfg: Config, lastSweep: real, w: Windows, r: Request) {
    var ops := OpsOf(cfg, lastSweep, r);
    ops == [] || Step(After(w, ops[..|ops| - 1]), ops[|ops| - 1]).1
  }

  /** The answers to requests one after another. */
  function Answered(cfg: Config, lastSweep: real, w: Windows, rs: seq<Request>): (ds: seq<bool>)
    ensures |ds| == |rs|
    decreases rs
  {
    if rs == [] then []
    else
      var rest := Answered(cfg, SweptAt(cfg, lastSweep, rs[0]), After(w, OpsOf(cfg, lastSweep, rs[0])), rs[1..]);
      [Answer(cfg, lastSweep, w, rs[0])] + rest
  }

  /** A run of one operation, or of two. */
  lemma AfterFew(w: Windows, ops: seq<Op>)
    requires 1 <= |ops| <= 2
    ensures var before := if |ops| == 2 then Step(w, ops[0]).0 else w;
      After(w, ops[..|ops| - 1]) == before && After(w, ops) == Step(before, ops[|ops| - 1]).0
  {
    hide Step;
    if |ops| == 2 {
      assert ops[..1] == [ops[0]] && ops[1..] == [ops[1]];
      AfterOne(w, ops[0]);
      AfterOne(Step(w, ops[0]).0, ops[1]);
    } else {
      assert ops == [ops[0]] && ops[..0] == [];
      AfterOne(w, ops[0]);
    }
  }

  lemma AfterOne(w: Windows, op: Op)
    ensures After(w, [op]) == Step(w, op).0
  {
    assert [op][1..] == [];
  }

  /** The charge is made after the sweep, if there is one. */
  lemma AnswerOfOps(cfg: Config, lastSweep: real, w: Windows, r: Request)
    requires r.user.Some?
    ensures var w' := if SweepsNow(cfg, lastSweep, r)
                      then Pruned(w, PER_CLIENT_PREFIX, SweepWindow(cfg.perClient), r.now) else w;
      var op := match r.rule
        case Some(rule) => Ask(RuleKey(Owner(cfg, r), rule), rule.limit, rule.window, r.now)
        case None => Ask(Bucket(r.user.value, r.path), cfg.defaultLimit, cfg.defaultWindow, r.now);
      && After(w, OpsOf(cfg, lastSweep, r)) == Step(w', op).0 && Answer(cfg, lastSweep, w, r) == Step(w', op).1
      && OpsOf(cfg, lastSweep, r) != [] && OpsOf(cfg, lastSweep, r)[|OpsOf(cfg, lastSweep, r)| - 1] == op
  {
    hide Asked, Pruned, SweepWindow, Bucket, After, PerClient, Owner, RuleKey;
    AfterFew(w, OpsOf(cfg, lastSweep, r));
  }

  class Middleware {
    const cfg: Config
    const limiter: RateLimiter
    var lastSweep: real

    constructor (cfg: Config, limiter: RateLimiter, now: real)
      ensures this.cfg == cfg && this.limiter == limiter && lastSweep == now
    {
      this.cfg, this.limiter, lastSweep := cfg, limiter, now;
    }

    /** The middleware body. A request without a user is let through and
        charges nothing; authentication turns it away elsewhere. */
    method Admit(r: Request) returns (allowed: bool)
      modifies this, limiter
      ensures limiter.windows == After(old(limiter.windows), OpsOf(cfg, old(lastSweep), r))
      ensures lastSweep == SweptAt(cfg, old(lastSweep), r)
      ensures allowed == Answer(cfg, old(lastSweep), old(limiter.windows), r)
    {
      if r.user.None? {
        return true;
      }
      hide Asked, Pruned, SweepWindow, Bucket, Answer, OpsOf;
      AnswerOfOps(cfg, lastSweep, limiter.windows, r);
      var userId := r.user.value;
      match r.rule
      case Some(rule) =>
        var owner := userId;
        if userId == SIGNED_URL_PRINCIPAL && rule in cfg.perClient {
          owner := PER_CLIENT_PREFIX + r.client;
          if r.now - lastSweep >= SweepWindow(cfg.perClient) as real {
            lastSweep := r.now;
            limiter.Prune(SweepWindow(cfg.perClient), PER_CLIENT_PREFIX, r.now);
          }
        }
        allowed := limiter.IsAllowed(RuleKey(owner, rule), rule.limit, rule.window, r.now);
      case None =>
        allowed := limiter.Check(userId, r.path, cfg.defaultLimit, cfg.defaultWindow, r.now);
    }
  }

  /** MAIN: which requests are counted together. Under one rule those of one
      user; those of a per-client rule and the signed-URL principal by client
      instead, so no client uses up another's. */
  lemma CountedTogether(cfg: Config, lastSweep1: real, r1: Request, lastSweep2: real, r2: Request)
    requires r1.rule.Some? && r1.rule == r2.rule && r1.user.Some? && r2.user.Some?
    ensures var ops1, ops2 := OpsOf(cfg, lastSweep1, r1), OpsOf(cfg, lastSweep2, r2);
      && |ops1| > 0 && |ops2| > 0 && ops1[|ops1| - 1].Ask? && ops2[|ops2| - 1].Ask?
      && (r1.user == r2.user ==>
          (ops1[|ops1| - 1].key == ops2[|ops2| - 1].key <==>
           (r1.user.value == "__signed_url__" && r1.rule.value in cfg.perClient ==> r1.client == r2.client)))
      && (r1.user != r2.user && Plausible(cfg, r1) && Plausible(cfg, r2) ==>
          ops1[|ops1| - 1].key != ops2[|ops2| - 1].key)
  {
    var o1, o2, tail := Owner(cfg, r1), Owner(cfg, r2), ":rule:" + r1.rule.value.pattern;
    assert (o1 + tail)[..|o1 + tail| - |tail|] == o1 && (o2 + tail)[..|o2 + tail| - |tail|] == o2;
    assert RuleKey(o1, r1.rule.value) == o1 + tail && RuleKey(o2, r1.rule.value) == o2 + tail;
    assert (PER_CLIENT_PREFIX + r1.client)[|PER_CLIENT_PREFIX|..] == r1.client;
    assert (PER_CLIENT_PREFIX + r2.client)[|PER_CLIENT_PREFIX|..] == r2.client;
  }

  // --------------------------------------------------------------- the sweep

  /** A bucket key has the swept prefix exactly when its owner has it: the
      prefix has no colon, so it never reaches past an owner's end. */
  lemma SweptKeysAreOwned(owner: string, tail: string)
    ensures PER_CLIENT_PREFIX <= owner + ":" + tail <==> PER_CLIENT_PREFIX <= owner
  {
    if PER_CLIENT_PREFIX <= owner + ":" + tail && |owner| < |PER_CLIENT_PREFIX| {
      ReachesColon(PER_CLIENT_PREFIX, owner, tail);
    }
  }

  lemma ReachesColon(prefix: string, owner: string, tail: string)
    requires prefix <= owner + ":" + tail && |owner| < |prefix|
    ensures ':' in prefix
  {
    assert prefix[|owner|] == (owner + ":" + tail)[|owner|] == ':';
  }

  /** Owner and rule are readable off a key whose rule pattern has no colon. */
  lemma RuleKeyInjective(o1: string, r1: Rule, o2: string, r2: Rule)
    requires ':' !in r1.pattern && ':' !in r2.pattern
    requires RuleKey(o1, r1) == RuleKey(o2, r2)
    ensures o1 == o2 && r1.pattern == r2.pattern
  {
    assert RuleKey(o1, r1) == o1 + ":rule" + ":" + r1.pattern;
    assert RuleKey(o2, r2) == o2 + ":rule" + ":" + r2.pattern;
    SplitAtLast(':', o1 + ":rule", r1.pattern, o2 + ":rule", r2.pattern);
    assert o1 == (o1 + ":rule")[..|o1|] && o2 == (o2 + ":rule")[..|o2|];
  }

  /** Requests as the application makes them: rules come from the configured
      ones, household user ids do not look like per-client owners, and a rule
      pattern has no colon (it is a method list and a path). */
  predicate Plausible(cfg: Config, r: Request) {
    && (r.user.Some? ==> !(PER_CLIENT_PREFIX <= r.user.value))
    && (r.rule.Some? ==> r.rule.value in cfg.rules && ':' !in r.rule.value.pattern)
  }

  predicate Arriving(cfg: Config, rs: seq<Request>, clock: real)
    decreases rs
  {
    rs == [] || (clock <= rs[0].now && Plausible(cfg, rs[0]) && Arriving(cfg, rs[1..], rs[0].now))
  }

  /** Every operation a request makes fits the bucket of a per-client rule. */
  lemma {:induction false} RequestFits(cfg: Config, lastSweep: real, r: Request, client: string, rule: Rule)
    requires DistinctPatterns(cfg.rules) && Plausible(cfg, r)
    requires rule in cfg.perClient && rule in cfg.rules && ':' !in rule.pattern
    ensures forall i :: 0 <= i < |OpsOf(cfg, lastSweep, r)| ==>
      var op := OpsOf(cfg, lastSweep, r)[i];
      op.now == r.now && Fits(op, RuleKey(PER_CLIENT_PREFIX + client, rule), rule.limit, rule.window)
  {
    var key := RuleKey(PER_CLIENT_PREFIX + client, rule);
    if r.user.Some? {
      match r.rule
      case Some(other) =>
        if RuleKey(Owner(cfg, r), other) == key {
          RuleKeyInjective(Owner(cfg, r), other, PER_CLIENT_PREFIX + client, rule);
        }
      case None =>
        var tail := FirstSegments(StripSlashes(r.path), 2);
        SweptKeysAreOwned(r.user.value, tail);
        assert PER_CLIENT_PREFIX <= key;
    }
  }

  /** A request that is counted for this client under this per-client rule. */
  predicate CountsFor(r: Request, client: string, rule: Rule) {
    r.user == Some("__signed_url__") && r.rule == Some(rule) && r.client == client
  }

  /** When the counted ones among some requests were let through. */
  function LetThrough(rs: seq<Request>, ds: seq<bool>, client: string, rule: Rule): seq<real>
    requires |rs| == |ds|
    decreases rs
  {
    if rs == [] then []
    else
      var rest := LetThrough(rs[1..], ds[1..], client, rule);
      if CountsFor(rs[0], client, rule) && ds[0] then [rs[0].now] + rest else rest
  }

  /** The request's charge goes to the client's bucket exactly when it counts
      for the client. */
  lemma ChargesItsClient(cfg: Config, lastSweep: real, r: Request, client: string, rule: Rule)
    requires DistinctPatterns(cfg.rules) && Plausible(cfg, r)
    requires rule in cfg.perClient && rule in cfg.rules && ':' !in rule.pattern
    ensures CountsFor(r, client, rule) <==>
      OpsOf(cfg, lastSweep, r) != []
      && var op := OpsOf(cfg, lastSweep, r)[|OpsOf(cfg, lastSweep, r)| - 1];
         op.Ask? && op.key == RuleKey(PER_CLIENT_PREFIX + client, rule)
  {
    var key := RuleKey(PER_CLIENT_PREFIX + client, rule);
    if r.user.Some? {
      match r.rule
      case Some(other) =>
        if RuleKey(Owner(cfg, r), other) == key {
          RuleKeyInjective(Owner(cfg, r), other, PER_CLIENT_PREFIX + client, rule);
          assert PER_CLIENT_PREFIX <= Owner(cfg, r);
          assert r.client == (PER_CLIENT_PREFIX + r.client)[|PER_CLIENT_PREFIX|..];
          assert client == (PER_CLIENT_PREFIX + client)[|PER_CLIENT_PREFIX|..];
        }
      case None =>
        SweptKeysAreOwned(r.user.value, FirstSegments(StripSlashes(r.path), 2));
        assert PER_CLIENT_PREFIX <= key;
    }
  }

  /** One request, as the client's bucket sees it. */
  lemma {:induction false} RequestKeepsMemory(cfg: Config, lastSweep: real, w: Windows, log: seq<real>, r: Request,
                                              client: string, rule: Rule, clock: real)
    requires DistinctPatterns(cfg.rules) && Plausible(cfg, r) && clock <= r.now
    requires rule in cfg.perClient && rule in cfg.rules && ':' !in rule.pattern
    requires Remembers(w, RuleKey(PER_CLIENT_PREFIX + client, rule), log, rule.limit, rule.window, clock)
    ensures CountsFor(r, client, rule) ==>
      (Answer(cfg, lastSweep, w, r) <==> |Recent(log, r.now - rule.window as real)| < rule.limit)
    ensures Remembers(After(w, OpsOf(cfg, lastSweep, r)), RuleKey(PER_CLIENT_PREFIX + client, rule),
                      log + LetThrough([r], [Answer(cfg, lastSweep, w, r)], client, rule),
                      rule.limit, rule.window, r.now)
  {
    hide Remembers, Bucket, RuleKey, Recent, SweepWindow, Asked, IdleKeys, Answer, Owner, PerClient, Plausible,
      DistinctPatterns, Fits;
    var key, ops := RuleKey(PER_CLIENT_PREFIX + client, rule), OpsOf(cfg, lastSweep, r);
    RequestFits(cfg, lastSweep, r, client, rule);
    ChargesItsClient(cfg, lastSweep, r, client, rule);
    var answer := Answer(cfg, lastSweep, w, r);
    assert [r][1..] == [] && [answer][1..] == [] && [r.now] + [] == [r.now] && log + [] == log;
    assert LetThrough([r], [answer], client, rule) == if CountsFor(r, client, rule) && answer then [r.now] else [];
    if r.user.None? {
      SameTimesRemember(w, w, key, log, rule.limit, rule.window, clock, r.now);
    } else {
      AnswerOfOps(cfg, lastSweep, w, r);
      SameTimesRemember(w, w, key, log, rule.limit, rule.window, clock, r.now);
      var w' := if |ops| == 2 then Step(w, ops[0]).0 else w;
      if |ops| == 2 {
        StepKeepsMemory(w, key, log, rule.limit, rule.window, clock, ops[0]);
      }
      StepKeepsMemory(w', key, log, rule.limit, rule.window, r.now, ops[|ops| - 1]);
    }
  }

  lemma Regrouped(a: seq<real>, b: seq<real>, c: seq<real>)
    ensures a + b + c == a + (b + c)
  {
  }

  lemma LetThroughFirst(rs: seq<Request>, ds: seq<bool>, client: string, rule: Rule, i: nat)
    requires |rs| == |ds| && 0 < i <= |rs|
    ensures LetThrough(rs[..i], ds[..i], client, rule)
      == LetThrough([rs[0]], [ds[0]], client, rule) + LetThrough(rs[1..][..i - 1], ds[1..][..i - 1], client, rule)
  {
    assert rs[..i][1..] == rs[1..][..i - 1] && ds[..i][1..] == ds[1..][..i - 1];
    assert [rs[0]][1..] == [] && [ds[0]][1..] == [];
  }

  lemma {:induction false} AnswersFollowTheLog(cfg: Config, lastSweep: real, w: Windows, log: seq<real>,
                                               rs: seq<Request>, client: string, rule: Rule, clock: real, i: nat)
    requires DistinctPatterns(cfg.rules) && Arriving(cfg, rs, clock) && i < |rs| && CountsFor(rs[i], client, rule)
    requires rule in cfg.perClient && rule in cfg.rules && ':' !in rule.pattern
    requires Remembers(w, RuleKey(PER_CLIENT_PREFIX + client, rule), log, rule.limit, rule.window, clock)
    ensures var ds := Answered(cfg, lastSweep, w, rs);
      ds[i] <==>
      |Recent(log + LetThrough(rs[..i], ds[..i], client, rule), rs[i].now - rule.window as real)| < rule.limit
    decreases rs
  {
    hide Remembers, Recent, OpsOf, Answer, RuleKey, CountsFor, SweptAt, Plausible, DistinctPatterns, After;
    RequestKeepsMemory(cfg, lastSweep, w, log, rs[0], client, rule, clock);
    var ds, first := Answered(cfg, lastSweep, w, rs),
      LetThrough([rs[0]], [Answer(cfg, lastSweep, w, rs[0])], client, rule);
    if i == 0 {
      assert rs[..0] == [] && ds[..0] == [] && log + [] == log;
    } else {
      AnswersFollowTheLog(cfg, SweptAt(cfg, lastSweep, rs[0]), After(w, OpsOf(cfg, lastSweep, rs[0])), log + first,
                          rs[1..], client, rule, rs[0].now, i - 1);
      LetThroughFirst(rs, ds, client, rule, i);
      Regrouped(log, first, LetThrough(rs[1..][..i - 1], ds[1..][..i - 1], client, rule));
    }
  }

  /** MAIN: with the sweep running beside it, and any requests by anybody, a
      per-client rule lets a client's request through exactly when fewer than
      its limit of that client's were let through in the window before. */
  lemma SweepingIsInvisible(cfg: Config, started: real, rs: seq<Request>, client: string, rule: Rule, i: nat)
    requires DistinctPatterns(cfg.rules) && Arriving(cfg, rs, started) && i < |rs| && CountsFor(rs[i], client, rule)
    requires rule in cfg.perClient && rule in cfg.rules && ':' !in rule.pattern
    ensures var ds := Answered(cfg, started, map[], rs);
      ds[i] <==> |Recent(LetThrough(rs[..i], ds[..i], client, rule), rs[i].now - rule.window as real)| < rule.limit
  {
    hide Recent;
    EmptyRemembers(map[], RuleKey(PER_CLIENT_PREFIX + client, rule), rule.limit, rule.window, started);
    AnswersFollowTheLog(cfg, started, map[], [], rs, client, rule, started, i);
    var before := LetThrough(rs[..i], Answered(cfg, started, map[], rs)[..i], client, rule);
    assert [] + before == before;
  }

  /** Which requests sweep: the per-client ones that come when every per-client
      rule's window has passed since the last sweep. What they sweep with is
      the longest of these windows. */
  lemma WhoSweeps(cfg: Config, lastSweep: real, r: Request)
    ensures (exists k :: 0 <= k < |OpsOf(cfg, lastSweep, r)| && OpsOf(cfg, lastSweep, r)[k].Sweep?) <==>
      && r.user == Some("__signed_url__") && r.rule.Some? && r.rule.value in cfg.perClient
      && forall i :: 0 <= i < |cfg.perClient| ==> r.now >= lastSweep + cfg.perClient[i].window as real
    ensures forall k :: 0 <= k < |OpsOf(cfg, lastSweep, r)| && OpsOf(cfg, lastSweep, r)[k].Sweep? ==>
      && OpsOf(cfg, lastSweep, r)[k].prefix == "__signed_url__@" && SweptAt(cfg, lastSweep, r) == r.now
      && (forall i :: 0 <= i < |cfg.perClient| ==> cfg.perClient[i].window <= OpsOf(cfg, lastSweep, r)[k].window)
      && exists i :: 0 <= i < |cfg.perClient| && cfg.perClient[i].window == OpsOf(cfg, lastSweep, r)[k].window
  {
    hide SweepWindow;
    if SweepsNow(cfg, lastSweep, r) {
      assert OpsOf(cfg, lastSweep, r)[0].Sweep?;
    }
  }
}
