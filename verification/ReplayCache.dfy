/** The replay cache of the inbound pipeline: a pruned memory of message ids
    that a restart rebuilds from a table of rows, and the timestamp gate in
    front of it. Instants and durations are whole microseconds. */
module ReplayCache {
  import opened Octets

  /** A datetime, with or without a time zone; a naive one means UTC. */
  datatype Stamp = Stamp(micros: int, aware: bool)

  type Memory = map<string, Stamp>

  /** A persisted `(msg_id, received_at)` row; `None` where the text does not
      parse. */
  datatype Row = Row(id: string, receivedAt: Option<Stamp>)

  /** The ids dated before a cutoff. */
  function Stale(dated: Memory, cutoff: int): set<string> { set id | id in dated && dated[id].micros < cutoff }

  function Pruned(seen: Memory, window: int, now: int): Memory {
    seen - Stale(seen, now - window)
  }

  function Checked(seen: Memory, window: int, id: string, now: int): (Memory, bool) {
    var kept := Pruned(seen, window, now);
    if id in kept then (kept, true) else (kept[id := Stamp(now, true)], false)
  }

  function Loaded(seen: Memory, rows: seq<Row>): Memory
    decreases rows
  {
    if rows == [] then seen
    else match rows[0].receivedAt
      case None => Loaded(seen, rows[1..])
      case Some(at) => Loaded(seen[rows[0].id := at], rows[1..])
  }

  class ReplayCache {
    const window: int
    var seen: Memory

    constructor (window: int)
      ensures this.window == window && seen == map[]
    {
      this.window := window;
      seen := map[];
    }

    method Prune(now: int)
      modifies this`seen
      ensures seen == Pruned(old(seen), window, now)
    {
      var stale := Stale(seen, now - window);
      var left := stale;
      while left != {}
        invariant left <= stale
        invariant seen == old(seen) - (stale - left)
        decreases |left|
      {
        var id :| id in left;
        seen := seen - {id};
        left := left - {id};
      }
    }

    method Seen(id: string, now: int) returns (replay: bool)
      modifies this`seen
      ensures (seen, replay) == Checked(old(seen), window, id, now)
    {
      Prune(now);
      if id in seen {
        return true;
      }
      seen := seen[id := Stamp(now, true)];
      return false;
    }

    method Load(rows: seq<Row>)
      modifies this`seen
      ensures seen == Loaded(old(seen), rows)
    {
      var i := 0;
      while i < |rows|
        invariant 0 <= i <= |rows|
        invariant Loaded(old(seen), rows) == Loaded(seen, rows[i..])
      {
        assert rows[i..][1..] == rows[i + 1..];
        if rows[i].receivedAt.Some? {
          seen := seen[rows[i].id := rows[i].receivedAt.value];
        }
        i := i + 1;
      }
    }
  }

  // ------------------------------------------------------------------- the table

  /** `federation_replay_cache`: when the row of an id was written. */
  type Store = map<string, Stamp>

  const SECOND := 1_000_000

  /** SQLite's `datetime('now')` keeps whole seconds. */
  function Floor(t: int): int { t - t % SECOND }

  lemma FloorIsClose(t: int)
    ensures t - SECOND < Floor(t) <= t && (t == 0 ==> Floor(t) == 0)
  {
  }

  /** `INSERT OR IGNORE`: a row that is there stays as it is. */
  function Inserted(store: Store, id: string, at: int): Store {
    if id in store then store else store[id := Stamp(at, false)]
  }

  /** `prune_replay_cache`. */
  function StoreTidied(store: Store, cutoff: int): Store { store - Stale(store, cutoff) }

  /** What `load` makes of the rows `load_replay_cache` selects. */
  function Warmed(store: Store, since: int): Memory { store - Stale(store, since + 1) }

  predicate HasRow(rows: seq<Row>, id: string) { exists i :: 0 <= i < |rows| && rows[i].id == id }

  /** The selected rows, in whatever order. */
  ghost predicate Selected(rows: seq<Row>, store: Store, since: int) {
    && (forall i :: 0 <= i < |rows| ==>
        rows[i].id in store && store[rows[i].id].micros > since && rows[i].receivedAt == Some(store[rows[i].id]))
    && forall id :: id in store && store[id].micros > since ==> HasRow(rows, id)
  }

  lemma {:induction false} LoadedRows(seen: Memory, rows: seq<Row>, m: Memory, id: string)
    requires forall i :: 0 <= i < |rows| ==> rows[i].id in m && rows[i].receivedAt == Some(m[rows[i].id])
    ensures id in Loaded(seen, rows) <==> id in seen || HasRow(rows, id)
    ensures HasRow(rows, id) ==> id in m
    ensures id in Loaded(seen, rows) ==> Loaded(seen, rows)[id] == if HasRow(rows, id) then m[id] else seen[id]
    decreases rows
  {
    if rows != [] {
      LoadedRows(seen[rows[0].id := m[rows[0].id]], rows[1..], m, id);
    }
  }

  /** A fresh cache that loads the selected rows, in whatever order they come,
      holds what `Warmed` says. */
  lemma WarmingLoadsTheTable(rows: seq<Row>, store: Store, since: int)
    requires Selected(rows, store, since)
    ensures Loaded(map[], rows) == Warmed(store, since)
  {
    forall id ensures id in Loaded(map[], rows) <==> id in Warmed(store, since)
      ensures id in Loaded(map[], rows) ==> Loaded(map[], rows)[id] == Warmed(store, since)[id]
    {
      LoadedRows(map[], rows, Warmed(store, since), id);
    }
  }

  // ------------------------------------------------------------------------ runs

  /** A message the cache let pass: its id, its own timestamp, when, and
      whether the rest of the pipeline accepted it and so wrote its row. */
  datatype Passed = Passed(id: string, stamp: int, at: int, kept: bool)

  /** The timestamp gate takes stamps from `past` before now to `future`
      after. */
  datatype Policy = Policy(window: int, past: int, future: int)

  predicate Sound(p: Policy) { p.window >= 0 && p.past >= 0 && p.future >= 0 }

  /** What is in memory, what is in the table, and the passes either knows
      of: a restart forgets those that wrote no row. */
  datatype State = State(seen: Memory, store: Store, log: seq<Passed>)

  const START := State(map[], map[], [])

  datatype Event =
    | Arrive(id: string, stamp: int, now: int, kept: bool)
    | Tidy(now: int)
    | TidyStore(now: int)
    | Restart(now: int)

  predicate GateOpen(p: Policy, stamp: int, now: int) {
    now - p.past <= stamp <= now + p.future
  }

  /** The passes that wrote a row: the accepted messages. */
  function Kept(log: seq<Passed>): seq<Passed> {
    if log == [] then []
    else Kept(log[..|log| - 1]) + if log[|log| - 1].kept then [log[|log| - 1]] else []
  }

  function Step(p: Policy, s: State, e: Event): State
    requires Sound(p)
  {
    match e
    case Arrive(id, stamp, now, kept) =>
      if !GateOpen(p, stamp, now) then s
      else
        var (seen, replay) := Checked(s.seen, p.window, id, now);
        if replay then s.(seen := seen)
        else State(seen, if kept then Inserted(s.store, id, Floor(now)) else s.store,
                   s.log + [Passed(id, stamp, now, kept)])
    case Tidy(now) => s.(seen := Pruned(s.seen, p.window, now))
    case TidyStore(now) => s.(store := StoreTidied(s.store, Floor(now - p.window)))
    case Restart(now) => State(Warmed(s.store, Floor(now) - p.window), s.store, Kept(s.log))
  }

  function Run(p: Policy, s: State, es: seq<Event>): State
    requires Sound(p)
    decreases es
  {
    if es == [] then s else Run(p, Step(p, s, es[0]), es[1..])
  }

  /** The last pass of an id, however long ago. */
  function LastPass(log: seq<Passed>, id: string): Option<Passed> {
    if log == [] then None
    else if log[|log| - 1].id == id then Some(log[|log| - 1]) else LastPass(log[..|log| - 1], id)
  }

  predicate PassedSince(log: seq<Passed>, id: string, since: int) {
    LastPass(log, id).Some? && LastPass(log, id).value.at >= since
  }

  /** The memory that is never pruned, whose table never tires: a replay is an
      id that last passed no more than the window ago. */
  function NaiveStep(p: Policy, log: seq<Passed>, e: Event): seq<Passed> {
    match e
    case Arrive(id, stamp, now, kept) =>
      if !GateOpen(p, stamp, now) || PassedSince(log, id, now - p.window) then log
        else log + [Passed(id, stamp, now, kept)]
    case Restart(_) => Kept(log)
    case _ => log
  }

  function NaiveRun(p: Policy, log: seq<Passed>, es: seq<Event>): seq<Passed>
    decreases es
  {
    if es == [] then log else NaiveRun(p, NaiveStep(p, log, es[0]), es[1..])
  }

  /** Clocks do not go back. */
  predicate InOrder(es: seq<Event>, clock: int)
    decreases es
  {
    es == [] || (clock <= es[0].now && InOrder(es[1..], es[0].now))
  }

  /** `e` is let pass and accepted. */
  predicate Accepts(p: Policy, s: State, e: Event) {
    e.Arrive? && e.kept && GateOpen(p, e.stamp, e.now) && !Checked(s.seen, p.window, e.id, e.now).1
  }

  /** What is accepted finds no row of its id in the table, so the insertion
      is not ignored. */
  predicate FindsNoRow(p: Policy, s: State, e: Event) { Accepts(p, s, e) ==> e.id !in s.store }

  predicate AllFindNoRow(p: Policy, s: State, es: seq<Event>)
    requires Sound(p)
    decreases es
  {
    es == [] || (FindsNoRow(p, s, es[0]) && AllFindNoRow(p, Step(p, s, es[0]), es[1..]))
  }

  // -------------------------------------------------------------- refinement

  predicate DatedAs(p: Policy, log: seq<Passed>, id: string, at: int) {
    var last := LastPass(log, id);
    last.Some? && last.value.at - SECOND < at <= last.value.at
  }

  /** What a memory holds is dated as passed, and it holds everything that
      still matters. */
  ghost predicate Holds(p: Policy, dated: Memory, log: seq<Passed>, clock: int) {
    && (forall id :: id in dated ==> DatedAs(p, log, id, dated[id].micros))
    && forall id :: PassedSince(log, id, clock - p.window + SECOND) ==> id in dated
  }

  /** The cache holds the passes, the table the accepted ones. */
  ghost predicate Remembers(p: Policy, s: State, clock: int) {
    && Holds(p, s.seen, s.log, clock) && Holds(p, s.store, Kept(s.log), clock)
    && forall i :: 0 <= i < |s.log| ==> s.log[i].at <= clock
  }

  /** Accepted messages are passes, in the same order. */
  lemma {:induction false} KeptAreInOrder(log: seq<Passed>)
    ensures |Kept(log)| <= |log| && forall i :: 0 <= i < |Kept(log)| ==> Kept(log)[i] in log && Kept(log)[i].kept
  {
    if log != [] {
      KeptAreInOrder(log[..|log| - 1]);
    }
  }

  lemma {:induction false} KeptTwice(log: seq<Passed>)
    ensures Kept(Kept(log)) == Kept(log)
  {
    if log != [] {
      var rest, last := log[..|log| - 1], log[|log| - 1];
      KeptTwice(rest);
      assert Kept(rest) + [] == Kept(rest);
    }
  }

  lemma LastPassSnoc(log: seq<Passed>, a: Passed)
    ensures forall id :: LastPass(log + [a], id) == if id == a.id then Some(a) else LastPass(log, id)
  {
    assert (log + [a])[..|log|] == log;
  }

  /** Dropping what is too old drops nothing that matters. */
  lemma DroppingHolds(p: Policy, dated: Memory, log: seq<Passed>, clock: int, cutoff: int, now: int)
    requires Holds(p, dated, log, clock) && clock <= now && cutoff <= now - p.window + 1
    ensures Holds(p, dated - Stale(dated, cutoff), log, now)
  {
    hide LastPass;
  }

  lemma LaterHolds(p: Policy, dated: Memory, log: seq<Passed>, clock: int, now: int)
    requires Holds(p, dated, log, clock) && clock <= now
    ensures Holds(p, dated, log, now)
  {
    hide LastPass;
  }

  lemma AddingHolds(p: Policy, dated: Memory, log: seq<Passed>, a: Passed, at: Stamp)
    requires Holds(p, dated, log, a.at) && a.at - SECOND < at.micros <= a.at
    ensures Holds(p, dated[a.id := at], log + [a], a.at)
  {
    LastPassSnoc(log, a);
    hide LastPass;
  }

  lemma PassKeepsMemory(p: Policy, s: State, e: Event)
    requires Sound(p) && e.Arrive? && GateOpen(p, e.stamp, e.now) && !Checked(s.seen, p.window, e.id, e.now).1
    requires FindsNoRow(p, s, e) && Holds(p, s.store, Kept(s.log), e.now)
      && Holds(p, Pruned(s.seen, p.window, e.now), s.log, e.now)
    requires forall i :: 0 <= i < |s.log| ==> s.log[i].at <= e.now
    ensures Remembers(p, Step(p, s, e), e.now)
  {
    var a, kept := Passed(e.id, e.stamp, e.now, e.kept), Kept(s.log);
    FloorIsClose(e.now);
    assert kept + [] == kept;
    hide Kept, Floor, Stale, Holds;
    AddingHolds(p, Pruned(s.seen, p.window, e.now), s.log, a, Stamp(e.now, true));
    AddingHolds(p, s.store, kept, a, Stamp(Floor(e.now), false));
  }

  lemma {:induction false} ArriveKeepsMemory(p: Policy, s: State, clock: int, e: Event)
    requires Sound(p) && Remembers(p, s, clock) && clock <= e.now && e.Arrive? && FindsNoRow(p, s, e)
    ensures Remembers(p, Step(p, s, e), e.now)
  {
    hide Kept, Floor, Stale, Holds, FindsNoRow;
    DroppingHolds(p, s.seen, s.log, clock, e.now - p.window, e.now);
    LaterHolds(p, s.store, Kept(s.log), clock, e.now);
    LaterHolds(p, s.seen, s.log, clock, e.now);
    if GateOpen(p, e.stamp, e.now) && !Checked(s.seen, p.window, e.id, e.now).1 {
      PassKeepsMemory(p, s, e);
    }
  }

  lemma {:induction false} StepKeepsMemory(p: Policy, s: State, clock: int, e: Event)
    requires Sound(p) && Remembers(p, s, clock) && clock <= e.now && FindsNoRow(p, s, e)
    ensures Remembers(p, Step(p, s, e), e.now)
  {
    hide Holds, Kept, Stale, Floor, Checked, GateOpen, FindsNoRow, Inserted;
    match e
    case Arrive(_, _, _, _) => ArriveKeepsMemory(p, s, clock, e);
    case Tidy(now) =>
      DroppingHolds(p, s.seen, s.log, clock, now - p.window, now);
      LaterHolds(p, s.store, Kept(s.log), clock, now);
    case TidyStore(now) =>
      FloorIsClose(now - p.window);
      DroppingHolds(p, s.store, Kept(s.log), clock, Floor(now - p.window), now);
      LaterHolds(p, s.seen, s.log, clock, now);
    case Restart(now) => RestartKeepsMemory(p, s, clock, now);
  }

  lemma RestartKeepsMemory(p: Policy, s: State, clock: int, now: int)
    requires Sound(p) && Remembers(p, s, clock) && clock <= now
    ensures Remembers(p, Step(p, s, Restart(now)), now)
  {
    FloorIsClose(now);
    KeptTwice(s.log);
    KeptAreInOrder(s.log);
    hide Holds, Kept, Stale, Floor;
    DroppingHolds(p, s.store, Kept(s.log), clock, Floor(now) - p.window + 1, now);
    LaterHolds(p, s.store, Kept(s.log), clock, now);
  }

  /** `seen` answers from bounded memory what the whole history says, up to
      the second that reloaded rows are coarse by: what it calls a replay passed
      within the window, and whatever passed within the window less a second
      it calls a replay. */
  lemma SeenIsExactUpToASecond(p: Policy, s: State, clock: int, id: string, now: int)
    requires Sound(p) && Remembers(p, s, clock) && clock <= now
    ensures Checked(s.seen, p.window, id, now).1 ==> PassedSince(s.log, id, now - p.window)
    ensures PassedSince(s.log, id, now - p.window + SECOND) ==> Checked(s.seen, p.window, id, now).1
  {
  }

  /** A message does not come again just as the window since its last pass
      runs out: inside the last second of it, where a reloaded row may have
      been forgotten already. */
  predicate OffEdge(p: Policy, log: seq<Passed>, e: Event) {
    e.Arrive? && PassedSince(log, e.id, e.now - p.window) ==> PassedSince(log, e.id, e.now - p.window + SECOND)
  }

  predicate AllOffEdge(p: Policy, log: seq<Passed>, es: seq<Event>)
    decreases es
  {
    es == [] || (OffEdge(p, log, es[0]) && AllOffEdge(p, NaiveStep(p, log, es[0]), es[1..]))
  }

  lemma {:induction false} RunRefines(p: Policy, s: State, es: seq<Event>, clock: int)
    requires Sound(p) && Remembers(p, s, clock) && InOrder(es, clock) && AllFindNoRow(p, s, es)
      && AllOffEdge(p, s.log, es)
    ensures Run(p, s, es).log == NaiveRun(p, s.log, es)
    decreases es
  {
    if es != [] {
      StepKeepsMemory(p, s, clock, es[0]);
      RunRefines(p, Step(p, s, es[0]), es[1..], es[0].now);
    }
  }

  /** MAIN: pruning, tidying and restarting change no answer. Every message of
      every run is accepted or refused exactly as by the memory that is never
      pruned, so long as no acceptance finds a row of its id still in the
      table and none comes on the edge of the window. */
  lemma PruningAndRestartsAreInvisible(p: Policy, es: seq<Event>, clock: int)
    requires Sound(p) && InOrder(es, clock) && AllFindNoRow(p, START, es) && AllOffEdge(p, [], es)
    ensures Run(p, START, es).log == NaiveRun(p, [], es)
  {
    RunRefines(p, START, es, clock);
  }

  // ------------------------------------------------------- accepted only once

  ghost predicate OnceEach(log: seq<Passed>) {
    forall i, j :: 0 <= i < j < |log| ==> !(log[i].id == log[j].id && log[i].stamp == log[j].stamp)
  }

  ghost predicate ThroughGate(p: Policy, log: seq<Passed>) {
    && (forall i :: 0 <= i < |log| ==> GateOpen(p, log[i].stamp, log[i].at))
    && forall i, j :: 0 <= i < j < |log| ==> log[i].at <= log[j].at
  }

  /** A restart strikes no accepted message from the log. */
  lemma NothingAcceptedIsStruck(p: Policy, s: State, e: Event)
    requires Sound(p)
    ensures Kept(s.log) <= Kept(Step(p, s, e).log)
  {
    KeptTwice(s.log);
  }

  lemma {:induction false} KeptOnceEach(log: seq<Passed>)
    requires OnceEach(log)
    ensures OnceEach(Kept(log))
  {
    if log != [] {
      KeptOnceEach(log[..|log| - 1]);
      KeptAreInOrder(log[..|log| - 1]);
    }
  }

  lemma {:induction false} KeptThroughGate(p: Policy, log: seq<Passed>)
    requires ThroughGate(p, log)
    ensures ThroughGate(p, Kept(log))
  {
    if log != [] {
      KeptThroughGate(p, log[..|log| - 1]);
      KeptAreInOrder(log[..|log| - 1]);
    }
  }

  lemma {:induction false} LastIsLatest(log: seq<Passed>, i: nat)
    requires i < |log| && forall j, k :: 0 <= j < k < |log| ==> log[j].at <= log[k].at
    ensures PassedSince(log, log[i].id, log[i].at)
  {
    if log[|log| - 1].id != log[i].id {
      LastIsLatest(log[..|log| - 1], i);
    }
  }

  lemma {:induction false} LastPassIsThere(log: seq<Passed>, id: string)
    ensures LastPass(log, id).Some? ==> LastPass(log, id).value in log && LastPass(log, id).value.id == id
  {
    if log != [] {
      LastPassIsThere(log[..|log| - 1], id);
    }
  }

  /** Where the gate fits the window with a second to spare, the same message is a replay. */
  lemma SameMessageIsReplay(p: Policy, s: State, clock: int, e: Event, i: nat)
    requires Sound(p) && p.past + p.future + SECOND <= p.window
    requires Remembers(p, s, clock) && clock <= e.now && ThroughGate(p, s.log)
    requires e.Arrive? && GateOpen(p, e.stamp, e.now) && i < |s.log| && s.log[i].id == e.id && s.log[i].stamp == e.stamp
    ensures Checked(s.seen, p.window, e.id, e.now).1
  {
    LastIsLatest(s.log, i);
    SeenIsExactUpToASecond(p, s, clock, e.id, e.now);
  }

  /** An accepted message that finds a row of its id finds its own: an id does
      not come back under another timestamp before its row is tidied away. */
  predicate Unmixed(p: Policy, s: State, e: Event) {
    Accepts(p, s, e) && e.id in s.store ==>
      LastPass(Kept(s.log), e.id).Some? && LastPass(Kept(s.log), e.id).value.stamp == e.stamp
  }

  predicate AllUnmixed(p: Policy, s: State, es: seq<Event>)
    requires Sound(p)
    decreases es
  {
    es == [] || (Unmixed(p, s, es[0]) && AllUnmixed(p, Step(p, s, es[0]), es[1..]))
  }

  lemma UnmixedFindsNoRow(p: Policy, s: State, clock: int, e: Event)
    requires Sound(p) && p.past + p.future + SECOND <= p.window && Unmixed(p, s, e)
    requires Remembers(p, s, clock) && clock <= e.now && ThroughGate(p, s.log)
    ensures FindsNoRow(p, s, e)
  {
    if Accepts(p, s, e) && e.id in s.store {
      LastPassIsThere(Kept(s.log), e.id);
      KeptAreInOrder(s.log);
      var last := LastPass(Kept(s.log), e.id).value;
      var k :| 0 <= k < |Kept(s.log)| && Kept(s.log)[k] == last;
      var i :| 0 <= i < |s.log| && s.log[i] == last;
      SameMessageIsReplay(p, s, clock, e, i);
    }
  }

  lemma StepKeepsOnceEach(p: Policy, s: State, clock: int, e: Event)
    requires Sound(p) && p.past + p.future + SECOND <= p.window
    requires Remembers(p, s, clock) && clock <= e.now && OnceEach(s.log) && ThroughGate(p, s.log)
    ensures OnceEach(Step(p, s, e).log) && ThroughGate(p, Step(p, s, e).log)
  {
    if e.Restart? {
      KeptOnceEach(s.log);
      KeptThroughGate(p, s.log);
    } else if e.Arrive? && GateOpen(p, e.stamp, e.now) {
      forall i | 0 <= i < |s.log| && s.log[i].id == e.id && s.log[i].stamp == e.stamp
        ensures Checked(s.seen, p.window, e.id, e.now).1
      {
        SameMessageIsReplay(p, s, clock, e, i);
      }
    }
  }

  lemma {:induction false} RunKeepsOnceEach(p: Policy, s: State, es: seq<Event>, clock: int)
    requires Sound(p) && p.past + p.future + SECOND <= p.window
    requires Remembers(p, s, clock) && OnceEach(s.log) && ThroughGate(p, s.log) && InOrder(es, clock)
      && AllUnmixed(p, s, es)
    ensures OnceEach(Run(p, s, es).log)
    decreases es
  {
    if es != [] {
      UnmixedFindsNoRow(p, s, clock, es[0]);
      StepKeepsOnceEach(p, s, clock, es[0]);
      StepKeepsMemory(p, s, clock, es[0]);
      RunKeepsOnceEach(p, Step(p, s, es[0]), es[1..], es[0].now);
    }
  }

  lemma RunOfThree(p: Policy, s: State, es: seq<Event>)
    requires Sound(p) && |es| == 3
    ensures Run(p, s, es) == Step(p, Step(p, Step(p, s, es[0]), es[1]), es[2])
    ensures Unmixed(p, s, es[0]) && Unmixed(p, Step(p, s, es[0]), es[1])
      && Unmixed(p, Step(p, Step(p, s, es[0]), es[1]), es[2])
      ==> AllUnmixed(p, s, es)
    ensures forall clock :: InOrder(es, clock) <==> clock <= es[0].now <= es[1].now <= es[2].now
  {
    hide Step, Unmixed;
    assert es[1..][0] == es[1] && es[1..][1..] == es[2..] && es[2..][0] == es[2] && es[2..][1..] == [];
    var s2 := Step(p, Step(p, s, es[0]), es[1]);
    assert Run(p, s2, es[2..]) == Step(p, s2, es[2]);
    assert AllUnmixed(p, s2, es[2..]) == Unmixed(p, s2, es[2]);
    forall clock ensures InOrder(es, clock) <==> clock <= es[0].now <= es[1].now <= es[2].now {
      assert InOrder(es[2..], es[1].now) == (es[1].now <= es[2].now);
    }
  }

  /** One message through the cache when it is new there. */
  lemma NewPasses(p: Policy, s: State, id: string, stamp: int, now: int)
    requires Sound(p) && GateOpen(p, stamp, now) && (id in s.seen ==> s.seen[id].micros < now - p.window)
    ensures Accepts(p, s, Arrive(id, stamp, now, true))
    ensures Step(p, s, Arrive(id, stamp, now, true))
      == State(Pruned(s.seen, p.window, now)[id := Stamp(now, true)], Inserted(s.store, id, Floor(now)),
               s.log + [Passed(id, stamp, now, true)])
  {
  }

  lemma RunFirst(p: Policy, s: State, es: seq<Event>)
    requires Sound(p) && es != []
    ensures Run(p, s, es) == Run(p, Step(p, s, es[0]), es[1..])
    ensures forall clock :: InOrder(es, clock) <==> clock <= es[0].now && InOrder(es[1..], es[0].now)
  {
    hide Step;
  }

  lemma FirstPasses(p: Policy, id: string, stamp: int, now: int)
    requires Sound(p) && GateOpen(p, stamp, now)
    ensures Step(p, START, Arrive(id, stamp, now, true))
      == State(map[id := Stamp(now, true)], map[id := Stamp(Floor(now), false)], [Passed(id, stamp, now, true)])
  {
    hide Floor;
    NewPasses(p, START, id, stamp, now);
    assert Pruned(map[], p.window, now) == map[];
  }

  /** A message as early as the gate takes it and at the very end of a second,
      a restart, and the message again as late as the gate takes it. */
  function EarlyAndLate(p: Policy, id: string): seq<Event> {
    var stamp := SECOND - 1 + p.future;
    [Arrive(id, stamp, SECOND - 1, true), Restart(stamp + p.past), Arrive(id, stamp, stamp + p.past, true)]
  }

  /** A gate that does not fit lets it in twice, with a window of whole
      seconds: the restart no longer loads the row, dated at the start of its
      second. */
  lemma WideGateAcceptsTwice(p: Policy, id: string)
    requires Sound(p) && p.past + p.future + SECOND > p.window && p.window % SECOND == 0
    ensures InOrder(EarlyAndLate(p, id), 0) && AllUnmixed(p, START, EarlyAndLate(p, id))
    ensures !OnceEach(Kept(Run(p, START, EarlyAndLate(p, id)).log))
  {
    assert Floor(SECOND - 1) == 0;
    hide Run, AllUnmixed, InOrder, OnceEach, Kept, EarlyAndLate;
    EarlyAndLatePass(p, id);
  }

  lemma EarlyAndLatePass(p: Policy, id: string)
    requires Sound(p) && Floor(SECOND - 1) == 0 && Floor(SECOND - 1 + p.future + p.past) >= p.window
    ensures InOrder(EarlyAndLate(p, id), 0) && AllUnmixed(p, START, EarlyAndLate(p, id))
    ensures !OnceEach(Kept(Run(p, START, EarlyAndLate(p, id)).log))
  {
    hide Run, Step, Unmixed, AllUnmixed, InOrder, OnceEach, Floor;
    var es, stamp := EarlyAndLate(p, id), SECOND - 1 + p.future;
    var late := stamp + p.past;
    var a, b := Passed(id, stamp, SECOND - 1, true), Passed(id, stamp, late, true);
    RunOfThree(p, START, es);
    FirstPasses(p, id, stamp, SECOND - 1);
    var s1 := State(map[id := Stamp(SECOND - 1, true)], map[id := Stamp(0, false)], [a]);
    assert Step(p, START, es[0]) == s1;
    KeptOfTwo(a, b);
    RestartForgets(p, s1, late);
    var s2 := State(map[], s1.store, [a]);
    NewPasses(p, s2, id, stamp, late);
    TwiceIsNotOnce([a, b], 0, 1);
    OwnRowOrNone(p, START, es[0]);
    OwnRowOrNone(p, s1, es[1]);
    OwnRowOrNone(p, s2, es[2]);
  }

  lemma OwnRowOrNone(p: Policy, s: State, e: Event)
    requires !e.Arrive? || e.id !in s.store
      || (LastPass(Kept(s.log), e.id).Some? && LastPass(Kept(s.log), e.id).value.stamp == e.stamp)
    ensures Unmixed(p, s, e)
  {
  }

  /** A restart loads nothing from a table of old rows. */
  lemma RestartForgets(p: Policy, s: State, now: int)
    requires Sound(p) && forall id :: id in s.store ==> s.store[id].micros <= Floor(now) - p.window
    ensures Step(p, s, Restart(now)) == State(map[], s.store, Kept(s.log))
  {
    hide Kept, Floor;
    assert Warmed(s.store, Floor(now) - p.window) == map[];
  }

  lemma KeptOfTwo(a: Passed, b: Passed)
    requires a.kept && b.kept
    ensures Kept([a]) == [a] && Kept([a] + [b]) == [a, b] && Kept([a, b, b]) == [a, b, b]
      && LastPass([a], a.id) == Some(a)
  {
    assert [a, b, b][..2] == [a] + [b] && ([a] + [b])[..1] == [a] && [a][..0] == [];
  }

  lemma TwiceIsNotOnce(log: seq<Passed>, i: nat, j: nat)
    requires i < j < |log| && log[i].id == log[j].id && log[i].stamp == log[j].stamp
    ensures !OnceEach(log)
  {
  }

  ghost predicate NeverTwice(p: Policy, es: seq<Event>, clock: int)
    requires Sound(p)
  {
    InOrder(es, clock) && AllUnmixed(p, START, es) ==> OnceEach(Kept(Run(p, START, es).log))
  }

  /** MAIN: over every run, with every tidying and every restart, in which an
      id does not come back under another timestamp while its row stands, no
      (id, timestamp) pair is ever accepted twice, if and only if the gate's
      two sides fit in the window with a second to spare. */
  lemma AcceptedOnceIffGateFitsWindow(p: Policy)
    requires Sound(p) && p.window % SECOND == 0
    ensures (forall es, clock :: NeverTwice(p, es, clock)) <==> p.past + p.future + SECOND <= p.window
  {
    if p.past + p.future + SECOND <= p.window {
      forall es, clock ensures NeverTwice(p, es, clock) {
        if InOrder(es, clock) && AllUnmixed(p, START, es) {
          RunIsOnce(p, es, clock);
        }
      }
    } else {
      WideGateAcceptsTwice(p, "m");
      assert !NeverTwice(p, EarlyAndLate(p, "m"), 0);
    }
  }

  lemma RunIsOnce(p: Policy, es: seq<Event>, clock: int)
    requires Sound(p) && p.past + p.future + SECOND <= p.window && InOrder(es, clock) && AllUnmixed(p, START, es)
    ensures OnceEach(Kept(Run(p, START, es).log))
  {
    RunKeepsOnceEach(p, START, es, clock);
    KeptOnceEach(Run(p, START, es).log);
  }

  // ---------------------------------------------------------------- a reused id

  /** A message, its retry under a fresh timestamp just past the window, a
      restart, and the retry over again. */
  function RetryAndReplay(p: Policy, id: string): seq<Event> {
    var late := p.window + SECOND;
    [Arrive(id, 0, 0, true), Arrive(id, late, late, true), Restart(late), Arrive(id, late, late, true)]
  }

  /** The table is no memory for an id that comes back while its old row
      stands: the insertion is ignored, the restart does not load the old
      date, and the retry is accepted twice. However narrow the gate. */
  lemma ReusedIdAcceptedTwice(p: Policy, id: string)
    requires Sound(p)
    ensures InOrder(RetryAndReplay(p, id), 0) && !OnceEach(Kept(Run(p, START, RetryAndReplay(p, id)).log))
  {
    hide Run, Step, AllUnmixed, Unmixed, InOrder, OnceEach, Floor, Kept;
    var es, late := RetryAndReplay(p, id), p.window + SECOND;
    var a, b := Passed(id, 0, 0, true), Passed(id, late, late, true);
    FloorIsClose(0);
    FloorIsClose(late);
    assert es[1..][0] == es[1] && es[1..][1] == es[2] && es[1..][2] == es[3];
    RunFirst(p, START, es);
    FirstPasses(p, id, 0, 0);
    var s1 := State(map[id := Stamp(0, true)], map[id := Stamp(0, false)], [a]);
    RunOfThree(p, s1, es[1..]);
    NewPasses(p, s1, id, late, late);
    KeptOfTwo(a, b);
    var s2 := Step(p, s1, es[1]);
    RestartForgets(p, s2, late);
    var s3 := State(map[], s1.store, [a, b]);
    NewPasses(p, s3, id, late, late);
    assert [a] + [b] == [a, b] && [a, b] + [b] == [a, b, b];
    TwiceIsNotOnce([a, b, b], 1, 2);
  }

  // ---------------------------------------------------------- as deployed

  const REPLAY_CACHE_WINDOW := 25 * 3600 * SECOND
  const TIMESTAMP_SKEW := 300 * SECOND
  const RELAY_TIMESTAMP_SKEW := 24 * 3600 * SECOND + TIMESTAMP_SKEW

  /** The deployed window covers the live gate, and the relay gate for every
      stamp at most the ordinary skew ahead of the receiver. */
  lemma DeployedWindowSuffices(es: seq<Event>, clock: int, past: int)
    requires past == TIMESTAMP_SKEW || past == RELAY_TIMESTAMP_SKEW
    requires InOrder(es, clock) && AllUnmixed(Policy(REPLAY_CACHE_WINDOW, past, TIMESTAMP_SKEW), START, es)
    ensures OnceEach(Kept(Run(Policy(REPLAY_CACHE_WINDOW, past, TIMESTAMP_SKEW), START, es).log))
  {
    RunIsOnce(Policy(REPLAY_CACHE_WINDOW, past, TIMESTAMP_SKEW), es, clock);
  }

  /** It does not cover the relay gate as the code has it, which is as wide
      into the future as into the past: a message stamped that far ahead is
      accepted again once the cache has forgotten it. */
  lemma RelayGateOutlastsWindow(id: string)
    ensures var p := Policy(REPLAY_CACHE_WINDOW, RELAY_TIMESTAMP_SKEW, RELAY_TIMESTAMP_SKEW);
      InOrder(EarlyAndLate(p, id), 0) && AllUnmixed(p, START, EarlyAndLate(p, id))
      && !OnceEach(Kept(Run(p, START, EarlyAndLate(p, id)).log))
  {
    WideGateAcceptsTwice(Policy(REPLAY_CACHE_WINDOW, RELAY_TIMESTAMP_SKEW, RELAY_TIMESTAMP_SKEW), id);
  }
}
