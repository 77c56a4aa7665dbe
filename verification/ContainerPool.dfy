/**
 The warm container pool: one Redis list per image, shared by any number of
 workers, prewarmers and reapers.

 Each Redis command, Lua script or pipeline is one atomic action, together with
 the local code up to the next await.  The reaper reads a list (LRANGE) and
 replaces it (DEL + RPUSH) in two separate actions.
 */
module ContainerPool {

  datatype Entry = Entry(id: nat, born: int)

  /** WARM_CONTAINER_TTL_SECONDS and WARM_POOL_MAX_PER_IMAGE. */
  datatype Config = Config(ttl: int, cap: int)

  predicate Expired(cfg: Config, now: int, e: Entry) { now - e.born > cfg.ttl }

  /** The entries a reaper pass keeps, in order. */
  function Keep(cfg: Config, now: int, raw: seq<Entry>): seq<Entry> {
    if raw == [] then [] else
      var rest := Keep(cfg, now, raw[..|raw| - 1]);
      var e := raw[|raw| - 1];
      if Expired(cfg, now, e) then rest else rest + [e]
  }

  /** The containers a reaper pass hands to kill tasks, in order. */
  function Evict(cfg: Config, now: int, raw: seq<Entry>): seq<nat> {
    if raw == [] then [] else
      var rest := Evict(cfg, now, raw[..|raw| - 1]);
      var e := raw[|raw| - 1];
      if Expired(cfg, now, e) then rest + [e.id] else rest
  }

  /** The Lua script: LPUSH unless the list is at the cap. */
  function CappedPush(cfg: Config, list: seq<Entry>, e: Entry): seq<Entry> {
    if |list| >= cfg.cap then list else [e] + list
  }

  // ------------------------------------------------------------------
  // The protocol
  // ------------------------------------------------------------------

  /** A worker slot or a prewarmer. */
  datatype Proc =
    | Idle
    | Acquiring(key: nat)               // RPOP comes next
    | Checking(key: nat, entry: Entry)  // popped, usability check under way
    | Running(key: nat, id: nat)        // a job owns the container
    | Stamping(key: nat, id: nat)       // sanitized or freshly started
    | Ready(key: nat, entry: Entry)     // stamped, push script comes next

  datatype Reaper =
    | Resting
    | Passing(now: int)
    | Replacing(now: int, key: nat, raw: seq<Entry>)  // read done, replace comes next

  datatype State = State(
    clock: int,
    pools: map<nat, seq<Entry>>,
    procs: map<nat, Proc>,
    reapers: map<nat, Reaper>,
    killing: multiset<nat>,  // kill tasks created and not finished
    gone: set<nat>,
    started: set<nat>)

  const Start := State(0, map[], map[], map[], multiset{}, {}, {})

  datatype Action =
    | Tick(d: int)
    | ColdStart(p: nat, key: nat, id: nat)  // `docker run` for a job
    | Prewarm(p: nat, key: nat, id: nat)    // `docker run` for the pool
    | Begin(p: nat, key: nat)               // enter acquire
    | Pop(p: nat)
    | Check(p: nat, usable: bool)
    | Release(p: nat, alive: bool)
    | Stamp(p: nat)
    | Push(p: nat)
    | Killed(id: nat)
    | StartPass(r: nat)
    | Read(r: nat, key: nat)
    | Replace(r: nat)
    | EndPass(r: nat)

  function Pool(s: State, k: nat): seq<Entry> { if k in s.pools then s.pools[k] else [] }
  function ProcOf(s: State, p: nat): Proc { if p in s.procs then s.procs[p] else Idle }
  function ReaperOf(s: State, r: nat): Reaper { if r in s.reapers then s.reapers[r] else Resting }

  predicate Enabled(s: State, a: Action) {
    match a
    case Tick(_) => true
    case ColdStart(p, _, id) => ProcOf(s, p).Idle? && id !in s.started
    case Prewarm(p, _, id) => ProcOf(s, p).Idle? && id !in s.started
    case Begin(p, _) => ProcOf(s, p).Idle?
    case Pop(p) => ProcOf(s, p).Acquiring?
    case Check(p, _) => ProcOf(s, p).Checking?
    case Release(p, _) => ProcOf(s, p).Running?
    case Stamp(p) => ProcOf(s, p).Stamping?
    case Push(p) => ProcOf(s, p).Ready?
    case Killed(id) => id in s.killing
    case StartPass(r) => ReaperOf(s, r).Resting?
    case Read(r, _) => ReaperOf(s, r).Passing?
    case Replace(r) => ReaperOf(s, r).Replacing?
    case EndPass(r) => ReaperOf(s, r).Passing?
  }

  function Goto(s: State, p: nat, q: Proc): State { s.(procs := s.procs[p := q]) }
  function Kill(s: State, id: nat): State { s.(killing := s.killing + multiset{id}) }
  function SetPool(s: State, k: nat, list: seq<Entry>): State { s.(pools := s.pools[k := list]) }
  function SetReaper(s: State, r: nat, q: Reaper): State { s.(reapers := s.reapers[r := q]) }

  /** RPOP and the age check that follows it. */
  function PopStep(cfg: Config, s: State, p: nat, k: nat): State {
    var list := Pool(s, k);
    if list == [] then Goto(s, p, Idle)
    else
      var e := list[|list| - 1];
      var s' := SetPool(s, k, list[..|list| - 1]);
      if Expired(cfg, s.clock, e) then Kill(s', e.id) else Goto(s', p, Checking(k, e))
  }

  function PushStep(cfg: Config, s: State, p: nat, k: nat, e: Entry): State {
    var list := Pool(s, k);
    if |list| >= cfg.cap then Kill(Goto(s, p, Idle), e.id)
    else SetPool(Goto(s, p, Idle), k, CappedPush(cfg, list, e))
  }

  /** LRANGE; the kill tasks of the expired entries exist before the replace is sent. */
  function ReadStep(cfg: Config, s: State, r: nat, now: int, k: nat): State {
    var raw := Pool(s, k);
    if raw == [] then s
    else SetReaper(s, r, Replacing(now, k, raw)).(killing := s.killing + multiset(Evict(cfg, now, raw)))
  }

  function Step(cfg: Config, s: State, a: Action): State
    requires Enabled(s, a)
  {
    match a
    case Tick(d) => s.(clock := s.clock + d)
    case ColdStart(p, k, id) => Goto(s, p, Running(k, id)).(started := s.started + {id})
    case Prewarm(p, k, id) => Goto(s, p, Stamping(k, id)).(started := s.started + {id})
    case Begin(p, k) => Goto(s, p, Acquiring(k))
    case Pop(p) => PopStep(cfg, s, p, s.procs[p].key)
    case Check(p, usable) =>
      var q := s.procs[p];
      if usable then Goto(s, p, Running(q.key, q.entry.id)) else Kill(Goto(s, p, Acquiring(q.key)), q.entry.id)
    case Release(p, alive) =>
      var q := s.procs[p];
      if alive then Goto(s, p, Stamping(q.key, q.id)) else Goto(s, p, Idle).(gone := s.gone + {q.id})
    case Stamp(p) =>
      var q := s.procs[p];
      Goto(s, p, Ready(q.key, Entry(q.id, s.clock)))
    case Push(p) => PushStep(cfg, s, p, s.procs[p].key, s.procs[p].entry)
    case Killed(id) => s.(killing := s.killing - multiset{id}, gone := s.gone + {id})
    case StartPass(r) => SetReaper(s, r, Passing(s.clock))
    case Read(r, k) => ReadStep(cfg, s, r, s.reapers[r].now, k)
    case Replace(r) =>
      var q := s.reapers[r];
      SetPool(SetReaper(s, r, Passing(q.now)), q.key, Keep(cfg, q.now, q.raw))
    case EndPass(r) => SetReaper(s, r, Resting)
  }

  predicate Legal(cfg: Config, s: State, run: seq<Action>)
    decreases |run|
  {
    run == [] || (Enabled(s, run[0]) && Legal(cfg, Step(cfg, s, run[0]), run[1..]))
  }

  function After(cfg: Config, s: State, run: seq<Action>): State
    requires Legal(cfg, s, run)
    decreases |run|
  {
    if run == [] then s else After(cfg, Step(cfg, s, run[0]), run[1..])
  }

  // ------------------------------------------------------------------
  // The cap survives every interleaving
  // ------------------------------------------------------------------

  function Limit(cfg: Config): nat { if cfg.cap < 0 then 0 else cfg.cap }

  ghost predicate Capped(cfg: Config, s: State) {
    && (forall k <- s.pools :: |s.pools[k]| <= Limit(cfg))
    && (forall r <- s.reapers :: s.reapers[r].Replacing? ==> |s.reapers[r].raw| <= Limit(cfg))
  }

  lemma {:induction false} KeepShorter(cfg: Config, now: int, raw: seq<Entry>)
    ensures |Keep(cfg, now, raw)| <= |raw|
  {
    if raw != [] {
      KeepShorter(cfg, now, raw[..|raw| - 1]);
    }
  }

  lemma CappedStep(cfg: Config, s: State, a: Action)
    requires Capped(cfg, s) && Enabled(s, a)
    ensures Capped(cfg, Step(cfg, s, a))
  {
    if a.Replace? {
      KeepShorter(cfg, s.reapers[a.r].now, s.reapers[a.r].raw);
    } else if !a.Pop? && !a.Push? && !a.Read? {
      ListsUntouched(cfg, s, a);
    }
  }

  lemma {:induction false} CappedRun(cfg: Config, s: State, run: seq<Action>)
    requires Capped(cfg, s) && Legal(cfg, s, run)
    ensures Capped(cfg, After(cfg, s, run))
    decreases |run|
  {
    if run != [] {
      CappedStep(cfg, s, run[0]);
      CappedRun(cfg, Step(cfg, s, run[0]), run[1..]);
    }
  }

  /** No list ever exceeds the cap, with any number of reapers interleaved anyhow. */
  lemma CapHolds(cfg: Config, run: seq<Action>, k: nat)
    requires Legal(cfg, Start, run)
    ensures |Pool(After(cfg, Start, run), k)| <= Limit(cfg)
  {
    CappedRun(cfg, Start, run);
  }

  // ------------------------------------------------------------------
  // Order by age
  // ------------------------------------------------------------------

  predicate NewestFirst(list: seq<Entry>) {
    forall i, j :: 0 <= i < j < |list| ==> list[i].born >= list[j].born
  }

  /** All lists, and all snapshots that reapers may still write back. */
  ghost predicate Ordered(s: State) {
    && (forall k <- s.pools :: NewestFirst(s.pools[k]))
    && (forall r <- s.reapers :: s.reapers[r].Replacing? ==> NewestFirst(s.reapers[r].raw))
  }

  /** A push that changes its list puts a newer entry in front of it. */
  predicate InOrder(cfg: Config, s: State, a: Action) {
    a.Push? && ProcOf(s, a.p).Ready? ==>
      var q := ProcOf(s, a.p);
      var list := Pool(s, q.key);
      |list| >= cfg.cap || list == [] || q.entry.born >= list[0].born
  }

  /** On an ordered list, exactly these pushes keep the order. */
  lemma PushKeepsOrder(cfg: Config, list: seq<Entry>, e: Entry)
    requires NewestFirst(list)
    ensures NewestFirst(CappedPush(cfg, list, e)) <==> |list| >= cfg.cap || list == [] || e.born >= list[0].born
  {
    var pushed := [e] + list;
    if list != [] && e.born < list[0].born {
      assert pushed[0].born < pushed[1].born;
    }
    forall i, j | 0 <= i < j < |pushed| && (list == [] || e.born >= list[0].born) ensures pushed[i].born >= pushed[j].born {
      assert pushed[j] == list[j - 1];
      if i > 0 { assert pushed[i] == list[i - 1]; }
    }
  }

  lemma {:induction false} KeepOrdered(cfg: Config, now: int, raw: seq<Entry>)
    requires NewestFirst(raw)
    ensures NewestFirst(Keep(cfg, now, raw))
    ensures forall e <- Keep(cfg, now, raw) :: e in raw
  {
    if raw != [] {
      var n := |raw| - 1;
      KeepOrdered(cfg, now, raw[..n]);
      assert forall e <- raw[..n] :: e.born >= raw[n].born;
    }
  }

  /** The other actions leave lists and snapshots alone. */
  lemma ListsUntouched(cfg: Config, s: State, a: Action)
    requires Enabled(s, a) && !a.Pop? && !a.Push? && !a.Read? && !a.Replace?
    ensures var s' := Step(cfg, s, a);
      && s'.pools == s.pools
      && (!a.Tick? ==> s'.clock == s.clock)
      && (forall r <- s'.reapers :: s'.reapers[r].Replacing? ==> r in s.reapers && s'.reapers[r] == s.reapers[r])
  {
  }

  /** From an ordered state, a step leads to an ordered state exactly when it is in order. */
  lemma OrderedStep(cfg: Config, s: State, a: Action)
    requires Ordered(s) && Enabled(s, a)
    ensures Ordered(Step(cfg, s, a)) <==> InOrder(cfg, s, a)
  {
    if a.Push? {
      var k, e := s.procs[a.p].key, s.procs[a.p].entry;
      PushKeepsOrder(cfg, Pool(s, k), e);
      PushOrdered(cfg, s, a.p);
    } else if a.Replace? {
      KeepOrdered(cfg, s.reapers[a.r].now, s.reapers[a.r].raw);
    } else if !a.Pop? && !a.Read? {
      ListsUntouched(cfg, s, a);
    }
  }

  lemma PushOrdered(cfg: Config, s: State, p: nat)
    requires Ordered(s) && Enabled(s, Push(p))
    ensures Ordered(Step(cfg, s, Push(p))) <==> NewestFirst(CappedPush(cfg, Pool(s, s.procs[p].key), s.procs[p].entry))
  {
    var k := s.procs[p].key;
    var s' := Step(cfg, s, Push(p));
    assert Pool(s', k) == CappedPush(cfg, Pool(s, k), s.procs[p].entry);
    assert forall j :: j in s'.pools && j != k ==> j in s.pools && s'.pools[j] == s.pools[j];
  }

  ghost predicate AlwaysOrdered(cfg: Config, s: State, run: seq<Action>)
    requires Legal(cfg, s, run)
    decreases |run|
  {
    && (forall k :: NewestFirst(Pool(s, k)))
    && (run == [] || AlwaysOrdered(cfg, Step(cfg, s, run[0]), run[1..]))
  }

  ghost predicate InOrderRun(cfg: Config, s: State, run: seq<Action>)
    requires Legal(cfg, s, run)
    decreases |run|
  {
    run == [] || (InOrder(cfg, s, run[0]) && InOrderRun(cfg, Step(cfg, s, run[0]), run[1..]))
  }

  lemma {:induction false} OrderedRun(cfg: Config, s: State, run: seq<Action>)
    requires Ordered(s) && Legal(cfg, s, run)
    ensures AlwaysOrdered(cfg, s, run) <==> InOrderRun(cfg, s, run)
    decreases |run|
  {
    assert forall k :: NewestFirst(Pool(s, k));
    if run != [] {
      var s' := Step(cfg, s, run[0]);
      OrderedStep(cfg, s, run[0]);
      if InOrder(cfg, s, run[0]) {
        OrderedRun(cfg, s', run[1..]);
      } else {
        Disordered(cfg, s, run[0]);
        var k :| !NewestFirst(Pool(s', k));
        assert !AlwaysOrdered(cfg, s', run[1..]);
      }
    }
  }

  /** A step that breaks the order breaks it in a list. */
  lemma Disordered(cfg: Config, s: State, a: Action)
    requires Ordered(s) && Enabled(s, a) && !InOrder(cfg, s, a)
    ensures exists k :: !NewestFirst(Pool(Step(cfg, s, a), k))
  {
    var k := s.procs[a.p].key;
    PushKeepsOrder(cfg, Pool(s, k), s.procs[a.p].entry);
    assert Pool(Step(cfg, s, a), k) == CappedPush(cfg, Pool(s, k), s.procs[a.p].entry);
  }

  /** In every run, with any interleaving of reapers: all lists are newest first in every state
      exactly when every push that changes a list is in order. */
  lemma OrderIffPushesInOrder(cfg: Config, run: seq<Action>)
    requires Legal(cfg, Start, run)
    ensures AlwaysOrdered(cfg, Start, run) <==> InOrderRun(cfg, Start, run)
  {
    OrderedRun(cfg, Start, run);
  }

  // ------------------------------------------------------------------
  // Stamps and pushes
  // ------------------------------------------------------------------

  /** The clock does not run backwards, and a stamp is pushed before time moves on. */
  predicate Timely(s: State, a: Action) {
    && (a.Tick? ==> a.d >= 0)
    && (a.Push? && ProcOf(s, a.p).Ready? ==> ProcOf(s, a.p).entry.born == s.clock)
  }

  ghost predicate TimelyRun(cfg: Config, s: State, run: seq<Action>)
    requires Legal(cfg, s, run)
    decreases |run|
  {
    run == [] || (Timely(s, run[0]) && TimelyRun(cfg, Step(cfg, s, run[0]), run[1..]))
  }

  ghost predicate Past(now: int, list: seq<Entry>) { forall e <- list :: e.born <= now }

  ghost predicate AllPast(s: State) {
    && (forall k <- s.pools :: Past(s.clock, s.pools[k]))
    && (forall r <- s.reapers :: s.reapers[r].Replacing? ==> Past(s.clock, s.reapers[r].raw))
  }

  lemma {:induction false} KeepPast(cfg: Config, now: int, raw: seq<Entry>, clock: int)
    requires Past(clock, raw)
    ensures Past(clock, Keep(cfg, now, raw))
  {
    if raw != [] {
      KeepPast(cfg, now, raw[..|raw| - 1], clock);
    }
  }

  lemma AllPastStep(cfg: Config, s: State, a: Action)
    requires AllPast(s) && Enabled(s, a) && Timely(s, a)
    ensures AllPast(Step(cfg, s, a))
  {
    if a.Replace? {
      KeepPast(cfg, s.reapers[a.r].now, s.reapers[a.r].raw, s.clock);
    } else if !a.Pop? && !a.Push? && !a.Read? {
      ListsUntouched(cfg, s, a);
    }
  }

  /** Pushes are in order when the clock is monotone and stamping and pushing are one step. */
  lemma {:induction false} TimelyPushesInOrder(cfg: Config, s: State, run: seq<Action>)
    requires AllPast(s) && Legal(cfg, s, run) && TimelyRun(cfg, s, run)
    ensures InOrderRun(cfg, s, run)
    decreases |run|
  {
    if run != [] {
      AllPastStep(cfg, s, run[0]);
      TimelyPushesInOrder(cfg, Step(cfg, s, run[0]), run[1..]);
    }
  }

  /** A run of one action followed by a run. */
  lemma Then(cfg: Config, s: State, a: Action, rest: seq<Action>)
    requires Enabled(s, a) && Legal(cfg, Step(cfg, s, a), rest)
    ensures Legal(cfg, s, [a] + rest) && After(cfg, s, [a] + rest) == After(cfg, Step(cfg, s, a), rest)
  {
    assert ([a] + rest)[1..] == rest;
  }

  lemma PushBoth(cfg: Config, s: State, p: nat, q: nat, k: nat, d: Entry, e: Entry)
    requires ProcOf(s, p) == Ready(k, d) && ProcOf(s, q) == Ready(k, e) && p != q && |Pool(s, k)| + 2 <= cfg.cap
    ensures Legal(cfg, s, [Push(q)] + [Push(p)])
    ensures Pool(After(cfg, s, [Push(q)] + [Push(p)]), k) == [d, e] + Pool(s, k)
  {
    var s1 := Step(cfg, s, Push(q));
    assert Pool(s1, k) == [e] + Pool(s, k) && s1.procs[p] == Ready(k, d);
    var s2 := Step(cfg, s1, Push(p));
    assert Pool(s2, k) == [d, e] + Pool(s, k);
    Then(cfg, s1, Push(p), []);
    Then(cfg, s, Push(q), [Push(p)]);
  }

  /** Two stamps and their pushes cross: the older entry ends up in front. */
  lemma CrossingPushes(cfg: Config, s: State, p: nat, q: nat, k: nat, i: nat, j: nat) returns (run: seq<Action>)
    requires ProcOf(s, p) == Stamping(k, i) && ProcOf(s, q) == Stamping(k, j) && p != q && |Pool(s, k)| + 2 <= cfg.cap
    ensures run == [Stamp(p)] + ([Tick(1)] + ([Stamp(q)] + ([Push(q)] + [Push(p)]))) && Legal(cfg, s, run)
    ensures var s' := After(cfg, s, run);
      Pool(s', k) == [Entry(i, s.clock), Entry(j, s.clock + 1)] + Pool(s, k) && !NewestFirst(Pool(s', k))
  {
    var older, newer := Entry(i, s.clock), Entry(j, s.clock + 1);
    var s1 := Step(cfg, s, Stamp(p));
    var s2 := Step(cfg, s1, Tick(1));
    var s3 := Step(cfg, s2, Stamp(q));
    assert ProcOf(s3, p) == Ready(k, older) && ProcOf(s3, q) == Ready(k, newer) && Pool(s3, k) == Pool(s, k);
    assert ([older, newer] + Pool(s, k))[0] == older && ([older, newer] + Pool(s, k))[1] == newer;
    var pushes := [Push(q)] + [Push(p)];
    hide Step, Legal, After;
    PushBoth(cfg, s3, p, q, k, older, newer);
    Then(cfg, s2, Stamp(q), pushes);
    Then(cfg, s1, Tick(1), [Stamp(q)] + pushes);
    Then(cfg, s, Stamp(p), [Tick(1)] + ([Stamp(q)] + pushes));
    run := [Stamp(p)] + ([Tick(1)] + ([Stamp(q)] + pushes));
  }

  /** Such a run from the empty pool. */
  lemma CrossingRun(cfg: Config) returns (run: seq<Action>)
    requires cfg.cap >= 2
    ensures Legal(cfg, Start, run) && !NewestFirst(Pool(After(cfg, Start, run), 0))
  {
    var s1 := Step(cfg, Start, Prewarm(0, 0, 1));
    var s2 := Step(cfg, s1, Prewarm(1, 0, 2));
    assert ProcOf(s2, 0) == Stamping(0, 1) && ProcOf(s2, 1) == Stamping(0, 2) && Pool(s2, 0) == [];
    hide Step, Legal, After;
    var cross := CrossingPushes(cfg, s2, 0, 1, 0, 1, 2);
    Then(cfg, s1, Prewarm(1, 0, 2), cross);
    Then(cfg, Start, Prewarm(0, 0, 1), [Prewarm(1, 0, 2)] + cross);
    run := [Prewarm(0, 0, 1)] + ([Prewarm(1, 0, 2)] + cross);
  }

  /** On an ordered list the reaper removes exactly a tail segment. */
  lemma {:induction false} ReaperCutsTail(cfg: Config, now: int, raw: seq<Entry>)
    requires NewestFirst(raw)
    ensures Keep(cfg, now, raw) <= raw
    ensures forall i :: 0 <= i < |raw| ==> (Expired(cfg, now, raw[i]) <==> |Keep(cfg, now, raw)| <= i)
  {
    if raw != [] {
      ReaperCutsTail(cfg, now, raw[..|raw| - 1]);
    }
  }
}
