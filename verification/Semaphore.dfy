/**
 The Redis-backed counting semaphore that gates `docker run` and compilers.

 Every Redis command is one atomic step of some process; the steps of any number
 of processes interleave freely.  Redis may restart (it keeps nothing) and a
 process may die at any point.
 */
module Semaphore {

  /** Where a process stands inside the context manager.  The epochs (number of restarts so far) are history:
      when SETNX was won, when the DEL was sent, when the token was taken. */
  datatype Pc =
    | Idle                              // outside, or about to SETNX
    | Deleting(since: nat)              // won SETNX, DEL comes next
    | Filling(since: nat, wipe: nat)    // RPUSH comes next
    | Waiting                           // BRPOP comes next
    | Holding(since: nat)               // inside the `with` body
    | Dead(was: Pc)

  /** What happened since the last restart: fills by the initialiser of this epoch and by those of earlier ones,
      releases of tokens taken in earlier epochs, and tokens removed by DEL. */
  datatype Book = Book(own: nat, stray: nat, stale: nat, wiped: nat)

  datatype State = State(inited: bool, tokens: nat, procs: map<nat, Pc>, restarts: nat, book: Book)

  const Start := State(false, 0, map[], 0, Book(0, 0, 0, 0))

  datatype Action =
    | SetNx(p: nat)
    | Delete(p: nat)
    | Fill(p: nat)
    | Acquire(p: nat)   // BRPOP hands out a token
    | TimeOut(p: nat)   // BRPOP gives up
    | Release(p: nat)   // the LPUSH of the `finally` block
    | Crash(p: nat)
    | Restart           // Redis loses the flag and the tokens

  function At(procs: map<nat, Pc>, p: nat): Pc { if p in procs then procs[p] else Idle }

  function PcOf(s: State, p: nat): Pc { At(s.procs, p) }

  predicate Enabled(s: State, a: Action) {
    match a
    case SetNx(p) => PcOf(s, p) == Idle
    case Delete(p) => PcOf(s, p).Deleting?
    case Fill(p) => PcOf(s, p).Filling?
    case Acquire(p) => PcOf(s, p) == Waiting && s.tokens > 0
    case TimeOut(p) => PcOf(s, p) == Waiting
    case Release(p) => PcOf(s, p).Holding?
    case Crash(p) => !PcOf(s, p).Dead?
    case Restart => true
  }

  /** The place of `a.p` after its action. */
  function NextPc(s: State, a: Action): Pc
    requires Enabled(s, a) && !a.Restart?
  {
    match a
    case SetNx(_) => if s.inited then Waiting else Deleting(s.restarts)
    case Delete(p) => Filling(s.procs[p].since, s.restarts)
    case Fill(_) => Waiting
    case Acquire(_) => Holding(s.restarts)
    case TimeOut(_) => Idle
    case Release(_) => Idle
    case Crash(p) => Dead(PcOf(s, p))
  }

  function NextTokens(n: nat, s: State, a: Action): nat
    requires Enabled(s, a)
  {
    match a
    case Delete(_) => 0
    case Restart => 0
    case Fill(_) => s.tokens + n
    case Acquire(_) => s.tokens - 1
    case Release(_) => s.tokens + 1
    case _ => s.tokens
  }

  function NextBook(s: State, a: Action): Book
    requires Enabled(s, a)
  {
    var b := s.book;
    match a
    case Delete(_) => b.(wiped := b.wiped + s.tokens)
    case Fill(p) => if s.procs[p].since == s.restarts then b.(own := b.own + 1) else b.(stray := b.stray + 1)
    case Release(p) => if s.procs[p].since == s.restarts then b else b.(stale := b.stale + 1)
    case Restart => Book(0, 0, 0, 0)
    case _ => b
  }

  function Step(n: nat, s: State, a: Action): State
    requires Enabled(s, a)
  {
    State(
      if a.Restart? then false else s.inited || a.SetNx?,
      NextTokens(n, s, a),
      if a.Restart? then s.procs else s.procs[a.p := NextPc(s, a)],
      if a.Restart? then s.restarts + 1 else s.restarts,
      NextBook(s, a))
  }

  /** A run is a sequence of actions, each enabled where it happens. */
  predicate Legal(n: nat, s: State, run: seq<Action>)
    decreases |run|
  {
    run == [] || (Enabled(s, run[0]) && Legal(n, Step(n, s, run[0]), run[1..]))
  }

  function After(n: nat, s: State, run: seq<Action>): State
    requires Legal(n, s, run)
    decreases |run|
  {
    if run == [] then s else After(n, Step(n, s, run[0]), run[1..])
  }

  /** No process is stuck: whatever the tokens, one that is alive gets out by at most three steps of its own. */
  lemma AlwaysGetsOut(n: nat, s: State, p: nat) returns (run: seq<Action>)
    requires !PcOf(s, p).Dead?
    ensures |run| <= 3 && (forall a <- run :: !a.Restart? && !a.Crash? && a.p == p)
    ensures Legal(n, s, run) && PcOf(After(n, s, run), p) == Idle
  {
    match PcOf(s, p)
    case Idle => run := [];
    case Holding(_) => run := OneStep(n, s, Release(p));
    case Waiting => run := OneStep(n, s, TimeOut(p));
    case Filling(_, _) => run := GivesUp(n, s, Fill(p));
    case Deleting(_) =>
      run := GivesUp(n, Step(n, s, Delete(p)), Fill(p));
      assert ([Delete(p)] + run)[1..] == run;
      run := [Delete(p)] + run;
  }

  lemma OneStep(n: nat, s: State, a: Action) returns (run: seq<Action>)
    requires Enabled(s, a)
    ensures run == [a] && Legal(n, s, run) && After(n, s, run) == Step(n, s, a)
  {
    run := [a];
    assert run[1..] == [];
  }

  lemma GivesUp(n: nat, s: State, a: Action) returns (run: seq<Action>)
    requires a.Fill? && Enabled(s, a)
    ensures run == [a, TimeOut(a.p)] && Legal(n, s, run) && PcOf(After(n, s, run), a.p) == Idle
  {
    run := [a, TimeOut(a.p)];
    var rest := OneStep(n, Step(n, s, a), TimeOut(a.p));
    assert run[1..] == rest;
  }

  // ------------------------------------------------------------------
  // Counting processes by place
  // ------------------------------------------------------------------

  datatype Kind =
    | Holds | Inits                          // in whichever epoch
    | HoldsIn(e: nat) | InitsIn(e: nat)
    | DiedHoldingIn(e: nat) | DiedInitIn(e: nat)
    | WipingIn(e: nat)                       // sent its DEL in `e` and not refilled, dead or alive

  predicate Initialising(pc: Pc) { pc.Deleting? || pc.Filling? }

  predicate Is(k: Kind, pc: Pc) {
    match k
    case Holds => pc.Holding?
    case Inits => Initialising(pc)
    case HoldsIn(e) => pc == Holding(e)
    case InitsIn(e) => Initialising(pc) && pc.since == e
    case DiedHoldingIn(e) => pc == Dead(Holding(e))
    case DiedInitIn(e) => pc.Dead? && Initialising(pc.was) && pc.was.since == e
    case WipingIn(e) => (pc.Filling? && pc.wipe == e) || (pc.Dead? && pc.was.Filling? && pc.was.wipe == e)
  }

  function Where(procs: map<nat, Pc>, k: Kind): set<nat> { set p | p in procs && Is(k, procs[p]) }

  function Number(s: State, k: Kind): nat { |Where(s.procs, k)| }

  function One(b: bool): nat { if b then 1 else 0 }

  lemma Resized(xs: set<nat>, x: nat)
    ensures |xs + {x}| == |xs| + if x in xs then 0 else 1
    ensures |xs - {x}| == |xs| - if x in xs then 1 else 0
  {
    if x in xs { assert xs + {x} == xs; } else { assert xs - {x} == xs; }
  }

  lemma IdleCountsNowhere(k: Kind)
    ensures !Is(k, Idle)
  {
  }

  /** One process moves: each count changes by at most one. */
  lemma Counted(procs: map<nat, Pc>, p: nat, pc: Pc, k: Kind)
    ensures |Where(procs[p := pc], k)| == |Where(procs, k)| + One(Is(k, pc)) - One(Is(k, At(procs, p)))
  {
    hide Is;
    IdleCountsNowhere(k);
    var xs := Where(procs, k);
    Resized(xs, p);
    assert Where(procs[p := pc], k) == if Is(k, pc) then xs + {p} else xs - {p};
    assert p in xs <==> Is(k, At(procs, p));
  }

  lemma CountedStep(n: nat, s: State, a: Action, k: Kind)
    requires Enabled(s, a) && !a.Restart?
    ensures Number(Step(n, s, a), k) == Number(s, k) + One(Is(k, NextPc(s, a))) - One(Is(k, PcOf(s, a.p)))
  {
    Counted(s.procs, a.p, NextPc(s, a), k);
  }

  // ------------------------------------------------------------------
  // The account of the current epoch
  // ------------------------------------------------------------------

  predicate PastLive(pc: Pc, now: nat) {
    match pc
    case Deleting(e) => e <= now
    case Filling(e, w) => e <= now && w <= now
    case Holding(e) => e <= now
    case _ => true
  }

  /** No tag is from the future. */
  predicate Past(pc: Pc, now: nat) { PastLive(if pc.Dead? then pc.was else pc, now) }

  /** Tokens of this epoch: in the list, with a process, or lost with one. */
  function Slots(s: State): nat {
    s.tokens + Number(s, HoldsIn(s.restarts)) + Number(s, DiedHoldingIn(s.restarts))
  }

  /** The initialiser of this epoch has filled the list, is under way, or has died before the fill; and every
      token that was put into the list is accounted for. */
  ghost predicate Balanced(n: nat, s: State) {
    && s.book.own + Number(s, InitsIn(s.restarts)) + Number(s, DiedInitIn(s.restarts)) == One(s.inited)
    && Slots(s) + s.book.wiped == n * (s.book.own + s.book.stray) + s.book.stale
  }

  ghost predicate Accounted(n: nat, s: State) {
    && (forall p <- s.procs :: Past(s.procs[p], s.restarts))
    && Balanced(n, s)
    && (s.restarts == 0 ==> s.book.stray == s.book.stale == s.book.wiped == 0)
  }

  lemma FreshEpoch(n: nat, s: State, k: Kind)
    requires forall p <- s.procs :: Past(s.procs[p], s.restarts)
    requires k in {HoldsIn(s.restarts + 1), InitsIn(s.restarts + 1), DiedHoldingIn(s.restarts + 1), DiedInitIn(s.restarts + 1)}
    ensures Where(s.procs, k) == {}
  {
  }

  lemma BalancedMove(n: nat, s: State, a: Action)
    requires Balanced(n, s) && Enabled(s, a) && !a.Restart?
    ensures Balanced(n, Step(n, s, a))
  {
    var e := s.restarts;
    CountedStep(n, s, a, HoldsIn(e));
    CountedStep(n, s, a, InitsIn(e));
    CountedStep(n, s, a, DiedHoldingIn(e));
    CountedStep(n, s, a, DiedInitIn(e));
    assert n * (s.book.own + s.book.stray + 1) == n * (s.book.own + s.book.stray) + n;
  }

  lemma AccountedStep(n: nat, s: State, a: Action)
    requires Accounted(n, s) && Enabled(s, a)
    ensures Accounted(n, Step(n, s, a))
  {
    var e := s.restarts;
    if a.Restart? {
      FreshEpoch(n, s, HoldsIn(e + 1));
      FreshEpoch(n, s, InitsIn(e + 1));
      FreshEpoch(n, s, DiedHoldingIn(e + 1));
      FreshEpoch(n, s, DiedInitIn(e + 1));
    } else {
      hide Balanced;
      BalancedMove(n, s, a);
      if e == 0 { FirstEpochStep(n, s, a); }
    }
  }

  lemma FirstEpochStep(n: nat, s: State, a: Action)
    requires Accounted(n, s) && Enabled(s, a) && !a.Restart? && s.restarts == 0
    ensures var b := Step(n, s, a).book; b.stray == b.stale == b.wiped == 0
  {
    if a.Delete? {
      assert a.p in Where(s.procs, InitsIn(0));
      assert Number(s, InitsIn(0)) > 0;
    }
  }

  lemma {:induction false} AccountedRun(n: nat, s: State, run: seq<Action>)
    requires Accounted(n, s) && Legal(n, s, run)
    ensures Accounted(n, After(n, s, run))
    decreases |run|
  {
    if run != [] {
      AccountedStep(n, s, run[0]);
      AccountedRun(n, Step(n, s, run[0]), run[1..]);
    }
  }

  /** In every run, with any restarts and crashes: exactly one process initialises per epoch, and the tokens of the
      epoch are its fills plus stale releases less what a late DEL removed. */
  lemma EpochAccount(n: nat, run: seq<Action>)
    requires Legal(n, Start, run)
    ensures Balanced(n, After(n, Start, run))
  {
    AccountedRun(n, Start, run);
  }

  // ------------------------------------------------------------------
  // No restart: exact conservation, whoever crashes
  // ------------------------------------------------------------------

  predicate NoRestart(run: seq<Action>) { forall a <- run :: !a.Restart? }

  lemma {:induction false} SameEpoch(n: nat, s: State, run: seq<Action>)
    requires Legal(n, s, run) && NoRestart(run)
    ensures After(n, s, run).restarts == s.restarts
    decreases |run|
  {
    if run != [] {
      SameEpoch(n, Step(n, s, run[0]), run[1..]);
    }
  }

  /** At most one process initialises; until it has filled the list nobody holds a slot; from then on live holders,
      tokens and the slots dead holders took with them are the configured concurrency.  If it dies before the fill
      there is no slot at all. */
  ghost predicate AllOrNone(n: nat, s: State) {
    && Number(s, Inits) + Number(s, DiedInitIn(0)) <= One(s.inited)
    && s.tokens + Number(s, Holds) + Number(s, DiedHoldingIn(0)) ==
         (if s.inited && Number(s, Inits) == 0 && Number(s, DiedInitIn(0)) == 0 then n else 0)
  }

  lemma FirstEpoch(n: nat, s: State)
    requires Accounted(n, s) && s.restarts == 0
    ensures AllOrNone(n, s)
  {
    forall p | p in s.procs ensures Is(Holds, s.procs[p]) == Is(HoldsIn(0), s.procs[p]) && Is(Inits, s.procs[p]) == Is(InitsIn(0), s.procs[p]) {
      assert Past(s.procs[p], 0);
    }
    assert Where(s.procs, Holds) == Where(s.procs, HoldsIn(0)) && Where(s.procs, Inits) == Where(s.procs, InitsIn(0));
    hide Where;
    if s.book.own == 0 {
      assert Slots(s) == n * 0;
    } else {
      assert Slots(s) == n * 1;
    }
  }

  /** In every run without a restart, whoever crashes. */
  lemma Conservation(n: nat, run: seq<Action>)
    requires Legal(n, Start, run) && NoRestart(run)
    ensures AllOrNone(n, After(n, Start, run))
  {
    hide Legal, After, Accounted, AllOrNone;
    AccountedAtStart(n);
    AccountedRun(n, Start, run);
    SameEpoch(n, Start, run);
    FirstEpoch(n, After(n, Start, run));
  }

  lemma AccountedAtStart(n: nat)
    ensures Accounted(n, Start)
  {
  }

  // ------------------------------------------------------------------
  // An initialiser that dies
  // ------------------------------------------------------------------

  /** The epoch gets no token of its own: only releases of earlier tokens and fills by initialisers of earlier epochs
      reach the list, and without a restart nothing does. */
  ghost predicate Starved(n: nat, s: State) {
    && s.book.own == 0
    && Slots(s) + s.book.wiped == n * s.book.stray + s.book.stale
    && (s.restarts == 0 ==> Slots(s) == 0)
  }

  lemma DeadInitialiser(n: nat, s: State)
    requires Accounted(n, s) && Number(s, DiedInitIn(s.restarts)) > 0
    ensures Starved(n, s)
  {
    hide Where;
    assert s.book.own == 0;
    assert n * (s.book.own + s.book.stray) == n * s.book.stray;
    assert n * 0 == 0;
  }

  /** In every run: when the initialiser of the current epoch has died before its fill, the epoch is starved. */
  lemma CrashedInitialiserStarves(n: nat, run: seq<Action>)
    requires Legal(n, Start, run)
    requires Number(After(n, Start, run), DiedInitIn(After(n, Start, run).restarts)) > 0
    ensures Starved(n, After(n, Start, run))
  {
    hide Legal, After, Accounted, Starved;
    AccountedAtStart(n);
    AccountedRun(n, Start, run);
    DeadInitialiser(n, After(n, Start, run));
  }

  /** A stale release feeds such an epoch: its initialiser is dead, yet there is a token. */
  lemma StaleReleaseFeeds(n: nat) returns (run: seq<Action>)
    requires n > 0
    ensures Legal(n, Start, run)
    ensures var s := After(n, Start, run);
      Number(s, DiedInitIn(s.restarts)) > 0 && s.book == Book(0, 0, 1, 0) && s.tokens == 1
  {
    var boot := Initialise(n, Start, 0);
    var s1 := After(n, Start, boot);
    var take := TakeOne(n, s1, 1);
    var s2 := After(n, s1, take);
    var s3 := Step(n, s2, Restart);
    var s4 := Step(n, s3, SetNx(2));
    var s5 := Step(n, s4, Crash(2));
    var s6 := Step(n, s5, Release(1));
    assert 2 in Where(s6.procs, DiedInitIn(1));
    Then(n, s5, Release(1), []);
    Then(n, s4, Crash(2), [Release(1)]);
    Then(n, s3, SetNx(2), [Crash(2)] + [Release(1)]);
    var rest := [SetNx(2)] + ([Crash(2)] + [Release(1)]);
    Then(n, s2, Restart, rest);
    Joined(n, s1, take, [Restart] + rest);
    Joined(n, Start, boot, take + ([Restart] + rest));
    run := boot + (take + ([Restart] + rest));
  }

  // ------------------------------------------------------------------
  // When the slots come back
  // ------------------------------------------------------------------

  /** The initialiser of this epoch has filled the list, and nobody removed tokens in this epoch without refilling. */
  predicate Settled(s: State) {
    && s.inited && Number(s, InitsIn(s.restarts)) == 0 && Number(s, DiedInitIn(s.restarts)) == 0
    && Number(s, WipingIn(s.restarts)) == 0
  }

  ghost predicate Replenished(n: nat, s: State) { Settled(s) ==> Slots(s) >= n }

  lemma ReplenishedStep(n: nat, s: State, a: Action)
    requires Replenished(n, s) && Enabled(s, a)
    ensures Replenished(n, Step(n, s, a))
    ensures a.Fill? ==> Step(n, s, a).tokens >= n
  {
    if !a.Restart? {
      var e := s.restarts;
      CountedStep(n, s, a, HoldsIn(e));
      CountedStep(n, s, a, InitsIn(e));
      CountedStep(n, s, a, DiedHoldingIn(e));
      CountedStep(n, s, a, DiedInitIn(e));
      CountedStep(n, s, a, WipingIn(e));
      assert Is(InitsIn(e), PcOf(s, a.p)) ==> a.p in Where(s.procs, InitsIn(e));
    }
  }

  lemma {:induction false} ReplenishedRun(n: nat, s: State, run: seq<Action>)
    requires Replenished(n, s) && Legal(n, s, run)
    ensures Replenished(n, After(n, s, run))
    decreases |run|
  {
    if run != [] {
      ReplenishedStep(n, s, run[0]);
      ReplenishedRun(n, Step(n, s, run[0]), run[1..]);
    }
  }

  /** However often Redis restarts and whoever crashes: once the epoch is settled, at least N slots exist. */
  lemma SlotsComeBack(n: nat, run: seq<Action>)
    requires Legal(n, Start, run)
    ensures Settled(After(n, Start, run)) ==> Slots(After(n, Start, run)) >= n
  {
    ReplenishedRun(n, Start, run);
  }

  /** The last condition is needed: an initialiser of an earlier epoch that sends its DEL late and dies
      takes every slot away, with nobody left to refill. */
  lemma LateDeleteLosesSlots(n: nat) returns (run: seq<Action>)
    ensures Legal(n, Start, run)
    ensures var s := After(n, Start, run);
      && s.inited && Where(s.procs, Inits) == {} && Number(s, DiedInitIn(s.restarts)) == 0
      && s.tokens == 0 && Where(s.procs, Holds) == {} && s.book.own == 1
  {
    var s1 := Step(n, Start, SetNx(0));
    var s2 := Step(n, s1, Restart);
    var boot := Initialise(n, s2, 1);
    var s3 := After(n, s2, boot);
    var s4 := Step(n, s3, Delete(0));
    var s5 := Step(n, s4, Crash(0));
    assert s5.procs == map[0 := Dead(Filling(0, 1)), 1 := Waiting];
    assert Where(s5.procs, DiedInitIn(1)) == {} && Where(s5.procs, Inits) == {} && Where(s5.procs, Holds) == {};
    Then(n, s4, Crash(0), []);
    Then(n, s3, Delete(0), [Crash(0)]);
    Joined(n, s2, boot, [Delete(0)] + [Crash(0)]);
    Then(n, s1, Restart, boot + ([Delete(0)] + [Crash(0)]));
    Then(n, Start, SetNx(0), [Restart] + (boot + ([Delete(0)] + [Crash(0)])));
    run := [SetNx(0)] + ([Restart] + (boot + ([Delete(0)] + [Crash(0)])));
  }

  // ------------------------------------------------------------------
  // Crashes, restarts, stale releases: the upper bound
  // ------------------------------------------------------------------

  ghost predicate Bounded(n: nat, s: State) {
    Number(s, Holds) + s.tokens + n * Number(s, Inits) + (if s.inited then 0 else n) <= n * (s.restarts + 1)
  }

  lemma Distribute(n: nat, q: int, d: int)
    ensures n * (q + d) == n * q + n * d
  {
  }

  lemma BoundedStep(n: nat, s: State, a: Action)
    requires Bounded(n, s) && Enabled(s, a)
    ensures Bounded(n, Step(n, s, a))
  {
    var s' := Step(n, s, a);
    if a.Restart? {
      assert n * (s.restarts + 2) == n * (s.restarts + 1) + n;
    } else {
      CountedStep(n, s, a, Holds);
      CountedStep(n, s, a, Inits);
      Distribute(n, Number(s, Inits), Number(s', Inits) - Number(s, Inits));
    }
  }

  lemma {:induction false} BoundedRun(n: nat, s: State, run: seq<Action>)
    requires Bounded(n, s) && Legal(n, s, run)
    ensures Bounded(n, After(n, s, run))
    decreases |run|
  {
    if run != [] {
      BoundedStep(n, s, run[0]);
      BoundedRun(n, Step(n, s, run[0]), run[1..]);
    }
  }

  /** In every run with `k` restarts, holders, tokens and the refills still to come stay within N(k + 1). */
  lemma RestartBound(n: nat, run: seq<Action>)
    requires Legal(n, Start, run)
    ensures var s := After(n, Start, run);
      Number(s, Holds) + s.tokens + n * Number(s, Inits) <= n * (s.restarts + 1)
  {
    BoundedRun(n, Start, run);
  }

  // ------------------------------------------------------------------
  // The restart bound is attained
  // ------------------------------------------------------------------

  lemma Then(n: nat, s: State, a: Action, rest: seq<Action>)
    requires Enabled(s, a) && Legal(n, Step(n, s, a), rest)
    ensures Legal(n, s, [a] + rest) && After(n, s, [a] + rest) == After(n, Step(n, s, a), rest)
  {
    assert ([a] + rest)[1..] == rest;
  }

  lemma {:induction false} Joined(n: nat, s: State, a: seq<Action>, b: seq<Action>)
    requires Legal(n, s, a) && Legal(n, After(n, s, a), b)
    ensures Legal(n, s, a + b) && After(n, s, a + b) == After(n, After(n, s, a), b)
    decreases |a|
  {
    if a == [] {
      assert a + b == b;
    } else {
      assert (a + b)[1..] == a[1..] + b;
      Joined(n, Step(n, s, a[0]), a[1..], b);
    }
  }

  ghost predicate Below(s: State, m: nat) { forall p <- s.procs :: p < m }

  lemma TakeOne(n: nat, s: State, m: nat) returns (run: seq<Action>)
    requires s.inited && s.tokens > 0 && Below(s, m)
    ensures Legal(n, s, run)
    ensures After(n, s, run) == s.(tokens := s.tokens - 1, procs := s.procs[m := Holding(s.restarts)])
    ensures Number(After(n, s, run), Holds) == Number(s, Holds) + 1
  {
    var s1 := Step(n, s, SetNx(m));
    var s2 := Step(n, s1, Acquire(m));
    Then(n, s1, Acquire(m), []);
    Then(n, s, SetNx(m), [Acquire(m)]);
    assert s1.procs[m := Holding(s.restarts)] == s.procs[m := Holding(s.restarts)];
    Counted(s.procs, m, Holding(s.restarts), Holds);
    run := [SetNx(m)] + [Acquire(m)];
  }

  /** New processes take `c` tokens and keep them. */
  lemma {:induction false} TakeAll(n: nat, s: State, m: nat, c: nat) returns (run: seq<Action>)
    requires s.inited && s.tokens >= c && Below(s, m)
    ensures Legal(n, s, run)
    ensures var s' := After(n, s, run);
      s'.inited && s'.restarts == s.restarts && Below(s', m + c) && Number(s', Holds) == Number(s, Holds) + c
    decreases c
  {
    run := [];
    if c > 0 {
      var one := TakeOne(n, s, m);
      var s' := After(n, s, one);
      var rest := TakeAll(n, s', m + 1, c - 1);
      Joined(n, s, one, rest);
      run := one + rest;
    }
  }

  /** A new process initialises the semaphore. */
  lemma Initialise(n: nat, s: State, m: nat) returns (run: seq<Action>)
    requires !s.inited && Below(s, m)
    ensures Legal(n, s, run)
    ensures After(n, s, run) == State(true, n, s.procs[m := Waiting], s.restarts,
                                      s.book.(wiped := s.book.wiped + s.tokens, own := s.book.own + 1))
    ensures Where(After(n, s, run).procs, Holds) == Where(s.procs, Holds)
  {
    var s1 := Step(n, s, SetNx(m));
    var s2 := Step(n, s1, Delete(m));
    var s3 := Step(n, s2, Fill(m));
    assert s1.procs[m := Filling(s.restarts, s.restarts)][m := Waiting] == s.procs[m := Waiting];
    Then(n, s2, Fill(m), []);
    Then(n, s1, Delete(m), [Fill(m)]);
    Then(n, s, SetNx(m), [Delete(m)] + [Fill(m)]);
    run := [SetNx(m)] + ([Delete(m)] + [Fill(m)]);
  }

  /** For every N and k some run with k restarts has N(k + 1) holders and tokens. */
  lemma {:induction false} RestartBoundIsTight(n: nat, k: nat) returns (run: seq<Action>, m: nat)
    ensures Legal(n, Start, run)
    ensures var s := After(n, Start, run);
      s.restarts == k && Number(s, Holds) + s.tokens == n * (k + 1) && s.tokens == n && s.inited && Below(s, m)
  {
    if k == 0 {
      run := Initialise(n, Start, 0);
      m := 1;
    } else {
      run, m := RestartBoundIsTight(n, k - 1);
      var s := After(n, Start, run);
      var take := TakeAll(n, s, m, n);
      var held := After(n, s, take);
      var down := Step(n, held, Restart);
      var boot := Initialise(n, down, m + n);
      Then(n, held, Restart, boot);
      Joined(n, s, take, [Restart] + boot);
      Joined(n, Start, run, take + ([Restart] + boot));
      Distribute(n, k, 1);
      run, m := run + (take + ([Restart] + boot)), m + n + 1;
    }
  }
}
