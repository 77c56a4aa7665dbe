/**
 Who owns a container.  Every started container is in exactly one place in every
 state of a run if and only if no action of the run does harm to a list between a
 reaper's read and its replace; short runs show what each kind of harm leads to.
 */
module PoolOwnership {
  import opened ContainerPool

  datatype Place = Pooled(key: nat) | Held(p: nat) | Dying | Gone

  type Places = map<nat, Place>

  /** The container a process is responsible for, -1 for none. */
  function HeldId(q: Proc): int {
    match q
    case Idle => -1
    case Acquiring(_) => -1
    case Checking(_, e) => e.id
    case Running(_, id) => id
    case Stamping(_, id) => id
    case Ready(_, e) => e.id
  }

  /** A reaper between its two actions on list `k`. */
  ghost predicate Replaces(rs: map<nat, Reaper>, r: nat, k: nat) {
    r in rs && rs[r].Replacing? && rs[r].key == k
  }

  ghost predicate Free(rs: map<nat, Reaper>, k: nat) {
    forall r :: !Replaces(rs, r, k)
  }

  /** Neither the reapers under way on list `k` nor one at `now` evict anything from it. */
  ghost predicate Rereadable(cfg: Config, s: State, now: int, k: nat) {
    && Evict(cfg, now, Pool(s, k)) == []
    && forall q :: Replaces(s.reapers, q, k) ==> Keep(cfg, s.reapers[q].now, s.reapers[q].raw) == Pool(s, k)
  }

  /** What an action may do to a list between a reaper's read and its replace: find it empty, find it at the cap,
      or read it again when neither pass evicts anything. */
  ghost predicate Harmless(cfg: Config, s: State, a: Action) {
    match a
    case Pop(p) => ProcOf(s, p).Acquiring? ==> Free(s.reapers, ProcOf(s, p).key) || Pool(s, ProcOf(s, p).key) == []
    case Push(p) => ProcOf(s, p).Ready? ==> Free(s.reapers, ProcOf(s, p).key) || |Pool(s, ProcOf(s, p).key)| >= cfg.cap
    case Read(r, k) => ReaperOf(s, r).Passing? ==>
      Free(s.reapers, k) || Pool(s, k) == [] || Rereadable(cfg, s, ReaperOf(s, r).now, k)
    case _ => true
  }

  ghost predicate HarmlessRun(cfg: Config, s: State, run: seq<Action>)
    requires Legal(cfg, s, run)
    decreases |run|
  {
    run == [] || (Harmless(cfg, s, run[0]) && HarmlessRun(cfg, Step(cfg, s, run[0]), run[1..]))
  }

  // ------------------------------------------------------------------
  // The invariant
  // ------------------------------------------------------------------

  ghost predicate NoDup(list: seq<Entry>) {
    forall i, j :: 0 <= i < j < |list| ==> list[i].id != list[j].id
  }

  type Lists = map<nat, seq<Entry>>

  function ListOf(eff: Lists, k: nat): seq<Entry> { if k in eff then eff[k] else [] }

  /** `eff` is what the lists amount to: a list between a reaper's read and replace counts as
      already replaced. */
  ghost predicate Effective(cfg: Config, pools: Lists, rs: map<nat, Reaper>, eff: Lists) {
    && (forall k :: Free(rs, k) ==> ListOf(eff, k) == ListOf(pools, k))
    && (forall r, k :: Replaces(rs, r, k) ==>
          ListOf(eff, k) == Keep(cfg, rs[r].now, rs[r].raw))
  }

  /** Listed containers are in the pool and listed once. */
  ghost predicate ListsAgree(eff: Lists, w: Places) {
    && (forall k <- eff :: NoDup(eff[k]))
    && (forall k, e :: k in eff && e in eff[k] ==> e.id in w && w[e.id] == Pooled(k))
    && (forall id <- w :: w[id].Pooled? ==> exists e :: e in ListOf(eff, w[id].key) && e.id == id)
  }

  ghost predicate HoldersAgree(procs: map<nat, Proc>, w: Places) {
    && (forall p <- procs :: HeldId(procs[p]) >= 0 ==> HeldId(procs[p]) in w && w[HeldId(procs[p])] == Held(p))
    && (forall id <- w :: w[id].Held? ==> w[id].p in procs && HeldId(procs[w[id].p]) == id)
  }

  ghost predicate KillsAgree(killing: multiset<nat>, gone: set<nat>, w: Places) {
    && (forall id :: killing[id] == if id in w && w[id].Dying? then 1 else 0)
    && (forall id :: id in gone <==> id in w && w[id].Gone?)
  }

  /** Entries still in Redis but no longer in effect belong to kill tasks. */
  ghost predicate LeftoversDie(pools: Lists, eff: Lists, w: Places) {
    forall k, e :: k in pools && e in pools[k] && e !in ListOf(eff, k) ==> e.id in w && w[e.id] in {Dying, Gone}
  }

  /** `w` tells, for every started container, the one place it is in. */
  ghost predicate OnePlace(cfg: Config, s: State, eff: Lists, w: Places) {
    && w.Keys == s.started
    && Effective(cfg, s.pools, s.reapers, eff) && ListsAgree(eff, w)
    && HoldersAgree(s.procs, w) && KillsAgree(s.killing, s.gone, w) && LeftoversDie(s.pools, eff, w)
  }

  // ------------------------------------------------------------------
  // Moving one container
  // ------------------------------------------------------------------

  /** A process lets go of its container. */
  lemma LetGo(procs: map<nat, Proc>, w: Places, p: nat, q: Proc, place: Place)
    requires HoldersAgree(procs, w) && p in procs && HeldId(procs[p]) >= 0 && HeldId(q) == -1 && !place.Held?
    ensures HoldersAgree(procs[p := q], w[HeldId(procs[p]) := place])
  {
  }

  /** A process keeps its container, or keeps having none. */
  lemma Keeps(procs: map<nat, Proc>, w: Places, p: nat, q: Proc)
    requires HoldersAgree(procs, w) && HeldId(q) == HeldId(if p in procs then procs[p] else Idle)
    ensures HoldersAgree(procs[p := q], w)
  {
  }

  /** A free process takes a container that no process had. */
  lemma Takes(procs: map<nat, Proc>, w: Places, p: nat, q: Proc)
    requires HoldersAgree(procs, w) && HeldId(if p in procs then procs[p] else Idle) == -1
    requires HeldId(q) >= 0 && (HeldId(q) in w ==> !w[HeldId(q)].Held?)
    ensures HoldersAgree(procs[p := q], w[HeldId(q) := Held(p)])
  {
  }

  /** Processes are not concerned by a container that none of them has. */
  lemma HoldersStay(procs: map<nat, Proc>, w: Places, id: nat, place: Place)
    requires HoldersAgree(procs, w) && id in w && !w[id].Held? && !place.Held?
    ensures HoldersAgree(procs, w[id := place])
  {
  }

  /** Lists do not change while a container outside them moves. */
  lemma ListsStay(eff: Lists, w: Places, id: nat, place: Place)
    requires ListsAgree(eff, w) && (id in w ==> !w[id].Pooled?) && !place.Pooled?
    ensures ListsAgree(eff, w[id := place])
  {
    forall k, e | k in eff && e in eff[k] ensures e.id in w[id := place] && w[id := place][e.id] == Pooled(k) {
      assert w[e.id] == Pooled(k);
    }
  }

  lemma ButLast(list: seq<Entry>)
    requires NoDup(list) && list != []
    ensures var e, rest := list[|list| - 1], list[..|list| - 1];
      && NoDup(rest)
      && (forall d :: d in rest <==> d in list && d.id != e.id)
      && (forall d :: d in list ==> d in rest || d == e)
  {
    assert list == list[..|list| - 1] + [list[|list| - 1]];
  }

  lemma ListLoses(eff: Lists, w: Places, k: nat, place: Place)
    requires ListsAgree(eff, w) && ListOf(eff, k) != [] && !place.Pooled?
    ensures var list := eff[k]; var e := list[|list| - 1];
      e.id in w && w[e.id] == Pooled(k) && ListsAgree(eff[k := list[..|list| - 1]], w[e.id := place])
  {
    var list := eff[k];
    var e := list[|list| - 1];
    var eff', w' := eff[k := list[..|list| - 1]], w[e.id := place];
    ButLast(list);
    assert e in eff[k];
    forall id | id in w' && w'[id].Pooled? ensures exists d :: d in ListOf(eff', w'[id].key) && d.id == id {
      var d :| d in ListOf(eff, w[id].key) && d.id == id;
      assert d in ListOf(eff', w'[id].key);
    }
  }

  lemma ListGains(eff: Lists, w: Places, k: nat, e: Entry)
    requires ListsAgree(eff, w) && e.id in w && !w[e.id].Pooled?
    ensures ListsAgree(eff[k := [e] + ListOf(eff, k)], w[e.id := Pooled(k)])
  {
    var list := [e] + ListOf(eff, k);
    var eff', w' := eff[k := list], w[e.id := Pooled(k)];
    forall j, d: Entry | j in eff' && d in eff'[j] ensures d.id in w' && w'[d.id] == Pooled(j) {
      if d != e || j != k { assert d in eff[j] && w[d.id] == Pooled(j); }
    }
    forall d | d in ListOf(eff, k) ensures d.id != e.id { assert w[d.id] == Pooled(k); }
    forall id | id in w' && w'[id].Pooled? ensures exists d :: d in ListOf(eff', w'[id].key) && d.id == id {
      if id == e.id {
        assert e in ListOf(eff', k);
      } else {
        var d :| d in ListOf(eff, w[id].key) && d.id == id;
        assert d in ListOf(eff', w'[id].key);
      }
    }
  }

  lemma KillAdds(killing: multiset<nat>, gone: set<nat>, w: Places, id: nat)
    requires KillsAgree(killing, gone, w) && id in w && !w[id].Dying? && !w[id].Gone?
    ensures KillsAgree(killing + multiset{id}, gone, w[id := Dying])
  {
  }

  lemma KillsStay(killing: multiset<nat>, gone: set<nat>, w: Places, id: nat, place: Place)
    requires KillsAgree(killing, gone, w) && (id in w ==> !w[id].Dying? && !w[id].Gone?) && !place.Dying? && !place.Gone?
    ensures KillsAgree(killing, gone, w[id := place])
  {
  }

  // ------------------------------------------------------------------
  // Steps that touch no list
  // ------------------------------------------------------------------

  /** Containers of kill tasks stay with them. */
  ghost predicate DyingStay(w: Places, w': Places) {
    forall id <- w :: w[id] in {Dying, Gone} ==> id in w' && w'[id] in {Dying, Gone}
  }

  /** The pending replacements are the same ones. */
  ghost predicate SamePending(rs: map<nat, Reaper>, rs': map<nat, Reaper>) {
    && (forall r, k :: Replaces(rs, r, k) <==> Replaces(rs', r, k))
    && (forall r, k :: Replaces(rs, r, k) ==> rs'[r] == rs[r])
  }

  lemma ListsApart(cfg: Config, s: State, s': State, eff: Lists, w: Places, w': Places)
    requires OnePlace(cfg, s, eff, w) && s'.pools == s.pools && DyingStay(w, w') && SamePending(s.reapers, s'.reapers)
    ensures Effective(cfg, s'.pools, s'.reapers, eff) && LeftoversDie(s'.pools, eff, w')
  {
    assert forall k :: Free(s'.reapers, k) ==> Free(s.reapers, k);
  }

  lemma StartStep(cfg: Config, s: State, eff: Lists, w: Places, a: Action) returns (w': Places)
    requires OnePlace(cfg, s, eff, w) && Enabled(s, a) && (a.ColdStart? || a.Prewarm?)
    ensures OnePlace(cfg, Step(cfg, s, a), eff, w')
  {
    w' := w[a.id := Held(a.p)];
    var s' := Step(cfg, s, a);
    ListsApart(cfg, s, s', eff, w, w');
    ListsStay(eff, w, a.id, Held(a.p));
    Takes(s.procs, w, a.p, s'.procs[a.p]);
    KillsStay(s.killing, s.gone, w, a.id, Held(a.p));
  }

  /** Actions of one process that keep or drop its container, and reaper actions on no list. */
  lemma QuietStep(cfg: Config, s: State, eff: Lists, w: Places, a: Action)
    requires OnePlace(cfg, s, eff, w) && Enabled(s, a)
    requires a.Tick? || a.Begin? || a.Stamp? || a.StartPass? || a.EndPass?
    ensures OnePlace(cfg, Step(cfg, s, a), eff, w)
  {
    var s' := Step(cfg, s, a);
    ListsApart(cfg, s, s', eff, w, w);
    if a.Begin? || a.Stamp? { Keeps(s.procs, w, a.p, s'.procs[a.p]); }
  }

  lemma CheckStep(cfg: Config, s: State, eff: Lists, w: Places, a: Action) returns (w': Places)
    requires OnePlace(cfg, s, eff, w) && Enabled(s, a) && a.Check?
    ensures OnePlace(cfg, Step(cfg, s, a), eff, w')
  {
    var s' := Step(cfg, s, a);
    var id := s.procs[a.p].entry.id;
    assert w[id] == Held(a.p);
    if a.usable {
      w' := w;
      Keeps(s.procs, w, a.p, s'.procs[a.p]);
    } else {
      w' := w[id := Dying];
      LetGo(s.procs, w, a.p, s'.procs[a.p], Dying);
      ListsStay(eff, w, id, Dying);
      KillAdds(s.killing, s.gone, w, id);
    }
    ListsApart(cfg, s, s', eff, w, w');
  }

  lemma ReleaseStep(cfg: Config, s: State, eff: Lists, w: Places, a: Action) returns (w': Places)
    requires OnePlace(cfg, s, eff, w) && Enabled(s, a) && a.Release?
    ensures OnePlace(cfg, Step(cfg, s, a), eff, w')
  {
    var s' := Step(cfg, s, a);
    var id := s.procs[a.p].id;
    assert w[id] == Held(a.p);
    if a.alive {
      w' := w;
      Keeps(s.procs, w, a.p, s'.procs[a.p]);
    } else {
      w' := w[id := Gone];
      LetGo(s.procs, w, a.p, s'.procs[a.p], Gone);
      ListsStay(eff, w, id, Gone);
    }
    ListsApart(cfg, s, s', eff, w, w');
  }

  lemma KilledStep(cfg: Config, s: State, eff: Lists, w: Places, id: nat)
    requires OnePlace(cfg, s, eff, w) && Enabled(s, Killed(id))
    ensures id in w && OnePlace(cfg, Step(cfg, s, Killed(id)), eff, w[id := Gone])
  {
    var s' := Step(cfg, s, Killed(id));
    assert s.killing[id] > 0;
    ListsStay(eff, w, id, Gone);
    ListsApart(cfg, s, s', eff, w, w[id := Gone]);
    forall p | p in s.procs && HeldId(s.procs[p]) >= 0 ensures HeldId(s.procs[p]) != id {
      assert w[HeldId(s.procs[p])] == Held(p);
    }
  }

  // ------------------------------------------------------------------
  // Steps on a list
  // ------------------------------------------------------------------

  /** An action changes one list that no reaper is replacing. */
  lemma EffectiveChanges(cfg: Config, pools: Lists, rs: map<nat, Reaper>, eff: Lists, k: nat, list: seq<Entry>)
    requires Effective(cfg, pools, rs, eff) && Free(rs, k)
    ensures Effective(cfg, pools[k := list], rs, eff[k := list])
  {
    assert forall r, j :: Replaces(rs, r, j) ==> j != k;
  }

  lemma LeftoversChange(pools: Lists, eff: Lists, w: Places, w': Places, k: nat, list: seq<Entry>)
    requires LeftoversDie(pools, eff, w) && DyingStay(w, w')
    ensures LeftoversDie(pools[k := list], eff[k := list], w')
  {
  }

  lemma PopStale(cfg: Config, s: State, eff: Lists, w: Places, k: nat)
    requires OnePlace(cfg, s, eff, w) && Free(s.reapers, k) && Pool(s, k) != []
    ensures var list := Pool(s, k); var e, rest := list[|list| - 1], list[..|list| - 1];
      OnePlace(cfg, Kill(SetPool(s, k, rest), e.id), eff[k := rest], w[e.id := Dying])
  {
    var list := Pool(s, k);
    assert ListOf(eff, k) == list;
    hide ListsAgree, HoldersAgree, KillsAgree, Effective, LeftoversDie;
    var e, rest := list[|list| - 1], list[..|list| - 1];
    ListLoses(eff, w, k, Dying);
    HoldersStay(s.procs, w, e.id, Dying);
    assert DyingStay(w, w[e.id := Dying]);
    KillAdds(s.killing, s.gone, w, e.id);
    EffectiveChanges(cfg, s.pools, s.reapers, eff, k, rest);
    LeftoversChange(s.pools, eff, w, w[e.id := Dying], k, rest);
    assert OnePlace(cfg, Kill(SetPool(s, k, rest), e.id), eff[k := rest], w[e.id := Dying]);
  }

  lemma PopTake(cfg: Config, s: State, eff: Lists, w: Places, k: nat, p: nat)
    requires OnePlace(cfg, s, eff, w) && Free(s.reapers, k) && Pool(s, k) != [] && HeldId(ProcOf(s, p)) == -1
    ensures var list := Pool(s, k); var e, rest := list[|list| - 1], list[..|list| - 1];
      OnePlace(cfg, Goto(SetPool(s, k, rest), p, Checking(k, e)), eff[k := rest], w[e.id := Held(p)])
  {
    var list := Pool(s, k);
    assert ListOf(eff, k) == list;
    hide ListsAgree, HoldersAgree, KillsAgree, Effective, LeftoversDie;
    var e, rest := list[|list| - 1], list[..|list| - 1];
    ListLoses(eff, w, k, Held(p));
    assert DyingStay(w, w[e.id := Held(p)]);
    assert HeldId(Checking(k, e)) == e.id;
    Takes(s.procs, w, p, Checking(k, e));
    KillsStay(s.killing, s.gone, w, e.id, Held(p));
    EffectiveChanges(cfg, s.pools, s.reapers, eff, k, rest);
    LeftoversChange(s.pools, eff, w, w[e.id := Held(p)], k, rest);
    assert OnePlace(cfg, Goto(SetPool(s, k, rest), p, Checking(k, e)), eff[k := rest], w[e.id := Held(p)]);
  }

  lemma PopKeepsPlaces(cfg: Config, s: State, eff: Lists, w: Places, p: nat) returns (eff': Lists, w': Places)
    requires OnePlace(cfg, s, eff, w) && Enabled(s, Pop(p)) && Harmless(cfg, s, Pop(p))
    ensures OnePlace(cfg, Step(cfg, s, Pop(p)), eff', w')
  {
    var k := s.procs[p].key;
    var list := Pool(s, k);
    if list == [] {
      eff', w' := eff, w;
      Keeps(s.procs, w, p, Idle);
      ListsApart(cfg, s, Step(cfg, s, Pop(p)), eff, w, w);
    } else if Expired(cfg, s.clock, list[|list| - 1]) {
      eff', w' := eff[k := list[..|list| - 1]], w[list[|list| - 1].id := Dying];
      PopStale(cfg, s, eff, w, k);
    } else {
      eff', w' := eff[k := list[..|list| - 1]], w[list[|list| - 1].id := Held(p)];
      PopTake(cfg, s, eff, w, k, p);
    }
  }

  lemma PushStores(cfg: Config, s: State, eff: Lists, w: Places, k: nat, e: Entry, p: nat)
    requires OnePlace(cfg, s, eff, w) && Free(s.reapers, k) && HeldId(ProcOf(s, p)) == e.id
    ensures OnePlace(cfg, SetPool(Goto(s, p, Idle), k, [e] + Pool(s, k)), eff[k := [e] + Pool(s, k)], w[e.id := Pooled(k)])
  {
    var list := [e] + Pool(s, k);
    assert ListOf(eff, k) == Pool(s, k) && w[e.id] == Held(p);
    LetGo(s.procs, w, p, Idle, Pooled(k));
    ListGains(eff, w, k, e);
    KillsStay(s.killing, s.gone, w, e.id, Pooled(k));
    EffectiveChanges(cfg, s.pools, s.reapers, eff, k, list);
    LeftoversChange(s.pools, eff, w, w[e.id := Pooled(k)], k, list);
  }

  lemma PushKeepsPlaces(cfg: Config, s: State, eff: Lists, w: Places, p: nat) returns (eff': Lists, w': Places)
    requires OnePlace(cfg, s, eff, w) && Enabled(s, Push(p)) && Harmless(cfg, s, Push(p))
    ensures OnePlace(cfg, Step(cfg, s, Push(p)), eff', w')
  {
    var k, e := s.procs[p].key, s.procs[p].entry;
    var list := Pool(s, k);
    assert w[e.id] == Held(p);
    if |list| >= cfg.cap {
      eff', w' := eff, w[e.id := Dying];
      LetGo(s.procs, w, p, Idle, Dying);
      ListsStay(eff, w, e.id, Dying);
      KillAdds(s.killing, s.gone, w, e.id);
      ListsApart(cfg, s, PushStep(cfg, s, p, k, e), eff, w, w');
    } else {
      eff', w' := eff[k := [e] + list], w[e.id := Pooled(k)];
      PushStores(cfg, s, eff, w, k, e, p);
    }
  }

  // ------------------------------------------------------------------
  // The reaper's two steps
  // ------------------------------------------------------------------

  lemma {:induction false} KeepMembers(cfg: Config, now: int, raw: seq<Entry>, e: Entry)
    ensures e in Keep(cfg, now, raw) <==> e in raw && !Expired(cfg, now, e)
  {
    if raw != [] {
      KeepMembers(cfg, now, raw[..|raw| - 1], e);
      assert raw == raw[..|raw| - 1] + [raw[|raw| - 1]];
    }
  }

  lemma {:induction false} KeepNoDup(cfg: Config, now: int, raw: seq<Entry>)
    requires NoDup(raw)
    ensures NoDup(Keep(cfg, now, raw))
  {
    if raw != [] {
      var n := |raw| - 1;
      KeepNoDup(cfg, now, raw[..n]);
      forall e | e in Keep(cfg, now, raw[..n]) ensures e.id != raw[n].id {
        KeepMembers(cfg, now, raw[..n], e);
      }
    }
  }

  /** Each expired entry gets exactly one kill task. */
  lemma {:induction false} EvictCounts(cfg: Config, now: int, raw: seq<Entry>, id: nat)
    requires NoDup(raw)
    ensures multiset(Evict(cfg, now, raw))[id] == if exists e :: e in raw && e.id == id && Expired(cfg, now, e) then 1 else 0
  {
    if raw != [] {
      var n := |raw| - 1;
      EvictCounts(cfg, now, raw[..n], id);
      assert raw == raw[..n] + [raw[n]];
      assert forall e :: e in raw <==> e in raw[..n] || e == raw[n];
      assert forall e :: e in raw[..n] ==> e.id != raw[n].id;
    }
  }

  /** Places once the expired entries of a list are with kill tasks. */
  function AfterEvict(cfg: Config, now: int, raw: seq<Entry>, w: Places): Places {
    map id | id in w :: if id in Evict(cfg, now, raw) then Dying else w[id]
  }

  lemma EvictedIds(cfg: Config, now: int, raw: seq<Entry>, id: nat)
    requires NoDup(raw)
    ensures id in Evict(cfg, now, raw) <==> exists e :: e in raw && e.id == id && Expired(cfg, now, e)
  {
    EvictCounts(cfg, now, raw, id);
    assert id in Evict(cfg, now, raw) <==> multiset(Evict(cfg, now, raw))[id] > 0;
  }

  lemma EvictLists(cfg: Config, now: int, eff: Lists, w: Places, k: nat)
    requires ListsAgree(eff, w) && k in eff
    ensures ListsAgree(eff[k := Keep(cfg, now, eff[k])], AfterEvict(cfg, now, eff[k], w))
  {
    var raw := eff[k];
    var eff', w' := eff[k := Keep(cfg, now, raw)], AfterEvict(cfg, now, raw, w);
    KeepNoDup(cfg, now, raw);
    forall j, d: Entry | j in eff' && d in eff'[j] ensures d.id in w' && w'[d.id] == Pooled(j) {
      EvictedIds(cfg, now, raw, d.id);
      if j == k { KeepMembers(cfg, now, raw, d); }
      assert d in eff[j] && w[d.id] == Pooled(j);
      assert forall e :: e in raw && e.id == d.id ==> j == k && e == d;
    }
    forall id | id in w' && w'[id].Pooled? ensures exists d :: d in ListOf(eff', w'[id].key) && d.id == id {
      var d :| d in ListOf(eff, w[id].key) && d.id == id;
      EvictedIds(cfg, now, raw, id);
      KeepMembers(cfg, now, raw, d);
      assert d in ListOf(eff', w'[id].key);
    }
  }

  lemma EvictKills(cfg: Config, s: State, eff: Lists, w: Places, now: int, k: nat)
    requires KillsAgree(s.killing, s.gone, w) && ListsAgree(eff, w) && k in eff
    ensures KillsAgree(s.killing + multiset(Evict(cfg, now, eff[k])), s.gone, AfterEvict(cfg, now, eff[k], w))
  {
    var raw := eff[k];
    var w' := AfterEvict(cfg, now, raw, w);
    forall id ensures (s.killing + multiset(Evict(cfg, now, raw)))[id] == if id in w' && w'[id].Dying? then 1 else 0 {
      EvictCounts(cfg, now, raw, id);
      EvictedIds(cfg, now, raw, id);
      if id in Evict(cfg, now, raw) {
        var e :| e in raw && e.id == id && Expired(cfg, now, e);
        assert w[e.id] == Pooled(k);
      }
    }
    forall id ensures id in s.gone <==> id in w' && w'[id].Gone? {
      EvictedIds(cfg, now, raw, id);
      if id in Evict(cfg, now, raw) {
        var e :| e in raw && e.id == id && Expired(cfg, now, e);
        assert w[e.id] == Pooled(k);
      }
    }
  }

  lemma EvictHolders(cfg: Config, procs: map<nat, Proc>, eff: Lists, w: Places, now: int, k: nat)
    requires HoldersAgree(procs, w) && ListsAgree(eff, w) && k in eff
    ensures HoldersAgree(procs, AfterEvict(cfg, now, eff[k], w))
    ensures DyingStay(w, AfterEvict(cfg, now, eff[k], w))
  {
    forall id | id in w && !w[id].Pooled? ensures id !in Evict(cfg, now, eff[k]) {
      EvictedIds(cfg, now, eff[k], id);
      assert forall e :: e in eff[k] ==> w[e.id].Pooled?;
    }
  }

  /** After the read the list counts as replaced. */
  lemma EffectiveRead(cfg: Config, pools: Lists, rs: map<nat, Reaper>, eff: Lists, r: nat, now: int, k: nat)
    requires Effective(cfg, pools, rs, eff) && Free(rs, k) && (r in rs ==> !rs[r].Replacing?)
    ensures var raw := ListOf(pools, k);
      Effective(cfg, pools, rs[r := Replacing(now, k, raw)], eff[k := Keep(cfg, now, raw)])
  {
    var rs' := rs[r := Replacing(now, k, ListOf(pools, k))];
    assert forall q, j :: Replaces(rs', q, j) <==> Replaces(rs, q, j) || (q == r && j == k);
    assert forall j :: Free(rs', j) ==> Free(rs, j) && j != k by {
      assert Replaces(rs', r, k);
    }
  }

  lemma EvictLeftovers(cfg: Config, pools: Lists, eff: Lists, w: Places, now: int, k: nat)
    requires LeftoversDie(pools, eff, w) && ListsAgree(eff, w) && k in eff && ListOf(pools, k) == eff[k]
    requires DyingStay(w, AfterEvict(cfg, now, eff[k], w))
    ensures LeftoversDie(pools, eff[k := Keep(cfg, now, eff[k])], AfterEvict(cfg, now, eff[k], w))
  {
    var eff', w' := eff[k := Keep(cfg, now, eff[k])], AfterEvict(cfg, now, eff[k], w);
    forall j, e: Entry | j in pools && e in pools[j] && e !in ListOf(eff', j) ensures e.id in w' && w'[e.id] in {Dying, Gone} {
      if j == k {
        KeepMembers(cfg, now, eff[k], e);
        EvictedIds(cfg, now, eff[k], e.id);
      }
    }
  }

  lemma {:induction false} KeepAll(cfg: Config, now: int, raw: seq<Entry>)
    ensures Evict(cfg, now, raw) == [] <==> Keep(cfg, now, raw) == raw
  {
    KeepShorter(cfg, now, raw);
    if raw != [] {
      KeepAll(cfg, now, raw[..|raw| - 1]);
      KeepShorter(cfg, now, raw[..|raw| - 1]);
      assert raw == raw[..|raw| - 1] + [raw[|raw| - 1]];
    }
  }

  /** A second read that evicts nothing from a list in effect changes nothing. */
  lemma RereadKeepsPlaces(cfg: Config, s: State, eff: Lists, w: Places, r: nat, k: nat)
    requires OnePlace(cfg, s, eff, w) && Enabled(s, Read(r, k)) && Harmless(cfg, s, Read(r, k))
    requires Pool(s, k) != [] && !Free(s.reapers, k)
    ensures OnePlace(cfg, Step(cfg, s, Read(r, k)), eff, w)
  {
    var raw, now := Pool(s, k), s.reapers[r].now;
    var q :| Replaces(s.reapers, q, k);
    assert ListOf(eff, k) == Keep(cfg, s.reapers[q].now, s.reapers[q].raw) == raw;
    KeepAll(cfg, now, raw);
    hide Keep, Evict, HoldersAgree, KillsAgree, LeftoversDie, ListsAgree;
    EffectiveReread(cfg, s.pools, s.reapers, eff, r, now, k);
    assert s.killing + multiset(Evict(cfg, now, raw)) == s.killing;
  }

  lemma EffectiveReread(cfg: Config, pools: Lists, rs: map<nat, Reaper>, eff: Lists, r: nat, now: int, k: nat)
    requires Effective(cfg, pools, rs, eff) && !Free(rs, k) && (r in rs ==> !rs[r].Replacing?)
    requires ListOf(eff, k) == Keep(cfg, now, ListOf(pools, k))
    ensures Effective(cfg, pools, rs[r := Replacing(now, k, ListOf(pools, k))], eff)
  {
    hide Keep;
    var rs' := rs[r := Replacing(now, k, ListOf(pools, k))];
    assert forall p, j :: Replaces(rs', p, j) <==> Replaces(rs, p, j) || (p == r && j == k);
    assert forall j :: Free(rs', j) ==> Free(rs, j);
  }

  lemma ReadKeepsPlaces(cfg: Config, s: State, eff: Lists, w: Places, r: nat, k: nat) returns (eff': Lists, w': Places)
    requires OnePlace(cfg, s, eff, w) && Enabled(s, Read(r, k)) && Harmless(cfg, s, Read(r, k))
    ensures OnePlace(cfg, Step(cfg, s, Read(r, k)), eff', w')
  {
    var raw, now := Pool(s, k), s.reapers[r].now;
    eff', w' := eff, w;
    if raw != [] && !Free(s.reapers, k) {
      RereadKeepsPlaces(cfg, s, eff, w, r, k);
    } else if raw != [] {
      assert ListOf(eff, k) == raw == eff[k];
      eff', w' := eff[k := Keep(cfg, now, raw)], AfterEvict(cfg, now, raw, w);
      EvictLists(cfg, now, eff, w, k);
      EvictKills(cfg, s, eff, w, now, k);
      EvictHolders(cfg, s.procs, eff, w, now, k);
      EffectiveRead(cfg, s.pools, s.reapers, eff, r, now, k);
      EvictLeftovers(cfg, s.pools, eff, w, now, k);
    }
  }

  lemma EffectiveReplace(cfg: Config, pools: Lists, rs: map<nat, Reaper>, eff: Lists, r: nat, now: int)
    requires Effective(cfg, pools, rs, eff) && r in rs && rs[r].Replacing?
    ensures ListOf(eff, rs[r].key) == Keep(cfg, rs[r].now, rs[r].raw)
    ensures Effective(cfg, pools[rs[r].key := ListOf(eff, rs[r].key)], rs[r := Passing(now)], eff)
  {
    hide Keep;
    var k, rs' := rs[r].key, rs[r := Passing(now)];
    assert Replaces(rs, r, k);
    assert forall p, j :: Replaces(rs', p, j) <==> Replaces(rs, p, j) && p != r;
    assert forall j :: Free(rs', j) ==> j == k || Free(rs, j);
  }

  /** The replace makes Redis catch up: nothing moves. */
  lemma ReplaceKeepsPlaces(cfg: Config, s: State, eff: Lists, w: Places, r: nat)
    requires OnePlace(cfg, s, eff, w) && Enabled(s, Replace(r))
    ensures OnePlace(cfg, Step(cfg, s, Replace(r)), eff, w)
  {
    EffectiveReplace(cfg, s.pools, s.reapers, eff, r, s.reapers[r].now);
  }

  // ------------------------------------------------------------------
  // Whole runs
  // ------------------------------------------------------------------

  lemma OnePlaceStep(cfg: Config, s: State, eff: Lists, w: Places, a: Action) returns (eff': Lists, w': Places)
    requires OnePlace(cfg, s, eff, w) && Enabled(s, a) && Harmless(cfg, s, a)
    ensures OnePlace(cfg, Step(cfg, s, a), eff', w')
  {
    eff', w' := eff, w;
    match a
    case ColdStart(_, _, _) => w' := StartStep(cfg, s, eff, w, a);
    case Prewarm(_, _, _) => w' := StartStep(cfg, s, eff, w, a);
    case Check(_, _) => w' := CheckStep(cfg, s, eff, w, a);
    case Release(_, _) => w' := ReleaseStep(cfg, s, eff, w, a);
    case Killed(id) => KilledStep(cfg, s, eff, w, id); w' := w[id := Gone];
    case Pop(p) => eff', w' := PopKeepsPlaces(cfg, s, eff, w, p);
    case Push(p) => eff', w' := PushKeepsPlaces(cfg, s, eff, w, p);
    case Read(r, k) => eff', w' := ReadKeepsPlaces(cfg, s, eff, w, r, k);
    case Replace(r) => ReplaceKeepsPlaces(cfg, s, eff, w, r);
    case _ => QuietStep(cfg, s, eff, w, a);
  }

  lemma {:induction false} OnePlaceRun(cfg: Config, s: State, eff: Lists, w: Places, run: seq<Action>) returns (eff': Lists, w': Places)
    requires OnePlace(cfg, s, eff, w) && Legal(cfg, s, run) && HarmlessRun(cfg, s, run)
    ensures OnePlace(cfg, After(cfg, s, run), eff', w')
    decreases |run|
  {
    eff', w' := eff, w;
    if run != [] {
      eff', w' := OnePlaceStep(cfg, s, eff, w, run[0]);
      eff', w' := OnePlaceRun(cfg, Step(cfg, s, run[0]), eff', w', run[1..]);
    }
  }

  /** In every harmless run every started container has exactly one place. */
  lemma ExactlyOnePlace(cfg: Config, run: seq<Action>) returns (eff: Lists, w: Places)
    requires Legal(cfg, Start, run) && HarmlessRun(cfg, Start, run)
    ensures OnePlace(cfg, After(cfg, Start, run), eff, w)
  {
    eff, w := OnePlaceRun(cfg, Start, map[], map[], run);
  }

  // ------------------------------------------------------------------
  // Every other action breaks the account
  // ------------------------------------------------------------------

  /** What one place means for one entry: in effect, held, dying and gone exclude each other, nothing is killed twice,
      and what is in a list is in effect or with a kill task. */
  lemma PlacesExclude(cfg: Config, s: State, eff: Lists, w: Places, k: nat, e: Entry, p: nat)
    requires OnePlace(cfg, s, eff, w)
    ensures s.killing[e.id] <= 1 && (e.id in s.gone ==> s.killing[e.id] == 0)
    ensures e in ListOf(eff, k) || HeldId(ProcOf(s, p)) == e.id ==> s.killing[e.id] == 0 && e.id !in s.gone
    ensures e in ListOf(eff, k) ==> HeldId(ProcOf(s, p)) != e.id
    ensures e in Pool(s, k) && e !in ListOf(eff, k) ==> s.killing[e.id] == 1 || e.id in s.gone
  {
  }

  /** While a reaper is between its two actions, the list in effect is the one it will write. */
  lemma PendingList(cfg: Config, s: State, s': State, eff: Lists, w: Places, eff': Lists, w': Places, k: nat)
    requires OnePlace(cfg, s, eff, w) && OnePlace(cfg, s', eff', w') && !Free(s.reapers, k)
    requires forall q :: Replaces(s.reapers, q, k) ==> Replaces(s'.reapers, q, k) && s'.reapers[q] == s.reapers[q]
    ensures ListOf(eff', k) == ListOf(eff, k)
  {
    var q :| Replaces(s.reapers, q, k);
    assert Replaces(s'.reapers, q, k);
  }

  lemma PopHarms(cfg: Config, s: State, eff: Lists, w: Places, p: nat, eff': Lists, w': Places)
    requires OnePlace(cfg, s, eff, w) && Enabled(s, Pop(p)) && OnePlace(cfg, Step(cfg, s, Pop(p)), eff', w')
    ensures Harmless(cfg, s, Pop(p))
  {
    var k := s.procs[p].key;
    var list, s' := Pool(s, k), Step(cfg, s, Pop(p));
    if list != [] {
      var e := list[|list| - 1];
      hide OnePlace;
      if !Free(s.reapers, k) { PendingList(cfg, s, s', eff, w, eff', w', k); }
      PlacesExclude(cfg, s, eff, w, k, e, p);
      PlacesExclude(cfg, s', eff', w', k, e, p);
    }
  }

  lemma PushHarms(cfg: Config, s: State, eff: Lists, w: Places, p: nat, eff': Lists, w': Places)
    requires OnePlace(cfg, s, eff, w) && Enabled(s, Push(p)) && OnePlace(cfg, Step(cfg, s, Push(p)), eff', w')
    ensures Harmless(cfg, s, Push(p))
  {
    var k, e := s.procs[p].key, s.procs[p].entry;
    var s' := Step(cfg, s, Push(p));
    assert s'.reapers == s.reapers && HeldId(ProcOf(s, p)) == e.id;
    if |Pool(s, k)| < cfg.cap {
      assert s'.killing == s.killing && s'.gone == s.gone && Pool(s', k)[0] == e;
      hide OnePlace, Step;
      if !Free(s.reapers, k) { PendingList(cfg, s, s', eff, w, eff', w', k); }
      PlacesExclude(cfg, s, eff, w, k, e, p);
      PlacesExclude(cfg, s', eff', w', k, e, p);
    }
  }

  lemma PendingKeeps(cfg: Config, s: State, eff: Lists, w: Places, k: nat)
    requires OnePlace(cfg, s, eff, w)
    ensures forall q :: Replaces(s.reapers, q, k) ==> ListOf(eff, k) == Keep(cfg, s.reapers[q].now, s.reapers[q].raw)
  {
  }

  lemma ReadOpens(cfg: Config, s: State, r: nat, k: nat)
    requires Enabled(s, Read(r, k)) && Pool(s, k) != []
    ensures Step(cfg, s, Read(r, k)).reapers == s.reapers[r := Replacing(s.reapers[r].now, k, Pool(s, k))]
  {
  }

  lemma RereadHarms(cfg: Config, s: State, eff: Lists, w: Places, r: nat, k: nat, eff': Lists, w': Places)
    requires OnePlace(cfg, s, eff, w) && Enabled(s, Read(r, k)) && OnePlace(cfg, Step(cfg, s, Read(r, k)), eff', w')
    requires Pool(s, k) != [] && !Free(s.reapers, k)
    ensures Rereadable(cfg, s, s.reapers[r].now, k)
  {
    hide OnePlace, Step, Keep, Evict;
    var raw, now, s' := Pool(s, k), s.reapers[r].now, Step(cfg, s, Read(r, k));
    ReadOpens(cfg, s, r, k);
    assert Replaces(s'.reapers, r, k);
    PendingKeeps(cfg, s', eff', w', k);
    PendingKeeps(cfg, s, eff, w, k);
    PendingList(cfg, s, s', eff, w, eff', w', k);
    EvictsNothing(cfg, s, eff, w, r, k, eff', w');
    KeepAll(cfg, now, raw);
  }

  lemma ReadHarms(cfg: Config, s: State, eff: Lists, w: Places, r: nat, k: nat, eff': Lists, w': Places)
    requires OnePlace(cfg, s, eff, w) && Enabled(s, Read(r, k)) && OnePlace(cfg, Step(cfg, s, Read(r, k)), eff', w')
    ensures Harmless(cfg, s, Read(r, k))
  {
    hide OnePlace, Step, Rereadable;
    if Pool(s, k) != [] && !Free(s.reapers, k) {
      RereadHarms(cfg, s, eff, w, r, k, eff', w');
    }
  }

  /** A read that leaves the list in effect as it was and kills nothing twice has evicted nothing. */
  lemma EvictsNothing(cfg: Config, s: State, eff: Lists, w: Places, r: nat, k: nat, eff': Lists, w': Places)
    requires OnePlace(cfg, s, eff, w) && Enabled(s, Read(r, k)) && OnePlace(cfg, Step(cfg, s, Read(r, k)), eff', w')
    requires Pool(s, k) != [] && ListOf(eff, k) == Keep(cfg, s.reapers[r].now, Pool(s, k))
    ensures Evict(cfg, s.reapers[r].now, Pool(s, k)) == []
  {
    var raw, now, s' := Pool(s, k), s.reapers[r].now, Step(cfg, s, Read(r, k));
    var killed := Evict(cfg, now, raw);
    if killed != [] {
      var e := EvictedEntry(cfg, now, raw, killed[0]);
      assert multiset(killed)[killed[0]] >= 1 && s'.killing == s.killing + multiset(killed);
      hide OnePlace, Step, Evict;
      KeepMembers(cfg, now, raw, e);
      PlacesExclude(cfg, s, eff, w, k, e, 0);
      PlacesExclude(cfg, s', eff', w', k, e, 0);
    }
  }

  lemma {:induction false} EvictedEntry(cfg: Config, now: int, raw: seq<Entry>, id: nat) returns (e: Entry)
    requires id in Evict(cfg, now, raw)
    ensures e in raw && e.id == id && Expired(cfg, now, e)
  {
    var last := raw[|raw| - 1];
    if Expired(cfg, now, last) && last.id == id {
      e := last;
    } else {
      e := EvictedEntry(cfg, now, raw[..|raw| - 1], id);
    }
  }

  /** Some assignment of places accounts for every started container. */
  ghost predicate Sound(cfg: Config, s: State) { exists eff, w :: OnePlace(cfg, s, eff, w) }

  /** From a sound state, a step leads to a sound state exactly when it is harmless. */
  lemma SoundStep(cfg: Config, s: State, a: Action)
    requires Sound(cfg, s) && Enabled(s, a)
    ensures Sound(cfg, Step(cfg, s, a)) <==> Harmless(cfg, s, a)
  {
    var eff, w :| OnePlace(cfg, s, eff, w);
    hide OnePlace, Step;
    if Harmless(cfg, s, a) {
      var eff', w' := OnePlaceStep(cfg, s, eff, w, a);
    }
    if Sound(cfg, Step(cfg, s, a)) {
      var eff', w' :| OnePlace(cfg, Step(cfg, s, a), eff', w');
      match a
      case Pop(p) => PopHarms(cfg, s, eff, w, p, eff', w');
      case Push(p) => PushHarms(cfg, s, eff, w, p, eff', w');
      case Read(r, k) => ReadHarms(cfg, s, eff, w, r, k, eff', w');
      case _ =>
    }
  }

  ghost predicate AlwaysSound(cfg: Config, s: State, run: seq<Action>)
    requires Legal(cfg, s, run)
    decreases |run|
  {
    Sound(cfg, s) && (run == [] || AlwaysSound(cfg, Step(cfg, s, run[0]), run[1..]))
  }

  lemma {:induction false} SoundRun(cfg: Config, s: State, run: seq<Action>)
    requires Sound(cfg, s) && Legal(cfg, s, run)
    ensures AlwaysSound(cfg, s, run) <==> HarmlessRun(cfg, s, run)
    decreases |run|
  {
    hide Sound, Harmless, Step;
    if run != [] {
      SoundStep(cfg, s, run[0]);
      if Sound(cfg, Step(cfg, s, run[0])) {
        SoundRun(cfg, Step(cfg, s, run[0]), run[1..]);
      }
    }
  }

  /** Every started container has exactly one place in every state of a run exactly when every action of the run
      is harmless to the lists that reapers are replacing. */
  lemma OnePlaceIffHarmless(cfg: Config, run: seq<Action>)
    requires Legal(cfg, Start, run)
    ensures AlwaysSound(cfg, Start, run) <==> HarmlessRun(cfg, Start, run)
  {
    assert OnePlace(cfg, Start, map[], map[]);
    SoundRun(cfg, Start, run);
  }

  /** No two processes hold the same container, and a held container is in no Redis list and with no kill task. */
  lemma HeldOnce(cfg: Config, run: seq<Action>, p: nat, q: nat, k: nat, e: Entry)
    requires Legal(cfg, Start, run) && HarmlessRun(cfg, Start, run)
    ensures var s := After(cfg, Start, run);
      var id := HeldId(ProcOf(s, p));
      id >= 0 ==>
        && (HeldId(ProcOf(s, q)) == id ==> q == p)
        && (e in Pool(s, k) ==> e.id != id)
        && s.killing[id] == 0 && id !in s.gone && id in s.started
  {
    var eff, w := ExactlyOnePlace(cfg, run);
    var s := After(cfg, Start, run);
    var id := HeldId(ProcOf(s, p));
    if id >= 0 {
      assert w[id] == Held(p);
      if HeldId(ProcOf(s, q)) == id { assert w[id] == Held(q); }
      if e in Pool(s, k) {
        assert e in ListOf(eff, k) ==> w[e.id] == Pooled(k);
      }
    }
  }

  /** The list position of a container is unique over all lists. */
  ghost predicate OnlyAt(s: State, id: nat, k: nat, i: nat) {
    && i < |Pool(s, k)| && Pool(s, k)[i].id == id
    && forall j, h :: 0 <= h < |Pool(s, j)| && Pool(s, j)[h].id == id ==> j == k && h == i
  }

  lemma PooledPosition(cfg: Config, s: State, eff: Lists, w: Places, id: nat) returns (i: nat)
    requires OnePlace(cfg, s, eff, w) && id in w && w[id].Pooled? && forall k :: Free(s.reapers, k)
    ensures OnlyAt(s, id, w[id].key, i)
  {
    var k := w[id].key;
    assert Free(s.reapers, k);
    var e :| e in ListOf(eff, k) && e.id == id;
    i :| 0 <= i < |Pool(s, k)| && Pool(s, k)[i] == e;
    forall j, h | 0 <= h < |Pool(s, j)| && Pool(s, j)[h].id == id ensures j == k && h == i {
      assert Free(s.reapers, j) && Pool(s, j) == ListOf(eff, j) == eff[j];
      assert Pool(s, j)[h] in eff[j] && NoDup(eff[j]);
    }
  }

  /** Between reaper passes the Redis lists themselves are exact: a started container that no process
      holds, no kill task owns and that is not gone is listed exactly once over all lists. */
  lemma ListedOnce(cfg: Config, run: seq<Action>, id: nat) returns (k: nat, i: nat)
    requires Legal(cfg, Start, run) && HarmlessRun(cfg, Start, run)
    requires forall k :: Free(After(cfg, Start, run).reapers, k)
    requires var s := After(cfg, Start, run);
      id in s.started && s.killing[id] == 0 && id !in s.gone && forall p :: HeldId(ProcOf(s, p)) != id
    ensures OnlyAt(After(cfg, Start, run), id, k, i)
  {
    var eff, w := ExactlyOnePlace(cfg, run);
    var s := After(cfg, Start, run);
    assert w[id].Held? ==> HeldId(ProcOf(s, w[id].p)) == id;
    k := w[id].key;
    i := PooledPosition(cfg, s, eff, w, id);
  }

  // ------------------------------------------------------------------
  // The hypothesis is needed
  // ------------------------------------------------------------------

  lemma KeepLast(cfg: Config, now: int, raw: seq<Entry>)
    requires raw != [] && !Expired(cfg, now, raw[|raw| - 1])
    ensures var kept := Keep(cfg, now, raw); kept != [] && kept[|kept| - 1] == raw[|raw| - 1]
  {
  }

  /** Whenever a fresh entry is popped between a read and the replace, the next pop hands it out again. */
  lemma PopBetweenShares(cfg: Config, s: State, r: nat, k: nat, p: nat, q: nat) returns (run: seq<Action>)
    requires ReaperOf(s, r).Passing? && ProcOf(s, p) == Acquiring(k) == ProcOf(s, q) && p != q && Pool(s, k) != []
    requires var list := Pool(s, k); var e := list[|list| - 1];
      !Expired(cfg, ReaperOf(s, r).now, e) && !Expired(cfg, s.clock, e)
    ensures run == [Read(r, k), Pop(p), Replace(r), Pop(q)] && Legal(cfg, s, run)
    ensures var s' := After(cfg, s, run);
      ProcOf(s', p) == ProcOf(s', q) == Checking(k, Pool(s, k)[|Pool(s, k)| - 1])
  {
    var list, now := Pool(s, k), s.reapers[r].now;
    var e := list[|list| - 1];
    var s1 := Step(cfg, s, Read(r, k));
    assert s1.reapers[r] == Replacing(now, k, list) && Pool(s1, k) == list;
    var s2 := Step(cfg, s1, Pop(p));
    assert s2.procs[p] == Checking(k, e) && s2.reapers == s1.reapers && s2.clock == s.clock;
    KeepLast(cfg, now, list);
    var s3 := Step(cfg, s2, Replace(r));
    assert Pool(s3, k) == Keep(cfg, now, list) && s3.procs == s2.procs && s3.clock == s.clock;
    var s4 := Step(cfg, s3, Pop(q));
    assert s4.procs[q] == Checking(k, e) && s4.procs[p] == Checking(k, e);
    assert Legal(cfg, s4, []);
    Then(cfg, s3, Pop(q), []);
    Then(cfg, s2, Replace(r), [Pop(q)]);
    Then(cfg, s1, Pop(p), [Replace(r)] + [Pop(q)]);
    Then(cfg, s, Read(r, k), [Pop(p)] + ([Replace(r)] + [Pop(q)]));
    run := [Read(r, k)] + ([Pop(p)] + ([Replace(r)] + [Pop(q)]));
  }

  lemma {:induction false} EvictOnlyListed(cfg: Config, now: int, raw: seq<Entry>, id: nat)
    requires forall e <- raw :: e.id != id
    ensures id !in Evict(cfg, now, raw)
  {
    if raw != [] {
      EvictOnlyListed(cfg, now, raw[..|raw| - 1], id);
    }
  }

  /** The container has no place at all: started, not gone, with no kill task, no process and not in list `k`. */
  ghost predicate Lost(s: State, id: nat, k: nat) {
    && id in s.started && id !in s.gone && s.killing[id] == 0
    && (forall q <- s.procs :: HeldId(s.procs[q]) != id)
    && (forall e <- Pool(s, k) :: e.id != id)
  }

  /** Whenever a container is pushed between a read and the replace of its list, the replace drops it. */
  lemma PushBetweenIsLost(cfg: Config, s: State, r: nat, p: nat, k: nat, e: Entry) returns (run: seq<Action>)
    requires ReaperOf(s, r).Passing? && ProcOf(s, p) == Ready(k, e) && 0 < |Pool(s, k)| < cfg.cap
    requires Lost(Goto(s, p, Idle), e.id, k)  // only process `p` has it
    ensures run == [Read(r, k), Push(p), Replace(r)] && Legal(cfg, s, run)
    ensures Lost(After(cfg, s, run), e.id, k)
  {
    var list, now := Pool(s, k), s.reapers[r].now;
    var s1 := Step(cfg, s, Read(r, k));
    assert s1.reapers[r] == Replacing(now, k, list) && Pool(s1, k) == list && s1.procs == s.procs;
    var s2 := Step(cfg, s1, Push(p));
    assert s2.procs == Goto(s, p, Idle).procs && s2.reapers == s1.reapers && s2.killing == s1.killing;
    var s3 := Step(cfg, s2, Replace(r));
    EvictOnlyListed(cfg, now, list, e.id);
    assert multiset(Evict(cfg, now, list))[e.id] == 0;
    forall d | d in Keep(cfg, now, list) ensures d.id != e.id { KeepMembers(cfg, now, list, d); }
    assert Pool(s3, k) == Keep(cfg, now, list) && Lost(s3, e.id, k);
    Then(cfg, s2, Replace(r), []);
    Then(cfg, s1, Push(p), [Replace(r)]);
    Then(cfg, s, Read(r, k), [Push(p)] + [Replace(r)]);
    run := [Read(r, k)] + ([Push(p)] + [Replace(r)]);
  }

  lemma {:induction false} Joined(cfg: Config, s: State, a: seq<Action>, b: seq<Action>)
    requires Legal(cfg, s, a) && Legal(cfg, After(cfg, s, a), b)
    ensures Legal(cfg, s, a + b) && After(cfg, s, a + b) == After(cfg, After(cfg, s, a), b)
    decreases |a|
  {
    if a == [] {
      assert a + b == b;
    } else {
      assert (a + b)[1..] == a[1..] + b;
      Joined(cfg, Step(cfg, s, a[0]), a[1..], b);
    }
  }

  lemma {:induction false} EvictMember(cfg: Config, now: int, raw: seq<Entry>, e: Entry)
    requires e in raw && Expired(cfg, now, e)
    ensures e.id in Evict(cfg, now, raw) && multiset(Evict(cfg, now, raw))[e.id] >= 1
  {
    var n := |raw| - 1;
    assert raw == raw[..n] + [raw[n]];
    if e != raw[n] { EvictMember(cfg, now, raw[..n], e); }
    assert e.id in multiset(Evict(cfg, now, raw));
  }

  /** Whenever the oldest entry goes stale between a reaper's clock reading and a pop inside its window,
      the pop kills it and the replace puts it back. */
  lemma StalePopRevives(cfg: Config, s: State, r: nat, k: nat, p: nat) returns (run: seq<Action>)
    requires ReaperOf(s, r).Passing? && ProcOf(s, p) == Acquiring(k) && Pool(s, k) != []
    requires var e := Pool(s, k)[|Pool(s, k)| - 1]; !Expired(cfg, ReaperOf(s, r).now, e) && Expired(cfg, s.clock, e)
    ensures run == [Read(r, k)] + ([Pop(p)] + [Replace(r)]) && Legal(cfg, s, run)
    ensures var e, s' := Pool(s, k)[|Pool(s, k)| - 1], After(cfg, s, run); e in Pool(s', k) && s'.killing[e.id] > 0
  {
    var list, now := Pool(s, k), s.reapers[r].now;
    var e := list[|list| - 1];
    var s1 := Step(cfg, s, Read(r, k));
    assert s1.reapers[r] == Replacing(now, k, list) && Pool(s1, k) == list && s1.clock == s.clock && s1.procs == s.procs;
    var s2 := Step(cfg, s1, Pop(p));
    assert s2.killing[e.id] > 0 && s2.reapers == s1.reapers;
    var s3 := Step(cfg, s2, Replace(r));
    KeepMembers(cfg, now, list, e);
    assert Pool(s3, k) == Keep(cfg, now, list) && s3.killing == s2.killing;
    Then(cfg, s2, Replace(r), []);
    Then(cfg, s1, Pop(p), [Replace(r)]);
    Then(cfg, s, Read(r, k), [Pop(p)] + [Replace(r)]);
    run := [Read(r, k)] + ([Pop(p)] + [Replace(r)]);
  }

  /** A stale pop of an entry the reaper has evicted gives it a second kill task. */
  lemma StalePopKillsTwice(cfg: Config, s: State, r: nat, k: nat, p: nat) returns (run: seq<Action>)
    requires ReaperOf(s, r).Passing? && ProcOf(s, p) == Acquiring(k) && Pool(s, k) != []
    requires var e := Pool(s, k)[|Pool(s, k)| - 1]; Expired(cfg, ReaperOf(s, r).now, e) && Expired(cfg, s.clock, e)
    ensures run == [Read(r, k)] + [Pop(p)] && Legal(cfg, s, run)
    ensures After(cfg, s, run).killing[Pool(s, k)[|Pool(s, k)| - 1].id] >= 2
  {
    var list, now := Pool(s, k), s.reapers[r].now;
    var e := list[|list| - 1];
    var s1 := Step(cfg, s, Read(r, k));
    EvictMember(cfg, now, list, e);
    assert s1.killing == s.killing + multiset(Evict(cfg, now, list)) && Pool(s1, k) == list && s1.procs == s.procs;
    var s2 := Step(cfg, s1, Pop(p));
    assert s2.killing == s1.killing + multiset{e.id};
    Then(cfg, s1, Pop(p), []);
    Then(cfg, s, Read(r, k), [Pop(p)]);
    run := [Read(r, k)] + [Pop(p)];
  }

  /** Two reads of one expired entry give it two kill tasks. */
  lemma DoubleReadKillsTwice(cfg: Config, s: State, r: nat, q: nat, k: nat, e: Entry) returns (run: seq<Action>)
    requires ReaperOf(s, r).Passing? && ReaperOf(s, q).Passing? && r != q && e in Pool(s, k)
    requires Expired(cfg, ReaperOf(s, r).now, e) && Expired(cfg, ReaperOf(s, q).now, e)
    ensures run == [Read(r, k)] + [Read(q, k)] && Legal(cfg, s, run) && After(cfg, s, run).killing[e.id] >= 2
  {
    var list := Pool(s, k);
    EvictMember(cfg, s.reapers[r].now, list, e);
    EvictMember(cfg, s.reapers[q].now, list, e);
    var s1, s2 := ReadBoth(cfg, s, r, q, k);
    hide Step, Evict;
    Then(cfg, s1, Read(q, k), []);
    Then(cfg, s, Read(r, k), [Read(q, k)]);
    run := [Read(r, k)] + [Read(q, k)];
  }

  /** Two reads of a list, one after the other. */
  lemma ReadBoth(cfg: Config, s: State, r: nat, q: nat, k: nat) returns (s1: State, s2: State)
    requires ReaperOf(s, r).Passing? && ReaperOf(s, q).Passing? && r != q && Pool(s, k) != []
    ensures s1 == Step(cfg, s, Read(r, k)) && Enabled(s1, Read(q, k)) && s2 == Step(cfg, s1, Read(q, k))
    ensures ReaperOf(s2, r) == Replacing(ReaperOf(s, r).now, k, Pool(s, k))
    ensures ReaperOf(s2, q) == Replacing(ReaperOf(s, q).now, k, Pool(s, k))
    ensures s2.killing == s.killing + multiset(Evict(cfg, ReaperOf(s, r).now, Pool(s, k)))
                                    + multiset(Evict(cfg, ReaperOf(s, q).now, Pool(s, k)))
  {
    hide Evict;
    s1 := Step(cfg, s, Read(r, k));
    assert Pool(s1, k) == Pool(s, k) && s1.reapers[q] == s.reapers[q];
    s2 := Step(cfg, s1, Read(q, k));
  }

  /** When two overlapping passes disagree about an entry, the pass that keeps it can write it back after the other
      has sent it to be killed. */
  lemma DisagreeingReadsRevive(cfg: Config, s: State, r: nat, q: nat, k: nat, e: Entry) returns (run: seq<Action>)
    requires ReaperOf(s, r).Passing? && ReaperOf(s, q).Passing? && r != q && e in Pool(s, k)
    requires Expired(cfg, ReaperOf(s, r).now, e) && !Expired(cfg, ReaperOf(s, q).now, e)
    ensures run == [Read(r, k)] + ([Read(q, k)] + ([Replace(r)] + [Replace(q)])) && Legal(cfg, s, run)
    ensures var s' := After(cfg, s, run); e in Pool(s', k) && s'.killing[e.id] > 0
  {
    var list, now := Pool(s, k), s.reapers[q].now;
    EvictMember(cfg, s.reapers[r].now, list, e);
    KeepMembers(cfg, now, list, e);
    hide Keep, Evict, Step;
    var s1, s2 := ReadBoth(cfg, s, r, q, k);
    var tail := ReplaceBoth(cfg, s2, r, q);
    assert s2.killing[e.id] > 0;
    hide Legal, After;
    Then(cfg, s1, Read(q, k), tail);
    Then(cfg, s, Read(r, k), [Read(q, k)] + tail);
    run := [Read(r, k)] + ([Read(q, k)] + tail);
  }

  lemma ReplaceBoth(cfg: Config, s: State, r: nat, q: nat) returns (run: seq<Action>)
    requires ReaperOf(s, r).Replacing? && ReaperOf(s, q).Replacing? && r != q
    ensures run == [Replace(r)] + [Replace(q)] && Legal(cfg, s, run)
    ensures var s', last := After(cfg, s, run), ReaperOf(s, q);
      s'.killing == s.killing && Pool(s', last.key) == Keep(cfg, last.now, last.raw)
  {
    hide Keep;
    var s1 := Step(cfg, s, Replace(r));
    assert s1.reapers[q] == s.reapers[q] && s1.killing == s.killing;
    var s2 := Step(cfg, s1, Replace(q));
    assert s2.killing == s.killing && Pool(s2, s.reapers[q].key) == Keep(cfg, s.reapers[q].now, s.reapers[q].raw);
    Then(cfg, s1, Replace(q), []);
    Then(cfg, s, Replace(r), [Replace(q)]);
    run := [Replace(r)] + [Replace(q)];
  }

  /** One container in the pool. */
  lemma OnePooled(cfg: Config) returns (run: seq<Action>)
    requires cfg.cap > 0
    ensures Legal(cfg, Start, run)
    ensures After(cfg, Start, run) == Start.(pools := map[0 := [Entry(7, 0)]], procs := map[0 := Idle], started := {7})
  {
    var s1 := Step(cfg, Start, ColdStart(0, 0, 7));
    var s2 := Step(cfg, s1, Release(0, true));
    var s3 := Step(cfg, s2, Stamp(0));
    var s4 := Step(cfg, s3, Push(0));
    assert s3.procs == map[0 := Ready(0, Entry(7, 0))];
    assert [Entry(7, 0)] + Pool(s3, 0) == [Entry(7, 0)];
    assert s4.pools == map[0 := [Entry(7, 0)]] && s4.procs == map[0 := Idle];
    Then(cfg, s3, Push(0), []);
    Then(cfg, s2, Stamp(0), [Push(0)]);
    Then(cfg, s1, Release(0, true), [Stamp(0)] + [Push(0)]);
    Then(cfg, Start, ColdStart(0, 0, 7), [Release(0, true)] + ([Stamp(0)] + [Push(0)]));
    run := [ColdStart(0, 0, 7)] + ([Release(0, true)] + ([Stamp(0)] + [Push(0)]));
  }

  /** Two jobs really end up with one container: a run from the empty pool. */
  lemma SharedContainerRun(cfg: Config) returns (run: seq<Action>)
    requires cfg.ttl >= 0 && cfg.cap > 0
    ensures Legal(cfg, Start, run)
    ensures var s := After(cfg, Start, run);
      HeldId(ProcOf(s, 1)) == 7 == HeldId(ProcOf(s, 2))
  {
    var setup := OnePooled(cfg);
    var s4 := After(cfg, Start, setup);
    var s5 := Step(cfg, s4, StartPass(0));
    var s6 := Step(cfg, s5, Begin(1, 0));
    var s7 := Step(cfg, s6, Begin(2, 0));
    var clash := PopBetweenShares(cfg, s7, 0, 0, 1, 2);
    Then(cfg, s6, Begin(2, 0), clash);
    Then(cfg, s5, Begin(1, 0), [Begin(2, 0)] + clash);
    Then(cfg, s4, StartPass(0), [Begin(1, 0)] + ([Begin(2, 0)] + clash));
    run := setup + ([StartPass(0)] + ([Begin(1, 0)] + ([Begin(2, 0)] + clash)));
    Joined(cfg, Start, setup, [StartPass(0)] + ([Begin(1, 0)] + ([Begin(2, 0)] + clash)));
  }
}
