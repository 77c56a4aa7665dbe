/**
 Containers and images: a container is only ever pooled, checked and run under the image it was started from.
 */
module PoolImages {
  import opened ContainerPool

  /** Which image each container was started from. */
  type Images = map<nat, nat>

  function Started(img: Images, a: Action): Images {
    match a
    case ColdStart(_, k, id) => img[id := k]
    case Prewarm(_, k, id) => img[id := k]
    case _ => img
  }

  function StartedIn(img: Images, run: seq<Action>): Images
    decreases |run|
  {
    if run == [] then img else StartedIn(Started(img, run[0]), run[1..])
  }

  ghost predicate From(img: Images, id: nat, k: nat) { id in img && img[id] == k }

  ghost predicate AllFrom(img: Images, list: seq<Entry>, k: nat) { forall e <- list :: From(img, e.id, k) }

  ghost predicate ListsFrom(img: Images, pools: map<nat, seq<Entry>>) { forall k <- pools :: AllFrom(img, pools[k], k) }

  ghost predicate ProcFrom(img: Images, p: Proc) {
    match p
    case Idle => true
    case Acquiring(_) => true
    case Checking(k, e) => From(img, e.id, k)
    case Running(k, id) => From(img, id, k)
    case Stamping(k, id) => From(img, id, k)
    case Ready(k, e) => From(img, e.id, k)
  }

  ghost predicate ReaperFrom(img: Images, r: Reaper) { r.Replacing? ==> AllFrom(img, r.raw, r.key) }

  ghost predicate Separate(s: State, img: Images) {
    && img.Keys == s.started && ListsFrom(img, s.pools)
    && (forall p <- s.procs :: ProcFrom(img, s.procs[p]))
    && (forall r <- s.reapers :: ReaperFrom(img, s.reapers[r]))
  }

  lemma {:induction false} KeepFrom(cfg: Config, now: int, raw: seq<Entry>, img: Images, k: nat)
    requires AllFrom(img, raw, k)
    ensures AllFrom(img, Keep(cfg, now, raw), k)
  {
    if raw != [] {
      var n := |raw| - 1;
      assert raw[n] in raw && forall e <- raw[..n] :: e in raw;
      KeepFrom(cfg, now, raw[..n], img, k);
    }
  }

  /** A container that is new concerns nobody yet. */
  lemma NewContainer(s: State, img: Images, id: nat, k: nat)
    requires Separate(s, img) && id !in s.started
    ensures Separate(s.(started := s.started + {id}), img[id := k])
  {
    var img' := img[id := k];
    assert forall i, j :: From(img, i, j) ==> From(img', i, j);
    hide From;
  }

  lemma Moved(s: State, img: Images, p: nat, q: Proc)
    requires Separate(s, img) && ProcFrom(img, q)
    ensures Separate(Goto(s, p, q), img)
  {
    hide ProcFrom, ListsFrom, ReaperFrom;
    assert Separate(Goto(s, p, q), img);
  }

  lemma Listed(s: State, img: Images, k: nat, list: seq<Entry>)
    requires Separate(s, img) && AllFrom(img, list, k)
    ensures Separate(SetPool(s, k, list), img)
  {
    hide AllFrom, ProcFrom, ReaperFrom;
    assert Separate(SetPool(s, k, list), img);
  }

  lemma Reaping(s: State, img: Images, r: nat, q: Reaper)
    requires Separate(s, img) && ReaperFrom(img, q)
    ensures Separate(SetReaper(s, r, q), img)
  {
    hide ReaperFrom, ListsFrom, ProcFrom;
    assert Separate(SetReaper(s, r, q), img);
  }

  lemma PoolFrom(s: State, img: Images, k: nat)
    requires Separate(s, img)
    ensures AllFrom(img, Pool(s, k), k)
  {
  }

  lemma PopSeparate(cfg: Config, s: State, img: Images, p: nat, k: nat)
    requires Separate(s, img)
    ensures Separate(PopStep(cfg, s, p, k), img)
  {
    PoolFrom(s, img, k);
    var list := Pool(s, k);
    if list == [] {
      Moved(s, img, p, Idle);
    } else {
      var n := |list| - 1;
      assert list[n] in list && forall e <- list[..n] :: e in list;
      Listed(s, img, k, list[..n]);
      Moved(SetPool(s, k, list[..n]), img, p, Checking(k, list[n]));
    }
  }

  lemma PushSeparate(cfg: Config, s: State, img: Images, p: nat, k: nat, e: Entry)
    requires Separate(s, img) && From(img, e.id, k)
    ensures Separate(PushStep(cfg, s, p, k, e), img)
  {
    PoolFrom(s, img, k);
    Moved(s, img, p, Idle);
    Listed(Goto(s, p, Idle), img, k, CappedPush(cfg, Pool(s, k), e));
  }

  lemma ProcSeparate(cfg: Config, s: State, img: Images, a: Action)
    requires Separate(s, img) && Enabled(s, a)
    requires a.Begin? || a.Pop? || a.Check? || a.Release? || a.Stamp? || a.Push?
    ensures Separate(Step(cfg, s, a), img)
  {
    var q := ProcOf(s, a.p);
    assert ProcFrom(img, q);
    match a
    case Begin(p, k) => Moved(s, img, p, Acquiring(k));
    case Pop(p) => PopSeparate(cfg, s, img, p, q.key);
    case Check(p, usable) => Moved(s, img, p, if usable then Running(q.key, q.entry.id) else Acquiring(q.key));
    case Release(p, alive) => Moved(s, img, p, if alive then Stamping(q.key, q.id) else Idle);
    case Stamp(p) => Moved(s, img, p, Ready(q.key, Entry(q.id, s.clock)));
    case Push(p) => PushSeparate(cfg, s, img, p, q.key, q.entry);
  }

  lemma ReaperSeparate(cfg: Config, s: State, img: Images, a: Action)
    requires Separate(s, img) && Enabled(s, a)
    requires a.StartPass? || a.Read? || a.Replace? || a.EndPass?
    ensures Separate(Step(cfg, s, a), img)
  {
    var q := ReaperOf(s, a.r);
    assert ReaperFrom(img, q);
    match a
    case StartPass(r) => Reaping(s, img, r, Passing(s.clock));
    case Read(r, k) =>
      PoolFrom(s, img, k);
      Reaping(s, img, r, Replacing(q.now, k, Pool(s, k)));
    case Replace(r) =>
      Reaping(s, img, r, Passing(q.now));
      KeepFrom(cfg, q.now, q.raw, img, q.key);
      Listed(SetReaper(s, r, Passing(q.now)), img, q.key, Keep(cfg, q.now, q.raw));
    case EndPass(r) => Reaping(s, img, r, Resting);
  }

  lemma SeparateStep(cfg: Config, s: State, img: Images, a: Action)
    requires Separate(s, img) && Enabled(s, a)
    ensures Separate(Step(cfg, s, a), Started(img, a))
  {
    match a
    case ColdStart(p, k, id) =>
      NewContainer(s, img, id, k);
      Moved(s.(started := s.started + {id}), img[id := k], p, Running(k, id));
    case Prewarm(p, k, id) =>
      NewContainer(s, img, id, k);
      Moved(s.(started := s.started + {id}), img[id := k], p, Stamping(k, id));
    case Tick(_) =>
    case Killed(_) =>
    case StartPass(_) => ReaperSeparate(cfg, s, img, a);
    case Read(_, _) => ReaperSeparate(cfg, s, img, a);
    case Replace(_) => ReaperSeparate(cfg, s, img, a);
    case EndPass(_) => ReaperSeparate(cfg, s, img, a);
    case _ => ProcSeparate(cfg, s, img, a);
  }

  lemma {:induction false} SeparateRun(cfg: Config, s: State, img: Images, run: seq<Action>)
    requires Separate(s, img) && Legal(cfg, s, run)
    ensures Separate(After(cfg, s, run), StartedIn(img, run))
    decreases |run|
  {
    if run != [] {
      SeparateStep(cfg, s, img, run[0]);
      SeparateRun(cfg, Step(cfg, s, run[0]), Started(img, run[0]), run[1..]);
    }
  }

  /** In every run, whatever is pooled or run under an image was started from that image, races with the reaper or not. */
  lemma ImageKept(cfg: Config, run: seq<Action>, p: nat, k: nat)
    requires Legal(cfg, Start, run)
    ensures var s, img := After(cfg, Start, run), StartedIn(map[], run);
      && (forall e <- Pool(s, k) :: e.id in img && img[e.id] == k)
      && (ProcOf(s, p).Running? ==> ProcOf(s, p).id in img && img[ProcOf(s, p).id] == ProcOf(s, p).key)
  {
    SeparateRun(cfg, Start, map[], run);
    PoolFrom(After(cfg, Start, run), StartedIn(map[], run), k);
    assert ProcFrom(StartedIn(map[], run), ProcOf(After(cfg, Start, run), p));
  }
}
