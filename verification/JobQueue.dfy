/**
 The job protocol between API requests and worker slots, over Redis: per-language
 queues, a status key and a result list per job.  Each Redis command or pipeline
 is one action; requests and slots interleave freely.
 */
module JobQueue {
  import opened FiniteSets

  datatype Job = Job(id: nat, lang: nat, at: int)
  datatype Status = Queued | Running | Done

  /** A posted result; `owner` is the job it was computed for. */
  datatype Report = Report(owner: nat, verdict: nat)

  datatype Slot = Free | Popped(job: Job) | Executing(job: Job)
  datatype Client = Outside | Checked(lang: nat) | Awaiting(id: nat) | Served(id: nat, report: Report)

  /** MAX_QUEUE_DEPTH and JOB_MAX_AGE. */
  datatype Limits = Limits(depth: nat, age: int)

  datatype State = State(
    clock: int,
    queues: map<nat, seq<Job>>,
    status: map<nat, Status>,
    results: map<nat, seq<Report>>,
    slots: map<nat, Slot>,
    clients: map<nat, Client>,
    posts: multiset<nat>)  // history: one element per result ever posted

  const Start := State(0, map[], map[], map[], map[], map[], multiset{})

  datatype Action =
    | Tick(d: int)
    | CheckDepth(c: nat, lang: nat)     // LLEN
    | Enqueue(c: nat, id: nat)          // LPUSH + SET queued
    | Take(w: nat, lang: nat)           // BRPOP
    | Expire(w: nat)                    // too old: mark_done without running
    | Begin(w: nat)                     // mark_running
    | Finish(w: nat, verdict: nat)      // mark_done
    | Receive(c: nat)                   // BLPOP of the own result list
    | GiveUp(c: nat)                    // BLPOP timed out

  function Queue(s: State, lang: nat): seq<Job> { if lang in s.queues then s.queues[lang] else [] }
  function SlotOf(s: State, w: nat): Slot { if w in s.slots then s.slots[w] else Free }
  function ClientOf(s: State, c: nat): Client { if c in s.clients then s.clients[c] else Outside }
  function Results(s: State, id: nat): seq<Report> { if id in s.results then s.results[id] else [] }

  predicate TooOld(lim: Limits, s: State, j: Job) { s.clock - j.at > lim.age }

  predicate Enabled(lim: Limits, s: State, a: Action) {
    match a
    case Tick(_) => true
    case CheckDepth(c, _) => ClientOf(s, c).Outside?
    case Enqueue(c, id) => ClientOf(s, c).Checked? && id !in s.status
    case Take(w, lang) => SlotOf(s, w).Free? && Queue(s, lang) != []
    case Expire(w) => SlotOf(s, w).Popped? && TooOld(lim, s, SlotOf(s, w).job)
    case Begin(w) => SlotOf(s, w).Popped? && !TooOld(lim, s, SlotOf(s, w).job)
    case Finish(w, _) => SlotOf(s, w).Executing?
    case Receive(c) => ClientOf(s, c).Awaiting? && Results(s, ClientOf(s, c).id) != []
    case GiveUp(c) => ClientOf(s, c).Awaiting?
  }

  function MarkDone(s: State, w: nat, id: nat, r: Report): State {
    s.(status := s.status[id := Done],
       results := s.results[id := [r] + Results(s, id)],
       slots := s.slots[w := Free],
       posts := s.posts + multiset{id})
  }

  function Step(lim: Limits, s: State, a: Action): State
    requires Enabled(lim, s, a)
  {
    match a
    case Tick(d) => s.(clock := s.clock + d)
    case CheckDepth(c, lang) =>
      s.(clients := s.clients[c := if |Queue(s, lang)| >= lim.depth then Outside else Checked(lang)])
    case Enqueue(c, id) =>
      var lang := s.clients[c].lang;
      s.(queues := s.queues[lang := [Job(id, lang, s.clock)] + Queue(s, lang)],
         status := s.status[id := Queued],
         clients := s.clients[c := Awaiting(id)])
    case Take(w, lang) =>
      var q := Queue(s, lang);
      s.(queues := s.queues[lang := q[..|q| - 1]], slots := s.slots[w := Popped(q[|q| - 1])])
    case Expire(w) => MarkDone(s, w, s.slots[w].job.id, Report(s.slots[w].job.id, 0))
    case Begin(w) =>
      s.(status := s.status[s.slots[w].job.id := Running], slots := s.slots[w := Executing(s.slots[w].job)])
    case Finish(w, verdict) => MarkDone(s, w, s.slots[w].job.id, Report(s.slots[w].job.id, verdict))
    case Receive(c) =>
      var id := s.clients[c].id;
      var rs := Results(s, id);
      s.(results := s.results[id := rs[1..]], clients := s.clients[c := Served(id, rs[0])])
    case GiveUp(c) => s.(clients := s.clients[c := Outside])
  }

  predicate Legal(lim: Limits, s: State, run: seq<Action>)
    decreases |run|
  {
    run == [] || (Enabled(lim, s, run[0]) && Legal(lim, Step(lim, s, run[0]), run[1..]))
  }

  function After(lim: Limits, s: State, run: seq<Action>): State
    requires Legal(lim, s, run)
    decreases |run|
  {
    if run == [] then s else After(lim, Step(lim, s, run[0]), run[1..])
  }

  // ------------------------------------------------------------------
  // First in, first out
  // ------------------------------------------------------------------

  /** The job this action puts in the queue of `lang`: the request's id, stamped with the time of the call. */
  function Incoming(s: State, a: Action, lang: nat): seq<Job> {
    if a.Enqueue? && ClientOf(s, a.c) == Checked(lang) then [Job(a.id, lang, s.clock)] else []
  }

  /** The job a slot holds after taking from the queue of `lang`. */
  function Outgoing(lim: Limits, s: State, a: Action, lang: nat): seq<Job>
    requires Enabled(lim, s, a)
  {
    if a.Take? && a.lang == lang then
      match SlotOf(Step(lim, s, a), a.w)
      case Free => []
      case Popped(j) => [j]
      case Executing(j) => [j]
    else []
  }

  /** The jobs enqueued in the course of a run, in order. */
  function EnqueuedIn(lim: Limits, s: State, run: seq<Action>, lang: nat): seq<Job>
    requires Legal(lim, s, run)
    decreases |run|
  {
    if run == [] then [] else Incoming(s, run[0], lang) + EnqueuedIn(lim, Step(lim, s, run[0]), run[1..], lang)
  }

  /** The jobs taken by slots in the course of a run, in order. */
  function TakenIn(lim: Limits, s: State, run: seq<Action>, lang: nat): seq<Job>
    requires Legal(lim, s, run)
    decreases |run|
  {
    if run == [] then [] else Outgoing(lim, s, run[0], lang) + TakenIn(lim, Step(lim, s, run[0]), run[1..], lang)
  }

  /** A queue, oldest job first: jobs are pushed at the front and popped at the back. */
  function OldestFirst(q: seq<Job>): seq<Job> { if q == [] then [] else OldestFirst(q[1..]) + [q[0]] }

  lemma {:induction false} OldestIsLast(q: seq<Job>)
    requires q != []
    ensures OldestFirst(q) == [q[|q| - 1]] + OldestFirst(q[..|q| - 1])
  {
    if |q| > 1 {
      OldestIsLast(q[1..]);
      assert q[1..][..|q| - 2] == q[..|q| - 1][1..];
    }
  }

  lemma FifoStep(lim: Limits, s: State, a: Action, lang: nat)
    requires Enabled(lim, s, a)
    ensures OldestFirst(Queue(s, lang)) + Incoming(s, a, lang) ==
      Outgoing(lim, s, a, lang) + OldestFirst(Queue(Step(lim, s, a), lang))
  {
    var q, q' := Queue(s, lang), Queue(Step(lim, s, a), lang);
    if a.Take? && a.lang == lang {
      OldestIsLast(q);
    } else if a.Enqueue? && ClientOf(s, a.c) == Checked(lang) {
      assert q'[1..] == q;
    }
  }

  lemma Chain(a: seq<Job>, b: seq<Job>, c: seq<Job>, d: seq<Job>, x: seq<Job>, y: seq<Job>, z: seq<Job>)
    requires a + b == x + y && y + c == z + d
    ensures a + (b + c) == (x + z) + d
  {
    assert a + (b + c) == (a + b) + c == x + (y + c);
  }

  lemma {:induction false} FifoRun(lim: Limits, s: State, run: seq<Action>, lang: nat)
    requires Legal(lim, s, run)
    ensures OldestFirst(Queue(s, lang)) + EnqueuedIn(lim, s, run, lang) ==
      TakenIn(lim, s, run, lang) + OldestFirst(Queue(After(lim, s, run), lang))
    decreases |run|
  {
    if run != [] {
      hide Step, Enabled, Incoming, Outgoing;
      var s' := Step(lim, s, run[0]);
      FifoStep(lim, s, run[0], lang);
      FifoRun(lim, s', run[1..], lang);
      Chain(OldestFirst(Queue(s, lang)), Incoming(s, run[0], lang), EnqueuedIn(lim, s', run[1..], lang),
        OldestFirst(Queue(After(lim, s, run), lang)),
        Outgoing(lim, s, run[0], lang), OldestFirst(Queue(s', lang)), TakenIn(lim, s', run[1..], lang));
    }
  }

  /** In every run the jobs of a language are taken in the order they were enqueued: those taken so far, followed by
      those still queued, oldest first, are those enqueued, each stamped with the time of its own enqueue. */
  lemma FirstInFirstOut(lim: Limits, run: seq<Action>, lang: nat)
    requires Legal(lim, Start, run)
    ensures EnqueuedIn(lim, Start, run, lang) ==
      TakenIn(lim, Start, run, lang) + OldestFirst(Queue(After(lim, Start, run), lang))
  {
    FifoRun(lim, Start, run, lang);
  }

  /** The time that passes in a run. */
  function Elapsed(run: seq<Action>): int {
    if run == [] then 0 else (match run[0] case Tick(d) => d case _ => 0) + Elapsed(run[1..])
  }

  lemma {:induction false} ClockRun(lim: Limits, s: State, run: seq<Action>)
    requires Legal(lim, s, run)
    ensures After(lim, s, run).clock == s.clock + Elapsed(run)
    decreases |run|
  {
    if run != [] { ClockRun(lim, Step(lim, s, run[0]), run[1..]); }
  }

  /** A job in a slot was there before, or was taken from a queue since. */
  lemma {:induction false} SlotJobWasTaken(lim: Limits, s: State, run: seq<Action>, w: nat) returns (lang: nat)
    requires Legal(lim, s, run) && !SlotOf(After(lim, s, run), w).Free?
    ensures var j := SlotOf(After(lim, s, run), w).job;
      (!SlotOf(s, w).Free? && SlotOf(s, w).job == j) || j in TakenIn(lim, s, run, lang)
    decreases |run|
  {
    lang := 0;
    if run != [] {
      var a, s' := run[0], Step(lim, s, run[0]);
      lang := SlotJobWasTaken(lim, s', run[1..], w);
      if !SlotOf(s', w).Free? && SlotOf(s', w).job == SlotOf(After(lim, s, run), w).job {
        lang := if a.Take? && a.w == w then a.lang else lang;
        SlotGains(lim, s, a, w);
      }
    }
  }

  lemma SlotGains(lim: Limits, s: State, a: Action, w: nat)
    requires Enabled(lim, s, a) && !SlotOf(Step(lim, s, a), w).Free?
    ensures if a.Take? && a.w == w then SlotOf(Step(lim, s, a), w).job in Outgoing(lim, s, a, a.lang)
      else !SlotOf(s, w).Free? && SlotOf(s, w).job == SlotOf(Step(lim, s, a), w).job
  {
  }

  lemma {:induction false} EnqueuedUnderTheirLanguage(lim: Limits, s: State, run: seq<Action>, lang: nat)
    requires Legal(lim, s, run)
    ensures forall j <- EnqueuedIn(lim, s, run, lang) :: j.lang == lang
    decreases |run|
  {
    if run != [] {
      EnqueuedUnderTheirLanguage(lim, Step(lim, s, run[0]), run[1..], lang);
    }
  }

  /** A popped job is run if it was enqueued no longer than the age limit ago, and expires otherwise. */
  lemma RunInTimeOrExpired(lim: Limits, run: seq<Action>, w: nat)
    requires Legal(lim, Start, run) && SlotOf(After(lim, Start, run), w).Popped?
    ensures var s := After(lim, Start, run); var j := SlotOf(s, w).job;
      && j in EnqueuedIn(lim, Start, run, j.lang)
      && (Enabled(lim, s, Begin(w)) <==> s.clock <= j.at + lim.age)
      && (Enabled(lim, s, Expire(w)) <==> s.clock > j.at + lim.age)
  {
    var lang := SlotJobWasTaken(lim, Start, run, w);
    FirstInFirstOut(lim, run, lang);
    EnqueuedUnderTheirLanguage(lim, Start, run, lang);
    var j := SlotOf(After(lim, Start, run), w).job;
    assert j in TakenIn(lim, Start, run, lang);
  }

  // ------------------------------------------------------------------
  // Every job is in exactly one stage
  // ------------------------------------------------------------------

  datatype Stage = Waiting(lang: nat) | InSlot(w: nat) | Ended

  type Stages = map<nat, Stage>

  ghost predicate NoDup(q: seq<Job>) {
    forall i, j :: 0 <= i < j < |q| ==> q[i].id != q[j].id
  }

  ghost predicate QueuesAgree(queues: map<nat, seq<Job>>, m: Stages) {
    && (forall l <- queues :: NoDup(queues[l]))
    && (forall l, j :: l in queues && j in queues[l] ==> j.id in m && m[j.id] == Waiting(l))
    && (forall id <- m :: m[id].Waiting? ==> m[id].lang in queues && exists j :: j in queues[m[id].lang] && j.id == id)
  }

  ghost predicate SlotsAgree(slots: map<nat, Slot>, m: Stages) {
    && (forall w <- slots :: !slots[w].Free? ==> slots[w].job.id in m && m[slots[w].job.id] == InSlot(w))
    && (forall id <- m :: m[id].InSlot? ==> m[id].w in slots && !slots[m[id].w].Free? && slots[m[id].w].job.id == id)
  }

  function Shown(stage: Stage, slots: map<nat, Slot>): Status {
    match stage
    case Waiting(_) => Queued
    case InSlot(w) => if w in slots && slots[w].Executing? then Running else Queued
    case Ended => Done
  }

  /** The status key tells the stage. */
  ghost predicate StatusAgrees(status: map<nat, Status>, slots: map<nat, Slot>, m: Stages) {
    status.Keys == m.Keys && forall id <- m :: status[id] == Shown(m[id], slots)
  }

  /** One result was posted for every ended job, none for the others. */
  ghost predicate PostsAgree(posts: multiset<nat>, m: Stages) {
    forall id :: posts[id] == if id in m && m[id].Ended? then 1 else 0
  }

  /** Result lists hold posted results only, and under their own job. */
  ghost predicate ResultsSound(results: map<nat, seq<Report>>, posts: multiset<nat>) {
    forall id <- results :: |results[id]| <= posts[id] && forall r <- results[id] :: r.owner == id
  }

  ghost predicate ClientsSound(clients: map<nat, Client>) {
    forall c <- clients :: clients[c].Served? ==> clients[c].report.owner == clients[c].id
  }

  ghost predicate OneStage(s: State, m: Stages) {
    && QueuesAgree(s.queues, m) && SlotsAgree(s.slots, m) && StatusAgrees(s.status, s.slots, m)
    && PostsAgree(s.posts, m) && ResultsSound(s.results, s.posts) && ClientsSound(s.clients)
  }

  lemma QueueGains(queues: map<nat, seq<Job>>, m: Stages, l: nat, j: Job)
    requires QueuesAgree(queues, m) && j.id !in m
    ensures QueuesAgree(queues[l := [j] + if l in queues then queues[l] else []], m[j.id := Waiting(l)])
  {
    var rest := if l in queues then queues[l] else [];
    var q := [j] + rest;
    var queues', m' := queues[l := q], m[j.id := Waiting(l)];
    assert forall i :: i in rest ==> i.id != j.id;
    forall x | x in m' && m'[x].Waiting? ensures m'[x].lang in queues' && exists i: Job :: i in queues'[m'[x].lang] && i.id == x {
      if x == j.id {
        assert j in queues'[l];
      } else {
        var i :| i in queues[m[x].lang] && i.id == x;
        assert i in queues'[m'[x].lang];
      }
    }
  }

  lemma ButLast(q: seq<Job>)
    requires NoDup(q) && q != []
    ensures var j, rest := q[|q| - 1], q[..|q| - 1];
      && NoDup(rest)
      && (forall i :: i in rest <==> i in q && i.id != j.id)
      && (forall i :: i in q ==> i in rest || i == j)
  {
    assert q == q[..|q| - 1] + [q[|q| - 1]];
  }

  lemma QueueLoses(queues: map<nat, seq<Job>>, m: Stages, l: nat, w: nat)
    requires QueuesAgree(queues, m) && l in queues && queues[l] != []
    ensures var q := queues[l]; var j := q[|q| - 1];
      && j.id in m && m[j.id] == Waiting(l)
      && QueuesAgree(queues[l := q[..|q| - 1]], m[j.id := InSlot(w)])
  {
    var q := queues[l];
    var j := q[|q| - 1];
    ButLast(q);
    assert j in queues[l];
    var queues', m' := queues[l := q[..|q| - 1]], m[j.id := InSlot(w)];
    forall x | x in m' && m'[x].Waiting? ensures m'[x].lang in queues' && exists i: Job :: i in queues'[m'[x].lang] && i.id == x {
      var i :| i in queues[m[x].lang] && i.id == x;
      assert i in queues'[m'[x].lang];
    }
  }

  lemma QueuesStay(queues: map<nat, seq<Job>>, m: Stages, id: nat)
    requires QueuesAgree(queues, m) && id in m && !m[id].Waiting?
    ensures QueuesAgree(queues, m[id := Ended])
  {
    assert forall l, j :: l in queues && j in queues[l] ==> j.id != id;
  }

  /** A new job concerns no slot and has no result. */
  lemma JobArrives(status: map<nat, Status>, slots: map<nat, Slot>, posts: multiset<nat>, m: Stages, id: nat, l: nat)
    requires SlotsAgree(slots, m) && StatusAgrees(status, slots, m) && PostsAgree(posts, m) && id !in m
    ensures SlotsAgree(slots, m[id := Waiting(l)]) && PostsAgree(posts, m[id := Waiting(l)])
    ensures StatusAgrees(status[id := Queued], slots, m[id := Waiting(l)])
  {
  }

  lemma EnqueueStep(lim: Limits, s: State, m: Stages, c: nat, id: nat)
    requires OneStage(s, m) && Enabled(lim, s, Enqueue(c, id))
    ensures OneStage(Step(lim, s, Enqueue(c, id)), m[id := Waiting(s.clients[c].lang)])
  {
    var l := s.clients[c].lang;
    var s' := Step(lim, s, Enqueue(c, id));
    assert id !in m;
    assert s'.queues == s.queues[l := [Job(id, l, s.clock)] + Queue(s, l)] && s'.status == s.status[id := Queued];
    assert s'.slots == s.slots && s'.posts == s.posts && s'.results == s.results && ClientsSound(s'.clients);
    hide Step, QueuesAgree, SlotsAgree, StatusAgrees, PostsAgree, ResultsSound, ClientsSound;
    QueueGains(s.queues, m, l, Job(id, l, s.clock));
    JobArrives(s.status, s.slots, s.posts, m, id, l);
    assert OneStage(s', m[id := Waiting(l)]);
  }

  /** A free slot takes a waiting job: its status is still queued. */
  lemma SlotTakes(status: map<nat, Status>, slots: map<nat, Slot>, posts: multiset<nat>, m: Stages, w: nat, j: Job)
    requires SlotsAgree(slots, m) && StatusAgrees(status, slots, m) && PostsAgree(posts, m)
    requires (w in slots ==> slots[w].Free?) && j.id in m && m[j.id].Waiting?
    ensures var slots', m' := slots[w := Popped(j)], m[j.id := InSlot(w)];
      SlotsAgree(slots', m') && StatusAgrees(status, slots', m') && PostsAgree(posts, m')
  {
  }

  lemma TakeEffect(lim: Limits, s: State, w: nat, l: nat)
    requires Enabled(lim, s, Take(w, l))
    ensures var q, s' := Queue(s, l), Step(lim, s, Take(w, l));
      s' == s.(queues := s.queues[l := q[..|q| - 1]], slots := s.slots[w := Popped(q[|q| - 1])]) && l in s.queues
  {
  }

  lemma TakeStep(lim: Limits, s: State, m: Stages, w: nat, l: nat)
    requires OneStage(s, m) && Enabled(lim, s, Take(w, l))
    ensures OneStage(Step(lim, s, Take(w, l)), m[Queue(s, l)[|Queue(s, l)| - 1].id := InSlot(w)])
  {
    hide Step, QueuesAgree, SlotsAgree, StatusAgrees, PostsAgree, ResultsSound, ClientsSound;
    TakeEffect(lim, s, w, l);
    QueueLoses(s.queues, m, l, w);
    var j := Queue(s, l)[|Queue(s, l)| - 1];
    SlotTakes(s.status, s.slots, s.posts, m, w, j);
    assert OneStage(Step(lim, s, Take(w, l)), m[j.id := InSlot(w)]);
  }

  /** A slot gives its job up: slots and status keys follow. */
  lemma SlotEmpties(status: map<nat, Status>, slots: map<nat, Slot>, m: Stages, w: nat)
    requires SlotsAgree(slots, m) && StatusAgrees(status, slots, m) && w in slots && !slots[w].Free?
    ensures var id := slots[w].job.id;
      && id in m && m[id] == InSlot(w)
      && SlotsAgree(slots[w := Free], m[id := Ended])
      && StatusAgrees(status[id := Done], slots[w := Free], m[id := Ended])
  {
  }

  lemma ResultPosted(posts: multiset<nat>, results: map<nat, seq<Report>>, m: Stages, r: Report)
    requires PostsAgree(posts, m) && ResultsSound(results, posts) && r.owner in m && !m[r.owner].Ended?
    ensures PostsAgree(posts + multiset{r.owner}, m[r.owner := Ended])
    ensures ResultsSound(results[r.owner := [r] + if r.owner in results then results[r.owner] else []], posts + multiset{r.owner})
  {
  }

  lemma DoneStep(s: State, m: Stages, w: nat, verdict: nat)
    requires OneStage(s, m) && w in s.slots && !s.slots[w].Free?
    ensures var id := s.slots[w].job.id;
      OneStage(MarkDone(s, w, id, Report(id, verdict)), m[id := Ended])
  {
    var id := s.slots[w].job.id;
    SlotEmpties(s.status, s.slots, m, w);
    ResultPosted(s.posts, s.results, m, Report(id, verdict));
    QueuesStay(s.queues, m, id);
  }

  lemma BeginStep(lim: Limits, s: State, m: Stages, w: nat)
    requires OneStage(s, m) && Enabled(lim, s, Begin(w))
    ensures OneStage(Step(lim, s, Begin(w)), m)
  {
    assert m[s.slots[w].job.id] == InSlot(w);
  }

  lemma ReceiveStep(lim: Limits, s: State, m: Stages, c: nat)
    requires OneStage(s, m) && Enabled(lim, s, Receive(c))
    ensures OneStage(Step(lim, s, Receive(c)), m)
  {
    var rs := Results(s, s.clients[c].id);
    assert rs[0] in s.results[s.clients[c].id];
  }

  lemma OtherStep(lim: Limits, s: State, m: Stages, a: Action)
    requires OneStage(s, m) && Enabled(lim, s, a) && (a.Tick? || a.CheckDepth? || a.GiveUp?)
    ensures OneStage(Step(lim, s, a), m)
  {
  }

  lemma OneStageStep(lim: Limits, s: State, m: Stages, a: Action) returns (m': Stages)
    requires OneStage(s, m) && Enabled(lim, s, a)
    ensures OneStage(Step(lim, s, a), m')
  {
    m' := m;
    match a
    case Enqueue(c, id) => EnqueueStep(lim, s, m, c, id); m' := m[id := Waiting(s.clients[c].lang)];
    case Take(w, l) => TakeStep(lim, s, m, w, l); m' := m[Queue(s, l)[|Queue(s, l)| - 1].id := InSlot(w)];
    case Expire(w) => DoneStep(s, m, w, 0); m' := m[s.slots[w].job.id := Ended];
    case Finish(w, v) => DoneStep(s, m, w, v); m' := m[s.slots[w].job.id := Ended];
    case Begin(w) => BeginStep(lim, s, m, w);
    case Receive(c) => ReceiveStep(lim, s, m, c);
    case _ => OtherStep(lim, s, m, a);
  }

  lemma {:induction false} OneStageRun(lim: Limits, s: State, m: Stages, run: seq<Action>) returns (m': Stages)
    requires OneStage(s, m) && Legal(lim, s, run)
    ensures OneStage(After(lim, s, run), m')
    decreases |run|
  {
    m' := m;
    if run != [] {
      m' := OneStageStep(lim, s, m, run[0]);
      m' := OneStageRun(lim, Step(lim, s, run[0]), m', run[1..]);
    }
  }

  /** In every run each enqueued job is in exactly one stage. */
  lemma ExactlyOneStage(lim: Limits, run: seq<Action>) returns (m: Stages)
    requires Legal(lim, Start, run)
    ensures OneStage(After(lim, Start, run), m)
  {
    m := OneStageRun(lim, Start, map[], run);
  }

  /** Two slots never process the same job, and a job in a slot is in no queue. */
  lemma ProcessedOnce(lim: Limits, run: seq<Action>, v: nat, w: nat, l: nat, j: Job)
    requires Legal(lim, Start, run)
    requires !SlotOf(After(lim, Start, run), v).Free? && !SlotOf(After(lim, Start, run), w).Free?
    ensures var s := After(lim, Start, run);
      && (SlotOf(s, v).job.id == SlotOf(s, w).job.id ==> v == w)
      && (j in Queue(s, l) ==> j.id != SlotOf(s, v).job.id)
  {
    var m := ExactlyOneStage(lim, run);
    var s := After(lim, Start, run);
    assert m[s.slots[v].job.id] == InSlot(v) && m[s.slots[w].job.id] == InSlot(w);
  }

  /** A job has a posted result iff it is done, then exactly one, and no waiter gets anybody else's. */
  lemma OneResultEach(lim: Limits, run: seq<Action>, id: nat, c: nat)
    requires Legal(lim, Start, run)
    ensures var s := After(lim, Start, run);
      && s.posts[id] <= 1
      && (s.posts[id] == 1 <==> id in s.status && s.status[id] == Done)
      && (ClientOf(s, c).Served? ==> ClientOf(s, c).report.owner == ClientOf(s, c).id)
  {
    var m := ExactlyOneStage(lim, run);
    var s := After(lim, Start, run);
    assert id in m ==> s.status[id] == Shown(m[id], s.slots);
  }

  // ------------------------------------------------------------------
  // Every posted result is waiting or delivered
  // ------------------------------------------------------------------

  function ServedWith(clients: map<nat, Client>, id: nat): set<nat> {
    set c | c in clients && clients[c].Served? && clients[c].id == id
  }

  ghost predicate Delivered(s: State, id: nat) {
    s.posts[id] == |Results(s, id)| + |ServedWith(s.clients, id)|
  }

  lemma DeliveredReceive(lim: Limits, s: State, c: nat, id: nat)
    requires Delivered(s, id) && Enabled(lim, s, Receive(c))
    ensures Delivered(Step(lim, s, Receive(c)), id)
  {
    var s' := Step(lim, s, Receive(c));
    var mine := s.clients[c].id;
    var before, after := ServedWith(s.clients, id), ServedWith(s'.clients, id);
    assert c !in before;
    assert after == if mine == id then before + {c} else before;
  }

  /** A result is posted: its list grows with the count. */
  lemma DeliveredDone(s: State, w: nat, r: Report, id: nat)
    requires Delivered(s, id)
    ensures Delivered(MarkDone(s, w, r.owner, r), id)
  {
  }

  lemma DeliveredOther(lim: Limits, s: State, a: Action, id: nat)
    requires Delivered(s, id) && Enabled(lim, s, a) && !a.Receive? && !a.Expire? && !a.Finish?
    ensures Delivered(Step(lim, s, a), id)
  {
    var s' := Step(lim, s, a);
    assert s'.posts == s.posts && s'.results == s.results;
    assert ServedWith(s'.clients, id) == ServedWith(s.clients, id);
  }

  lemma DeliveredStep(lim: Limits, s: State, a: Action, id: nat)
    requires Delivered(s, id) && Enabled(lim, s, a)
    ensures Delivered(Step(lim, s, a), id)
  {
    hide Delivered, MarkDone;
    match a
    case Receive(c) => DeliveredReceive(lim, s, c, id);
    case Expire(w) => DeliveredDone(s, w, Report(s.slots[w].job.id, 0), id);
    case Finish(w, v) => DeliveredDone(s, w, Report(s.slots[w].job.id, v), id);
    case _ => DeliveredOther(lim, s, a, id);
  }

  lemma {:induction false} DeliveredRun(lim: Limits, s: State, run: seq<Action>, id: nat)
    requires Delivered(s, id) && Legal(lim, s, run)
    ensures Delivered(After(lim, s, run), id)
    decreases |run|
  {
    if run != [] {
      DeliveredStep(lim, s, run[0], id);
      DeliveredRun(lim, Step(lim, s, run[0]), run[1..], id);
    }
  }

  /** In every run: a job that is done has one result, which waits in its list or went to exactly one client;
      a job that is not has neither. */
  lemma ResultsAccounted(lim: Limits, run: seq<Action>, id: nat)
    requires Legal(lim, Start, run)
    ensures var s := After(lim, Start, run);
      |Results(s, id)| + |ServedWith(s.clients, id)| == if id in s.status && s.status[id] == Done then 1 else 0
  {
    assert ServedWith(Start.clients, id) == {};
    DeliveredRun(lim, Start, run, id);
    OneResultEach(lim, run, id, 0);
  }

  /** What this action decides about a job: the verdict its slot finishes with, or 0 when it is too old to run. */
  function Decides(s: State, a: Action, id: nat): seq<nat> {
    match a
    case Finish(w, verdict) => if SlotOf(s, w).Executing? && SlotOf(s, w).job.id == id then [verdict] else []
    case Expire(w) => if SlotOf(s, w).Popped? && SlotOf(s, w).job.id == id then [0] else []
    case _ => []
  }

  /** All that is decided about a job in the course of a run. */
  function DecidedIn(lim: Limits, s: State, run: seq<Action>, id: nat): seq<nat>
    requires Legal(lim, s, run)
    decreases |run|
  {
    if run == [] then [] else Decides(s, run[0], id) + DecidedIn(lim, Step(lim, s, run[0]), run[1..], id)
  }

  /** One post per decision; only decided verdicts enter a result list, and clients are served from that list. */
  lemma DecisionStep(lim: Limits, s: State, a: Action, id: nat, c: nat)
    requires Enabled(lim, s, a)
    ensures var s' := Step(lim, s, a);
      && s'.posts[id] == s.posts[id] + |Decides(s, a, id)|
      && (forall r <- Results(s', id) :: r in Results(s, id) || r.verdict in Decides(s, a, id))
      && (ClientOf(s', c).Served? && ClientOf(s', c).id == id ==>
            ClientOf(s', c) == ClientOf(s, c) || ClientOf(s', c).report in Results(s, id))
  {
  }

  lemma {:induction false} DecisionRun(lim: Limits, s: State, run: seq<Action>, id: nat, c: nat)
    requires Legal(lim, s, run)
    ensures var s', decided := After(lim, s, run), DecidedIn(lim, s, run, id);
      && s'.posts[id] == s.posts[id] + |decided|
      && (forall r <- Results(s', id) :: r in Results(s, id) || r.verdict in decided)
      && (ClientOf(s', c).Served? && ClientOf(s', c).id == id ==>
            ClientOf(s', c) == ClientOf(s, c) || ClientOf(s', c).report in Results(s, id) || ClientOf(s', c).report.verdict in decided)
    decreases |run|
  {
    if run != [] {
      DecisionStep(lim, s, run[0], id, c);
      DecisionRun(lim, Step(lim, s, run[0]), run[1..], id, c);
      hide Step, Enabled, Decides, ClientOf, Results;
    }
  }

  /** In every run a client is served the one verdict that was decided about its job. */
  lemma ServedTheVerdict(lim: Limits, run: seq<Action>, c: nat)
    requires Legal(lim, Start, run) && ClientOf(After(lim, Start, run), c).Served?
    ensures var client := ClientOf(After(lim, Start, run), c);
      DecidedIn(lim, Start, run, client.id) == [client.report.verdict]
  {
    var client := ClientOf(After(lim, Start, run), c);
    DecisionRun(lim, Start, run, client.id, c);
    OneResultEach(lim, run, client.id, c);
  }

  // ------------------------------------------------------------------
  // Waiting and giving up
  // ------------------------------------------------------------------

  predicate Concerned(client: Client, id: nat) { (client.Awaiting? || client.Served?) && client.id == id }

  /** Jobs that clients wait for or were served exist, each for one client. */
  ghost predicate OneClientEach(s: State) {
    && (forall c, id :: c in s.clients && Concerned(s.clients[c], id) ==> id in s.status)
    && (forall c, d, id :: c in s.clients && d in s.clients && Concerned(s.clients[c], id) && Concerned(s.clients[d], id) ==> c == d)
  }

  lemma OneClientStep(lim: Limits, s: State, a: Action)
    requires OneClientEach(s) && Enabled(lim, s, a)
    ensures OneClientEach(Step(lim, s, a)) && s.status.Keys <= Step(lim, s, a).status.Keys
  {
    var s' := Step(lim, s, a);
    forall c, id | c in s'.clients && Concerned(s'.clients[c], id)
      ensures (c in s.clients && Concerned(s.clients[c], id)) || (a == Enqueue(c, id) && id !in s.status && id in s'.status)
    {
      NewlyConcerned(lim, s, a, c, id);
    }
    StatusKept(lim, s, a);
    hide Step, Enabled, Concerned;
    assert OneClientEach(s');
  }

  lemma NewlyConcerned(lim: Limits, s: State, a: Action, c: nat, id: nat)
    requires Enabled(lim, s, a) && c in Step(lim, s, a).clients && Concerned(Step(lim, s, a).clients[c], id)
    ensures (c in s.clients && Concerned(s.clients[c], id)) || (a == Enqueue(c, id) && id !in s.status && id in Step(lim, s, a).status)
  {
  }

  lemma StatusKept(lim: Limits, s: State, a: Action)
    requires Enabled(lim, s, a)
    ensures s.status.Keys <= Step(lim, s, a).status.Keys
  {
  }

  lemma {:induction false} OneClientRun(lim: Limits, s: State, run: seq<Action>)
    requires OneClientEach(s) && Legal(lim, s, run)
    ensures OneClientEach(After(lim, s, run))
    decreases |run|
  {
    if run != [] {
      OneClientStep(lim, s, run[0]);
      OneClientRun(lim, Step(lim, s, run[0]), run[1..]);
    }
  }

  /** The job exists, and no client waits for it or was served its result. */
  ghost predicate Abandoned(s: State, id: nat) {
    id in s.status && forall c <- s.clients :: !Concerned(s.clients[c], id)
  }

  lemma AbandonedStep(lim: Limits, s: State, a: Action, id: nat)
    requires Abandoned(s, id) && Enabled(lim, s, a)
    ensures Abandoned(Step(lim, s, a), id)
  {
  }

  lemma {:induction false} AbandonedRun(lim: Limits, s: State, run: seq<Action>, id: nat)
    requires Abandoned(s, id) && Legal(lim, s, run)
    ensures Abandoned(After(lim, s, run), id)
    decreases |run|
  {
    if run != [] {
      AbandonedStep(lim, s, run[0], id);
      AbandonedRun(lim, Step(lim, s, run[0]), run[1..], id);
    }
  }

  /** Once its client has given up, the result of a job goes to nobody, whatever happens next. */
  lemma GivenUpForGood(lim: Limits, run: seq<Action>, c: nat, more: seq<Action>)
    requires Legal(lim, Start, run) && ClientOf(After(lim, Start, run), c).Awaiting?
    requires Legal(lim, Step(lim, After(lim, Start, run), GiveUp(c)), more)
    ensures var s := After(lim, Start, run);
      ServedWith(After(lim, Step(lim, s, GiveUp(c)), more).clients, ClientOf(s, c).id) == {}
  {
    var s := After(lim, Start, run);
    var id := ClientOf(s, c).id;
    OneClientRun(lim, Start, run);
    assert Concerned(s.clients[c], id);
    var s' := Step(lim, s, GiveUp(c));
    assert Abandoned(s', id);
    AbandonedRun(lim, s', more, id);
  }

  // ------------------------------------------------------------------
  // The status only moves forward
  // ------------------------------------------------------------------

  function Rank(st: Status): nat {
    match st case Queued => 0 case Running => 1 case Done => 2
  }

  lemma StatusStep(lim: Limits, s: State, m: Stages, a: Action, id: nat)
    requires OneStage(s, m) && Enabled(lim, s, a) && id in s.status
    ensures var s' := Step(lim, s, a);
      id in s'.status &&
      (s'.status[id] == s.status[id]
       || (a.Begin? && s.status[id] == Queued && s'.status[id] == Running)
       || (a.Finish? && s.status[id] == Running && s'.status[id] == Done)
       || (a.Expire? && s.status[id] == Queued && s'.status[id] == Done))
  {
    if a.Begin? || a.Finish? || a.Expire? {
      assert m[s.slots[a.w].job.id] == InSlot(a.w);
    }
  }

  lemma {:induction false} StatusForward(lim: Limits, s: State, m: Stages, run: seq<Action>, id: nat)
    requires OneStage(s, m) && Legal(lim, s, run) && id in s.status
    ensures id in After(lim, s, run).status && Rank(s.status[id]) <= Rank(After(lim, s, run).status[id])
    decreases |run|
  {
    if run != [] {
      StatusStep(lim, s, m, run[0], id);
      var m' := OneStageStep(lim, s, m, run[0]);
      StatusForward(lim, Step(lim, s, run[0]), m', run[1..], id);
    }
  }

  /** From any reachable state on, a status never moves back. */
  lemma StatusNeverMovesBack(lim: Limits, before: seq<Action>, after: seq<Action>, id: nat)
    requires Legal(lim, Start, before) && Legal(lim, After(lim, Start, before), after)
    requires id in After(lim, Start, before).status
    ensures var s := After(lim, Start, before);
      id in After(lim, s, after).status && Rank(s.status[id]) <= Rank(After(lim, s, after).status[id])
  {
    var m := ExactlyOneStage(lim, before);
    StatusForward(lim, After(lim, Start, before), m, after, id);
  }

  // ------------------------------------------------------------------
  // Queue depth
  // ------------------------------------------------------------------

  /** Requests between the depth check and the push. */
  function Entering(s: State): set<nat> { set c | c in s.clients && s.clients[c].Checked? }
  function EnteringFor(s: State, l: nat): set<nat> { set c | c in s.clients && s.clients[c] == Checked(l) }

  /** At most `p` requests are inside enqueue in every state of the run. */
  ghost predicate AtMost(lim: Limits, s: State, run: seq<Action>, p: nat)
    requires Legal(lim, s, run)
    decreases |run|
  {
    |Entering(s)| <= p && (run == [] || AtMost(lim, Step(lim, s, run[0]), run[1..], p))
  }

  ghost predicate Shallow(lim: Limits, s: State, p: nat) {
    forall l :: ShallowAt(lim, s, p, l)
  }

  ghost predicate ShallowAt(lim: Limits, s: State, p: nat, l: nat) {
    |Queue(s, l)| + |EnteringFor(s, l)| <= lim.depth - 1 + p
  }

  lemma ShallowStepAt(lim: Limits, s: State, a: Action, p: nat, l: nat)
    requires lim.depth > 0 && Enabled(lim, s, a) && ShallowAt(lim, s, p, l) && |Entering(Step(lim, s, a))| <= p
    ensures ShallowAt(lim, Step(lim, s, a), p, l)
  {
    var s' := Step(lim, s, a);
    if a.CheckDepth? {
      if |Queue(s, l)| < lim.depth {
        assert EnteringFor(s', l) <= Entering(s');
        SubsetSize(EnteringFor(s', l), Entering(s'));
      } else {
        assert EnteringFor(s', l) == EnteringFor(s, l);
      }
    } else if a.Enqueue? {
      assert EnteringFor(s', l) == EnteringFor(s, l) - {a.c};
    } else {
      assert EnteringFor(s', l) <= EnteringFor(s, l);
      SubsetSize(EnteringFor(s', l), EnteringFor(s, l));
    }
  }

  lemma ShallowStep(lim: Limits, s: State, a: Action, p: nat)
    requires lim.depth > 0 && Enabled(lim, s, a) && Shallow(lim, s, p) && |Entering(Step(lim, s, a))| <= p
    ensures Shallow(lim, Step(lim, s, a), p)
  {
    hide Step, Enabled;
    forall l ensures ShallowAt(lim, Step(lim, s, a), p, l) {
      assert ShallowAt(lim, s, p, l);
      ShallowStepAt(lim, s, a, p, l);
    }
  }

  lemma {:induction false} ShallowRun(lim: Limits, s: State, run: seq<Action>, p: nat)
    requires lim.depth > 0 && Legal(lim, s, run) && AtMost(lim, s, run, p) && Shallow(lim, s, p)
    ensures Shallow(lim, After(lim, s, run), p)
    decreases |run|
  {
    if run != [] {
      ShallowStep(lim, s, run[0], p);
      ShallowRun(lim, Step(lim, s, run[0]), run[1..], p);
    }
  }

  /** Check and push are separate, yet no queue exceeds MAX_QUEUE_DEPTH - 1 + P. */
  lemma DepthBound(lim: Limits, run: seq<Action>, p: nat, l: nat)
    requires lim.depth > 0 && Legal(lim, Start, run) && AtMost(lim, Start, run, p)
    ensures |Queue(After(lim, Start, run), l)| <= lim.depth - 1 + p
  {
    forall k ensures ShallowAt(lim, Start, p, k) {
      assert EnteringFor(Start, k) == {};
    }
    ShallowRun(lim, Start, run, p);
    assert ShallowAt(lim, After(lim, Start, run), p, l);
  }

  /** Requests 0..q have pushed job 0..q, requests q..hi have passed the check, the others are outside. */
  ghost predicate Level(s: State, q: nat, hi: nat) {
    && q <= hi && |Queue(s, 0)| == q
    && (forall c :: q <= c < hi ==> ClientOf(s, c) == Checked(0))
    && (forall c :: 0 <= c < q ==> !ClientOf(s, c).Checked?)
    && (forall c :: hi <= c ==> ClientOf(s, c) == Outside)
    && (forall id <- s.status :: id < q)
  }

  function Range(lo: nat, hi: nat): (r: set<nat>)
    requires lo <= hi
    ensures |r| == hi - lo && forall c :: c in r <==> lo <= c < hi
    decreases hi - lo
  {
    if lo == hi then {} else {lo} + Range(lo + 1, hi)
  }

  lemma LevelEntering(s: State, q: nat, hi: nat)
    requires Level(s, q, hi)
    ensures |Entering(s)| == hi - q
  {
    forall c | c in Entering(s) ensures c in Range(q, hi) {
      assert ClientOf(s, c).Checked?;
    }
    forall c | c in Range(q, hi) ensures c in Entering(s) {
      assert ClientOf(s, c) == Checked(0);
    }
    assert Entering(s) == Range(q, hi);
  }

  lemma {:induction false} OneMore(lim: Limits, s: State, run: seq<Action>, a: Action, p: nat)
    requires Legal(lim, s, run) && AtMost(lim, s, run, p) && Enabled(lim, After(lim, s, run), a)
    requires |Entering(Step(lim, After(lim, s, run), a))| <= p
    ensures Legal(lim, s, run + [a]) && AtMost(lim, s, run + [a], p)
    ensures After(lim, s, run + [a]) == Step(lim, After(lim, s, run), a)
    decreases |run|
  {
    if run == [] {
      assert run + [a] == [a];
    } else {
      assert (run + [a])[0] == run[0] && (run + [a])[1..] == run[1..] + [a];
      OneMore(lim, Step(lim, s, run[0]), run[1..], a, p);
    }
  }

  lemma CheckLevel(lim: Limits, s: State, q: nat, hi: nat)
    requires Level(s, q, hi) && q < lim.depth
    ensures Enabled(lim, s, CheckDepth(hi, 0)) && Level(Step(lim, s, CheckDepth(hi, 0)), q, hi + 1)
  {
    assert ClientOf(s, hi) == Outside;
    var s' := Step(lim, s, CheckDepth(hi, 0));
    assert forall c :: ClientOf(s', c) == if c == hi then Checked(0) else ClientOf(s, c);
  }

  lemma PushLevel(lim: Limits, s: State, q: nat, hi: nat)
    requires Level(s, q, hi) && q < hi
    ensures Enabled(lim, s, Enqueue(q, q)) && Level(Step(lim, s, Enqueue(q, q)), q + 1, hi)
  {
    assert ClientOf(s, q) == Checked(0);
    var s' := Step(lim, s, Enqueue(q, q));
    assert forall c :: ClientOf(s', c) == if c == q then Awaiting(q) else ClientOf(s, c);
  }

  /** Every level on the way to a full queue is reached by some run. */
  lemma {:induction false} ReachLevel(lim: Limits, q: nat, hi: nat, p: nat) returns (run: seq<Action>)
    requires p > 0 && q <= hi <= q + p
    requires q < lim.depth || (lim.depth > 0 && hi == lim.depth - 1 + p)
    ensures Legal(lim, Start, run) && AtMost(lim, Start, run, p) && Level(After(lim, Start, run), q, hi)
    decreases q + hi
  {
    if q == hi == 0 {
      run := [];
      assert Entering(Start) == {};
    } else if q < lim.depth && q < hi {
      run := ReachLevel(lim, q, hi - 1, p);
      CheckLevel(lim, After(lim, Start, run), q, hi - 1);
      run := Extend(lim, run, CheckDepth(hi - 1, 0), q, hi, p);
    } else {
      run := ReachLevel(lim, q - 1, hi, p);
      PushLevel(lim, After(lim, Start, run), q - 1, hi);
      run := Extend(lim, run, Enqueue(q - 1, q - 1), q, hi, p);
    }
  }

  lemma Extend(lim: Limits, run: seq<Action>, a: Action, q: nat, hi: nat, p: nat) returns (longer: seq<Action>)
    requires Legal(lim, Start, run) && AtMost(lim, Start, run, p) && q <= hi <= q + p
    requires Enabled(lim, After(lim, Start, run), a) && Level(Step(lim, After(lim, Start, run), a), q, hi)
    ensures Legal(lim, Start, longer) && AtMost(lim, Start, longer, p) && Level(After(lim, Start, longer), q, hi)
  {
    LevelEntering(Step(lim, After(lim, Start, run), a), q, hi);
    OneMore(lim, Start, run, a, p);
    longer := run + [a];
  }

  /** The bound cannot be lowered: some run with at most `p` requests inside enqueue reaches it. */
  lemma DepthBoundIsTight(lim: Limits, p: nat) returns (run: seq<Action>)
    requires lim.depth > 0 && p > 0
    ensures Legal(lim, Start, run) && AtMost(lim, Start, run, p)
    ensures |Queue(After(lim, Start, run), 0)| == lim.depth - 1 + p
  {
    run := ReachLevel(lim, lim.depth - 1 + p, lim.depth - 1 + p, p);
  }
}
