/**
 The loops of the container pool on one image's list: acquire, the capped push
 and one reaper pass, each run without interference.  `killed` records the kill
 tasks that were created, in order.
 */
module PoolOperations {
  import opened ContainerPool
  import opened Wrappers

  /** Older than ttl or unusable when popped: `clock(i)` is the time read after the i-th pop, `usable` the liveness and
      image check. */
  predicate Rejected(cfg: Config, clock: nat -> int, usable: nat -> bool, list: seq<Entry>, j: nat)
    requires j < |list|
  {
    clock(|list| - 1 - j) - list[j].born > cfg.ttl || !usable(list[j].id)
  }

  /** Containers from the old end of the list down to index `lo`, in the order they are popped. */
  function PoppedIds(list: seq<Entry>, lo: nat): seq<nat>
    requires lo <= |list|
    decreases |list| - lo
  {
    if lo == |list| then [] else PoppedIds(list, lo + 1) + [list[lo].id]
  }

  /** What a pass keeps and what it evicts, by age. */
  lemma {:induction false} Sorted(cfg: Config, now: int, raw: seq<Entry>)
    ensures forall e :: e in Keep(cfg, now, raw) <==> e in raw && now - e.born <= cfg.ttl
    ensures forall id :: id in Evict(cfg, now, raw) <==> exists e :: e in raw && e.id == id && now - e.born > cfg.ttl
  {
    if raw != [] {
      var k := |raw| - 1;
      Sorted(cfg, now, raw[..k]);
      assert raw == raw[..k] + [raw[k]];
      assert forall e :: e in raw <==> e in raw[..k] || e == raw[k];
    }
  }

  class WarmList {
    var entries: seq<Entry>
    var killed: seq<nat>

    constructor ()
      ensures entries == [] && killed == []
    {
      entries, killed := [], [];
    }

    /** Pops until an entry is neither stale nor unusable; what it skips goes to kill tasks. */
    method Acquire(cfg: Config, clock: nat -> int, usable: nat -> bool) returns (hit: Option<Entry>, ghost at: nat)
      modifies this
      ensures at <= |old(entries)| && entries == old(entries)[..at]
      ensures forall j :: at < j < |old(entries)| ==> Rejected(cfg, clock, usable, old(entries), j)
      ensures hit.Some? ==>
                && at < |old(entries)| && hit.value == old(entries)[at] && !Rejected(cfg, clock, usable, old(entries), at)
                && killed == old(killed) + PoppedIds(old(entries), at + 1)
      // on an ordered list: the oldest acceptable entry
      ensures hit.Some? && NewestFirst(old(entries)) ==>
                forall j :: 0 <= j < |old(entries)| && !Rejected(cfg, clock, usable, old(entries), j) ==>
                  old(entries)[j].born >= hit.value.born
      ensures hit.None? ==> at == 0 && killed == old(killed) + PoppedIds(old(entries), 0)
      ensures hit.None? <==> forall j :: 0 <= j < |old(entries)| ==> Rejected(cfg, clock, usable, old(entries), j)
      // what is handed out is usable, and at most ttl old when popped
      ensures hit.Some? ==> usable(hit.value.id) && clock(|old(entries)| - 1 - at) - hit.value.born <= cfg.ttl
    {
      ghost var list := entries;
      at := |entries|;
      var reading := 0;
      while true
        invariant at <= |list| && entries == list[..at] && reading == |list| - at
        invariant forall j :: at <= j < |list| ==> Rejected(cfg, clock, usable, list, j)
        invariant killed == old(killed) + PoppedIds(list, at)
        decreases |entries|
      {
        if |entries| == 0 {
          return None, 0;
        }
        var entry := entries[|entries| - 1];
        entries := entries[..|entries| - 1];
        at := at - 1;
        reading := reading + 1;
        if Expired(cfg, clock(reading - 1), entry) {
          killed := killed + [entry.id];
          continue;
        }
        if !usable(entry.id) {
          killed := killed + [entry.id];
          continue;
        }
        return Some(entry), at;
      }
    }

    method Release(cfg: Config, entry: Entry) returns (pushed: bool)
      modifies this
      ensures entries == CappedPush(cfg, old(entries), entry)
      ensures pushed <==> |old(entries)| < cfg.cap
      ensures killed == if pushed then old(killed) else old(killed) + [entry.id]
    {
      pushed := |entries| < cfg.cap;
      if pushed {
        entries := [entry] + entries;
      } else {
        killed := killed + [entry.id];
      }
    }

    /** Snapshot, filter, replace. */
    method ReapOnce(cfg: Config, now: int)
      modifies this
      ensures entries == Keep(cfg, now, old(entries))
      ensures killed == old(killed) + Evict(cfg, now, old(entries))
      // kept exactly while at most ttl old
      ensures forall e :: e in entries <==> e in old(entries) && now - e.born <= cfg.ttl
      ensures forall id :: id in killed <==> id in old(killed) || exists e :: e in old(entries) && e.id == id && now - e.born > cfg.ttl
    {
      Sorted(cfg, now, entries);
      var raw := entries;
      var keep: seq<Entry> := [];
      for i := 0 to |raw|
        invariant keep == Keep(cfg, now, raw[..i]) && killed == old(killed) + Evict(cfg, now, raw[..i])
        invariant entries == raw
      {
        assert raw[..i + 1][..i] == raw[..i];
        if Expired(cfg, now, raw[i]) {
          killed := killed + [raw[i].id];
        } else {
          keep := keep + [raw[i]];
        }
      }
      assert raw[..|raw|] == raw;
      entries := keep;
    }
  }

  /** The entry acquire takes: the last one in the list that is not rejected. */
  predicate IsHit(cfg: Config, clock: nat -> int, usable: nat -> bool, list: seq<Entry>, at: int) {
    && 0 <= at < |list| && !Rejected(cfg, clock, usable, list, at)
    && forall i :: at < i < |list| ==> Rejected(cfg, clock, usable, list, i)
  }

  predicate NoHit(cfg: Config, clock: nat -> int, usable: nat -> bool, list: seq<Entry>) {
    forall i :: 0 <= i < |list| ==> Rejected(cfg, clock, usable, list, i)
  }

  lemma PushInFront(cfg: Config, clock: nat -> int, usable: nat -> bool, list: seq<Entry>, e: Entry, at: int)
    ensures IsHit(cfg, clock, usable, list, at) ==> IsHit(cfg, clock, usable, [e] + list, at + 1)
    ensures NoHit(cfg, clock, usable, list) ==>
      if Expired(cfg, clock(|list|), e) || !usable(e.id)
      then NoHit(cfg, clock, usable, [e] + list) else IsHit(cfg, clock, usable, [e] + list, 0)
  {
    forall i | 0 < i <= |list|
      ensures Rejected(cfg, clock, usable, [e] + list, i) <==> Rejected(cfg, clock, usable, list, i - 1)
    {
      assert ([e] + list)[i] == list[i - 1];
    }
  }

  lemma HitIsUnique(cfg: Config, clock: nat -> int, usable: nat -> bool, list: seq<Entry>, a: int, b: int)
    requires IsHit(cfg, clock, usable, list, a)
    ensures !NoHit(cfg, clock, usable, list) && (IsHit(cfg, clock, usable, list, b) ==> a == b)
  {
    assert !Rejected(cfg, clock, usable, list, a);
  }

  /** A released container waits its turn: acquire still takes the entry it would have taken before, takes the released
      one when there was none, and never sees it when the list was full. */
  method ReleaseThenAcquire(pool: WarmList, cfg: Config, entry: Entry, clock: nat -> int, usable: nat -> bool, ghost before: int)
    returns (hit: Option<Entry>)
    requires NoHit(cfg, clock, usable, pool.entries) || IsHit(cfg, clock, usable, pool.entries, before)
    modifies pool
    ensures var list := old(pool.entries);
      if IsHit(cfg, clock, usable, list, before) then hit == Some(list[before])
      else if |list| < cfg.cap && !Expired(cfg, clock(|list|), entry) && usable(entry.id) then hit == Some(entry)
      else hit == None
  {
    hide Rejected;
    ghost var list := pool.entries;
    PushInFront(cfg, clock, usable, list, entry, before);
    var pushed := pool.Release(cfg, entry);
    ghost var all := pool.entries;
    ghost var at;
    assert all == if pushed then [entry] + list else list;
    hit, at := pool.Acquire(cfg, clock, usable);
    if hit.Some? {
      assert IsHit(cfg, clock, usable, all, at);
      HitIsUnique(cfg, clock, usable, all, at, before);
      HitIsUnique(cfg, clock, usable, all, at, before + 1);
      HitIsUnique(cfg, clock, usable, all, at, 0);
    } else {
      assert NoHit(cfg, clock, usable, all);
    }
  }

  /** Reaping first does not change what acquire returns on an ordered list: it only cuts off entries
      that acquire would have skipped as stale. */
  lemma ReapThenAcquire(cfg: Config, now: int, clock: nat -> int, usable: nat -> bool, list: seq<Entry>, at: int)
    requires NewestFirst(list) && forall i :: clock(i) == now
    ensures var kept := Keep(cfg, now, list);
      && (IsHit(cfg, clock, usable, list, at) <==> IsHit(cfg, clock, usable, kept, at))
      && (IsHit(cfg, clock, usable, list, at) ==> kept[at] == list[at])
      && (NoHit(cfg, clock, usable, list) <==> NoHit(cfg, clock, usable, kept))
  {
    ReaperCutsTail(cfg, now, list);
    var kept := Keep(cfg, now, list);
    forall i | 0 <= i < |kept| ensures Rejected(cfg, clock, usable, kept, i) <==> Rejected(cfg, clock, usable, list, i) {
    }
    forall i | |kept| <= i < |list| ensures Rejected(cfg, clock, usable, list, i) {
      assert Expired(cfg, now, list[i]);
    }
  }

  /** The steps of a pass over one list. */
  lemma PassSteps(cfg: Config, s: State, r: nat, k: nat)
    requires ReaperOf(s, r).Resting? && Pool(s, k) != []
    ensures var s1 := Step(cfg, s, StartPass(r));
      && Enabled(s1, Read(r, k)) && var s2 := Step(cfg, s1, Read(r, k));
      && Enabled(s2, Replace(r)) && var s3 := Step(cfg, s2, Replace(r));
      && Enabled(s3, EndPass(r)) && var s' := Step(cfg, s3, EndPass(r));
      && Pool(s', k) == Keep(cfg, s.clock, Pool(s, k)) && ReaperOf(s', r).Resting?
      && s'.killing == s.killing + multiset(Evict(cfg, s.clock, Pool(s, k)))
  {
    hide Keep, Evict;
    var s1 := Step(cfg, s, StartPass(r));
    assert ReaperOf(s1, r) == Passing(s.clock) && Pool(s1, k) == Pool(s, k) && s1.killing == s.killing;
    var s2 := Step(cfg, s1, Read(r, k));
    assert ReaperOf(s2, r) == Replacing(s.clock, k, Pool(s, k));
  }

  lemma Four(cfg: Config, s: State, a: Action, b: Action, c: Action, d: Action)
    requires Enabled(s, a) && Enabled(Step(cfg, s, a), b) && Enabled(Step(cfg, Step(cfg, s, a), b), c)
    requires Enabled(Step(cfg, Step(cfg, Step(cfg, s, a), b), c), d)
    ensures Legal(cfg, s, [a, b, c, d]) && After(cfg, s, [a, b, c, d]) == Step(cfg, Step(cfg, Step(cfg, Step(cfg, s, a), b), c), d)
  {
    var s1 := Step(cfg, s, a);
    var s2 := Step(cfg, s1, b);
    var s3 := Step(cfg, s2, c);
    var s4 := Step(cfg, s3, d);
    assert Legal(cfg, s4, []) && After(cfg, s4, []) == s4;
    hide Legal, After, Step, Enabled;
    Then(cfg, s3, d, []);
    Then(cfg, s2, c, [d] + []);
    Then(cfg, s1, b, [c] + ([d] + []));
    Then(cfg, s, a, [b] + ([c] + ([d] + [])));
    assert [a] + ([b] + ([c] + ([d] + []))) == [a, b, c, d];
    assert Legal(cfg, s, [a, b, c, d]) && After(cfg, s, [a, b, c, d]) == s4;
  }

  /** A pass that nothing comes between keeps the entries that are at most ttl old when it starts, and has the others
      killed: the loop and the protocol agree. */
  lemma {:induction false} UndisturbedPass(cfg: Config, s: State, r: nat, k: nat)
    requires ReaperOf(s, r).Resting? && Pool(s, k) != []
    ensures var run := [StartPass(r), Read(r, k), Replace(r), EndPass(r)];
      && Legal(cfg, s, run)
      && var s' := After(cfg, s, run);
      && ReaperOf(s', r).Resting?
      && (forall e :: e in Pool(s', k) <==> e in Pool(s, k) && s.clock - e.born <= cfg.ttl)
      && (forall id :: id in s'.killing <==>
            id in s.killing || exists e :: e in Pool(s, k) && e.id == id && s.clock - e.born > cfg.ttl)
  {
    PassSteps(cfg, s, r, k);
    hide Step, Legal, After, Keep, Evict;
    Four(cfg, s, StartPass(r), Read(r, k), Replace(r), EndPass(r));
    var s' := After(cfg, s, [StartPass(r), Read(r, k), Replace(r), EndPass(r)]);
    Sorted(cfg, s.clock, Pool(s, k));
    ByAge(cfg, s, s', k);
  }

  lemma ByAge(cfg: Config, s: State, s': State, k: nat)
    requires s'.killing == s.killing + multiset(Evict(cfg, s.clock, Pool(s, k)))
    ensures forall id :: id in s'.killing <==>
      id in s.killing || exists e :: e in Pool(s, k) && e.id == id && s.clock - e.born > cfg.ttl
  {
    Sorted(cfg, s.clock, Pool(s, k));
    hide Evict;
    forall id ensures id in s'.killing <==> id in s.killing || id in Evict(cfg, s.clock, Pool(s, k)) {
    }
    assert forall id :: id in s'.killing <==>
      id in s.killing || exists e :: e in Pool(s, k) && e.id == id && s.clock - e.born > cfg.ttl;
  }

  /** Popping takes the entry that has waited longest; it goes on to the usability check if it is at most ttl old, and is
      killed otherwise. */
  lemma PopTakesOldest(cfg: Config, s: State, p: nat, k: nat, e: Entry)
    requires ProcOf(s, p) == Acquiring(k) && Pool(s, k) != [] && e == Pool(s, k)[|Pool(s, k)| - 1]
    ensures var s' := Step(cfg, s, Pop(p));
      && Pool(s, k) == Pool(s', k) + [e]
      && (s.clock - e.born <= cfg.ttl ==> ProcOf(s', p) == Checking(k, e) && s'.killing == s.killing)
      && (s.clock - e.born > cfg.ttl ==> ProcOf(s', p) == Acquiring(k) && s'.killing == s.killing + multiset{e.id})
  {
    var list := Pool(s, k);
    assert list == list[..|list| - 1] + [list[|list| - 1]];
  }

  /** What a look at the oldest entry makes of the whole list, at one point in time. */
  lemma HitAmongRest(cfg: Config, now: int, usable: nat -> bool, list: seq<Entry>, at: int)
    requires list != []
    ensures var clock, rest, e := (_: nat) => now, list[..|list| - 1], list[|list| - 1];
      && (now - e.born <= cfg.ttl && usable(e.id) ==> IsHit(cfg, clock, usable, list, |list| - 1))
      && (now - e.born > cfg.ttl || !usable(e.id) ==>
            && (IsHit(cfg, clock, usable, rest, at) ==> IsHit(cfg, clock, usable, list, at))
            && (NoHit(cfg, clock, usable, rest) ==> NoHit(cfg, clock, usable, list)))
  {
    var clock, rest := (_: nat) => now, list[..|list| - 1];
    forall i | 0 <= i < |rest|
      ensures Rejected(cfg, clock, usable, rest, i) <==> Rejected(cfg, clock, usable, list, i)
    {
    }
  }

  /** An acquire that nothing comes between, as steps of the protocol: it hands out the entry the loop would take, or gives
      up on an empty list. */
  lemma {:induction false} UndisturbedAcquire(cfg: Config, s: State, p: nat, k: nat, usable: nat -> bool)
    returns (run: seq<Action>, at: int)
    requires ProcOf(s, p) == Acquiring(k)
    ensures (forall a <- run :: a == Pop(p) || (a.Check? && a.p == p)) && Legal(cfg, s, run)
    ensures var clock, s', list := (_: nat) => s.clock, After(cfg, s, run), Pool(s, k);
      if at >= 0 then IsHit(cfg, clock, usable, list, at) && ProcOf(s', p) == Running(k, list[at].id) && Pool(s', k) == list[..at]
      else NoHit(cfg, clock, usable, list) && ProcOf(s', p) == Idle && Pool(s', k) == []
    decreases |Pool(s, k)|, 0
  {
    var list := Pool(s, k);
    var s1 := Step(cfg, s, Pop(p));
    if list == [] {
      run, at := [Pop(p)], -1;
      assert run[1..] == [];
    } else {
      var e := list[|list| - 1];
      assert Pool(s1, k) == list[..|list| - 1] && s1.clock == s.clock;
      if s.clock - e.born > cfg.ttl {
        run, at := UndisturbedAcquire(cfg, s1, p, k, usable);
      } else {
        run, at := CheckedAcquire(cfg, s1, p, k, e, usable);
      }
      HitAmongRest(cfg, s.clock, usable, list, at);
      hide IsHit, NoHit, Step;
      Then(cfg, s, Pop(p), run);
      run := [Pop(p)] + run;
    }
  }

  lemma {:induction false} CheckedAcquire(cfg: Config, s: State, p: nat, k: nat, e: Entry, usable: nat -> bool)
    returns (run: seq<Action>, at: int)
    requires ProcOf(s, p) == Checking(k, e)
    ensures (forall a <- run :: a == Pop(p) || (a.Check? && a.p == p)) && Legal(cfg, s, run)
    ensures var clock, s', list := (_: nat) => s.clock, After(cfg, s, run), Pool(s, k);
      if usable(e.id) then at == |list| && ProcOf(s', p) == Running(k, e.id) && Pool(s', k) == list
      else if at >= 0 then IsHit(cfg, clock, usable, list, at) && ProcOf(s', p) == Running(k, list[at].id) && Pool(s', k) == list[..at]
      else NoHit(cfg, clock, usable, list) && ProcOf(s', p) == Idle && Pool(s', k) == []
    decreases |Pool(s, k)|, 1
  {
    var a := Check(p, usable(e.id));
    var s1 := Step(cfg, s, a);
    assert Pool(s1, k) == Pool(s, k) && s1.clock == s.clock;
    if usable(e.id) {
      run, at := [], |Pool(s, k)|;
    } else {
      run, at := UndisturbedAcquire(cfg, s1, p, k, usable);
    }
    hide IsHit, NoHit, Step;
    Then(cfg, s, a, run);
    run := [a] + run;
  }

  /** The same from the outside: a process asks for an image, and runs on a container of that image's list or on none. */
  lemma {:induction false} UndisturbedRequest(cfg: Config, s: State, p: nat, k: nat, usable: nat -> bool)
    returns (run: seq<Action>, at: int)
    requires ProcOf(s, p).Idle?
    ensures Legal(cfg, s, [Begin(p, k)] + run)
    ensures var clock, s', list := (_: nat) => s.clock, After(cfg, s, [Begin(p, k)] + run), Pool(s, k);
      if at >= 0 then IsHit(cfg, clock, usable, list, at) && ProcOf(s', p) == Running(k, list[at].id) && Pool(s', k) == list[..at]
      else NoHit(cfg, clock, usable, list) && ProcOf(s', p) == Idle && Pool(s', k) == []
  {
    var s1 := Step(cfg, s, Begin(p, k));
    assert Pool(s1, k) == Pool(s, k) && s1.clock == s.clock;
    run, at := UndisturbedAcquire(cfg, s1, p, k, usable);
    Then(cfg, s, Begin(p, k), run);
  }
}
