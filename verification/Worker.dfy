/**
 One worker slot: pop a job, run it, post its result.  The point is what happens
 on every path of `_process`, including the ones through exception handlers.
 */
module Worker {

  /** What `json.dumps` does with a result inside `mark_done`. */
  datatype Encoding = Encodes | EncodeValueError(message: string) | EncodeTypeError

  /** How running the pipeline ends. */
  datatype Execution =
    | Returned(verdict: string, encoding: Encoding)
    | RaisedValueError(message: string)
    | RaisedOther

  /** A popped queue item.  An object without an identifier or a time counts as job "unknown", enqueued at 0. */
  datatype Item =
    | Malformed                                         // not JSON
    | Unreadable                                        // JSON, but not an object, or enqueued_at is there and no number
    | Decoded(job: nat, enqueuedAt: int, run: Execution)

  datatype Report =
    | Completed(verdict: string)
    | Expired
    | Rejected(message: string)
    | InternalError

  datatype Status = Queued | Running | Done(report: Report)

  const JOB_MAX_AGE := 300

  /** The result a caller gets for an item. */
  function Outcome(item: Item, now: int): Report
    requires item.Decoded?
  {
    if now - item.enqueuedAt > JOB_MAX_AGE then Expired
    else match item.run
      case Returned(v, Encodes) => Completed(v)
      case Returned(_, EncodeValueError(msg)) => Rejected(msg)
      case Returned(_, EncodeTypeError) => InternalError
      case RaisedValueError(msg) => Rejected(msg)
      case RaisedOther => InternalError
  }

  /** One BRPOP: an item and the time it is looked at, or a timeout; `signal` says SIGTERM arrived meanwhile. */
  datatype Popped = TimedOut | Got(value: Item, now: int)
  datatype Pop = Pop(item: Popped, signal: bool)

  function Answer(pop: Pop): seq<(nat, Report)> {
    if pop.item.Got? && pop.item.value.Decoded?
    then [(pop.item.value.job, Outcome(pop.item.value, pop.item.now))] else []
  }

  /** The pop that ends a slot. */
  predicate Kills(pop: Pop) { pop.item.Got? && pop.item.value.Unreadable? }

  /** One result per decodable item among the first `n` pops, in order. */
  function Answers(pops: seq<Pop>, n: nat): seq<(nat, Report)>
    requires n <= |pops|
  {
    if n == 0 then [] else Answers(pops, n - 1) + Answer(pops[n - 1])
  }

  class Slot {
    var status: map<nat, Status>
    var posted: seq<(nat, Report)>       // pushes to result lists, in order
    var history: seq<(nat, Status)>      // writes to status keys, in order
    var shutdown: bool

    constructor ()
      ensures status == map[] && posted == [] && history == [] && !shutdown
    {
      status, posted, history, shutdown := map[], [], [], false;
    }

    method MarkRunning(job: nat)
      modifies this
      ensures status == old(status)[job := Running] && history == old(history) + [(job, Running)]
      ensures posted == old(posted) && shutdown == old(shutdown)
    {
      status := status[job := Running];
      history := history + [(job, Running)];
    }

    /** Encoding happens before anything is sent, so a failed call has no effect. */
    method MarkDone(job: nat, report: Report, encoding: Encoding) returns (ok: bool)
      modifies this
      ensures ok <==> encoding.Encodes?
      ensures ok ==> status == old(status)[job := Done(report)] && posted == old(posted) + [(job, report)]
      ensures ok ==> history == old(history) + [(job, Done(report))]
      ensures !ok ==> status == old(status) && posted == old(posted) && history == old(history)
      ensures shutdown == old(shutdown)
    {
      ok := encoding.Encodes?;
      if ok {
        status := status[job := Done(report)];
        posted := posted + [(job, report)];
        history := history + [(job, Done(report))];
      }
    }

    /** Exactly one result for every job; none for an item that is not JSON, which is discarded, nor for JSON of
        another shape, which raises before the handlers are in force. */
    method Process(item: Item, now: int) returns (raised: bool)
      modifies this
      ensures raised <==> item.Unreadable?
      ensures !item.Decoded? ==> status == old(status) && posted == old(posted) && history == old(history)
      ensures item.Decoded? ==>
                && posted == old(posted) + [(item.job, Outcome(item, now))]
                && status == old(status)[item.job := Done(Outcome(item, now))]
                && history == old(history) +
                     (if Outcome(item, now).Expired? then [] else [(item.job, Running)]) +
                     [(item.job, Done(Outcome(item, now)))]
      // the result, path by path
      ensures item.Decoded? && now > item.enqueuedAt + 300 ==> posted == old(posted) + [(item.job, Expired)]
      ensures item.Decoded? && now <= item.enqueuedAt + 300 ==>
        match item.run
        case Returned(verdict, Encodes) => posted == old(posted) + [(item.job, Completed(verdict))]
        case Returned(_, EncodeValueError(message)) => posted == old(posted) + [(item.job, Rejected(message))]
        case Returned(_, EncodeTypeError) => posted == old(posted) + [(item.job, InternalError)]
        case RaisedValueError(message) => posted == old(posted) + [(item.job, Rejected(message))]
        case RaisedOther => posted == old(posted) + [(item.job, InternalError)]
      ensures shutdown == old(shutdown)
    {
      if item.Malformed? { return false; }
      if item.Unreadable? { return true; }
      raised := false;
      var age := now - item.enqueuedAt;
      if age > JOB_MAX_AGE {
        var _ := MarkDone(item.job, Expired, Encodes);
        return;
      }
      MarkRunning(item.job);
      // try
      var ended: Execution := item.run;
      if ended.Returned? {
        var ok := MarkDone(item.job, Completed(item.run.verdict), item.run.encoding);
        if ok { return; }
        ended := if item.run.encoding.EncodeValueError? then RaisedValueError(item.run.encoding.message) else RaisedOther;
      }
      // except ValueError / except Exception
      if ended.RaisedValueError? {
        var _ := MarkDone(item.job, Rejected(ended.message), Encodes);
      } else {
        var _ := MarkDone(item.job, InternalError, Encodes);
      }
    }

    /** One round of the slot loop. */
    method ServeOne(pop: Pop) returns (raised: bool)
      modifies this
      ensures posted == old(posted) + Answer(pop) && raised == Kills(pop) && shutdown == (old(shutdown) || pop.signal)
    {
      raised := false;
      if pop.signal { shutdown := true; }
      if pop.item.Got? {
        raised := Process(pop.item.value, pop.item.now);
      }
    }

    /** The slot loop: every job popped is answered, in order.  It serves until the shutdown flag is seen, or
        until the first unreadable item, which ends the slot. */
    method Serve(pops: seq<Pop>) returns (n: nat, raised: bool)
      modifies this
      ensures n <= |pops| && posted == old(posted) + Answers(pops, n)
      ensures n < |pops| ==> shutdown || raised
      ensures forall k :: 0 <= k < n && Kills(pops[k]) ==> k == n - 1
      ensures raised <==> n > 0 && Kills(pops[n - 1])
      ensures !old(shutdown) && (forall k :: 0 <= k < |pops| ==> !pops[k].signal && !Kills(pops[k])) ==> n == |pops|
    {
      hide Answer, Kills;
      n := 0;
      raised := false;
      while n < |pops| && !shutdown && !raised
        invariant n <= |pops| && posted == old(posted) + Answers(pops, n)
        invariant raised <==> n > 0 && Kills(pops[n - 1])
        invariant forall k :: 0 <= k < n && Kills(pops[k]) ==> k == n - 1
        invariant !old(shutdown) && (forall k :: 0 <= k < n ==> !pops[k].signal) ==> !shutdown
      {
        raised := ServeOne(pops[n]);
        n := n + 1;
        assert Answers(pops, n) == Answers(pops, n - 1) + Answer(pops[n - 1]);
      }
    }
  }
}
