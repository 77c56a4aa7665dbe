/**
 From results to a verdict: the one-by-one loop, the batch loop, and what is shown to the user.
 */
module Verdict {
  import opened Wrappers
  import opened Comparator
  import opened Collector
  import opened Framing

  datatype Verdict =
    | Accepted(outputs: seq<Json>)
    | WrongAnswer(index: int, actual: Json, expected: Json)
    | Timeout(index: int)
    | RuntimeError(index: int)

  /** The parts of a request the verdict depends on. */
  datatype Request = Request(inPlace: Option<bool>, expected: seq<Json>)

  /** _apply_in_place. */
  function Applied(q: Request, r: Returned): Returned {
    if r.InPlace? && q.inPlace == Some(false) then Plain(r.value) else r
  }

  /** _reported: the value shown to the user. */
  function Reported(p: Printer, r: Returned, e: Json): Json {
    if r.InPlace? && r.value.Null? && !OutputsMatch(p, r.value, e) then r.mutated else r.value
  }

  /** _failure. */
  function Failure(run: Single, index: int): Verdict
    requires !run.Got?
  {
    if run.SingleTimeLimit? then Timeout(index) else RuntimeError(index)
  }

  // ------------------------------------------------------------------
  // What both loops look for
  // ------------------------------------------------------------------

  predicate Passes(p: Printer, q: Request, runs: seq<Single>, i: nat)
    requires i < |runs| == |q.expected|
  {
    runs[i].Got? && Matches(p, Applied(q, runs[i].returned), q.expected[i])
  }

  /** The first test case at or after `i` that fails or mismatches, or the number of test cases. */
  function FirstBad(p: Printer, q: Request, runs: seq<Single>, i: nat): (k: nat)
    requires i <= |runs| == |q.expected|
    ensures i <= k <= |runs|
    ensures forall j :: i <= j < k ==> Passes(p, q, runs, j)
    ensures k < |runs| ==> !Passes(p, q, runs, k)
    decreases |runs| - i
  {
    if i < |runs| && Passes(p, q, runs, i) then FirstBad(p, q, runs, i + 1) else i
  }

  /** The first test case at or after `i` that fails, or the number of test cases. */
  function FirstStop(runs: seq<Single>, i: nat): (k: nat)
    requires i <= |runs|
    ensures i <= k <= |runs|
    ensures forall j :: i <= j < k ==> runs[j].Got?
    ensures k < |runs| ==> !runs[k].Got?
    decreases |runs| - i
  {
    if i < |runs| && runs[i].Got? then FirstStop(runs, i + 1) else i
  }

  function Shown(p: Printer, q: Request, runs: seq<Single>, i: nat): Json
    requires i < |runs| == |q.expected| && runs[i].Got?
  {
    Reported(p, Applied(q, runs[i].returned), q.expected[i])
  }

  /** The verdict when test case `k` is the one to report. */
  function VerdictAt(p: Printer, q: Request, runs: seq<Single>, k: nat): Verdict
    requires k <= |runs| == |q.expected|
    requires k == |runs| ==> FirstStop(runs, 0) == k
  {
    if k == |runs| then Accepted(seq(|runs|, i requires 0 <= i < |runs| => Shown(p, q, runs, i)))
    else if runs[k].Got? then WrongAnswer(k, Shown(p, q, runs, k), q.expected[k])
    else Failure(runs[k], k)
  }

  lemma BadBeforeStop(p: Printer, q: Request, runs: seq<Single>)
    requires |runs| == |q.expected|
    ensures FirstBad(p, q, runs, 0) <= FirstStop(runs, 0)
  {
    var f := FirstStop(runs, 0);
    if f < |runs| { assert !Passes(p, q, runs, f); }
  }

  /** One by one: the first test case that fails or mismatches decides. */
  function SingleVerdict(p: Printer, q: Request, runs: seq<Single>): Verdict
    requires |runs| == |q.expected|
  {
    BadBeforeStop(p, q, runs);
    VerdictAt(p, q, runs, FirstBad(p, q, runs, 0))
  }

  /** Batch: the first failure decides, and only without one the first mismatch. */
  function BatchVerdict(p: Printer, q: Request, runs: seq<Single>): Verdict
    requires |runs| == |q.expected|
  {
    BadBeforeStop(p, q, runs);
    if FirstStop(runs, 0) < |runs| then VerdictAt(p, q, runs, FirstStop(runs, 0))
    else VerdictAt(p, q, runs, FirstBad(p, q, runs, 0))
  }

  // ------------------------------------------------------------------
  // What a verdict says
  // ------------------------------------------------------------------

  /** The run returned, and its value is right, or the argument it changed is and the request does not rule that out. */
  predicate Answered(p: Printer, q: Request, run: Single, e: Json) {
    run.Got? &&
    (OutputsMatch(p, run.returned.value, e) ||
     (run.returned.InPlace? && q.inPlace != Some(false) && OutputsMatch(p, run.returned.mutated, e)))
  }

  /** What to show for it: the changed argument in place of a null that is not the answer, else the value. */
  predicate Displays(p: Printer, q: Request, r: Returned, e: Json, shown: Json) {
    if r.InPlace? && q.inPlace != Some(false) && r.value == Null && !OutputsMatch(p, Null, e)
    then shown == r.mutated
    else shown == r.value
  }

  /** The verdict names the first test case without a right answer and what became of it, or shows every output. */
  ghost predicate Tells(p: Printer, q: Request, runs: seq<Single>, v: Verdict)
    requires |runs| == |q.expected|
  {
    match v
    case Accepted(outputs) =>
      && |outputs| == |runs|
      && forall i :: 0 <= i < |runs| ==>
           Answered(p, q, runs[i], q.expected[i]) && Displays(p, q, runs[i].returned, q.expected[i], outputs[i])
    case WrongAnswer(i, actual, e) =>
      && FirstWithout(p, q, runs, i) && runs[i].Got?
      && e == q.expected[i] && Displays(p, q, runs[i].returned, e, actual)
    case Timeout(i) => FirstWithout(p, q, runs, i) && runs[i] == SingleTimeLimit
    case RuntimeError(i) => FirstWithout(p, q, runs, i) && runs[i] == SingleFailed
  }

  ghost predicate FirstWithout(p: Printer, q: Request, runs: seq<Single>, i: int)
    requires |runs| == |q.expected|
  {
    0 <= i < |runs| && !Answered(p, q, runs[i], q.expected[i]) && forall j :: 0 <= j < i ==> Answered(p, q, runs[j], q.expected[j])
  }

  /** Which answers pass, in terms of the request's setting and what the run returned. */
  lemma PassesMeans(p: Printer, q: Request, runs: seq<Single>, i: nat)
    requires i < |runs| == |q.expected|
    ensures Passes(p, q, runs, i) <==> Answered(p, q, runs[i], q.expected[i])
    ensures runs[i].Got? ==> Displays(p, q, runs[i].returned, q.expected[i], Shown(p, q, runs, i))
  {
    hide OutputsMatch;
  }

  lemma SingleTells(p: Printer, q: Request, runs: seq<Single>)
    requires |runs| == |q.expected|
    ensures Tells(p, q, runs, SingleVerdict(p, q, runs))
    ensures SingleVerdict(p, q, runs).Accepted? <==> forall i :: 0 <= i < |runs| ==> Answered(p, q, runs[i], q.expected[i])
  {
    BadBeforeStop(p, q, runs);
    forall i | 0 <= i < |runs|
      ensures Passes(p, q, runs, i) <==> Answered(p, q, runs[i], q.expected[i])
      ensures runs[i].Got? ==> Displays(p, q, runs[i].returned, q.expected[i], Shown(p, q, runs, i))
    {
      PassesMeans(p, q, runs, i);
    }
    hide OutputsMatch, Answered, Displays, Passes, Shown;
    var v := SingleVerdict(p, q, runs);
    var k := FirstBad(p, q, runs, 0);
    if k < |runs| { assert !Answered(p, q, runs[k], q.expected[k]); }
    assert Tells(p, q, runs, v);
    assert v.Accepted? <==> forall i :: 0 <= i < |runs| ==> Answered(p, q, runs[i], q.expected[i]);
  }

  // ------------------------------------------------------------------
  // The loops of ExecutionPipeline.execute
  // ------------------------------------------------------------------

  method ExecuteSingle(p: Printer, q: Request, runs: seq<Single>) returns (v: Verdict)
    requires |runs| == |q.expected|
    ensures v == SingleVerdict(p, q, runs) && Tells(p, q, runs, v)
    ensures v.Accepted? <==> forall i :: 0 <= i < |runs| ==> Answered(p, q, runs[i], q.expected[i])
  {
    hide OutputsMatch;
    BadBeforeStop(p, q, runs);
    SingleTells(p, q, runs);
    var outputs: seq<Json> := [];
    for index := 0 to |runs|
      invariant index <= FirstBad(p, q, runs, 0)
      invariant |outputs| == index
      invariant forall j :: 0 <= j < index ==> runs[j].Got? && outputs[j] == Shown(p, q, runs, j)
    {
      if !runs[index].Got? {
        return Failure(runs[index], index);
      }
      var result := Applied(q, runs[index].returned);
      if !Matches(p, result, q.expected[index]) {
        assert !Passes(p, q, runs, index);
        return WrongAnswer(index, Reported(p, result, q.expected[index]), q.expected[index]);
      }
      outputs := outputs + [Reported(p, result, q.expected[index])];
    }
    return Accepted(outputs);
  }

  /** What the batch executor hands over, given how each test case goes. */
  function BatchOf(runs: seq<Single>): Collected {
    var f := FirstStop(runs, 0);
    if f == |runs| then Results(seq(|runs|, i requires 0 <= i < |runs| => runs[i].returned))
    else if runs[f].SingleTimeLimit? then TimeLimit(f)
    else Failed(f)
  }

  function Returning(values: seq<Returned>): seq<Single> {
    seq(|values|, i requires 0 <= i < |values| => Got(values[i]))
  }

  /** The verdict on what run_batch returned or raised. */
  function OnBatch(p: Printer, q: Request, batch: Collected): Verdict {
    match batch
    case TimeLimit(i) => Timeout(i)
    case Failed(i) => RuntimeError(i)
    case Results(values) =>
      if |values| != |q.expected| then RuntimeError(0) else SingleVerdict(p, q, Returning(values))
  }

  method ExecuteBatch(p: Printer, q: Request, batch: Collected) returns (v: Verdict)
    ensures v == OnBatch(p, q, batch)
    ensures match batch
      case TimeLimit(i) => v == Timeout(i)
      case Failed(i) => v == RuntimeError(i)
      case Results(values) => if |values| != |q.expected| then v == RuntimeError(0) else Tells(p, q, Returning(values), v)
    ensures v.Accepted? <==>
      batch.Results? && |batch.values| == |q.expected| && forall i :: 0 <= i < |batch.values| ==>
        Answered(p, q, Got(batch.values[i]), q.expected[i])
  {
    match batch {
      case TimeLimit(i) => return Timeout(i);
      case Failed(i) => return RuntimeError(i);
      case Results(values) =>
        if |values| != |q.expected| {
          return RuntimeError(0);
        }
        v := CompareBatch(p, q, values);
    }
  }

  /** The batch comparison: drop mutated arguments, find a mismatch, then prepare what is shown. */
  method CompareBatch(p: Printer, q: Request, values: seq<Returned>) returns (v: Verdict)
    requires |values| == |q.expected|
    ensures v == SingleVerdict(p, q, Returning(values)) && Tells(p, q, Returning(values), v)
    ensures v.Accepted? <==> forall i :: 0 <= i < |values| ==> Answered(p, q, Got(values[i]), q.expected[i])
  {
    hide OutputsMatch;
    ghost var runs := Returning(values);
    SingleTells(p, q, runs);
    assert forall i :: 0 <= i < |values| ==> runs[i] == Got(values[i]);
    BadBeforeStop(p, q, runs);
    var applied: seq<Returned> := [];
    for i := 0 to |values|
      invariant |applied| == i
      invariant forall j :: 0 <= j < i ==> applied[j] == Applied(q, values[j])
    {
      applied := applied + [Applied(q, values[i])];
    }
    for index := 0 to |applied|
      invariant index <= FirstBad(p, q, runs, 0)
    {
      if !Matches(p, applied[index], q.expected[index]) {
        assert !Passes(p, q, runs, index);
        return WrongAnswer(index, Reported(p, applied[index], q.expected[index]), q.expected[index]);
      }
      assert Passes(p, q, runs, index);
    }
    var outputs: seq<Json> := [];
    for i := 0 to |applied|
      invariant |outputs| == i
      invariant forall j :: 0 <= j < i ==> outputs[j] == Shown(p, q, runs, j)
    {
      outputs := outputs + [Reported(p, applied[i], q.expected[i])];
    }
    return Accepted(outputs);
  }

  /** Given how each test case goes, the batch path reports the first failure, else the first mismatch. */
  lemma BatchPath(p: Printer, q: Request, runs: seq<Single>)
    requires |runs| == |q.expected|
    ensures OnBatch(p, q, BatchOf(runs)) == BatchVerdict(p, q, runs)
  {
    hide OutputsMatch;
    if FirstStop(runs, 0) == |runs| {
      assert Returning(BatchOf(runs).values) == runs;
    }
  }

  // ------------------------------------------------------------------
  // The two modes compared
  // ------------------------------------------------------------------

  /** A mismatch comes before the first failing test case. */
  predicate MismatchBeforeFailure(p: Printer, q: Request, runs: seq<Single>)
    requires |runs| == |q.expected|
  {
    exists w, f :: 0 <= w < f < |runs| && !runs[f].Got? && runs[w].Got? && !Passes(p, q, runs, w)
      && forall j :: 0 <= j < f ==> runs[j].Got?
  }

  /** The modes agree on the verdict, index and shown outputs exactly when no mismatch comes before the first failure. */
  lemma ModesAgree(p: Printer, q: Request, runs: seq<Single>)
    requires |runs| == |q.expected|
    ensures SingleVerdict(p, q, runs) == BatchVerdict(p, q, runs) <==> !MismatchBeforeFailure(p, q, runs)
  {
    var w, f := FirstBad(p, q, runs, 0), FirstStop(runs, 0);
    BadBeforeStop(p, q, runs);
    if w < f < |runs| {
      assert runs[w].Got? && !Passes(p, q, runs, w);
    }
  }

  /** Where they differ, one-by-one reports the earliest mismatch and batch the later failure. */
  lemma ModesDiffer(p: Printer, q: Request, runs: seq<Single>)
    requires |runs| == |q.expected| && MismatchBeforeFailure(p, q, runs)
    ensures var s, b := SingleVerdict(p, q, runs), BatchVerdict(p, q, runs);
      && s.WrongAnswer? && s.index == FirstBad(p, q, runs, 0)
      && (b.Timeout? || b.RuntimeError?) && b.index == FirstStop(runs, 0)
      && s.index < b.index
  {
    var w, f :| 0 <= w < f < |runs| && !runs[f].Got? && runs[w].Got? && !Passes(p, q, runs, w)
      && forall j :: 0 <= j < f ==> runs[j].Got?;
    assert f == FirstStop(runs, 0);
    assert FirstBad(p, q, runs, 0) <= w;
  }

  /** In either mode, accepted means that every test case returned a matching output. */
  lemma AcceptedIffAllPass(p: Printer, q: Request, runs: seq<Single>)
    requires |runs| == |q.expected|
    ensures SingleVerdict(p, q, runs).Accepted? <==> forall i :: 0 <= i < |runs| ==> Passes(p, q, runs, i)
    ensures BatchVerdict(p, q, runs).Accepted? <==> forall i :: 0 <= i < |runs| ==> Passes(p, q, runs, i)
  {
    BadBeforeStop(p, q, runs);
  }

  // ------------------------------------------------------------------
  // What the user is shown
  // ------------------------------------------------------------------

  /** Wrappers send the mutated argument only along with a null result. */
  predicate WrapperShaped(r: Returned) { r.InPlace? ==> r.value.Null? }

  /** Exactly when the shown value stands for the comparison that was made. */
  lemma ShownIsFaithful(p: Printer, r: Returned, e: Json)
    ensures (OutputsMatch(p, Reported(p, r, e), e) <==> Matches(p, r, e)) <==>
      !(r.InPlace? && !r.value.Null? && !OutputsMatch(p, r.value, e) && OutputsMatch(p, r.mutated, e))
  {
    hide OutputsMatch;
  }

  /** A result that no wrapper sends: accepted through its mutated argument, shown by its value. */
  lemma UnshapedResultMisreported(p: Printer, m: Json, e: Json)
    requires OutputsMatch(p, m, e) && !OutputsMatch(p, Bool(true), e)
    ensures var r := InPlace(Bool(true), m); Matches(p, r, e) && !OutputsMatch(p, Reported(p, r, e), e)
  {
    hide OutputsMatch;
  }

  predicate ShownRight(p: Printer, q: Request, v: Verdict) {
    match v
    case Accepted(outputs) =>
      |outputs| == |q.expected| && forall i :: 0 <= i < |outputs| ==> OutputsMatch(p, outputs[i], q.expected[i])
    case WrongAnswer(i, actual, e) =>
      0 <= i < |q.expected| && e == q.expected[i] && !OutputsMatch(p, actual, e)
    case _ => true
  }

  /** Whatever the in_place setting, accepted outputs are shown matching and a wrong answer is shown not matching. */
  lemma ShownOutputsTellTheTruth(p: Printer, q: Request, runs: seq<Single>)
    requires |runs| == |q.expected|
    requires forall i :: 0 <= i < |runs| && runs[i].Got? ==> WrapperShaped(runs[i].returned)
    ensures ShownRight(p, q, SingleVerdict(p, q, runs)) && ShownRight(p, q, BatchVerdict(p, q, runs))
  {
    hide OutputsMatch;
    BadBeforeStop(p, q, runs);
    forall i | 0 <= i < |runs| && runs[i].Got?
      ensures OutputsMatch(p, Shown(p, q, runs, i), q.expected[i]) <==> Passes(p, q, runs, i)
    {
      ShownIsFaithful(p, Applied(q, runs[i].returned), q.expected[i]);
    }
  }

  // ------------------------------------------------------------------
  // From printed text to verdict
  // ------------------------------------------------------------------

  /** What each test case comes to in a process of its own. */
  function RunsOf(tests: seq<Test>, exits: seq<Exit>): seq<Single>
    requires |tests| == |exits|
  {
    seq(|tests|, i requires 0 <= i < |tests| => RunOf(tests[i].outcome, exits[i]))
  }

  /** Every process ends with the exit code of its wrapper. */
  predicate InOrder(exits: seq<Exit>, x: Exit) { x.instead.None? && forall y <- exits :: y.instead.None? }

  lemma BatchOfTests(tests: seq<Test>, exits: seq<Exit>, x: Exit)
    requires |tests| == |exits| && InOrder(exits, x)
    ensures Expected(tests, x) == BatchOf(RunsOf(tests, exits))
  {
    hide FirstFailure;
    var runs, f := RunsOf(tests, exits), FirstFailure(tests);
    forall i | 0 <= i < |tests| ensures runs[i].Got? <==> tests[i].outcome.Value? {
      assert exits[i] in exits;
    }
    assert FirstStop(runs, 0) == f;
    assert f < |tests| ==> exits[f] in exits;
  }

  /** What one-by-one mode makes of a test case: the last block of a process that ends with exit code 0 decides. */
  function SeenRun(m: Markers, c: Codec, t: Test, x: Exit): Single {
    if t.outcome == Dies(0) ||
       (Emits(t.outcome) && EndingOf(t.outcome, x) == Exited(0) && RFind(x.words, m.start, |x.words|) != -1)
    then CollectSingle(m, c, Words(t, x), Exited(0))
    else RunOf(t.outcome, x)
  }

  function SeenRuns(m: Markers, c: Codec, tests: seq<Test>, exits: seq<Exit>): seq<Single>
    requires |tests| == |exits|
  {
    seq(|tests|, i requires 0 <= i < |tests| => SeenRun(m, c, tests[i], exits[i]))
  }

  /** The last block, if it is the submission's own, says what happened. */
  ghost predicate HonestRun(m: Markers, c: Codec, t: Test, x: Exit) {
    Overridden(m, t, x) ==>
      if t.outcome.Value? then Forges(m, c, x.words, t.outcome.returned) else forall r :: !Forges(m, c, Words(t, x), r)
  }

  lemma FoundLast(s: string, pat: string)
    requires |pat| > 0
    ensures RFind(s, pat, |s|) != -1 <==> Contains(s, pat)
  {
    if Contains(s, pat) {
      var i :| At(s, pat, i);
      assert i < |s|;
    }
  }

  /** One-by-one mode sees what happened exactly when the submission's last words are honest. */
  lemma SeenIff(m: Markers, c: Codec, t: Test, x: Exit)
    requires m.Good() && |m.end| < |m.start| && ReadableLast(m, c, t, x)
    ensures var run := SingleRun(m, c, t, x); CollectSingle(m, c, run.0, run.1) == SeenRun(m, c, t, x)
    ensures SeenRun(m, c, t, x) == RunOf(t.outcome, x) <==> HonestRun(m, c, t, x)
  {
    FoundLast(x.words, m.start);
    SingleEndToEnd(m, c, t, x);
    hide Contains, Readable, Forges, CollectSingle, SingleRun, RFind;
  }

  /** The judge's view in one-by-one mode, each run read from what its wrapper printed. */
  method RunOneByOne(m: Markers, c: Codec, tests: seq<Test>, exits: seq<Exit>) returns (runs: seq<Single>)
    requires m.Good() && |m.end| < |m.start| && |tests| == |exits|
    requires forall i :: 0 <= i < |tests| ==> ReadableLast(m, c, tests[i], exits[i])
    ensures runs == SeenRuns(m, c, tests, exits)
    ensures runs == RunsOf(tests, exits) <==> forall i :: 0 <= i < |tests| ==> HonestRun(m, c, tests[i], exits[i])
  {
    hide ReadableLast, HonestRun, CollectSingle, SingleRun, SeenRun, RunOf;
    runs := [];
    for i := 0 to |tests|
      invariant |runs| == i
      invariant forall j :: 0 <= j < i ==> runs[j] == SeenRun(m, c, tests[j], exits[j])
      invariant forall j :: 0 <= j < i ==>
        (runs[j] == RunOf(tests[j].outcome, exits[j]) <==> HonestRun(m, c, tests[j], exits[j]))
    {
      var run := SingleRun(m, c, tests[i], exits[i]);
      SeenIff(m, c, tests[i], exits[i]);
      runs := runs + [CollectSingle(m, c, run.0, run.1)];
    }
    assert runs == SeenRuns(m, c, tests, exits);
    assert runs == RunsOf(tests, exits) <==> forall j :: 0 <= j < |tests| ==> runs[j] == RunsOf(tests, exits)[j];
  }

  /** Neither mode is misled by blocks the submission prints itself. */
  ghost predicate Honest(m: Markers, c: Codec, tests: seq<Test>, exits: seq<Exit>, x: Exit)
    requires |m.end| > 0 && |tests| == |exits|
  {
    && (forall i :: 0 <= i < |tests| ==> HonestRun(m, c, tests[i], exits[i]))
    && !Misleading(tests, x, Own(m, c, Transcript(m, c, tests, 0, x.words)))
  }

  /** Judging the same submission in both modes, from the text its wrappers print: `exits` tells how each process of its
      own ends, `x` how the batch process does.  The verdicts are those of what each mode sees; for an honest submission
      that is what happened, and when the wrappers' exit codes stand the modes compare as above. */
  method JudgeBothWays(m: Markers, c: Codec, p: Printer, q: Request, tests: seq<Test>, exits: seq<Exit>, x: Exit)
    returns (single: Verdict, batch: Verdict)
    requires m.Good() && |m.end| < |m.start| && |tests| == |exits| == |q.expected|
    requires forall i :: 0 <= i < |tests| ==> ReadableLast(m, c, tests[i], exits[i])
    ensures single == SingleVerdict(p, q, SeenRuns(m, c, tests, exits))
    ensures batch == OnBatch(p, q, Judged(Own(m, c, Transcript(m, c, tests, 0, x.words)), FinalEnding(tests, x), |tests|))
    ensures Honest(m, c, tests, exits, x) ==>
      single == SingleVerdict(p, q, RunsOf(tests, exits)) && batch == OnBatch(p, q, Expected(tests, x))
    ensures Honest(m, c, tests, exits, x) && InOrder(exits, x) ==>
      && batch == BatchVerdict(p, q, RunsOf(tests, exits))
      && (single == batch <==> !MismatchBeforeFailure(p, q, RunsOf(tests, exits)))
      && (single.Accepted? <==> forall i :: 0 <= i < |tests| ==> Passes(p, q, RunsOf(tests, exits), i))
      && (batch.Accepted? <==> forall i :: 0 <= i < |tests| ==> Passes(p, q, RunsOf(tests, exits), i))
  {
    hide OutputsMatch, Readable, ReadableLast, HonestRun, SettledRun, MismatchBeforeFailure, BatchOf, Expected, InOrder,
      SingleVerdict, BatchVerdict, OnBatch, Seen, Judged, Concluded, Printed, Misleading, SeenRun, Own, Transcript, FinalEnding;
    var runs := RunOneByOne(m, c, tests, exits);
    single := ExecuteSingle(p, q, runs);
    var collected := BatchEndToEnd(m, c, tests, x);
    batch := ExecuteBatch(p, q, collected);
    ghost var happened := RunsOf(tests, exits);
    if InOrder(exits, x) {
      BatchOfTests(tests, exits, x);
      BatchPath(p, q, happened);
      ModesAgree(p, q, happened);
      AcceptedIffAllPass(p, q, happened);
    }
  }

  /** A submission whose process crashes on its way out, as in a destructor, never passes, but the modes disagree on
      where: one by one the first test case fails, in batch mode one past the last. */
  lemma CrashingExit(p: Printer, q: Request, tests: seq<Test>, exits: seq<Exit>, x: Exit, code: int)
    requires |tests| == |exits| == |q.expected| > 0 && code != 0 && (forall t <- tests :: t.outcome.Value?)
    requires x.instead == Some(Exited(code)) && forall y <- exits :: y.instead == x.instead
    ensures SingleVerdict(p, q, RunsOf(tests, exits)) == RuntimeError(0)
    ensures OnBatch(p, q, Expected(tests, x)) == RuntimeError(|tests|)
  {
    hide OutputsMatch;
    assert tests[0] in tests && exits[0] in exits;
    assert FirstFailure(tests) == |tests|;
  }
}
