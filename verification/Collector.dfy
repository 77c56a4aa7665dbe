/**
 Running a wrapper and collecting its results.  A batch wrapper prints one block per test case as it goes,
 so that the judge can tell which test case a crash or a timeout belongs to.
 */
module Collector {
  import opened Wrappers
  import opened Comparator
  import opened Framing
  import opened SettledOutput

  /** The keys of a result block that the judge looks at. */
  datatype Block = Block(result: Option<Json>, mutated: Option<Json>, error: Option<string>, failedIndex: Option<int>)

  /** How one test case ends: a value, an exception the wrapper catches, the process gone
      with some exit code (a signal, or the submission calling exit), or never. */
  datatype Outcome = Value(returned: Returned) | Throws(message: string) | Dies(code: int) | Hangs

  /** One test case: what the submission prints, then how it ends. */
  datatype Test = Test(noise: string, outcome: Outcome)

  /** What the judge sees of the process when it stops waiting. */
  datatype Ending = Exited(code: int) | StillRunning

  /** What runs when the process ends in order, such as exit handlers and destructors: what it prints, and how the
      process then ends if not with the wrapper's exit code (a crash, another code, or never). */
  datatype Exit = Exit(words: string, instead: Option<Ending>) {
    function Ends(code: int): Ending { if instead.Some? then instead.value else Exited(code) }
  }

  /** Nothing is printed and the wrapper's exit code stands. */
  const INORDER := Exit("", None)

  datatype Collected = Results(values: seq<Returned>) | TimeLimit(index: int) | Failed(index: int)

  /** JSON printing and parsing.  `decode` accepts objects only.  Batch blocks also carry their "index", which the
      judge never reads: it is abstracted from. */
  datatype Codec = Codec(encode: Block -> string, decode: string -> Option<Block>)

  /** The block is printed as an object that does not mention the end marker, and reads back as itself. */
  ghost predicate Readable(m: Markers, c: Codec, b: Block) {
    Body(m, c.encode(b)) && c.decode(c.encode(b)) == Some(b)
  }

  // ------------------------------------------------------------------
  // The wrapper
  // ------------------------------------------------------------------

  function ValueBlock(r: Returned): Block {
    Block(Some(r.value), if r.InPlace? then Some(r.mutated) else None, None, None)
  }

  function ErrorBlock(message: string, index: nat): Block { Block(None, None, Some(message), Some(index)) }

  /** emit: the block on a line of its own. */
  function Emitted(m: Markers, c: Codec, b: Block): string { Framing.Block(m, c.encode(b)) + "\n" }

  /** The first test case that does not return, or the number of test cases. */
  function FirstFailure(tests: seq<Test>): (f: nat)
    ensures f <= |tests|
    ensures forall i :: 0 <= i < f ==> tests[i].outcome.Value?
    ensures f < |tests| ==> !tests[f].outcome.Value?
  {
    if tests == [] || !tests[0].outcome.Value? then 0 else 1 + FirstFailure(tests[1..])
  }

  /** What is printed from test case `index` on; `after` is printed by what runs when the process ends in order. */
  function Transcript(m: Markers, c: Codec, tests: seq<Test>, index: nat, after: string): string
    requires index <= |tests|
    decreases |tests| - index
  {
    if index == |tests| then after else
      var t := tests[index];
      match t.outcome
      case Value(r) => t.noise + Emitted(m, c, ValueBlock(r)) + Transcript(m, c, tests, index + 1, after)
      case Throws(message) => t.noise + Emitted(m, c, ErrorBlock(message, index)) + after
      case _ => t.noise
  }

  /** How the process ends when this is its last outcome. */
  function EndingOf(o: Outcome, x: Exit): Ending {
    match o
    case Value(_) => x.Ends(0)
    case Throws(_) => x.Ends(1)
    case Dies(code) => Exited(code)
    case Hangs => StillRunning
  }

  function FinalEnding(tests: seq<Test>, x: Exit): Ending {
    var f := FirstFailure(tests);
    if f == |tests| then x.Ends(0) else EndingOf(tests[f].outcome, x)
  }

  /** The batch loop of the wrappers' main. */
  method RunBatch(m: Markers, c: Codec, tests: seq<Test>, x: Exit) returns (stdout: string, ending: Ending)
    ensures stdout == Transcript(m, c, tests, 0, x.words)
    ensures ending == FinalEnding(tests, x)
    ensures x.instead.None? && (forall t <- tests :: t.outcome.Value?) ==> ending == Exited(0)
    ensures x.instead.None? && FirstFailure(tests) < |tests| && tests[FirstFailure(tests)].outcome.Throws? ==> ending == Exited(1)
  {
    var after := x.words;
    stdout := "";
    var index := 0;
    while index < |tests|
      invariant 0 <= index <= FirstFailure(tests)
      invariant stdout + Transcript(m, c, tests, index, after) == Transcript(m, c, tests, 0, after)
    {
      var t := tests[index];
      assert t.outcome.Value? ==> index < FirstFailure(tests);
      assert !t.outcome.Value? ==> index == FirstFailure(tests);
      match t.outcome {
        case Value(r) =>
          var block := Emitted(m, c, ValueBlock(r));
          Regroup(stdout, t.noise, block, Transcript(m, c, tests, index + 1, after));
          stdout := stdout + t.noise + block;
          index := index + 1;
        case Throws(message) =>
          stdout := stdout + (t.noise + Emitted(m, c, ErrorBlock(message, index)) + after);
          return stdout, x.Ends(1);
        case Dies(code) =>
          return stdout + t.noise, Exited(code);
        case Hangs =>
          return stdout + t.noise, StillRunning;
      }
    }
    return stdout + after, x.Ends(0);
  }

  lemma Regroup(a: string, b: string, c: string, d: string)
    ensures a + (b + c + d) == a + b + c + d
  {
  }

  // ------------------------------------------------------------------
  // The collector
  // ------------------------------------------------------------------

  function OrNull(x: Option<Json>): Json { if x.Some? then x.value else Null }

  /** result_value. */
  function ResultValue(b: Block): Returned {
    if b.mutated.Some? then InPlace(OrNull(b.result), b.mutated.value) else Plain(OrNull(b.result))
  }

  /** The first error block, or the number of blocks. */
  function FirstError(blocks: seq<Block>): (k: nat)
    ensures k <= |blocks|
    ensures forall i :: 0 <= i < k ==> blocks[i].error.None?
    ensures k < |blocks| ==> blocks[k].error.Some?
  {
    if blocks == [] || blocks[0].error.Some? then 0 else 1 + FirstError(blocks[1..])
  }

  /** What run_batch_wrapper makes of the blocks it found. */
  function Judged(blocks: seq<Block>, ending: Ending, count: nat): Collected {
    if ending.StillRunning? then TimeLimit(if |blocks| < count - 1 then |blocks| else count - 1) else
      var k := FirstError(blocks);
      if k < |blocks| then Failed(if blocks[k].failedIndex.Some? then blocks[k].failedIndex.value else k)
      else if ending.code != 0 || |blocks| != count then Failed(|blocks|)
      else Results(seq(|blocks|, i requires 0 <= i < |blocks| => ResultValue(blocks[i])))
  }

  /** The blocks in a piece of output. */
  function Own(m: Markers, c: Codec, s: string): seq<Block>
    requires |m.end| > 0
  {
    Decoded(Candidates(m, s, 0), c.decode)
  }

  /** What a batch run comes to, read off the blocks and the way the process ended. */
  ghost predicate Concluded(blocks: seq<Block>, ending: Ending, count: nat, r: Collected) {
    // all went well: one block per test case, none with an error, and exit code 0
    && (r.Results? <==> ending == Exited(0) && |blocks| == count && forall b <- blocks :: b.error.None?)
    && (r.Results? ==> |r.values| == count && forall i :: 0 <= i < count ==>
          && (blocks[i].mutated.Some? ==> r.values[i].InPlace? && Some(r.values[i].mutated) == blocks[i].mutated)
          && (blocks[i].mutated.None? ==> r.values[i].Plain?)
          && r.values[i].value == (if blocks[i].result.Some? then blocks[i].result.value else Null))
    // out of time: the test case after the last block, at most the last one
    && (r.TimeLimit? <==> ending == StillRunning)
    && (r.TimeLimit? ==> r.index == if |blocks| < count then |blocks| else count - 1)
    // the first error block names its test case, or else its position does
    && (forall k | 0 <= k < |blocks| && blocks[k].error.Some? && (forall j :: 0 <= j < k ==> blocks[j].error.None?) ::
          ending.Exited? ==> r == Failed(if blocks[k].failedIndex.Some? then blocks[k].failedIndex.value else k))
    // a crash or a wrong number of blocks without an error block: the test case after the last block
    && (ending.Exited? && !r.Results? && (forall b <- blocks :: b.error.None?) ==> r == Failed(|blocks|))
  }

  lemma JudgedMeans(blocks: seq<Block>, ending: Ending, count: nat)
    ensures Concluded(blocks, ending, count, Judged(blocks, ending, count))
  {
    var k := FirstError(blocks);
    hide FirstError;
    assert forall j :: 0 <= j < |blocks| ==> blocks[j] in blocks;
    assert Concluded(blocks, ending, count, Judged(blocks, ending, count));
  }

  /** run_batch_wrapper, after the process has ended or the time is up. */
  method CollectBatch(m: Markers, c: Codec, stdout: string, ending: Ending, count: nat) returns (r: Collected)
    requires |m.end| > 0
    ensures r == Judged(Own(m, c, stdout), ending, count)
    ensures Concluded(Own(m, c, stdout), ending, count, r)
  {
    hide Candidates, Decoded;
    var blocks := ParseAll(m, stdout, c.decode);
    JudgedMeans(blocks, ending, count);
    if ending.StillRunning? {
      var done := |blocks|;
      return TimeLimit(if done < count - 1 then done else count - 1);
    }
    var results := [];
    for i := 0 to |blocks|
      invariant |results| == i <= FirstError(blocks)
      invariant forall j :: 0 <= j < i ==> results[j] == ResultValue(blocks[j])
    {
      var block := blocks[i];
      if block.error.Some? {
        return Failed(if block.failedIndex.Some? then block.failedIndex.value else |results|);
      }
      results := results + [ResultValue(block)];
    }
    if ending.code != 0 || |results| != count {
      return Failed(|results|);
    }
    return Results(results);
  }

  // ------------------------------------------------------------------
  // Batch mode end to end
  // ------------------------------------------------------------------

  predicate Emits(o: Outcome) { o.Value? || o.Throws? }

  /** Up to the first failing test case, the output before each block of the wrapper is settled: it may hold blocks of
      the submission's own, but none that runs into the wrapper's. */
  ghost predicate SettledRun(m: Markers, tests: seq<Test>)
    requires |m.end| > 0
  {
    forall i :: 0 <= i < |tests| && i <= FirstFailure(tests) && Emits(tests[i].outcome) ==> Settled(m, tests[i].noise)
  }

  /** The blocks the wrapper prints from test case `index` on. */
  function Printed(tests: seq<Test>, index: nat): seq<Block>
    requires index <= |tests|
    decreases |tests| - index
  {
    if index == |tests| then [] else
      match tests[index].outcome
      case Value(r) => [ValueBlock(r)] + Printed(tests, index + 1)
      case Throws(message) => [ErrorBlock(message, index)]
      case _ => []
  }

  /** The texts between markers: those in the submission's output, then the wrapper's, test case by test case. */
  function Texts(m: Markers, c: Codec, tests: seq<Test>, index: nat, after: string): seq<string>
    requires |m.end| > 0 && index <= |tests|
    decreases |tests| - index
  {
    if index == |tests| then Candidates(m, after, 0) else
      var own := Candidates(m, tests[index].noise, 0);
      match tests[index].outcome
      case Value(r) => own + ([c.encode(ValueBlock(r))] + Texts(m, c, tests, index + 1, after))
      case Throws(message) => own + ([c.encode(ErrorBlock(message, index))] + Candidates(m, after, 0))
      case _ => own
  }

  /** The line break after a block holds nothing. */
  lemma {:induction false} NewlineHoldsNothing(m: Markers, t: string)
    requires m.Good()
    ensures Candidates(m, "\n" + t, 0) == Candidates(m, t, 0)
  {
    hide Find;
    var s := "\n" + t;
    ScanPrepend(m, "\n", t, 0);
    AfterNewline("", t, m.start, 0);
    assert "" + "\n" + t == s;
    SkipOne(m, s);
  }

  lemma {:induction false} SkipOne(m: Markers, s: string)
    requires |m.end| > 0 && |m.start| > 0 && !At(s, m.start, 0)
    ensures Candidates(m, s, 0) == Candidates(m, s, 1)
  {
    hide Next, Candidates;
    NextSkips(m, s);
    CandidatesUnfold(m, s, 0);
    CandidatesUnfold(m, s, 1);
    assert Candidates(m, s, 0) == Candidates(m, s, 1);
  }

  lemma NextSkips(m: Markers, s: string)
    requires |m.start| > 0 && !At(s, m.start, 0)
    ensures Next(m, s, 0) == Next(m, s, 1)
  {
    hide Find;
    FindSkips(s, m.start);
    assert Next(m, s, 0) == Next(m, s, 1);
  }

  lemma {:induction false} FindSkips(s: string, pat: string)
    requires |pat| > 0 && !At(s, pat, 0)
    ensures Find(s, pat, 0) == Find(s, pat, 1)
  {
    hide At;
  }

  /** One test case of the transcript. */
  lemma {:induction false} ScanTest(m: Markers, c: Codec, noise: string, b: Block, rest: string)
    requires m.Good() && Settled(m, noise) && Body(m, c.encode(b))
    ensures Candidates(m, noise + Emitted(m, c, b) + rest, 0) ==
      Candidates(m, noise, 0) + ([c.encode(b)] + Candidates(m, rest, 0))
  {
    hide Candidates, Contains;
    assert noise + Emitted(m, c, b) + rest == noise + (Framing.Block(m, c.encode(b)) + ("\n" + rest));
    ScanSettled(m, noise, c.encode(b), "\n" + rest);
    NewlineHoldsNothing(m, rest);
  }

  lemma {:induction false} ScanTestShort(m: Markers, c: Codec, noise: string, b: Block, rest: string)
    requires m.Good() && Settled(m, noise) && Object(c.encode(b)) && Contains(c.encode(b), m.end)
    ensures var texts, k := Candidates(m, noise + Emitted(m, c, b) + rest, 0), |Candidates(m, noise, 0)|;
      k < |texts| && |texts[k]| < |c.encode(b)|
  {
    hide Candidates, Contains;
    assert noise + Emitted(m, c, b) + rest == noise + (Framing.Block(m, c.encode(b)) + ("\n" + rest));
    ScanSettledShort(m, noise, c.encode(b), "\n" + rest);
  }

  lemma Cancel(own: seq<string>, b: string, x: seq<string>, y: seq<string>)
    ensures own + ([b] + x) == own + ([b] + y) <==> x == y
  {
    var k := |own| + 1;
    assert (own + ([b] + x))[k..] == x && (own + ([b] + y))[k..] == y;
  }

  lemma Differ(own: seq<string>, b: string, x: seq<string>, texts: seq<string>)
    requires |own| < |texts| && |texts[|own|]| < |b|
    ensures texts != own + ([b] + x)
  {
    assert (own + ([b] + x))[|own|] == b;
  }

  /** One test case, given the rest. */
  lemma {:induction false} RecoveredStep(m: Markers, c: Codec, noise: string, b: Block, rest: string, more: seq<string>, blocks: seq<Block>)
    requires m.Good() && Settled(m, noise) && Object(c.encode(b))
    requires Candidates(m, rest, 0) == more <==> forall d <- blocks :: !Contains(c.encode(d), m.end)
    ensures Candidates(m, noise + Emitted(m, c, b) + rest, 0) == Candidates(m, noise, 0) + ([c.encode(b)] + more) <==>
      forall d <- [b] + blocks :: !Contains(c.encode(d), m.end)
  {
    hide Candidates, Contains, Settled;
    var own := Candidates(m, noise, 0);
    if Contains(c.encode(b), m.end) {
      ScanTestShort(m, c, noise, b, rest);
      Differ(own, c.encode(b), more, Candidates(m, noise + Emitted(m, c, b) + rest, 0));
      assert b in [b] + blocks;
    } else {
      ScanTest(m, c, noise, b, rest);
      Cancel(own, c.encode(b), Candidates(m, rest, 0), more);
    }
  }

  /** What is found from test case `index` on is what was printed, exactly when no printed object mentions the end marker. */
  ghost predicate RecoveredFrom(m: Markers, c: Codec, tests: seq<Test>, index: nat, after: string)
    requires |m.end| > 0 && index <= |tests|
  {
    Candidates(m, Transcript(m, c, tests, index, after), 0) == Texts(m, c, tests, index, after) <==>
      forall b <- Printed(tests, index) :: !Contains(c.encode(b), m.end)
  }

  lemma {:induction false} RecoveredValue(m: Markers, c: Codec, tests: seq<Test>, index: nat, after: string)
    requires m.Good() && index < |tests| && tests[index].outcome.Value? && Settled(m, tests[index].noise)
    requires Object(c.encode(ValueBlock(tests[index].outcome.returned))) && RecoveredFrom(m, c, tests, index + 1, after)
    ensures RecoveredFrom(m, c, tests, index, after)
  {
    hide Candidates, Contains, Settled;
    var noise, b := tests[index].noise, ValueBlock(tests[index].outcome.returned);
    var rest, more, blocks := Transcript(m, c, tests, index + 1, after), Texts(m, c, tests, index + 1, after), Printed(tests, index + 1);
    RecoveredStep(m, c, noise, b, rest, more, blocks);
    assert Transcript(m, c, tests, index, after) == noise + Emitted(m, c, b) + rest;
    assert Texts(m, c, tests, index, after) == Candidates(m, noise, 0) + ([c.encode(b)] + more);
    assert Printed(tests, index) == [b] + blocks;
    hide Transcript, Texts, Printed;
    assert RecoveredFrom(m, c, tests, index, after);
  }

  lemma {:induction false} RecoveredError(m: Markers, c: Codec, tests: seq<Test>, index: nat, after: string)
    requires m.Good() && index < |tests| && tests[index].outcome.Throws? && Settled(m, tests[index].noise)
    requires Object(c.encode(ErrorBlock(tests[index].outcome.message, index)))
    ensures RecoveredFrom(m, c, tests, index, after)
  {
    hide Candidates, Contains, Settled;
    var noise, b := tests[index].noise, ErrorBlock(tests[index].outcome.message, index);
    RecoveredStep(m, c, noise, b, after, Candidates(m, after, 0), []);
    assert Printed(tests, index) == [b] + [];
  }

  /** When what the submission prints is settled and the wrapper prints objects, the judge finds the submission's texts
      and the wrapper's, in order, exactly when no printed object mentions the end marker. */
  lemma {:induction false} RecoveredIff(m: Markers, c: Codec, tests: seq<Test>, index: nat, after: string)
    requires m.Good() && SettledRun(m, tests) && index <= FirstFailure(tests)
    requires forall b <- Printed(tests, index) :: Object(c.encode(b))
    ensures Candidates(m, Transcript(m, c, tests, index, after), 0) == Texts(m, c, tests, index, after) <==>
      forall b <- Printed(tests, index) :: !Contains(c.encode(b), m.end)
    decreases |tests| - index
  {
    hide Candidates, Contains, Settled;
    if index < |tests| {
      match tests[index].outcome {
        case Value(r) =>
          var blocks := Printed(tests, index + 1);
          assert Printed(tests, index) == [ValueBlock(r)] + blocks && ValueBlock(r) in Printed(tests, index);
          assert forall d <- blocks :: d in Printed(tests, index);
          RecoveredIff(m, c, tests, index + 1, after);
          hide Transcript, Texts, Printed;
          RecoveredValue(m, c, tests, index, after);
        case Throws(message) =>
          assert ErrorBlock(message, index) in Printed(tests, index);
          RecoveredError(m, c, tests, index, after);
        case _ =>
      }
    }
  }

  // ------------------------------------------------------------------
  // Blocks seen
  // ------------------------------------------------------------------

  lemma {:induction false} DecodedAppend<T>(a: seq<string>, b: seq<string>, decode: string -> Option<T>)
    ensures Decoded(a + b, decode) == Decoded(a, decode) + Decoded(b, decode)
    decreases |b|
  {
    if b == [] {
      assert a + b == a;
    } else {
      var k := |b| - 1;
      var front, last := b[..k], b[k];
      assert a + b == a + front + [last] && b == front + [last];
      DecodedAppend(a, front, decode);
      DecodedSnoc(a + front, last, decode);
      DecodedSnoc(front, last, decode);
      hide Decoded;
      var tail := if decode(last).Some? then [decode(last).value] else [];
      assert Decoded(a, decode) + Decoded(front, decode) + tail == Decoded(a, decode) + (Decoded(front, decode) + tail);
    }
  }

  /** The blocks the judge finds from test case `index` on. */
  function Seen(m: Markers, c: Codec, tests: seq<Test>, index: nat, after: string): seq<Block>
    requires |m.end| > 0 && index <= |tests|
    decreases |tests| - index
  {
    if index == |tests| then Own(m, c, after) else
      var own := Own(m, c, tests[index].noise);
      match tests[index].outcome
      case Value(r) => own + ([ValueBlock(r)] + Seen(m, c, tests, index + 1, after))
      case Throws(message) => own + ([ErrorBlock(message, index)] + Own(m, c, after))
      case _ => own
  }

  lemma DecodedMiddle(own: seq<string>, b: Block, rest: seq<string>, c: Codec)
    requires c.decode(c.encode(b)) == Some(b)
    ensures Decoded(own + ([c.encode(b)] + rest), c.decode) == Decoded(own, c.decode) + ([b] + Decoded(rest, c.decode))
  {
    DecodedAppend(own, [c.encode(b)] + rest, c.decode);
    DecodedAppend([c.encode(b)], rest, c.decode);
    DecodedSnoc([], c.encode(b), c.decode);
    NothingDecoded(c.decode);
    assert [] + [c.encode(b)] == [c.encode(b)];
  }

  lemma {:induction false} TextsDecode(m: Markers, c: Codec, tests: seq<Test>, index: nat, after: string)
    requires |m.end| > 0 && index <= |tests| && forall b <- Printed(tests, index) :: c.decode(c.encode(b)) == Some(b)
    ensures Decoded(Texts(m, c, tests, index, after), c.decode) == Seen(m, c, tests, index, after)
    decreases |tests| - index
  {
    hide Candidates, Decoded;
    if index < |tests| {
      var own := Candidates(m, tests[index].noise, 0);
      match tests[index].outcome {
        case Value(r) =>
          assert ValueBlock(r) in Printed(tests, index);
          assert forall d <- Printed(tests, index + 1) :: d in Printed(tests, index);
          TextsDecode(m, c, tests, index + 1, after);
          DecodedMiddle(own, ValueBlock(r), Texts(m, c, tests, index + 1, after), c);
        case Throws(message) =>
          assert ErrorBlock(message, index) in Printed(tests, index);
          DecodedMiddle(own, ErrorBlock(message, index), Candidates(m, after, 0), c);
        case _ =>
      }
    }
  }

  /** The judge finds, per test case, the submission's own blocks and then the wrapper's. */
  lemma {:induction false} BlocksRecovered(m: Markers, c: Codec, tests: seq<Test>, after: string)
    requires m.Good() && SettledRun(m, tests) && forall b <- Printed(tests, 0) :: Readable(m, c, b)
    ensures Own(m, c, Transcript(m, c, tests, 0, after)) == Seen(m, c, tests, 0, after)
  {
    hide Candidates, Decoded, Contains, Settled;
    RecoveredIff(m, c, tests, 0, after);
    TextsDecode(m, c, tests, 0, after);
  }

  /** One value block per test case before the first failure, then an error block if that one threw. */
  lemma {:induction false} PrintedShape(tests: seq<Test>, index: nat)
    requires index <= FirstFailure(tests)
    ensures var f, bs := FirstFailure(tests), Printed(tests, index);
      && (forall i :: 0 <= i < f - index ==> i < |bs| && bs[i] == ValueBlock(tests[index + i].outcome.returned))
      && (if f < |tests| && tests[f].outcome.Throws?
          then |bs| == f - index + 1 && bs[f - index] == ErrorBlock(tests[f].outcome.message, f)
          else |bs| == f - index)
    decreases |tests| - index
  {
    if index < FirstFailure(tests) {
      PrintedShape(tests, index + 1);
    }
  }

  /** The judge finds at least the wrapper's blocks, and nothing else exactly when there are no more than those. */
  lemma {:induction false} SeenCount(m: Markers, c: Codec, tests: seq<Test>, index: nat, after: string)
    requires |m.end| > 0 && index <= FirstFailure(tests)
    ensures |Seen(m, c, tests, index, after)| >= |Printed(tests, index)|
    ensures |Seen(m, c, tests, index, after)| == |Printed(tests, index)| ==> Seen(m, c, tests, index, after) == Printed(tests, index)
    ensures forall b <- Printed(tests, index) :: b in Seen(m, c, tests, index, after)
    decreases |tests| - index
  {
    hide Candidates, Decoded, Own;
    if index < FirstFailure(tests) {
      SeenCount(m, c, tests, index + 1, after);
      var own, b := Own(m, c, tests[index].noise), ValueBlock(tests[index].outcome.returned);
      var rest := Seen(m, c, tests, index + 1, after);
      if |own + ([b] + rest)| == |Printed(tests, index)| {
        assert own == [];
        assert own + ([b] + rest) == [b] + rest;
      }
    }
  }

  // ------------------------------------------------------------------
  // What the judge concludes
  // ------------------------------------------------------------------

  /** What the judge should conclude from the outcomes and the way the process ended: the values when all is well, else
      the first failing test case.  A process that returned every value and then does not end with exit code 0 fails
      past the last test case; one that then never ends runs out of time in the last one. */
  function Expected(tests: seq<Test>, x: Exit): Collected {
    var f := FirstFailure(tests);
    if FinalEnding(tests, x).StillRunning? then TimeLimit(if f < |tests| then f else |tests| - 1)
    else if f < |tests| || FinalEnding(tests, x).code != 0 then Failed(f)
    else Results(seq(|tests|, i requires 0 <= i < |tests| => tests[i].outcome.returned))
  }

  lemma ErrorFoundAt(blocks: seq<Block>, k: nat)
    requires k <= |blocks| && forall i :: 0 <= i < k ==> blocks[i].error.None?
    requires k < |blocks| ==> blocks[k].error.Some?
    ensures FirstError(blocks) == k
  {
  }

  /** The test case an error block is attributed to. */
  function Blamed(blocks: seq<Block>, k: nat): int
    requires k < |blocks|
  {
    if blocks[k].failedIndex.Some? then blocks[k].failedIndex.value else k
  }

  /** One error-free block per test case, each with the value returned. */
  predicate ShowsValues(tests: seq<Test>, blocks: seq<Block>) {
    && |blocks| == |tests|
    && forall i :: 0 <= i < |tests| ==>
         tests[i].outcome.Value? && blocks[i].error.None? && ResultValue(blocks[i]) == tests[i].outcome.returned
  }

  /** Blocks that lead the judge away from what happened: in a run that succeeds, anything but its values; in one that
      never ends, a number of blocks that points to another test case; otherwise a first error block that blames another,
      or without one a number of blocks that points to another. */
  predicate Misleading(tests: seq<Test>, x: Exit, blocks: seq<Block>) {
    var f, k := FirstFailure(tests), FirstError(blocks);
    match FinalEnding(tests, x)
    case StillRunning => if f < |tests| - 1 then |blocks| != f else |blocks| < |tests| - 1
    case Exited(code) =>
      if f == |tests| && code == 0 then !ShowsValues(tests, blocks)
      else if k < |blocks| then Blamed(blocks, k) != f
      else |blocks| != f
  }

  lemma PrintedValues(tests: seq<Test>)
    ensures var f, bs := FirstFailure(tests), Printed(tests, 0);
      f <= |bs| && forall i :: 0 <= i < f ==> bs[i].error.None? && ResultValue(bs[i]) == tests[i].outcome.returned
  {
    PrintedShape(tests, 0);
    var f, bs := FirstFailure(tests), Printed(tests, 0);
    assert forall i :: 0 <= i < f ==> bs[i] == ValueBlock(tests[0 + i].outcome.returned);
  }

  lemma AllValuesJudged(tests: seq<Test>, x: Exit, blocks: seq<Block>)
    requires FirstFailure(tests) == |tests| && x.Ends(0) == Exited(0)
    ensures Judged(blocks, Exited(0), |tests|) == Expected(tests, x) <==> ShowsValues(tests, blocks)
  {
    hide FirstFailure;
    var seen := Judged(blocks, Exited(0), |tests|);
    if ShowsValues(tests, blocks) {
      ErrorFoundAt(blocks, |tests|);
      assert seen.Results? && |seen.values| == |tests|;
      assert seen.values == Expected(tests, x).values;
    }
    if seen == Expected(tests, x) {
      assert |seen.values| == |blocks| == |tests|;
      forall i | 0 <= i < |tests| ensures ResultValue(blocks[i]) == tests[i].outcome.returned {
        assert seen.values[i] == Expected(tests, x).values[i];
      }
    }
  }

  /** Whatever blocks the judge finds, it concludes what happened exactly when they do not mislead it. */
  lemma JudgedIsExpected(tests: seq<Test>, x: Exit, blocks: seq<Block>)
    ensures Judged(blocks, FinalEnding(tests, x), |tests|) == Expected(tests, x) <==> !Misleading(tests, x, blocks)
  {
    hide FirstError, FirstFailure;
    if FirstFailure(tests) == |tests| && x.Ends(0) == Exited(0) {
      AllValuesJudged(tests, x, blocks);
    }
  }

  /** After settled output, a run that succeeds is shown exactly when there is no block too many. */
  lemma {:induction false} SettledShows(m: Markers, c: Codec, tests: seq<Test>, after: string)
    requires |m.end| > 0 && FirstFailure(tests) == |tests|
    ensures var blocks := Seen(m, c, tests, 0, after); ShowsValues(tests, blocks) <==> |blocks| == |tests|
  {
    SeenCount(m, c, tests, 0, after);
    PrintedShape(tests, 0);
    PrintedValues(tests);
  }

  /** Batch mode end to end, whatever the submission prints and however the process ends.  The judge concludes what
      happened exactly when the blocks it finds do not mislead it.  After settled output these are, per test case, the
      submission's own blocks and then the wrapper's; without own blocks only an exit that hangs after an error does. */
  method BatchEndToEnd(m: Markers, c: Codec, tests: seq<Test>, x: Exit) returns (r: Collected)
    requires m.Good()
    ensures var blocks := Own(m, c, Transcript(m, c, tests, 0, x.words));
      && r == Judged(blocks, FinalEnding(tests, x), |tests|)
      && Concluded(blocks, FinalEnding(tests, x), |tests|, r)
      && (r == Expected(tests, x) <==> !Misleading(tests, x, blocks))
      && (SettledRun(m, tests) && (forall b <- Printed(tests, 0) :: Readable(m, c, b)) ==>
            && blocks == Seen(m, c, tests, 0, x.words)
            && (NoOwn(m, c, tests, x.words) ==> (r == Expected(tests, x) <==> !StuckAfterError(tests, x))))
  {
    hide Candidates, Decoded, Judged, Concluded, Seen, Contains, Settled, SettledRun, Printed, Readable, Misleading;
    var stdout, ending := RunBatch(m, c, tests, x);
    r := CollectBatch(m, c, stdout, ending, |tests|);
    JudgedIsExpected(tests, x, Own(m, c, stdout));
    if SettledRun(m, tests) && forall b <- Printed(tests, 0) :: Readable(m, c, b) {
      BlocksRecovered(m, c, tests, x.words);
      if NoOwn(m, c, tests, x.words) { NothingMisleads(m, c, tests, x); }
    }
  }

  /** A test case before the last one throws, and the process then hangs on its way out: its error block counts as a
      result, and the time limit is attributed to the next test case. */
  predicate StuckAfterError(tests: seq<Test>, x: Exit) {
    var f := FirstFailure(tests);
    f < |tests| - 1 && tests[f].outcome.Throws? && x.instead == Some(StillRunning)
  }

  /** The submission prints no block of its own. */
  ghost predicate NoOwn(m: Markers, c: Codec, tests: seq<Test>, after: string)
    requires |m.end| > 0
  {
    Own(m, c, after) == [] && forall t <- tests :: Own(m, c, t.noise) == []
  }

  lemma {:induction false} SeenIsPrinted(m: Markers, c: Codec, tests: seq<Test>, index: nat, after: string)
    requires |m.end| > 0 && NoOwn(m, c, tests, after) && index <= |tests|
    ensures Seen(m, c, tests, index, after) == Printed(tests, index)
    decreases |tests| - index
  {
    hide Own;
    if index < |tests| {
      assert Own(m, c, tests[index].noise) == [];
      if tests[index].outcome.Value? { SeenIsPrinted(m, c, tests, index + 1, after); }
    }
  }

  lemma NothingMisleads(m: Markers, c: Codec, tests: seq<Test>, x: Exit)
    requires |m.end| > 0 && NoOwn(m, c, tests, x.words)
    ensures Misleading(tests, x, Seen(m, c, tests, 0, x.words)) <==> StuckAfterError(tests, x)
  {
    SeenIsPrinted(m, c, tests, 0, x.words);
    PrintedShape(tests, 0);
    PrintedValues(tests);
    var f, blocks := FirstFailure(tests), Printed(tests, 0);
    assert |blocks| > f ==> blocks[f] == blocks[f - 0];
    hide Seen, Own, FirstFailure, Printed;
    ErrorFoundAt(blocks, f);
  }

  /** The first error block found is the wrapper's, and names its test case. */
  lemma {:induction false} ErrorSeen(m: Markers, c: Codec, tests: seq<Test>, index: nat, after: string)
    requires |m.end| > 0 && index <= FirstFailure(tests) < |tests| && tests[FirstFailure(tests)].outcome.Throws?
    requires forall i :: index <= i <= FirstFailure(tests) ==> forall b <- Own(m, c, tests[i].noise) :: b.error.None?
    ensures var seen := Seen(m, c, tests, index, after); var k := FirstError(seen);
      k < |seen| && seen[k].failedIndex == Some(FirstFailure(tests))
    decreases |tests| - index
  {
    hide Own;
    var f, own := FirstFailure(tests), Own(m, c, tests[index].noise);
    var rest := if index == f then [ErrorBlock(tests[f].outcome.message, f)] + Own(m, c, after)
                else [ValueBlock(tests[index].outcome.returned)] + Seen(m, c, tests, index + 1, after);
    var k := 0;
    if index < f {
      ErrorSeen(m, c, tests, index + 1, after);
      k := 1 + FirstError(Seen(m, c, tests, index + 1, after));
    }
    var seen := own + rest;
    assert seen == Seen(m, c, tests, index, after);
    hide FirstFailure, Seen;
    forall i | 0 <= i < |own| + k ensures seen[i].error.None? {
      if i < |own| { assert own[i] in own; }
    }
    ErrorFoundAt(seen, |own| + k);
  }

  /** An exception is attributed to the test case that threw, however many blocks the submission printed before, as long
      as none of them reports an error itself. */
  lemma ErrorKeepsItsPlace(m: Markers, c: Codec, tests: seq<Test>, x: Exit)
    requires m.Good() && SettledRun(m, tests) && (forall b <- Printed(tests, 0) :: Readable(m, c, b))
    requires var f := FirstFailure(tests); f < |tests| && tests[f].outcome.Throws? && x.instead != Some(StillRunning)
    requires forall i :: 0 <= i <= FirstFailure(tests) ==> forall b <- Own(m, c, tests[i].noise) :: b.error.None?
    ensures Judged(Own(m, c, Transcript(m, c, tests, 0, x.words)), FinalEnding(tests, x), |tests|) == Failed(FirstFailure(tests))
  {
    hide Own, Settled, SettledRun, Readable, Printed, FirstFailure, FirstError, Seen, Transcript;
    BlocksRecovered(m, c, tests, x.words);
    ErrorSeen(m, c, tests, 0, x.words);
    assert Judged(Seen(m, c, tests, 0, x.words), FinalEnding(tests, x), |tests|) == Failed(FirstFailure(tests));
  }

  /** A process that returns every value and then crashes, as in a destructor, fails: the index reported is the number of
      test cases, past the last one. */
  lemma CrashAtExit(m: Markers, c: Codec, tests: seq<Test>, x: Exit, code: int)
    requires m.Good() && SettledRun(m, tests) && (forall b <- Printed(tests, 0) :: Readable(m, c, b))
    requires NoOwn(m, c, tests, x.words) && (forall t <- tests :: t.outcome.Value?) && x.instead == Some(Exited(code)) && code != 0
    ensures Judged(Own(m, c, Transcript(m, c, tests, 0, x.words)), FinalEnding(tests, x), |tests|) == Failed(|tests|)
  {
    assert FirstFailure(tests) == |tests|;
    hide Candidates, Decoded, Judged, Own, Seen, Contains, Settled, SettledRun, Printed, Readable, Misleading, FirstFailure;
    BlocksRecovered(m, c, tests, x.words);
    NothingMisleads(m, c, tests, x);
    JudgedIsExpected(tests, x, Seen(m, c, tests, 0, x.words));
    assert Expected(tests, x) == Failed(|tests|);
  }

  // ------------------------------------------------------------------
  // Forged batches
  // ------------------------------------------------------------------

  lemma {:induction false} SameUpTo(m: Markers, c: Codec, a: seq<Test>, b: seq<Test>, i: nat, k: nat, after: string)
    requires i <= k <= |a| && k <= |b| && a[..k] == b[..k] && forall j :: 0 <= j < k ==> a[j].outcome.Value?
    requires Transcript(m, c, a, k, after) == Transcript(m, c, b, k, after)
    ensures Transcript(m, c, a, i, after) == Transcript(m, c, b, i, after)
    decreases k - i
  {
    if i < k {
      SameUpTo(m, c, a, b, i + 1, k, after);
      assert a[i] == a[..k][i] == b[..k][i] == b[i];
    }
  }

  /** A submission that prints what the wrapper would print for any other course of the remaining test cases, and then
      ends the process, cannot be told from that course: same text, same exit code. */
  lemma {:induction false} ForgedRun(m: Markers, c: Codec, ran: seq<Test>, fake: seq<Test>, rest: seq<Test>, code: int, x: Exit)
    requires (forall t <- ran :: t.outcome.Value?) && FinalEnding(ran + fake, x) == Exited(code)
    ensures var forger := Test(Transcript(m, c, ran + fake, |ran|, x.words), Dies(code));
      && Transcript(m, c, ran + [forger] + rest, 0, x.words) == Transcript(m, c, ran + fake, 0, x.words)
      && FinalEnding(ran + [forger] + rest, x) == FinalEnding(ran + fake, x)
  {
    var forger := Test(Transcript(m, c, ran + fake, |ran|, x.words), Dies(code));
    var run, honest := ran + [forger] + rest, ran + fake;
    assert run[|ran|] == forger && run[..|ran|] == ran == honest[..|ran|];
    forall j | 0 <= j < |ran| ensures run[j].outcome.Value? { assert run[j] == ran[j]; }
    assert FirstFailure(run) == |ran|;
    SameUpTo(m, c, run, honest, 0, |ran|, x.words);
  }

  /** In particular the judge accepts forged values for every test case that never ran. */
  lemma {:induction false} ForgedValues(m: Markers, c: Codec, ran: seq<Test>, fake: seq<Test>, rest: seq<Test>, x: Exit)
    requires m.Good() && |fake| == 1 + |rest| && (forall t <- ran + fake :: t.outcome.Value?) && x.Ends(0) == Exited(0)
    requires SettledRun(m, ran + fake) && NoOwn(m, c, ran + fake, x.words)
    requires forall b <- Printed(ran + fake, 0) :: Readable(m, c, b)
    ensures var run := ran + [Test(Transcript(m, c, ran + fake, |ran|, x.words), Dies(0))] + rest;
      var seen := Own(m, c, Transcript(m, c, run, 0, x.words));
      && Judged(seen, FinalEnding(run, x), |run|) == Expected(ran + fake, x)
      && Expected(ran + fake, x).Results? && Expected(run, x) == Failed(|ran|)
  {
    var honest := ran + fake;
    var run := ran + [Test(Transcript(m, c, honest, |ran|, x.words), Dies(0))] + rest;
    forall j | 0 <= j < |ran| ensures run[j].outcome.Value? { assert run[j] == ran[j] && ran[j] in honest; }
    assert run[|ran|].outcome == Dies(0);
    assert FirstFailure(run) == |ran| && FirstFailure(honest) == |honest|;
    ForgedRun(m, c, ran, fake, rest, 0, x);
    hide Candidates, Decoded, Transcript, Judged, Own, Seen, Contains, Settled;
    BlocksRecovered(m, c, honest, x.words);
    JudgedIsExpected(honest, x, Seen(m, c, honest, 0, x.words));
    NothingMisleads(m, c, honest, x);
  }

  /** A block printed on its own is settled, and is the only one in that output. */
  lemma {:induction false} EmittedOwn(m: Markers, c: Codec, b: Block)
    requires m.Good() && Readable(m, c, b)
    ensures Settled(m, Emitted(m, c, b)) && Own(m, c, Emitted(m, c, b)) == [b]
    ensures Settled(m, "") && Own(m, c, "") == []
  {
    hide Find, Contains, Decoded;
    var body := c.encode(b);
    var s := Emitted(m, c, b);
    EmptyIsQuiet(m);
    NewlineKeepsQuiet(m, "");
    assert "\n" + "" == "\n";
    assert s == "" + Framing.Block(m, body) + "\n";
    FirstPiece(m, Piece("", body), "\n");
    EndOfObject(m, body, "\n");
    assert s[|m.start| + |body| + |m.end|..] == "\n";
    QuietStops(m, "\n");
    QuietStops(m, "");
    ScanPiece(m, Piece("", body), "\n");
    QuietHoldsNothing(m, "\n");
    QuietHoldsNothing(m, "");
    assert [body] + [] == [body];
    NothingDecoded(c.decode);
    DecodedSnoc([], body, c.decode);
    assert [] + [body] == [body];
  }

  lemma EmptyIsQuiet(m: Markers)
    ensures Quiet(m, "")
  {
  }

  lemma QuietStops(m: Markers, s: string)
    requires m.Good() && Quiet(m, s)
    ensures Next(m, s, 0).Stop? && Settled(m, s)
  {
    forall i ensures !At(s, m.start, i) {
      if 0 <= i && i + |m.start| <= |s| { AtAppend(s, m.start, m.start, i); }
    }
    FoundThere(s, m.start, 0);
  }

  /** A block of the submission's own before the wrapper's shifts the results: with one more test case in which the
      process ends itself, they are one off. */
  lemma {:induction false} ShiftedResults(m: Markers, c: Codec, f: Returned, r: Returned)
    requires m.Good() && Readable(m, c, ValueBlock(f)) && Readable(m, c, ValueBlock(r))
    ensures var tests := [Test(Emitted(m, c, ValueBlock(f)), Value(r)), Test("", Dies(0))];
      && Judged(Own(m, c, Transcript(m, c, tests, 0, "")), FinalEnding(tests, INORDER), |tests|) == Results([f, r])
      && Expected(tests, INORDER) == Failed(1)
  {
    var tests := [Test(Emitted(m, c, ValueBlock(f)), Value(r)), Test("", Dies(0))];
    EmittedOwn(m, c, ValueBlock(f));
    assert FirstFailure(tests) == 1 by { assert tests[1..] == [Test("", Dies(0))]; }
    assert Printed(tests, 1) == [] && Printed(tests, 0) == [ValueBlock(r)];
    hide Candidates, Decoded, Own, Contains, Settled, FirstFailure;
    BlocksRecovered(m, c, tests, "");
    assert Seen(m, c, tests, 1, "") == [];
    var blocks := [ValueBlock(f), ValueBlock(r)];
    assert Seen(m, c, tests, 0, "") == blocks;
    ErrorFoundAt(blocks, 2);
    assert Judged(blocks, Exited(0), 2).values == [f, r];
  }

  // ------------------------------------------------------------------
  // One test case at a time
  // ------------------------------------------------------------------

  datatype Single = Got(returned: Returned) | SingleTimeLimit | SingleFailed

  /** The block a wrapper for one test case prints: errors come without an index. */
  function WrapperBlock(o: Outcome): Block
    requires Emits(o)
  {
    if o.Value? then ValueBlock(o.returned) else Block(None, None, Some(o.message), None)
  }

  /** A wrapper's main for one test case. */
  function SingleRun(m: Markers, c: Codec, t: Test, x: Exit): (string, Ending) {
    (if Emits(t.outcome) then t.noise + Emitted(m, c, WrapperBlock(t.outcome)) + x.words else t.noise, EndingOf(t.outcome, x))
  }

  /** run_wrapper. */
  function CollectSingle(m: Markers, c: Codec, stdout: string, ending: Ending): Single {
    if ending.StillRunning? then SingleTimeLimit else
      var parsed := ParseLast(m, stdout, c.decode);
      if ending.code != 0 || parsed.None? || parsed.value.error.Some?
         || (parsed.value.result.None? && parsed.value.mutated.None?)
      then SingleFailed
      else Got(ResultValue(parsed.value))
  }

  /** The last start marker stands at `i` and the first end marker after it at `e`. */
  ghost predicate LastBlockAt(m: Markers, s: string, i: int, e: int) {
    && At(s, m.start, i) && (forall j :: i < j ==> !At(s, m.start, j))
    && i + |m.start| <= e && At(s, m.end, e) && (forall j :: i + |m.start| <= j < e ==> !At(s, m.end, j))
  }

  /** A block that reads as a result. */
  predicate Answers(c: Codec, text: string, r: Returned) {
    var b := c.decode(text);
    b.Some? && b.value.error.None? && (b.value.result.Some? || b.value.mutated.Some?) && ResultValue(b.value) == r
  }

  /** The output itself ends with a complete block that reads as `r`. */
  ghost predicate Forges(m: Markers, c: Codec, s: string, r: Returned) {
    exists i, e :: LastBlockAt(m, s, i, e) && Answers(c, s[i + |m.start|..e], r)
  }

  lemma LastCutMeans(m: Markers, s: string, i: int, e: int)
    requires |m.start| > 0
    ensures LastBlockAt(m, s, i, e) <==> i >= 0 && e >= 0 && LastCut(m, s) == Cut(i + |m.start|, e)
  {
    var a := RFind(s, m.start, |s|);
    hide RFind, Find;
    if a != -1 {
      var b := a + |m.start|;
      assert forall j :: a < j ==> !At(s, m.start, j);
      FirstFrom(s, m.end, b, e);
    }
  }

  lemma FirstFrom(s: string, pat: string, from: nat, e: int)
    ensures e >= 0 && Find(s, pat, from) == e <==> from <= e && At(s, pat, e) && forall j :: from <= j < e ==> !At(s, pat, j)
  {
    FoundThere(s, pat, from);
    if from <= e && At(s, pat, e) && forall j :: from <= j < e ==> !At(s, pat, j) {
      FindIs(s, pat, from, e);
    }
    forall j | from <= j && At(s, pat, j) ensures 0 <= Find(s, pat, from) <= j {
      FindsFirst(s, pat, from, j);
    }
  }

  /** A process that ends with exit code 0 is judged by the last block in its output, whoever printed it. */
  lemma ExitZero(m: Markers, c: Codec, s: string, r: Returned)
    requires |m.start| > 0
    ensures CollectSingle(m, c, s, Exited(0)) == Got(r) <==> Forges(m, c, s, r)
  {
    hide RFind, Find;
    var cut := LastCut(m, s);
    if cut.Cut? {
      var i := cut.from - |m.start|;
      StartsInside(m, s);
      LastCutMeans(m, s, i, cut.to);
    }
    if Forges(m, c, s, r) {
      var i, e :| LastBlockAt(m, s, i, e) && Answers(c, s[i + |m.start|..e], r);
      LastCutMeans(m, s, i, e);
    }
  }

  lemma StartsInside(m: Markers, s: string)
    ensures LastCut(m, s).Cut? ==> LastCut(m, s).from >= |m.start|
  {
    hide Find;
  }

  /** Once a start marker has been printed, nothing before it matters to the backward scan. */
  lemma {:induction false} OnlyTheLast(m: Markers, p: string, t: string)
    requires |m.start| > 0 && Contains(t, m.start)
    ensures LastCandidate(m, p + t) == LastCandidate(m, t)
  {
    hide RFind, Find;
    var a := RFind(t, m.start, |t|);
    LastShifted(m.start, p, t);
    FindPrepend(p, t, m.end, a + |m.start|);
    var e := Find(t, m.end, a + |m.start|);
    if e != -1 {
      assert (p + t)[|p| + a + |m.start|..|p| + e] == t[a + |m.start|..e];
    }
    assert LastCandidate(m, p + t) == LastCandidate(m, t);
  }

  lemma LastShifted(pat: string, p: string, t: string)
    requires |pat| > 0 && Contains(t, pat)
    ensures RFind(t, pat, |t|) >= 0 && RFind(p + t, pat, |p + t|) == |p| + RFind(t, pat, |t|)
  {
    hide RFind;
    var i :| At(t, pat, i);
    assert i < |t|;
    var a, r := RFind(t, pat, |t|), RFind(p + t, pat, |p + t|);
    AtPrepend(p, t, pat, i);
    AtPrepend(p, t, pat, a);
    if r >= |p| { AtPrepend(p, t, pat, r - |p|); }
  }

  /** A process that ends with exit code 0 is judged by its last block: its output if it ends itself, what is printed
      after the wrapper's block if that holds a start marker. */
  ghost predicate Overridden(m: Markers, t: Test, x: Exit) {
    t.outcome == Dies(0) || (Emits(t.outcome) && EndingOf(t.outcome, x) == Exited(0) && Contains(x.words, m.start))
  }

  function Words(t: Test, x: Exit): string { if Emits(t.outcome) then x.words else t.noise }

  /** The wrapper's block, where it is the last one, is read back by the backward scan. */
  ghost predicate ReadableLast(m: Markers, c: Codec, t: Test, x: Exit) {
    Emits(t.outcome) && EndingOf(t.outcome, x) == Exited(0) && !Contains(x.words, m.start) ==>
      var b := WrapperBlock(t.outcome); Readable(m, c, b) && !Contains(c.encode(b), m.start)
  }

  /** What one test case comes to, going by its outcome and the way its process ended. */
  function RunOf(o: Outcome, x: Exit): Single {
    match EndingOf(o, x)
    case StillRunning => SingleTimeLimit
    case Exited(code) => if o.Value? && code == 0 then Got(o.returned) else SingleFailed
  }

  /** One test case end to end.  Output before the block may be anything at all, even blocks of the submission's own:
      the last one counts.  A block printed after the wrapper's, or before a process ends itself, is the last one, and
      decides if the exit code is 0; with any other code the test case fails. */
  lemma {:induction false} SingleEndToEnd(m: Markers, c: Codec, t: Test, x: Exit)
    requires m.Good() && |m.end| < |m.start| && ReadableLast(m, c, t, x)
    ensures var seen := CollectSingle(m, c, SingleRun(m, c, t, x).0, SingleRun(m, c, t, x).1);
      if Overridden(m, t, x) then
        && seen == CollectSingle(m, c, Words(t, x), Exited(0))
        && (forall r :: seen == Got(r) <==> Forges(m, c, Words(t, x), r))
        && (seen == SingleFailed <==> forall r :: !Forges(m, c, Words(t, x), r))
      else seen == RunOf(t.outcome, x)
  {
    var run := SingleRun(m, c, t, x);
    if Overridden(m, t, x) {
      var words := Words(t, x);
      if Emits(t.outcome) {
        hide Find, RFind;
        OnlyTheLast(m, t.noise + Emitted(m, c, WrapperBlock(t.outcome)), x.words);
      }
      var seen := CollectSingle(m, c, words, Exited(0));
      assert CollectSingle(m, c, run.0, run.1) == seen;
      DecidedBy(m, c, words);
    } else if Emits(t.outcome) && run.1 == Exited(0) {
      hide Find, RFind;
      var b := WrapperBlock(t.outcome);
      assert run.0 == t.noise + Framing.Block(m, c.encode(b)) + ("\n" + x.words);
      NewlineShields(m, x.words);
      assert m.end + "\n" + x.words == m.end + ("\n" + x.words);
      BackwardRoundTrip(m, t.noise, c.encode(b), "\n" + x.words);
    }
  }

  lemma DecidedBy(m: Markers, c: Codec, words: string)
    requires |m.start| > 0
    ensures var seen := CollectSingle(m, c, words, Exited(0));
      && (forall r :: seen == Got(r) <==> Forges(m, c, words, r))
      && (seen == SingleFailed <==> forall r :: !Forges(m, c, words, r))
  {
    hide Forges;
    var seen := CollectSingle(m, c, words, Exited(0));
    forall r ensures seen == Got(r) <==> Forges(m, c, words, r) {
      ExitZero(m, c, words, r);
    }
    assert seen.Got? || seen == SingleFailed;
    hide CollectSingle;
    assert seen.Got? ==> Forges(m, c, words, seen.returned);
  }

  /** A block printed after the wrapper's, as by a handler that runs at exit, replaces the result. */
  lemma {:induction false} LateBlock(m: Markers, c: Codec, noise: string, r: Returned, f: Returned)
    requires m.Good() && |m.end| < |m.start|
    requires Readable(m, c, ValueBlock(f)) && !Contains(c.encode(ValueBlock(f)), m.start)
    ensures var run := SingleRun(m, c, Test(noise, Value(r)), Exit(Emitted(m, c, ValueBlock(f)), None));
      CollectSingle(m, c, run.0, run.1) == Got(f)
  {
    hide Find, RFind;
    var b := c.encode(ValueBlock(f));
    var head := noise + Emitted(m, c, ValueBlock(r));
    assert head + Emitted(m, c, ValueBlock(f)) == head + Framing.Block(m, b) + ("\n" + "");
    NothingContained(m);
    NewlineShields(m, "");
    assert m.end + "\n" + "" == m.end + ("\n" + "");
    BackwardRoundTrip(m, head, b, "\n" + "");
  }

  /** The blocks found when the submission prints one of its own before the wrapper's. */
  lemma {:induction false} OwnBlockFirst(m: Markers, c: Codec, f: Returned, r: Returned)
    requires m.Good() && Readable(m, c, ValueBlock(f)) && Readable(m, c, ValueBlock(r))
    ensures var tests := [Test(Emitted(m, c, ValueBlock(f)), Value(r))];
      && Own(m, c, Transcript(m, c, tests, 0, "")) == [ValueBlock(f), ValueBlock(r)]
      && FinalEnding(tests, INORDER) == Exited(0) && Expected(tests, INORDER) == Results([r])
  {
    var tests := [Test(Emitted(m, c, ValueBlock(f)), Value(r))];
    EmittedOwn(m, c, ValueBlock(f));
    assert FirstFailure(tests) == 1 by { assert tests[1..] == []; }
    assert Printed(tests, 1) == [] && Printed(tests, 0) == [ValueBlock(r)];
    hide Candidates, Decoded, Own, Contains, Settled, FirstFailure;
    BlocksRecovered(m, c, tests, "");
    assert Seen(m, c, tests, 1, "") == [];
    assert Seen(m, c, tests, 0, "") == [ValueBlock(f), ValueBlock(r)];
    assert Expected(tests, INORDER).values == [r];
  }

  lemma TwoForOne(b: Block, d: Block)
    requires b.error.None? && d.error.None?
    ensures Judged([b, d], Exited(0), 1) == Failed(2)
  {
    ErrorFoundAt([b, d], 2);
  }

  /** In batch mode the same output fails a run that succeeds, for one block too many; one by one it is forgiven. */
  lemma {:induction false} BlockTooMany(m: Markers, c: Codec, f: Returned, r: Returned)
    requires m.Good() && |m.end| < |m.start| && Readable(m, c, ValueBlock(f)) && Readable(m, c, ValueBlock(r))
    requires !Contains(c.encode(ValueBlock(r)), m.start)
    ensures var tests := [Test(Emitted(m, c, ValueBlock(f)), Value(r))];
      && Judged(Own(m, c, Transcript(m, c, tests, 0, "")), FinalEnding(tests, INORDER), |tests|) == Failed(2)
      && Expected(tests, INORDER) == Results([r])
      && CollectSingle(m, c, SingleRun(m, c, tests[0], INORDER).0, SingleRun(m, c, tests[0], INORDER).1) == Got(r)
  {
    NothingContained(m);
    var t := Test(Emitted(m, c, ValueBlock(f)), Value(r));
    hide CollectSingle, SingleRun, Contains, Readable, Emitted, Own, Transcript, FinalEnding, Expected, Judged;
    SingleEndToEnd(m, c, t, INORDER);
    OwnBlockFirst(m, c, f, r);
    TwoForOne(ValueBlock(f), ValueBlock(r));
    assert CollectSingle(m, c, SingleRun(m, c, t, INORDER).0, SingleRun(m, c, t, INORDER).1) == Got(r);
    assert Judged(Own(m, c, Transcript(m, c, [t], 0, "")), FinalEnding([t], INORDER), 1) == Failed(2);
    assert Expected([t], INORDER) == Results([r]);
  }

  /** A submission that prints the block of any value and exits with code 0 is judged by that value. */
  lemma ForgedValue(m: Markers, c: Codec, noise: string, r: Returned)
    requires m.Good() && |m.end| < |m.start|
    requires Readable(m, c, ValueBlock(r)) && !Contains(c.encode(ValueBlock(r)), m.start)
    ensures var t := Test(noise + Emitted(m, c, ValueBlock(r)), Dies(0));
      CollectSingle(m, c, SingleRun(m, c, t, INORDER).0, SingleRun(m, c, t, INORDER).1) == Got(r)
  {
    NothingContained(m);
    SingleEndToEnd(m, c, Test(noise, Value(r)), INORDER);
    var printed := noise + Emitted(m, c, ValueBlock(r));
    assert printed + "" == printed;
  }

  lemma NothingContained(m: Markers)
    requires |m.start| > 0
    ensures !Contains("", m.start)
  {
  }

  /** A result whose text mentions the end marker is lost: given that no proper prefix of the object decodes,
      the value is seen exactly when the object does not mention the marker. */
  lemma EndMarkerDecides(m: Markers, c: Codec, noise: string, r: Returned)
    requires m.Good() && |m.end| < |m.start|
    requires var b := c.encode(ValueBlock(r));
      && Object(b) && !Contains(b, m.start) && c.decode(b) == Some(ValueBlock(r))
      && forall k :: 0 <= k < |b| ==> c.decode(b[..k]).None?
    ensures var run := SingleRun(m, c, Test(noise, Value(r)), INORDER);
      var mentions := Contains(c.encode(ValueBlock(r)), m.end);
      CollectSingle(m, c, run.0, run.1) == if mentions then SingleFailed else Got(r)
  {
    hide Find, RFind, Contains;
    var b := c.encode(ValueBlock(r));
    var run := SingleRun(m, c, Test(noise, Value(r)), INORDER);
    assert run.0 == noise + Framing.Block(m, b) + ("\n" + "");
    NothingContained(m);
    NewlineShields(m, "");
    assert m.end + "\n" + "" == m.end + ("\n" + "");
    LastMarker(m, noise, b, "\n" + "");
    LastText(m, noise, b, "\n" + "");
    EndOfObject(m, b, "");
    assert b[..|b|] == b;
  }

  /** So a function that returns the marker itself fails in every encoding that writes strings out verbatim. */
  lemma ReturningTheMarker(c: Codec, noise: string)
    requires var b := c.encode(ValueBlock(Plain(Str(JUDGE.end))));
      && Object(b) && Contains(b, JUDGE.end) && !Contains(b, JUDGE.start)
      && c.decode(b) == Some(ValueBlock(Plain(Str(JUDGE.end)))) && forall k :: 0 <= k < |b| ==> c.decode(b[..k]).None?
    ensures var run := SingleRun(JUDGE, c, Test(noise, Value(Plain(Str(JUDGE.end)))), INORDER);
      CollectSingle(JUDGE, c, run.0, run.1) == SingleFailed
  {
    hide Contains, CollectSingle, SingleRun;
    JudgeMarkers();
    EndMarkerDecides(JUDGE, c, noise, Plain(Str(JUDGE.end)));
  }
}
