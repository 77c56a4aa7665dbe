/**
 Result framing: wrappers print JSON blocks between two markers, in the middle of
 whatever the submission prints; the judge recovers the blocks by searching for
 the markers.
 */
module Framing {
  import opened Wrappers

  /** A pair of markers with no braces and no line break in them. */
  datatype Markers = Markers(start: string, end: string) {
    predicate Good() {
      && |start| > 0 && |end| > 0
      && '{' !in start && '}' !in start && '\n' !in start && '{' !in end && '}' !in end && '\n' !in end
    }
  }

  /** RESULT_START and RESULT_END. */
  const JUDGE := Markers("__JUDGE_RESULT_7f3a__", "__JUDGE_END_7f3a__")

  /** Underscores, letters and digits only. */
  lemma JudgeMarkersLack(c: char)
    requires c < '0' || '_' < c < 'a' || 'f' < c
    ensures c !in JUDGE.start && c !in JUDGE.end
  {
  }

  /** The assumptions about markers hold for the judge's, and its start marker overlaps itself on two characters. */
  lemma JudgeMarkers()
    ensures JUDGE.Good() && |JUDGE.end| < |JUDGE.start|
    ensures JUDGE.start[|JUDGE.start| - 2..] == JUDGE.start[..2]
  {
    JudgeMarkersLack('{');
    JudgeMarkersLack('}');
    JudgeMarkersLack('\n');
  }

  /** `pat` occurs in `s` at `i`. */
  predicate At(s: string, pat: string, i: int) {
    0 <= i && i + |pat| <= |s| && forall k :: 0 <= k < |pat| ==> pat[k] == s[i + k]
  }

  ghost predicate Contains(s: string, pat: string) {
    exists i :: At(s, pat, i)
  }

  /** str.find: the first occurrence at or after `from`. */
  function Find(s: string, pat: string, from: nat): (r: int)
    ensures r == -1 || from <= r <= |s| - |pat|
    decreases |s| - from
  {
    if from + |pat| > |s| then -1
    else if At(s, pat, from) then from
    else Find(s, pat, from + 1)
  }

  lemma {:induction false} FoundThere(s: string, pat: string, from: nat)
    ensures Find(s, pat, from) != -1 ==> At(s, pat, Find(s, pat, from))
    decreases |s| - from
  {
    if from + |pat| <= |s| && !At(s, pat, from) { FoundThere(s, pat, from + 1); }
  }

  lemma {:induction false} FindsFirst(s: string, pat: string, from: nat, i: int)
    requires from <= i && At(s, pat, i)
    ensures from <= Find(s, pat, from) <= i
    decreases |s| - from
  {
    if !At(s, pat, from) { FindsFirst(s, pat, from + 1, i); }
  }

  /** str.rfind: the last occurrence that starts before `below`. */
  function RFind(s: string, pat: string, below: nat): (r: int)
    ensures r == -1 || (r < below && At(s, pat, r))
    ensures forall i :: i < below && At(s, pat, i) ==> i <= r
  {
    if below == 0 then -1
    else if At(s, pat, below - 1) then below - 1
    else RFind(s, pat, below - 1)
  }

  // ------------------------------------------------------------------
  // The two scans
  // ------------------------------------------------------------------

  /** The stretch of output one round of the forward scan cuts out. */
  datatype Round = Stop | Cut(from: nat, to: nat)

  function Next(m: Markers, s: string, pos: nat): (r: Round)
    ensures r.Cut? ==> pos + |m.start| <= r.from <= r.to <= |s| - |m.end|
  {
    var a := Find(s, m.start, pos);
    if a == -1 then Stop else
      var e := Find(s, m.end, a + |m.start|);
      if e == -1 then Stop else Cut(a + |m.start|, e)
  }

  /** The texts between markers that the forward scan comes across from `pos` on. */
  function Candidates(m: Markers, s: string, pos: nat): seq<string>
    requires |m.end| > 0
    decreases |s| - pos
  {
    var r := Next(m, s, pos);
    if r.Stop? then [] else [s[r.from..r.to]] + Candidates(m, s, r.to + |m.end|)
  }

  /** The texts that decode to a JSON object, decoded. */
  function Decoded<T>(texts: seq<string>, decode: string -> Option<T>): seq<T> {
    if texts == [] then [] else
      var k := |texts| - 1;
      Decoded(texts[..k], decode) + (if decode(texts[k]).Some? then [decode(texts[k]).value] else [])
  }

  lemma DecodedSnoc<T>(texts: seq<string>, text: string, decode: string -> Option<T>)
    ensures Decoded(texts + [text], decode) ==
      Decoded(texts, decode) + (if decode(text).Some? then [decode(text).value] else [])
  {
    assert (texts + [text])[..|texts|] == texts;
  }

  lemma CutNext(m: Markers, s: string, pos: nat, seen: seq<string>)
    requires |m.end| > 0 && Next(m, s, pos).Cut?
    ensures var r := Next(m, s, pos);
      seen + Candidates(m, s, pos) == seen + [s[r.from..r.to]] + Candidates(m, s, r.to + |m.end|)
  {
    hide Find;
  }

  method ParseAll<T>(m: Markers, stdout: string, decode: string -> Option<T>) returns (blocks: seq<T>)
    requires |m.end| > 0
    ensures blocks == Decoded(Candidates(m, stdout, 0), decode)
  {
    hide Find, Decoded, Candidates;
    blocks := [];
    var pos := 0;
    ghost var seen: seq<string> := [];
    NothingDecoded(decode);
    while true
      invariant 0 <= pos <= |stdout|
      invariant seen + Candidates(m, stdout, pos) == Candidates(m, stdout, 0)
      invariant blocks == Decoded(seen, decode)
      decreases |stdout| - pos
    {
      ScanEnds(m, stdout, pos, seen);
      var start := Find(stdout, m.start, pos);
      if start == -1 { return; }
      start := start + |m.start|;
      var end := Find(stdout, m.end, start);
      if end == -1 { return; }
      CutNext(m, stdout, pos, seen);
      DecodedSnoc(seen, stdout[start..end], decode);
      seen := seen + [stdout[start..end]];
      var parsed := decode(stdout[start..end]);
      if parsed.Some? {
        blocks := blocks + [parsed.value];
      }
      pos := end + |m.end|;
    }
  }

  lemma NothingDecoded<T>(decode: string -> Option<T>)
    ensures Decoded([], decode) == []
  {
  }

  lemma ScanEnds(m: Markers, s: string, pos: nat, seen: seq<string>)
    requires |m.end| > 0
    ensures Next(m, s, pos).Stop? ==> seen + Candidates(m, s, pos) == seen
  {
    hide Find;
  }

  /** What the backward scan cuts out: from the last start marker to the end marker after it. */
  function LastCut(m: Markers, stdout: string): (r: Round)
    ensures r.Cut? ==> r.from <= r.to <= |stdout|
  {
    var a := RFind(stdout, m.start, |stdout|);
    if a == -1 then Stop else
      var e := Find(stdout, m.end, a + |m.start|);
      if e == -1 then Stop else Cut(a + |m.start|, e)
  }

  function LastCandidate(m: Markers, stdout: string): Option<string> {
    var r := LastCut(m, stdout);
    if r.Stop? then None else Some(stdout[r.from..r.to])
  }

  function ParseLast<T>(m: Markers, stdout: string, decode: string -> Option<T>): Option<T> {
    var c := LastCandidate(m, stdout);
    if c.None? then None else decode(c.value)
  }

  // ------------------------------------------------------------------
  // What wrappers print
  // ------------------------------------------------------------------

  /** Output of the submission, then one block. */
  datatype Piece = Piece(noise: string, body: string)

  function Block(m: Markers, body: string): string { m.start + body + m.end }

  function Text(m: Markers, ps: seq<Piece>, tail: string): string {
    if ps == [] then tail else ps[0].noise + Block(m, ps[0].body) + Text(m, ps[1..], tail)
  }

  function Bodies(ps: seq<Piece>): seq<string> {
    if ps == [] then [] else [ps[0].body] + Bodies(ps[1..])
  }

  /** The shape of an encoded JSON object. */
  predicate Object(b: string) { |b| >= 2 && b[0] == '{' && b[|b| - 1] == '}' }

  /** An object that does not mention the end marker. */
  ghost predicate Body(m: Markers, b: string) { Object(b) && !Contains(b, m.end) }

  /** The start marker printed after `noise` is the first one to be seen. */
  ghost predicate Quiet(m: Markers, noise: string) {
    forall i :: 0 <= i < |noise| ==> !At(noise + m.start, m.start, i)
  }

  ghost predicate Framed(m: Markers, ps: seq<Piece>) {
    forall p <- ps :: Quiet(m, p.noise) && Object(p.body)
  }

  ghost predicate WellFramed(m: Markers, ps: seq<Piece>) {
    Framed(m, ps) && forall p <- ps :: !Contains(p.body, m.end)
  }

  // ------------------------------------------------------------------
  // Searching in concatenations
  // ------------------------------------------------------------------

  lemma AtAppend(s: string, t: string, pat: string, i: int)
    requires i + |pat| <= |s|
    ensures At(s + t, pat, i) <==> At(s, pat, i)
  {
    if i >= 0 {
      assert forall k {:trigger pat[k]} :: 0 <= k < |pat| ==> (s + t)[i + k] == s[i + k];
    }
  }

  lemma AtPrepend(p: string, s: string, pat: string, i: int)
    requires i >= 0
    ensures At(p + s, pat, |p| + i) <==> At(s, pat, i)
  {
    if i + |pat| <= |s| {
      assert forall k {:trigger pat[k]} :: 0 <= k < |pat| ==> (p + s)[|p| + i + k] == s[i + k];
    }
  }

  lemma FindIs(s: string, pat: string, from: nat, i: int)
    requires from <= i && At(s, pat, i)
    requires forall j :: from <= j < i ==> !At(s, pat, j)
    ensures Find(s, pat, from) == i
  {
    FindsFirst(s, pat, from, i);
    FoundThere(s, pat, from);
  }

  lemma {:induction false} FindPrepend(p: string, s: string, pat: string, from: nat)
    ensures Find(p + s, pat, |p| + from) == if Find(s, pat, from) == -1 then -1 else |p| + Find(s, pat, from)
    decreases |s| - from
  {
    AtPrepend(p, s, pat, from);
    if from + |pat| <= |s| && !At(s, pat, from) {
      FindPrepend(p, s, pat, from + 1);
    }
  }

  lemma NextPrepend(m: Markers, p: string, s: string, pos: nat)
    ensures Next(m, p + s, |p| + pos) ==
      match Next(m, s, pos) case Stop => Stop case Cut(b, e) => Cut(|p| + b, |p| + e)
  {
    hide Find;
    FindPrepend(p, s, m.start, pos);
    var a := Find(s, m.start, pos);
    if a != -1 {
      FindPrepend(p, s, m.end, a + |m.start|);
    }
  }

  /** Scanning ignores what lies before the starting position. */
  lemma {:induction false} ScanPrepend(m: Markers, p: string, s: string, pos: nat)
    requires |m.end| > 0
    ensures Candidates(m, p + s, |p| + pos) == Candidates(m, s, pos)
    decreases |s| - pos
  {
    hide Find;
    NextPrepend(m, p, s, pos);
    var r := Next(m, s, pos);
    if r.Cut? {
      assert (p + s)[|p| + r.from..|p| + r.to] == s[r.from..r.to];
      ScanPrepend(m, p, s, r.to + |m.end|);
    }
  }

  /** A pattern cannot straddle a character it does not contain. */
  lemma NotAcross(s: string, pat: string, i: int, k: int)
    requires 0 <= k < |s| && i <= k < i + |pat| && s[k] !in pat
    ensures !At(s, pat, i)
  {
    assert 0 <= k - i < |pat| && pat[k - i] in pat;
  }

  // ------------------------------------------------------------------
  // Forward scan
  // ------------------------------------------------------------------

  /** Where the first end marker is seen once `b` and its end marker are printed. */
  function FirstEnd(m: Markers, b: string): int { Find(b + m.end, m.end, 0) }

  /** It is at the end of an object exactly when the object does not mention the marker. */
  lemma EndOfObject(m: Markers, b: string, rest: string)
    requires m.Good() && Object(b)
    ensures 0 <= FirstEnd(m, b) <= |b| && Find(b + m.end + rest, m.end, 0) == FirstEnd(m, b)
    ensures FirstEnd(m, b) == |b| <==> !Contains(b, m.end)
  {
    var s := b + m.end;
    assert At(s, m.end, |b|);
    FindsFirst(s, m.end, 0, |b|);
    FoundThere(s, m.end, 0);
    var e := FirstEnd(m, b);
    if e < |b| {
      if e + |m.end| > |b| { NotAcross(s, m.end, e, |b| - 1); }
      AtAppend(b, m.end, m.end, e);
    }
    if Contains(b, m.end) {
      var i :| At(b, m.end, i);
      AtAppend(b, m.end, m.end, i);
      FindsFirst(s, m.end, 0, i);
    }
    FindAppend(s, rest, m.end);
  }

  lemma FindAppend(s: string, t: string, pat: string)
    requires Find(s, pat, 0) != -1
    ensures Find(s + t, pat, 0) == Find(s, pat, 0)
  {
    var i := Find(s, pat, 0);
    FoundThere(s, pat, 0);
    AtAppend(s, t, pat, i);
    forall j | 0 <= j < i ensures !At(s + t, pat, j) {
      AtAppend(s, t, pat, j);
      if At(s, pat, j) { FindsFirst(s, pat, 0, j); }
    }
    FindIs(s + t, pat, 0, i);
  }

  /** The start marker after quiet output is found where it was printed. */
  lemma StartOfBlock(m: Markers, noise: string, rest: string)
    requires Quiet(m, noise)
    ensures Find(noise + m.start + rest, m.start, 0) == |noise|
  {
    var head := noise + m.start;
    var s := head + rest;
    assert At(s, m.start, |noise|);
    forall j | 0 <= j < |noise| ensures !At(s, m.start, j) {
      AtAppend(head, rest, m.start, j);
    }
    FindIs(s, m.start, 0, |noise|);
  }

  lemma {:induction false} NextIs(m: Markers, head: string, t: string, n: nat)
    requires |head| >= |m.start|
    requires Find(head + t, m.start, 0) == |head| - |m.start|
    requires Find(t, m.end, 0) == n
    ensures Next(m, head + t, 0) == Cut(|head|, |head| + n)
  {
    FindPrepend(head, t, m.end, 0);
  }

  /** One round of the forward scan, when the two searches are known. */
  lemma ScanStep(m: Markers, head: string, body: string, rest: string)
    requires |m.end| > 0 && |head| >= |m.start|
    requires Find(head + (body + m.end + rest), m.start, 0) == |head| - |m.start|
    requires Find(body + m.end + rest, m.end, 0) == |body|
    ensures Candidates(m, head + (body + m.end + rest), 0) == [body] + Candidates(m, rest, 0)
  {
    hide Find;
    var s := head + (body + m.end + rest);
    NextIs(m, head, body + m.end + rest, |body|);
    assert s[|head|..|head| + |body|] == body;
    var upto := head + body + m.end;
    assert s == upto + rest;
    ScanPrepend(m, upto, rest, 0);
  }

  /** The first piece is cut at its first end marker. */
  lemma FirstPiece(m: Markers, p: Piece, rest: string)
    requires m.Good() && Quiet(m, p.noise) && Object(p.body)
    ensures var from := |p.noise| + |m.start|;
      Next(m, p.noise + Block(m, p.body) + rest, 0) == Cut(from, from + FirstEnd(m, p.body))
  {
    hide Find;
    var t := p.body + m.end + rest;
    assert p.noise + Block(m, p.body) + rest == p.noise + m.start + t;
    StartOfBlock(m, p.noise, t);
    EndOfObject(m, p.body, rest);
    NextIs(m, p.noise + m.start, t, FirstEnd(m, p.body));
  }

  lemma ScanPiece(m: Markers, p: Piece, rest: string)
    requires m.Good() && Quiet(m, p.noise) && Body(m, p.body)
    ensures Candidates(m, p.noise + Block(m, p.body) + rest, 0) == [p.body] + Candidates(m, rest, 0)
  {
    hide Find;
    var t := p.body + m.end + rest;
    assert p.noise + Block(m, p.body) + rest == p.noise + m.start + t;
    StartOfBlock(m, p.noise, t);
    EndOfObject(m, p.body, rest);
    ScanStep(m, p.noise + m.start, p.body, rest);
  }

  /** A body that mentions the end marker is cut short. */
  lemma ShortPiece(m: Markers, p: Piece, rest: string)
    requires m.Good() && Quiet(m, p.noise) && Object(p.body) && Contains(p.body, m.end)
    ensures var c := Candidates(m, p.noise + Block(m, p.body) + rest, 0); c != [] && |c[0]| < |p.body|
  {
    hide Find;
    FirstPiece(m, p, rest);
    EndOfObject(m, p.body, rest);
  }

  /** The forward scan returns the printed blocks in order, then whatever the trailing output holds. */
  lemma {:induction false} ForwardScan(m: Markers, ps: seq<Piece>, tail: string)
    requires m.Good() && WellFramed(m, ps)
    ensures Candidates(m, Text(m, ps, tail), 0) == Bodies(ps) + Candidates(m, tail, 0)
  {
    hide Candidates, Quiet, Contains;
    if ps == [] {
      assert Bodies(ps) + Candidates(m, tail, 0) == Candidates(m, tail, 0);
    } else {
      var p := ps[0];
      ForwardScan(m, ps[1..], tail);
      assert Quiet(m, p.noise) && Body(m, p.body);
      ScanPiece(m, p, Text(m, ps[1..], tail));
      assert [p.body] + (Bodies(ps[1..]) + Candidates(m, tail, 0)) == Bodies(ps) + Candidates(m, tail, 0);
    }
  }

  /** Objects printed after quiet output come back exactly when none of them mentions the end marker. */
  lemma {:induction false} ForwardScanIff(m: Markers, ps: seq<Piece>, tail: string)
    requires m.Good() && Framed(m, ps)
    ensures Candidates(m, Text(m, ps, tail), 0) == Bodies(ps) + Candidates(m, tail, 0) <==>
      forall p <- ps :: !Contains(p.body, m.end)
  {
    hide Candidates, Quiet, Contains;
    if ps != [] {
      var p, rest := ps[0], Text(m, ps[1..], tail);
      if Contains(p.body, m.end) {
        ShortPiece(m, p, rest);
        assert (Bodies(ps) + Candidates(m, tail, 0))[0] == p.body;
      } else {
        ScanPiece(m, p, rest);
        ForwardScanIff(m, ps[1..], tail);
        var whole := Bodies(ps[1..]) + Candidates(m, tail, 0);
        assert Bodies(ps) + Candidates(m, tail, 0) == [p.body] + whole;
        assert ([p.body] + whole)[1..] == whole && ([p.body] + Candidates(m, rest, 0))[1..] == Candidates(m, rest, 0);
        assert forall q :: q in ps <==> q == p || q in ps[1..];
      }
    } else {
      assert Bodies(ps) + Candidates(m, tail, 0) == Candidates(m, tail, 0);
    }
  }

  /** With marker-free trailing output: exactly the printed blocks. */
  lemma ForwardRoundTrip(m: Markers, ps: seq<Piece>, tail: string)
    requires m.Good()
    requires WellFramed(m, ps) && !Contains(tail, m.start)
    ensures Candidates(m, Text(m, ps, tail), 0) == Bodies(ps)
  {
    ForwardScan(m, ps, tail);
    NothingIn(m, tail);
    assert Bodies(ps) + [] == Bodies(ps);
  }

  lemma NothingIn(m: Markers, tail: string)
    requires |m.end| > 0 && !Contains(tail, m.start)
    ensures Candidates(m, tail, 0) == []
  {
    FoundThere(tail, m.start, 0);
  }

  /** The block is cut out where it was printed exactly when the output before it is quiet
      and the object does not mention the end marker. */
  lemma CutIsExact(m: Markers, noise: string, b: string, rest: string)
    requires m.Good() && Object(b)
    ensures Next(m, noise + Block(m, b) + rest, 0) == Cut(|noise| + |m.start|, |noise| + |m.start| + |b|)
      <==> Quiet(m, noise) && !Contains(b, m.end)
  {
    hide Find;
    var t := b + m.end + rest;
    var s := noise + m.start + t;
    assert noise + Block(m, b) + rest == s;
    if Quiet(m, noise) {
      FirstPiece(m, Piece(noise, b), rest);
      EndOfObject(m, b, rest);
    } else {
      var i :| 0 <= i < |noise| && At(noise + m.start, m.start, i);
      AtAppend(noise + m.start, t, m.start, i);
      FindsFirst(s, m.start, 0, i);
    }
  }

  // ------------------------------------------------------------------
  // Backward scan
  // ------------------------------------------------------------------

  /** No start marker begins inside a block before its end marker. */
  lemma NoMarkerInside(m: Markers, b: string, rest: string, j: int)
    requires m.Good()
    requires Object(b) && !Contains(b, m.start) && 0 < j < |m.start| + |b|
    ensures !At(m.start + b + rest, m.start, j)
  {
    var s := m.start + b + rest;
    if j <= |m.start| {
      NotAcross(s, m.start, j, |m.start|);
    } else if j + |m.start| <= |m.start| + |b| {
      AtAppend(m.start + b, rest, m.start, j);
      AtPrepend(m.start, b, m.start, j - |m.start|);
    } else {
      NotAcross(s, m.start, j, |m.start| + |b| - 1);
    }
  }

  /** Whatever was printed before, the last start marker is the one of the last block
      iff the object, the end marker and the output after it contain none. */
  lemma LastMarker(m: Markers, prefix: string, b: string, tail: string)
    requires m.Good() && Object(b)
    ensures var s := prefix + Block(m, b) + tail;
      RFind(s, m.start, |s|) == |prefix| <==> !Contains(b, m.start) && !Contains(m.end + tail, m.start)
  {
    hide RFind;
    var s := prefix + Block(m, b) + tail;
    var after := m.end + tail;
    var cut := prefix + m.start + b;
    var inner := m.start + b + after;
    assert s == prefix + inner && s == cut + after && s == (prefix + m.start) + (b + after);
    assert At(s, m.start, |prefix|);
    if Contains(after, m.start) {
      var i :| At(after, m.start, i);
      AtPrepend(cut, after, m.start, i);
    } else if Contains(b, m.start) {
      var i :| At(b, m.start, i);
      AtAppend(b, after, m.start, i);
      AtPrepend(prefix + m.start, b + after, m.start, i);
    } else {
      forall r | |prefix| < r ensures !At(s, m.start, r) {
        if r < |cut| {
          AtPrepend(prefix, inner, m.start, r - |prefix|);
          NoMarkerInside(m, b, after, r - |prefix|);
        } else {
          AtPrepend(cut, after, m.start, r - |cut|);
        }
      }
    }
  }

  /** From the last start marker the text runs to the first end marker. */
  lemma LastText(m: Markers, prefix: string, b: string, tail: string)
    requires m.Good() && Object(b)
    ensures var s := prefix + Block(m, b) + tail;
      RFind(s, m.start, |s|) == |prefix| ==>
        && LastCut(m, s) == Cut(|prefix| + |m.start|, |prefix| + |m.start| + FirstEnd(m, b))
        && 0 <= FirstEnd(m, b) <= |b| && LastCandidate(m, s) == Some(b[..FirstEnd(m, b)])
  {
    hide Find, RFind, Contains;
    var s := prefix + Block(m, b) + tail;
    var head := prefix + m.start;
    assert s == head + (b + m.end + tail);
    FindPrepend(head, b + m.end + tail, m.end, 0);
    EndOfObject(m, b, tail);
    assert s[|head|..|head| + FirstEnd(m, b)] == b[..FirstEnd(m, b)];
  }

  /** The backward scan cuts out the last block where it was printed exactly when the object mentions neither marker
      and no start marker lies in the end marker and what follows.  What was printed before does not matter. */
  lemma LastCutIsExact(m: Markers, prefix: string, b: string, tail: string)
    requires m.Good() && Object(b)
    ensures LastCut(m, prefix + Block(m, b) + tail) == Cut(|prefix| + |m.start|, |prefix| + |m.start| + |b|) <==>
      !Contains(b, m.start) && !Contains(b, m.end) && !Contains(m.end + tail, m.start)
  {
    hide Find, RFind, Contains;
    LastMarker(m, prefix, b, tail);
    LastText(m, prefix, b, tail);
    EndOfObject(m, b, tail);
  }

  /** Then it returns the object. */
  lemma BackwardRoundTrip(m: Markers, prefix: string, b: string, tail: string)
    requires m.Good()
    requires Body(m, b) && !Contains(b, m.start) && !Contains(m.end + tail, m.start)
    ensures LastCandidate(m, prefix + Block(m, b) + tail) == Some(b)
  {
    hide Find, RFind, Contains;
    LastMarker(m, prefix, b, tail);
    LastText(m, prefix, b, tail);
    EndOfObject(m, b, tail);
    assert b[..|b|] == b;
  }

  // ------------------------------------------------------------------
  // The newline every wrapper prints after a block
  // ------------------------------------------------------------------

  /** An occurrence after a line break lies entirely in what follows it. */
  lemma AfterNewline(p: string, t: string, pat: string, i: int)
    requires '\n' !in pat && |pat| > 0 && |p| < i + |pat|
    ensures At(p + "\n" + t, pat, i) <==> i > |p| && At(t, pat, i - |p| - 1)
  {
    var s := p + "\n" + t;
    if i <= |p| {
      if i >= 0 { NotAcross(s, pat, i, |p|); }
    } else {
      AtPrepend(p + "\n", t, pat, i - |p| - 1);
    }
  }

  /** With the line break, only the submission's own output after the block matters. */
  lemma NewlineShields(m: Markers, t: string)
    requires m.Good() && |m.end| < |m.start|
    ensures Contains(m.end + "\n" + t, m.start) <==> Contains(t, m.start)
  {
    var s := m.end + "\n" + t;
    if Contains(s, m.start) {
      var i :| At(s, m.start, i);
      AfterNewline(m.end, t, m.start, i);
    }
    if Contains(t, m.start) {
      var i :| At(t, m.start, i);
      AfterNewline(m.end, t, m.start, |m.end| + 1 + i);
    }
  }

  lemma NewlineKeepsQuiet(m: Markers, t: string)
    requires m.Good()
    ensures Quiet(m, "\n" + t) <==> Quiet(m, t)
  {
    var s := "\n" + t + m.start;
    var u := t + m.start;
    assert s == "" + "\n" + u;
    forall i | 0 <= i ensures At(s, m.start, i) <==> i > 0 && At(u, m.start, i - 1) {
      AfterNewline("", u, m.start, i);
    }
    if !Quiet(m, t) {
      var i :| 0 <= i < |t| && At(u, m.start, i);
      assert At(s, m.start, i + 1);
    }
    if !Quiet(m, "\n" + t) {
      var i :| 0 <= i < |t| + 1 && At(s, m.start, i);
      assert At(u, m.start, i - 1);
    }
  }

  // ------------------------------------------------------------------
  // Why output free of markers is not enough
  // ------------------------------------------------------------------

  /** When the start marker's last `k` characters are also its first, output ending in the marker
      less those characters hides the next block: the scan meets the marker too early. */
  lemma {:induction false} OverlapShiftsBlock(m: Markers, k: nat, b: string)
    requires m.Good() && 0 < k < |m.start| && m.start[|m.start| - k..] == m.start[..k]
    requires Body(m, b) && !Contains(m.start[k..], m.end)
    ensures var noise := m.start[..|m.start| - k];
      && !Contains(noise, m.start) && !Quiet(m, noise)
      && Candidates(m, noise + Block(m, b), 0) == [m.start[k..] + b]
  {
    var n := |m.start|;
    var noise := m.start[..n - k];
    var junk := m.start[k..] + b;
    assert m.start == noise + m.start[..k];
    assert noise + m.start == m.start + m.start[k..];
    assert At(noise + m.start, m.start, 0);
    var s := noise + Block(m, b);
    assert s == m.start + (junk + m.end + "");
    FindIs(s, m.start, 0, 0);
    EndOfJunk(m, k, b);
    ScanStep(m, m.start, junk, "");
  }

  lemma EndOfJunk(m: Markers, k: nat, b: string)
    requires m.Good() && k < |m.start| && Body(m, b) && !Contains(m.start[k..], m.end)
    ensures Find(m.start[k..] + b + m.end + "", m.end, 0) == |m.start[k..] + b|
  {
    var head := m.start[k..];
    var s := head + b + m.end + "";
    forall j | 0 <= j < |head| + |b| ensures !At(s, m.end, j) {
      if j + |m.end| <= |head| {
        assert s == head + (b + m.end + "");
        AtAppend(head, b + m.end + "", m.end, j);
      } else if j <= |head| {
        NotAcross(s, m.end, j, |head|);
      } else if j + |m.end| <= |head| + |b| {
        assert s == head + b + (m.end + "");
        AtAppend(head + b, m.end + "", m.end, j);
        AtPrepend(head, b, m.end, j - |head|);
      } else {
        NotAcross(s, m.end, j, |head| + |b| - 1);
      }
    }
    assert At(s, m.end, |head| + |b|);
    FindIs(s, m.end, 0, |head| + |b|);
  }

  lemma JudgeEndNotInStart()
    ensures !Contains(JUDGE.start[2..], JUDGE.end)
  {
    var s, e := JUDGE.start[2..], JUDGE.end;
    assert |s| == 19 && |e| == 18;
    assert s[0] != e[0] && s[1] != e[0];
    assert forall i :: At(s, e, i) ==> e[0] == s[i + 0];
  }

  /** At the judge's own markers: a submission that prints the start marker less its last two characters
      hides the block that follows. */
  lemma JudgeOverlap(b: string)
    requires Body(JUDGE, b)
    ensures var noise := JUDGE.start[..|JUDGE.start| - 2];
      && !Contains(noise, JUDGE.start)
      && Candidates(JUDGE, noise + Block(JUDGE, b), 0) == [JUDGE.start[2..] + b]
  {
    hide Candidates, Contains, Quiet;
    JudgeMarkers();
    JudgeEndNotInStart();
    OverlapShiftsBlock(JUDGE, 2, b);
  }
}
