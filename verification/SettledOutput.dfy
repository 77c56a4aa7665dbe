/**
 Output that may hold blocks of its own.  It is settled when the forward scan, having read it, looks for the next
 start marker: exactly then the block printed after it is seen.
 */
module SettledOutput {
  import opened Framing

  /** Every block the output opens is closed in it, and what follows the last one is quiet. */
  ghost predicate Settled(m: Markers, s: string)
    requires |m.end| > 0
    decreases |s|
  {
    match Next(m, s, 0)
    case Stop => Quiet(m, s)
    case Cut(_, to) => Settled(m, s[to + |m.end|..])
  }

  // ------------------------------------------------------------------
  // One round, with more text behind
  // ------------------------------------------------------------------

  lemma FindAppendFrom(s: string, t: string, pat: string, from: nat)
    requires Find(s, pat, from) != -1
    ensures Find(s + t, pat, from) == Find(s, pat, from)
  {
    var i := Find(s, pat, from);
    FoundThere(s, pat, from);
    AtAppend(s, t, pat, i);
    forall j | from <= j < i ensures !At(s + t, pat, j) {
      AtAppend(s, t, pat, j);
      if At(s, pat, j) { FindsFirst(s, pat, from, j); }
    }
    FindIs(s + t, pat, from, i);
  }

  /** A round that ends inside a text does not depend on what follows. */
  lemma NextAppend(m: Markers, s: string, t: string)
    requires Next(m, s, 0).Cut?
    ensures Next(m, s + t, 0) == Next(m, s, 0)
  {
    hide Find;
    FindAppendFrom(s, t, m.start, 0);
    FindAppendFrom(s, t, m.end, Find(s, m.start, 0) + |m.start|);
  }

  /** The scan after a first round. */
  lemma {:induction false} AfterCut(m: Markers, s: string, t: string)
    requires |m.end| > 0 && Next(m, s, 0).Cut?
    ensures var r := Next(m, s, 0);
      Candidates(m, s + t, 0) == [s[r.from..r.to]] + Candidates(m, s[r.to + |m.end|..] + t, 0)
  {
    hide Find, Next, Candidates;
    NextAppend(m, s, t);
    CandidatesUnfold(m, s + t, 0);
    var r := Next(m, s, 0);
    var cut := r.to + |m.end|;
    assert (s + t)[r.from..r.to] == s[r.from..r.to];
    ScanRest(m, s, t, cut);
    assert Candidates(m, s + t, 0) == [s[r.from..r.to]] + Candidates(m, s[cut..] + t, 0);
  }

  lemma ScanRest(m: Markers, s: string, t: string, cut: nat)
    requires |m.end| > 0 && cut <= |s|
    ensures Candidates(m, s + t, cut) == Candidates(m, s[cut..] + t, 0)
  {
    hide Candidates;
    var p := s[..cut];
    assert s + t == p + (s[cut..] + t);
    ScanPrepend(m, p, s[cut..] + t, 0);
    assert |p| + 0 == cut;
  }

  lemma {:induction false} CandidatesUnfold(m: Markers, s: string, pos: nat)
    requires |m.end| > 0
    ensures var r := Next(m, s, pos);
      Candidates(m, s, pos) == if r.Stop? then [] else [s[r.from..r.to]] + Candidates(m, s, r.to + |m.end|)
  {
    hide Find;
  }

  lemma {:induction false} AfterCutAlone(m: Markers, s: string)
    requires |m.end| > 0 && Next(m, s, 0).Cut?
    ensures var r := Next(m, s, 0);
      Candidates(m, s, 0) == [s[r.from..r.to]] + Candidates(m, s[r.to + |m.end|..], 0)
  {
    AfterCut(m, s, "");
    assert s + "" == s && s[Next(m, s, 0).to + |m.end|..] + "" == s[Next(m, s, 0).to + |m.end|..];
  }

  lemma QuietHoldsNothing(m: Markers, s: string)
    requires m.Good() && Quiet(m, s)
    ensures Candidates(m, s, 0) == []
  {
    forall i ensures !At(s, m.start, i) {
      if 0 <= i && i + |m.start| <= |s| { AtAppend(s, m.start, m.start, i); }
    }
    NothingIn(m, s);
  }

  // ------------------------------------------------------------------
  // What is seen of a block after settled output
  // ------------------------------------------------------------------

  /** The output's own texts, then the block, then the rest. */
  lemma {:induction false} ScanSettled(m: Markers, s: string, b: string, rest: string)
    requires m.Good() && Settled(m, s) && Body(m, b)
    ensures Candidates(m, s + (Block(m, b) + rest), 0) == Candidates(m, s, 0) + ([b] + Candidates(m, rest, 0))
    decreases |s|
  {
    hide Candidates, Contains, Quiet;
    var t := Block(m, b) + rest;
    if Next(m, s, 0).Stop? {
      QuietHoldsNothing(m, s);
      ScanPiece(m, Piece(s, b), rest);
      assert s + Block(m, b) + rest == s + t;
      assert [] + ([b] + Candidates(m, rest, 0)) == [b] + Candidates(m, rest, 0);
    } else {
      var r := Next(m, s, 0);
      hide Next;
      var s' := s[r.to + |m.end|..];
      ScanSettled(m, s', b, rest);
      AfterCut(m, s, t);
      AfterCutAlone(m, s);
      var x := [s[r.from..r.to]];
      assert x + (Candidates(m, s', 0) + ([b] + Candidates(m, rest, 0))) == x + Candidates(m, s', 0) + ([b] + Candidates(m, rest, 0));
    }
  }

  /** An object that mentions the end marker is cut short. */
  lemma {:induction false} ScanSettledShort(m: Markers, s: string, b: string, rest: string)
    requires m.Good() && Settled(m, s) && Object(b) && Contains(b, m.end)
    ensures var c, k := Candidates(m, s + (Block(m, b) + rest), 0), |Candidates(m, s, 0)|; k < |c| && |c[k]| < |b|
    decreases |s|
  {
    hide Candidates, Contains, Quiet;
    var t := Block(m, b) + rest;
    if Next(m, s, 0).Stop? {
      QuietHoldsNothing(m, s);
      ShortPiece(m, Piece(s, b), rest);
      assert s + Block(m, b) + rest == s + t;
    } else {
      var r := Next(m, s, 0);
      hide Next;
      ScanSettledShort(m, s[r.to + |m.end|..], b, rest);
      AfterCut(m, s, t);
      AfterCutAlone(m, s);
    }
  }

  // ------------------------------------------------------------------
  // Settled is exact
  // ------------------------------------------------------------------

  /** The rounds of the forward scan, by position. */
  function Cuts(m: Markers, s: string, pos: nat): seq<Round>
    requires |m.end| > 0
    decreases |s| - pos
  {
    var r := Next(m, s, pos);
    if r.Stop? then [] else [r] + Cuts(m, s, r.to + |m.end|)
  }

  function Shifted(r: Round, d: nat): Round { if r.Stop? then Stop else Cut(r.from + d, r.to + d) }

  lemma {:induction false} CutsPrepend(m: Markers, p: string, s: string, pos: nat, r: Round)
    requires |m.end| > 0
    ensures Shifted(r, |p|) in Cuts(m, p + s, |p| + pos) <==> r in Cuts(m, s, pos)
    decreases |s| - pos
  {
    hide Find, Next, Cuts;
    CutsUnfold(m, s, pos);
    CutsUnfold(m, p + s, |p| + pos);
    NextShifted(m, p, s, pos);
    var n := Next(m, s, pos);
    if n.Cut? {
      CutsPrepend(m, p, s, n.to + |m.end|, r);
      assert |p| + (n.to + |m.end|) == (|p| + n.to) + |m.end|;
      assert Shifted(r, |p|) == Shifted(n, |p|) <==> r == n;
    }
    assert Shifted(r, |p|) in Cuts(m, p + s, |p| + pos) <==> r in Cuts(m, s, pos);
  }

  lemma {:induction false} CutsUnfold(m: Markers, s: string, pos: nat)
    requires |m.end| > 0
    ensures var r := Next(m, s, pos); Cuts(m, s, pos) == if r.Stop? then [] else [r] + Cuts(m, s, r.to + |m.end|)
  {
    hide Find;
  }

  lemma NextShifted(m: Markers, p: string, s: string, pos: nat)
    ensures Next(m, p + s, |p| + pos) == Shifted(Next(m, s, pos), |p|)
  {
    hide Find;
    NextPrepend(m, p, s, pos);
  }

  lemma {:induction false} CutsComeLater(m: Markers, s: string, pos: nat, r: Round)
    requires |m.end| > 0 && r in Cuts(m, s, pos)
    ensures r.Cut? && pos + |m.start| <= r.from
    decreases |s| - pos
  {
    var n := Next(m, s, pos);
    hide Find;
    if r != n { CutsComeLater(m, s, n.to + |m.end|, r); }
  }

  /** A start marker inside `s` that is not closed in `s` is closed later. */
  lemma ClosedLater(m: Markers, s: string, t: string, a: nat)
    requires |m.end| > 0 && a + |m.start| <= |s| && Find(s, m.end, a + |m.start|) == -1
    ensures var e := Find(s + t, m.end, a + |m.start|); e != -1 ==> e + |m.end| > |s|
  {
    var e := Find(s + t, m.end, a + |m.start|);
    FoundThere(s + t, m.end, a + |m.start|);
    if e != -1 && e + |m.end| <= |s| {
      AtAppend(s, t, m.end, e);
      FindsFirst(s, m.end, a + |m.start|, e);
    }
  }

  /** When `s` runs into the start marker printed after it, the first marker seen lies before that one. */
  lemma SeenEarlier(m: Markers, s: string, t: string)
    requires m.start <= t && !Quiet(m, s)
    ensures 0 <= Find(s + t, m.start, 0) < |s|
  {
    var i :| 0 <= i < |s| && At(s + m.start, m.start, i);
    assert s + t == s + m.start + t[|m.start|..];
    AtAppend(s + m.start, t[|m.start|..], m.start, i);
    FindsFirst(s + t, m.start, 0, i);
  }

  lemma FoundInside(s: string, t: string, pat: string)
    requires 0 <= Find(s + t, pat, 0) && Find(s + t, pat, 0) + |pat| <= |s|
    ensures Find(s, pat, 0) == Find(s + t, pat, 0)
  {
    var a := Find(s + t, pat, 0);
    FoundThere(s + t, pat, 0);
    AtAppend(s, t, pat, a);
    FindsFirst(s, pat, 0, a);
    FindAppendFrom(s, t, pat, 0);
  }

  /** Output that is not settled and closes no block: the next round runs past the printed start marker. */
  lemma {:induction false} Overrun(m: Markers, s: string, t: string)
    requires m.Good() && m.start <= t && Next(m, s, 0).Stop? && !Quiet(m, s)
    ensures var n := Next(m, s + t, 0); n.Cut? ==> n.from < |s| + |m.start| && n.to + |m.end| > |s|
  {
    SeenEarlier(m, s, t);
    hide Find, Quiet;
    var a := Find(s + t, m.start, 0);
    if a + |m.start| <= |s| {
      FoundInside(s, t, m.start);
      ClosedLater(m, s, t, a);
    }
  }

  /** After any output at all, the forward scan cuts a block out where it was printed exactly when the output is settled. */
  lemma {:induction false} SettledIsExact(m: Markers, s: string, b: string, rest: string)
    requires m.Good() && Body(m, b)
    ensures Settled(m, s) <==>
      Cut(|s| + |m.start|, |s| + |m.start| + |b|) in Cuts(m, s + (Block(m, b) + rest), 0)
    decreases |s|
  {
    hide Find, Contains;
    var t := Block(m, b) + rest;
    var target := Cut(|s| + |m.start|, |s| + |m.start| + |b|);
    var n := Next(m, s, 0);
    if n.Cut? {
      NextAppend(m, s, t);
      hide Next, Quiet;
      var p, s' := s[..n.to + |m.end|], s[n.to + |m.end|..];
      assert s + t == p + (s' + t);
      SettledIsExact(m, s', b, rest);
      var inner := Cut(|s'| + |m.start|, |s'| + |m.start| + |b|);
      assert Shifted(inner, |p|) == target;
      CutsPrepend(m, p, s' + t, 0, inner);
      assert target != n;
    } else if Quiet(m, s) {
      FirstPiece(m, Piece(s, b), rest);
      EndOfObject(m, b, rest);
      assert s + Block(m, b) + rest == s + t;
    } else {
      assert t[..|m.start|] == m.start;
      Overrun(m, s, t);
      var first := Next(m, s + t, 0);
      hide Next, Quiet;
      if target in Cuts(m, s + t, 0) {
        assert target != first;
        CutsComeLater(m, s + t, first.to + |m.end|, target);
      }
    }
  }
}
