/**
 Splitting a parameter list at its top-level commas.  The parser splits the text as written, not the cleaned
 text, so commas inside comments and literals count as well.
 */
module ParameterSplit {
  import opened SignatureLexer

  predicate Opens(c: char) { c == '<' || c == '(' || c == '[' || c == '{' }

  predicate Closes(c: char) { c == '>' || c == ')' || c == ']' || c == '}' }

  function LevelAfter(depth: nat, c: char): nat {
    if Opens(c) then depth + 1
    else if Closes(c) && depth > 0 then depth - 1
    else depth
  }

  /** Bracket depth before position `i`, never below zero, counted from `lo`. */
  function Level(t: string, lo: nat, i: nat): nat
    requires lo <= i <= |t|
    decreases i
  {
    if i == lo then 0 else LevelAfter(Level(t, lo, i - 1), t[i - 1])
  }

  /** The text is split at `i`. */
  predicate CutsAt(t: string, lo: nat, i: nat)
    requires lo <= i < |t|
  {
    t[i] == ',' && Level(t, lo, i) == 0
  }

  /** The segments of t[..i]; the last one is still open. */
  function Segments(t: string, i: nat): (s: seq<string>)
    requires i <= |t|
    ensures s != []
  {
    if i == 0 then [""] else
      var before := Segments(t, i - 1);
      if CutsAt(t, 0, i - 1) then before + [""] else Extended(before, t[i - 1])
  }

  function Extended(s: seq<string>, c: char): seq<string>
    requires s != []
  {
    s[..|s| - 1] + [s[|s| - 1] + [c]]
  }

  function Stripped(s: seq<string>, strip: string -> string): seq<string> {
    seq(|s|, i requires 0 <= i < |s| => strip(s[i]))
  }

  /** split_top_level: all segments stripped, the last one only if something is left of it. */
  method SplitTopLevel(text: string, strip: string -> string) returns (parts: seq<string>)
    ensures var all := Segments(text, |text|);
      var last := strip(all[|all| - 1]);
      parts == Stripped(all[..|all| - 1], strip) + (if last == "" then [] else [last])
  {
    var depth: nat, current := 0, "";
    parts := [];
    ghost var closed: seq<string> := [];
    for i := 0 to |text|
      invariant depth == Level(text, 0, i)
      invariant Segments(text, i) == closed + [current] && parts == Stripped(closed, strip)
    {
      var ch := text[i];
      if Opens(ch) {
        depth := depth + 1;
      } else if Closes(ch) {
        depth := if depth > 0 then depth - 1 else 0;
      }
      if ch == ',' && depth == 0 {
        parts := parts + [strip(current)];
        closed := closed + [current];
        current := "";
      } else {
        assert Extended(closed + [current], ch) == closed + [current + [ch]];
        current := current + [ch];
      }
    }
    assert (closed + [current])[..|closed|] == closed;
    var tail := strip(current);
    if tail != "" {
      parts := parts + [tail];
    }
  }

  function Joined(s: seq<string>): string
    requires s != []
  {
    if |s| == 1 then s[0] else Joined(s[..|s| - 1]) + "," + s[|s| - 1]
  }

  /** Nothing is lost: the segments with their commas are the text. */
  lemma {:induction false} SegmentsJoin(t: string, i: nat)
    requires i <= |t|
    ensures Joined(Segments(t, i)) == t[..i]
  {
    if i > 0 {
      SegmentsJoin(t, i - 1);
      var before := Segments(t, i - 1);
      assert t[..i] == t[..i - 1] + [t[i - 1]];
      if CutsAt(t, 0, i - 1) {
        assert (before + [""])[..|before|] == before;
      } else {
        JoinExtended(before, t[i - 1]);
      }
    }
  }

  lemma JoinExtended(s: seq<string>, c: char)
    requires s != []
    ensures Joined(Extended(s, c)) == Joined(s) + [c]
  {
    var k := |s| - 1;
    assert Extended(s, c)[..k] == s[..k];
    if k > 0 {
      assert Joined(s[..k]) + "," + (s[k] + [c]) == Joined(s[..k]) + "," + s[k] + [c];
    }
  }

  // ------------------------------------------------------------------
  // Joining and splitting
  // ------------------------------------------------------------------

  /** Text whose brackets are paired. */
  datatype Nest = End | Plain(c: char, rest: Nest) | Group(open: char, inner: Nest, close: char, rest: Nest)

  function Written(n: Nest): string {
    match n
    case End => ""
    case Plain(c, rest) => [c] + Written(rest)
    case Group(open, inner, close, rest) => [open] + Written(inner) + [close] + Written(rest)
  }

  /** Any of the four kinds of brackets around a group, none elsewhere; commas inside groups only. */
  predicate Parameter(n: Nest, inside: bool) {
    match n
    case End => true
    case Plain(c, rest) =>
      c !in {'<', '(', '[', '{', '>', ')', ']', '}'} && (c == ',' ==> inside) && Parameter(rest, inside)
    case Group(open, inner, close, rest) =>
      && open in {'<', '(', '[', '{'} && close in {'>', ')', ']', '}'}
      && Parameter(inner, true) && Parameter(rest, inside)
  }

  predicate NoCuts(t: string, i: nat, j: nat)
    requires i <= j <= |t|
  {
    forall k :: i <= k < j ==> !CutsAt(t, 0, k)
  }

  /** The text of `n` stands at `i`. */
  predicate StandsAt(t: string, i: nat, n: Nest) { i + |Written(n)| <= |t| && t[i..i + |Written(n)|] == Written(n) }

  lemma OneCharacter(t: string, i: nat, c: char, d: nat)
    requires i < |t| && t[i] == c && Level(t, 0, i) == d && (c == ',' ==> d > 0)
    ensures !CutsAt(t, 0, i)
    ensures Level(t, 0, i + 1) ==
      if c in {'<', '(', '[', '{'} then d + 1 else if c in {'>', ')', ']', '}'} && d > 0 then d - 1 else d
  {
  }

  lemma SubSlice(t: string, i: nat, n: nat, a: nat, b: nat)
    requires i + n <= |t| && a <= b <= n
    ensures t[i..i + n][a..b] == t[i + a..i + b]
  {
    var u, v := t[i..i + n][a..b], t[i + a..i + b];
    assert |u| == |v| && forall k :: 0 <= k < |u| ==> u[k] == t[i + (a + k)] == v[k];
    assert u == v;
  }

  lemma Slices(t: string, i: nat, x: char, u: string, y: char, v: string)
    requires var w := [x] + u + [y] + v; i + |w| <= |t| && t[i..i + |w|] == w
    ensures var j := i + 1 + |u|; t[i] == x && t[i + 1..j] == u && t[j] == y && t[j + 1..j + 1 + |v|] == v
  {
    var w := [x] + u + [y] + v;
    var k, n := 1 + |u|, |w|;
    var cut := t[i..i + n];
    assert cut[0] == x && cut[k] == y;
    SubSlice(t, i, n, 1, k);
    SubSlice(t, i, n, k + 1, n);
    assert w[1..k] == u && w[k + 1..n] == v;
  }

  lemma GroupParts(t: string, i: nat, n: Nest)
    requires n.Group? && StandsAt(t, i, n)
    ensures var j := i + 1 + |Written(n.inner)|;
      t[i] == n.open && StandsAt(t, i + 1, n.inner) && j < |t| && t[j] == n.close && StandsAt(t, j + 1, n.rest)
  {
    Slices(t, i, n.open, Written(n.inner), n.close, Written(n.rest));
  }

  /** Paired text is not split, and leaves the depth as it was. */
  lemma {:induction false} PairedText(t: string, i: nat, n: Nest)
    requires StandsAt(t, i, n) && Parameter(n, Level(t, 0, i) > 0)
    ensures NoCuts(t, i, i + |Written(n)|) && Level(t, 0, i + |Written(n)|) == Level(t, 0, i)
    decreases n
  {
    hide Level, CutsAt;
    var d := Level(t, 0, i);
    match n
    case End =>
    case Plain(c, rest) =>
      assert t[i] == Written(n)[0];
      assert t[i + 1..i + |Written(n)|] == Written(n)[1..] == Written(rest);
      OneCharacter(t, i, c, d);
      PairedText(t, i + 1, rest);
    case Group(open, inner, close, rest) =>
      var j := i + 1 + |Written(inner)|;
      GroupParts(t, i, n);
      hide StandsAt;
      OneCharacter(t, i, open, d);
      PairedText(t, i + 1, inner);
      OneCharacter(t, j, close, d + 1);
      PairedText(t, j + 1, rest);
  }

  /** The segments, with `u` added to the last one. */
  function Longer(s: seq<string>, u: string): seq<string>
    requires s != []
  {
    s[..|s| - 1] + [s[|s| - 1] + u]
  }

  lemma LongerExtended(s: seq<string>, u: string, c: char)
    requires s != []
    ensures Extended(Longer(s, u), c) == Longer(s, u + [c])
  {
    assert s[|s| - 1] + u + [c] == s[|s| - 1] + (u + [c]);
  }

  lemma {:induction false} NothingCut(t: string, i: nat, j: nat)
    requires i <= j <= |t| && NoCuts(t, i, j)
    ensures Segments(t, j) == Longer(Segments(t, i), t[i..j])
    decreases j
  {
    hide CutsAt, Longer, Extended;
    var before := Segments(t, i);
    if i < j {
      NothingCut(t, i, j - 1);
      assert t[i..j] == t[i..j - 1] + [t[j - 1]];
      LongerExtended(before, t[i..j - 1], t[j - 1]);
      assert !CutsAt(t, 0, j - 1);
    } else {
      NothingLonger(before);
      assert t[i..j] == "";
    }
    assert Segments(t, j) == Longer(before, t[i..j]);
  }

  lemma NothingLonger(s: seq<string>)
    requires s != []
    ensures Longer(s, "") == s
  {
    assert s[|s| - 1] + "" == s[|s| - 1];
  }

  lemma LongerNew(s: seq<string>, u: string)
    ensures Longer(s + [""], u) == s + [u]
  {
    assert (s + [""])[..|s|] == s && "" + u == u;
  }

  function Texts(ns: seq<Nest>): (s: seq<string>)
    ensures |s| == |ns|
  {
    seq(|ns|, i requires 0 <= i < |ns| => Written(ns[i]))
  }

  lemma TextsSnoc(ns: seq<Nest>, n: Nest)
    ensures Texts(ns + [n]) == Texts(ns) + [Written(n)]
    ensures ns != [] ==> Joined(Texts(ns + [n])) == Joined(Texts(ns)) + "," + Written(n)
  {
    assert Texts(ns + [n]) == Texts(ns) + [Written(n)];
    assert (Texts(ns) + [Written(n)])[..|ns|] == Texts(ns);
  }

  lemma {:induction false} SplitPrefix(t: string, ns: seq<Nest>)
    requires ns != [] && forall n <- ns :: Parameter(n, false)
    requires var w := Joined(Texts(ns)); |w| <= |t| && t[..|w|] == w
    ensures var w := |Joined(Texts(ns))|; Level(t, 0, w) == 0 && Segments(t, w) == Texts(ns)
    decreases |ns|
  {
    hide Parameter, Level, Segments, Joined, Texts;
    var k := |ns| - 1;
    var front, n := ns[..k], ns[k];
    assert ns == front + [n] && n in ns;
    TextsSnoc(front, n);
    if k == 0 {
      OnlyPiece(t, n);
      assert front + [n] == [n];
    } else {
      var v, w := Joined(Texts(front)), Joined(Texts(ns));
      assert w == v + "," + Written(n);
      CommaThen(t, v, Written(n));
      assert forall x <- front :: x in ns;
      SplitPrefix(t, front);
      LastPiece(t, |v|, n, Texts(front));
    }
    assert Level(t, 0, |Joined(Texts(ns))|) == 0 && Segments(t, |Joined(Texts(ns))|) == Texts(ns);
  }

  lemma CommaThen(t: string, v: string, u: string)
    requires var w := v + "," + u; |w| <= |t| && t[..|w|] == w
    ensures t[..|v|] == v && t[|v|] == ',' && t[|v| + 1..|v| + 1 + |u|] == u
  {
    var w := v + "," + u;
    assert forall k :: 0 <= k < |w| ==> t[k] == w[k];
  }

  lemma {:induction false} OnlyPiece(t: string, n: Nest)
    requires Parameter(n, false) && var w := Joined(Texts([n])); |w| <= |t| && t[..|w|] == w
    ensures var w := |Joined(Texts([n]))|; Level(t, 0, w) == 0 && Segments(t, w) == Texts([n])
  {
    var w := |Written(n)|;
    assert Joined(Texts([n])) == Written(n);
    assert t[0..0 + w] == t[..w];
    PairedText(t, 0, n);
    NothingCut(t, 0, w);
    LongerNew([], Written(n));
    assert [] + [""] == [""] == Segments(t, 0);
    assert Texts([n]) == [] + [Written(n)];
  }

  /** After a comma outside all brackets, paired text is a segment of its own. */
  lemma {:induction false} LastPiece(t: string, i: nat, n: Nest, before: seq<string>)
    requires i < |t| && t[i] == ',' && Level(t, 0, i) == 0 && Segments(t, i) == before
    requires StandsAt(t, i + 1, n) && Parameter(n, false)
    ensures var j := i + 1 + |Written(n)|; Level(t, 0, j) == 0 && Segments(t, j) == before + [Written(n)]
  {
    var j := i + 1 + |Written(n)|;
    assert Level(t, 0, i + 1) == 0 && Segments(t, i + 1) == before + [""];
    hide Level, Segments, Parameter, Longer;
    PairedText(t, i + 1, n);
    NothingCut(t, i + 1, j);
    LongerNew(before, Written(n));
    assert Level(t, 0, j) == 0 && Segments(t, j) == before + [Written(n)];
  }

  /** Parameters joined by commas are split into those parameters, whatever brackets and commas they hold inside. */
  lemma SplitAfterJoin(ns: seq<Nest>)
    requires ns != [] && forall n <- ns :: Parameter(n, false)
    ensures var t := Joined(Texts(ns)); Segments(t, |t|) == Texts(ns)
  {
    var t := Joined(Texts(ns));
    assert t[..|t|] == t;
    SplitPrefix(t, ns);
  }

  /** A closing bracket without an opening one changes nothing. */
  lemma StrayClosing(t: string, i: nat)
    requires i < |t| && t[i] in {'>', ')', ']', '}'} && Level(t, 0, i) == 0
    ensures Level(t, 0, i + 1) == 0
  {
  }

  // ------------------------------------------------------------------
  // The text as written against the cleaned text
  // ------------------------------------------------------------------

  /** A character other than blanks, quotes and slashes survives cleaning exactly when it stands in code. */
  lemma Survives(s: string, i: nat, c: char)
    requires i < |s| && c != ' ' && c != '\n' && c != '/' && !IsQuote(c)
    ensures Clean(s)[i] == c <==> s[i] == c && ModeAt(s, i) == Code
  {
    QuotesAreQuotes(s, i);
    assert Clean(s)[i] == CleanAt(s, i);
  }

  /** Bracket depth counting only brackets that stand in code. */
  function CodeLevel(s: string, lo: nat, i: nat): nat
    requires lo <= i <= |s|
    decreases i
  {
    if i == lo then 0
    else
      var before := CodeLevel(s, lo, i - 1);
      if ModeAt(s, i - 1) == Code then LevelAfter(before, s[i - 1]) else before
  }

  lemma CleanLevelStep(s: string, i: nat, d: nat)
    requires i < |s|
    ensures LevelAfter(d, Clean(s)[i]) == if ModeAt(s, i) == Code then LevelAfter(d, s[i]) else d
  {
    var c := Clean(s)[i];
    if Opens(s[i]) || Closes(s[i]) { Survives(s, i, s[i]); }
    if Opens(c) || Closes(c) { Survives(s, i, c); }
  }

  /** Depth in the cleaned text is depth in code. */
  lemma {:induction false} CleanLevel(s: string, lo: nat, i: nat)
    requires lo <= i <= |s|
    ensures |Clean(s)| == |s| && Level(Clean(s), lo, i) == CodeLevel(s, lo, i)
    decreases i
  {
    if i > lo {
      CleanLevel(s, lo, i - 1);
      CleanLevelStep(s, i - 1, CodeLevel(s, lo, i - 1));
    }
  }

  /** A comma that the two texts treat alike: outside all brackets as written exactly when it stands in code
      outside all brackets that stand in code. */
  predicate Alike(s: string, lo: nat, i: nat)
    requires lo <= i < |s|
  {
    Level(s, lo, i) == 0 <==> ModeAt(s, i) == Code && CodeLevel(s, lo, i) == 0
  }

  /** The text as written and the cleaned text are split at the same places exactly when all commas are treated alike. */
  lemma {:induction false} SplitsAgree(s: string, lo: nat, hi: nat)
    requires lo <= hi <= |s|
    ensures |Clean(s)| == |s|
    ensures (forall i :: lo <= i < hi ==> (CutsAt(s, lo, i) <==> CutsAt(Clean(s), lo, i))) <==>
      (forall i :: lo <= i < hi && s[i] == ',' ==> Alike(s, lo, i))
  {
    forall i | lo <= i < hi
      ensures |Clean(s)| == |s|
      ensures (CutsAt(s, lo, i) <==> CutsAt(Clean(s), lo, i)) <==> (s[i] == ',' ==> Alike(s, lo, i))
    {
      CleanLevel(s, lo, i);
      Survives(s, i, ',');
    }
  }

  /** From `lo` to `hi` no bracket stands in a comment or a literal. */
  predicate BracketsInCode(s: string, lo: nat, hi: nat)
    requires lo <= hi <= |s|
  {
    forall i :: lo <= i < hi && (Opens(s[i]) || Closes(s[i])) ==> ModeAt(s, i) == Code
  }

  lemma {:induction false} SameLevels(s: string, lo: nat, i: nat)
    requires lo <= i <= |s| && BracketsInCode(s, lo, i)
    ensures CodeLevel(s, lo, i) == Level(s, lo, i)
    decreases i
  {
    if i > lo {
      SameLevels(s, lo, i - 1);
    }
  }

  /** With every bracket in code: exactly when no comma of a comment or literal stands outside all brackets. */
  lemma {:induction false} SplitsAgreeOnCommas(s: string, lo: nat, hi: nat)
    requires lo <= hi <= |s| && BracketsInCode(s, lo, hi)
    ensures |Clean(s)| == |s|
    ensures (forall i :: lo <= i < hi ==> (CutsAt(s, lo, i) <==> CutsAt(Clean(s), lo, i))) <==>
      (forall i :: lo <= i < hi && s[i] == ',' && Level(s, lo, i) == 0 ==> ModeAt(s, i) == Code)
  {
    SplitsAgree(s, lo, hi);
    forall i | lo <= i < hi
      ensures Alike(s, lo, i) <==> (Level(s, lo, i) == 0 ==> ModeAt(s, i) == Code)
    {
      SameLevels(s, lo, i);
    }
  }

  /** A comma in a comment splits a parameter in two. */
  lemma CommaInComment()
    ensures var s := "a/*,*/"; |Clean(s)| == |s| && CutsAt(s, 0, 3) && !CutsAt(Clean(s), 0, 3)
  {
    var s := "a/*,*/";
    assert ModeAt(s, 1) == Code && ModeAt(s, 2) == Opening && ModeAt(s, 3) == Block;
    assert Level(s, 0, 1) == 0 && Level(s, 0, 2) == 0;
    Survives(s, 3, ',');
  }

  /** A bracket in a comment joins two parameters. */
  lemma BracketInComment()
    ensures var s := "a/*(*/,b"; |Clean(s)| == |s| && !CutsAt(s, 0, 6) && CutsAt(Clean(s), 0, 6)
  {
    var s := "a/*(*/,b";
    assert ModeAt(s, 1) == Code && ModeAt(s, 2) == Opening && ModeAt(s, 3) == Block && ModeAt(s, 4) == Block;
    assert ModeAt(s, 5) == Closing && ModeAt(s, 6) == Code;
    assert CodeLevel(s, 0, 1) == 0 && CodeLevel(s, 0, 2) == 0 && CodeLevel(s, 0, 4) == 0 && CodeLevel(s, 0, 6) == 0;
    assert Level(s, 0, 3) == 0 && Level(s, 0, 4) == 1 && Level(s, 0, 6) == 1;
    CleanLevel(s, 0, 6);
    Survives(s, 6, ',');
  }
}
