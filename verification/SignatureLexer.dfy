/**
 The C and C++ signature lexer: comments and literals are blanked in place, so that offsets found in the
 cleaned text can be used on the original.
 */
module SignatureLexer {
  import opened Framing

  // ------------------------------------------------------------------
  // One character at a time
  // ------------------------------------------------------------------

  /** Where a character stands: in code, after `//`, on the `*` of an opening, in a block comment, on the `/`
      of a closing, inside a literal with quote `q`, or right after a backslash in one. */
  datatype Mode = Code | Line | Opening | Block | Closing | Quoted(q: char) | Escaped(q: char)

  predicate IsQuote(c: char) { c == '"' || c == '\'' }

  function Blanked(c: char): char { if c == '\n' then c else ' ' }

  predicate Pair(s: string, i: nat, a: char, b: char)
    requires i < |s|
  {
    s[i] == a && i + 1 < |s| && s[i + 1] == b
  }

  /** The mode of the character after `i`. */
  function NextMode(s: string, i: nat, mode: Mode): Mode
    requires i < |s|
  {
    match mode
    case Code =>
      if Pair(s, i, '/', '/') then Line
      else if Pair(s, i, '/', '*') then Opening
      else if IsQuote(s[i]) then Quoted(s[i])
      else Code
    case Line => if s[i] == '\n' then Code else Line
    case Opening => Block
    case Block => if Pair(s, i, '*', '/') then Closing else Block
    case Closing => Code
    case Quoted(q) =>
      if s[i] == q then Code
      else if s[i] == '\\' && i + 1 < |s| then Escaped(q)
      else Quoted(q)
    case Escaped(q) => Quoted(q)
  }

  /** The mode of the character at `i`. */
  function ModeAt(s: string, i: nat): Mode
    requires i <= |s|
  {
    if i == 0 then Code else NextMode(s, i - 1, ModeAt(s, i - 1))
  }

  /** What stands at `i` in the cleaned text. */
  function CleanAt(s: string, i: nat): char
    requires i < |s|
  {
    match ModeAt(s, i)
    case Code => if Pair(s, i, '/', '/') || Pair(s, i, '/', '*') then ' ' else s[i]
    case Quoted(q) => if s[i] == q then q else if s[i] == '\\' then ' ' else Blanked(s[i])
    case Escaped(_) => ' '
    case _ => Blanked(s[i])
  }

  function Clean(s: string): string { seq(|s|, i requires 0 <= i < |s| => CleanAt(s, i)) }

  // ------------------------------------------------------------------
  // The nested loops of strip_comments
  // ------------------------------------------------------------------

  /** `out` is the cleaned text so far. */
  ghost predicate CleanUpTo(s: string, out: string) {
    |out| <= |s| && forall j :: 0 <= j < |out| ==> out[j] == CleanAt(s, j)
  }

  /** The outer loop stands in code, on the line break that ends a line comment, or at the end. */
  ghost predicate AtTop(s: string, i: nat) {
    i == |s| || (i < |s| && (ModeAt(s, i) == Code || (ModeAt(s, i) == Line && s[i] == '\n')))
  }

  method StripComments(code: string) returns (out: string)
    ensures out == Clean(code)
  {
    out := [];
    var i, n := 0, |code|;
    while i < n
      invariant i <= n && |out| == i && CleanUpTo(code, out) && AtTop(code, i)
    {
      var c := code[i];
      if Pair(code, i, '/', '/') {
        out, i := StripLine(code, i, out);
      } else if Pair(code, i, '/', '*') {
        out, i := StripBlock(code, i, out);
      } else if IsQuote(c) {
        out, i := StripLiteral(code, i, out);
      } else {
        out := out + [c];
        i := i + 1;
      }
    }
  }

  method StripLine(code: string, start: nat, before: string) returns (out: string, i: nat)
    requires |before| == start < |code| && CleanUpTo(code, before)
    requires ModeAt(code, start) == Code && Pair(code, start, '/', '/')
    ensures start < i <= |code| && |out| == i && CleanUpTo(code, out) && AtTop(code, i)
  {
    out, i := before, start;
    while i < |code| && code[i] != '\n'
      invariant start <= i <= |code| && |out| == i && CleanUpTo(code, out)
      invariant if i == start then out == before else ModeAt(code, i) == Line
    {
      out := out + [' '];
      i := i + 1;
    }
  }

  method StripBlock(code: string, start: nat, before: string) returns (out: string, i: nat)
    requires |before| == start < |code| && CleanUpTo(code, before)
    requires ModeAt(code, start) == Code && Pair(code, start, '/', '*')
    ensures start < i <= |code| && |out| == i && CleanUpTo(code, out) && AtTop(code, i)
  {
    var end := Find(code, "*/", start + 2);
    BlockModes(code, start);
    end := if end == -1 then |code| else end + 2;
    out := before + seq(end - start, k requires 0 <= k < end - start => Blanked(code[start + k]));
    i := end;
    forall j | 0 <= j < |out| ensures out[j] == CleanAt(code, j) {
      if j >= start { assert out[j] == Blanked(code[start + (j - start)]); }
    }
  }

  method StripLiteral(code: string, start: nat, before: string) returns (out: string, i: nat)
    requires |before| == start < |code| && CleanUpTo(code, before)
    requires ModeAt(code, start) == Code && IsQuote(code[start])
    ensures start < i <= |code| && |out| == i && CleanUpTo(code, out) && AtTop(code, i)
  {
    var quote := code[start];
    out, i := before + [quote], start + 1;
    while i < |code| && code[i] != quote
      invariant start < i <= |code| && |out| == i && CleanUpTo(code, out)
      invariant ModeAt(code, i) == Quoted(quote)
    {
      if code[i] == '\\' && i + 1 < |code| {
        out := out + "  ";
        i := i + 2;
      } else {
        out := out + [if code[i] != '\n' then ' ' else '\n'];
        i := i + 1;
      }
    }
    if i < |code| {
      out := out + [quote];
      i := i + 1;
    }
  }

  /** A block comment runs to the first closing after its opening, or to the end. */
  lemma BlockModes(s: string, start: nat)
    requires start < |s| && ModeAt(s, start) == Code && Pair(s, start, '/', '*')
    ensures var e := Find(s, "*/", start + 2);
      && (forall j :: start < j < (if e == -1 then |s| else e + 2) ==> ModeAt(s, j) in {Opening, Block, Closing})
      && (e != -1 ==> ModeAt(s, e + 2) == Code)
  {
    var e := Find(s, "*/", start + 2);
    var stop := if e == -1 then |s| else e;
    FoundThere(s, "*/", start + 2);
    forall j | start + 2 <= j <= stop && j <= |s| ensures ModeAt(s, j) == Block {
      StillInBlock(s, start, j);
    }
    if e != -1 {
      var closing := "*/";
      assert closing[0] == s[e + 0] && closing[1] == s[e + 1];
      assert Pair(s, e, '*', '/');
      assert ModeAt(s, e) == Block && ModeAt(s, e + 1) == Closing && ModeAt(s, e + 2) == Code;
    }
    assert ModeAt(s, start + 1) == Opening;
  }

  lemma {:induction false} StillInBlock(s: string, start: nat, j: nat)
    requires start < |s| && ModeAt(s, start) == Code && Pair(s, start, '/', '*')
    requires start + 2 <= j <= |s|
    requires var e := Find(s, "*/", start + 2); e == -1 || j <= e
    ensures ModeAt(s, j) == Block
    decreases j
  {
    if j > start + 2 {
      StillInBlock(s, start, j - 1);
      if Pair(s, j - 1, '*', '/') {
        assert At(s, "*/", j - 1);
        FindsFirst(s, "*/", start + 2, j - 1);
      }
    }
  }

  // ------------------------------------------------------------------
  // What cleaning does, piece by piece
  // ------------------------------------------------------------------

  /** The same text with everything but line breaks blanked. */
  function Blanks(s: string): string { seq(|s|, i requires 0 <= i < |s| => if s[i] == '\n' then '\n' else ' ') }

  lemma {:induction false} ModesShift(p: string, t: string, i: nat)
    requires i <= |t| && ModeAt(p + t, |p|) == Code
    ensures ModeAt(p + t, |p| + i) == ModeAt(t, i)
  {
    if i > 0 {
      ModesShift(p, t, i - 1);
      assert NextMode(p + t, |p| + i - 1, ModeAt(t, i - 1)) == NextMode(t, i - 1, ModeAt(t, i - 1));
    }
  }

  /** After a complete piece cleaning starts afresh. */
  lemma {:induction false} CleanAfter(p: string, t: string, c: string)
    requires ModeAt(p + t, |p|) == Code && |c| == |p| && forall i :: 0 <= i < |p| ==> CleanAt(p + t, i) == c[i]
    ensures Clean(p + t) == c + Clean(t)
  {
    forall i | 0 <= i < |p + t| ensures Clean(p + t)[i] == (c + Clean(t))[i] {
      if i >= |p| { ModesShift(p, t, i - |p|); }
    }
  }

  /** A character that begins neither a comment nor a literal is kept. */
  lemma {:induction false} CleanCode(c: char, t: string)
    requires c != '"' && c != '\'' && !(c == '/' && t != "" && (t[0] == '/' || t[0] == '*'))
    ensures Clean([c] + t) == [c] + Clean(t)
  {
    var s := [c] + t;
    assert ModeAt(s, 1) == NextMode(s, 0, Code);
    CleanAfter([c], t, [c]);
  }

  lemma {:induction false} LineModes(s: string, n: nat)
    requires 1 <= n <= |s| && |s| >= 2 && s[0] == s[1] == '/' && forall i :: 0 <= i < n ==> s[i] != '\n'
    ensures ModeAt(s, n) == Line
    decreases n
  {
    if n == 1 { assert ModeAt(s, 1) == NextMode(s, 0, Code); } else { LineModes(s, n - 1); }
  }

  /** A line comment is blanked up to the line break, which is kept. */
  lemma {:induction false} CleanLineComment(body: string, t: string)
    requires '\n' !in body
    ensures Clean("//" + body + "\n" + t) == Blanks("//" + body) + "\n" + Clean(t)
    ensures Clean("//" + body) == Blanks("//" + body)
  {
    var line := "//" + body;
    var p := line + "\n";
    var s := p + t;
    forall i | 0 < i <= |line| ensures ModeAt(s, i) == Line && ModeAt(line, i) == Line {
      LineModes(s, i);
      LineModes(line, i);
    }
    assert ModeAt(s, |p|) == NextMode(s, |line|, Line);
    var c := Blanks(line) + "\n";
    forall i | 0 <= i < |p| ensures CleanAt(s, i) == c[i] {
    }
    CleanAfter(p, t, c);
    assert Clean(line) == Blanks(line);
  }

  lemma {:induction false} CommentModes(s: string, n: nat)
    requires 2 <= n <= |s| && s[0] == '/' && s[1] == '*' && forall i :: 2 <= i < n ==> !Pair(s, i, '*', '/')
    ensures ModeAt(s, n) == Block
    decreases n
  {
    if n == 2 {
      assert ModeAt(s, 1) == NextMode(s, 0, Code) == Opening;
    } else {
      CommentModes(s, n - 1);
    }
  }

  /** A block comment is blanked up to the first closing, or to the end, line breaks kept. */
  lemma {:induction false} CleanBlockComment(body: string, t: string)
    requires forall i :: 0 <= i < |body| - 1 ==> !(body[i] == '*' && body[i + 1] == '/')
    ensures Clean("/*" + body + "*/" + t) == Blanks("/*" + body + "*/") + Clean(t)
    ensures Clean("/*" + body) == Blanks("/*" + body)
  {
    var open := "/*" + body;
    var p := open + "*/";
    var s := p + t;
    assert forall i :: 2 <= i < |open| ==> s[i] == open[i] == body[i - 2];
    forall i | 2 <= i <= |open| ensures ModeAt(s, i) == Block && ModeAt(open, i) == Block {
      CommentModes(s, i);
      CommentModes(open, i);
    }
    assert ModeAt(s, 1) == NextMode(s, 0, Code) && ModeAt(open, 1) == NextMode(open, 0, Code);
    assert Pair(s, |open|, '*', '/');
    assert ModeAt(s, |open| + 1) == Closing && ModeAt(s, |p|) == Code;
    forall i | 0 <= i < |p| ensures CleanAt(s, i) == Blanks(p)[i] {
    }
    CleanAfter(p, t, Blanks(p));
    assert Clean(open) == Blanks(open);
  }

  /** What may stand between two quotes: characters other than the quote, and pairs that begin with a backslash. */
  predicate Quotable(body: string, q: char) {
    body == "" ||
    if body[0] == '\\' then |body| > 1 && Quotable(body[2..], q) else body[0] != q && Quotable(body[1..], q)
  }

  /** The inside of a literal, blanked; an escaped line break goes too. */
  function Faded(body: string): string {
    if body == "" then ""
    else if body[0] == '\\' && |body| > 1 then "  " + Faded(body[2..])
    else (if body[0] == '\n' then "\n" else " ") + Faded(body[1..])
  }

  lemma {:induction false} LiteralUnit(s: string, i: nat, q: char)
    requires i < |s| == |Clean(s)| && ModeAt(s, i) == Quoted(q) && s[i] != q
    ensures s[i] != '\\' ==> ModeAt(s, i + 1) == Quoted(q) && Clean(s)[i..i + 1] == if s[i] == '\n' then "\n" else " "
    ensures s[i] == '\\' && i + 1 < |s| ==> ModeAt(s, i + 2) == Quoted(q) && Clean(s)[i..i + 2] == "  "
  {
    assert ModeAt(s, i + 1) == NextMode(s, i, Quoted(q));
    if s[i] == '\\' && i + 1 < |s| { assert ModeAt(s, i + 2) == NextMode(s, i + 1, Escaped(q)); }
  }

  /** Inside a literal, text up to the closing quote is cleaned to its faded form. */
  lemma {:induction false} LiteralModes(s: string, i: nat, body: string, q: char)
    requires i + |body| <= |s| == |Clean(s)| && s[i..i + |body|] == body && q != '\\'
    requires Quotable(body, q) && ModeAt(s, i) == Quoted(q)
    ensures ModeAt(s, i + |body|) == Quoted(q) && Clean(s)[i..i + |body|] == Faded(body)
    decreases |body|
  {
    hide ModeAt, Clean;
    if body != "" {
      assert s[i] == body[0];
      LiteralUnit(s, i, q);
      var k := if body[0] == '\\' then 2 else 1;
      var rest := body[k..];
      assert s[i + k..i + k + |rest|] == rest;
      LiteralModes(s, i + k, rest, q);
      assert Clean(s)[i..i + |body|] == Clean(s)[i..i + k] + Clean(s)[i + k..i + |body|];
    }
  }

  lemma LiteralOpens(s: string, body: string, q: char)
    requires |s| > |body| && s[0] == q && s[1..1 + |body|] == body && (q == '"' || q == '\'') && Quotable(body, q)
    ensures |Clean(s)| == |s| && Clean(s)[0] == q && Clean(s)[1..1 + |body|] == Faded(body) && ModeAt(s, 1 + |body|) == Quoted(q)
  {
    assert ModeAt(s, 1) == NextMode(s, 0, Code);
    LiteralModes(s, 1, body, q);
  }

  /** A string or character literal keeps its quotes and loses what is between them; without a closing quote, all that
      follows is lost. */
  lemma {:induction false} CleanLiteral(q: char, body: string, t: string)
    requires (q == '"' || q == '\'') && Quotable(body, q)
    ensures Clean([q] + body + [q] + t) == [q] + Faded(body) + [q] + Clean(t)
    ensures Clean([q] + body) == [q] + Faded(body)
    ensures Clean([q] + body + "\\") == [q] + Faded(body) + " "
  {
    hide Faded, Quotable, Clean;
    CleanClosed(q, body, t);
    CleanOpen(q, body, "");
    CleanOpen(q, body, "\\");
    assert [q] + body + "" == [q] + body;
    assert [q] + Faded(body) + "" == [q] + Faded(body);
    assert Clean([q] + body) == [q] + Faded(body);
  }

  lemma {:induction false} CleanClosed(q: char, body: string, t: string)
    requires (q == '"' || q == '\'') && Quotable(body, q)
    ensures Clean([q] + body + [q] + t) == [q] + Faded(body) + [q] + Clean(t)
  {
    var p := [q] + body + [q];
    var s := p + t;
    assert s[1..1 + |body|] == body;
    LiteralOpens(s, body, q);
    hide Faded, Quotable;
    var n := 1 + |body|;
    assert ModeAt(s, n + 1) == NextMode(s, n, Quoted(q)) && Clean(s)[n] == q;
    assert forall i :: 0 <= i < |p| ==> CleanAt(s, i) == Clean(s)[..|p|][i];
    CleanAfter(p, t, Clean(s)[..|p|]);
    hide Clean;
    assert Clean(s)[..|p|] == [Clean(s)[0]] + Clean(s)[1..n] + [Clean(s)[n]];
    assert Clean(s) == [q] + Faded(body) + [q] + Clean(t);
  }

  lemma {:induction false} CleanOpen(q: char, body: string, end: string)
    requires (q == '"' || q == '\'') && Quotable(body, q) && end in {"", "\\"}
    ensures Clean([q] + body + end) == [q] + Faded(body) + if end == "" then "" else " "
  {
    var s := [q] + body + end;
    assert s[1..1 + |body|] == body;
    LiteralOpens(s, body, q);
    var n := 1 + |body|;
    assert end != "" ==> Clean(s)[n] == ' ';
    hide Faded, Quotable, Clean;
    assert Clean(s) == [Clean(s)[0]] + Clean(s)[1..n] + Clean(s)[n..];
    assert Clean(s) == [q] + Faded(body) + if end == "" then "" else " ";
  }

  /** Text without the quote and without backslashes may stand in a literal, and is blanked. */
  lemma {:induction false} PlainBody(body: string, q: char)
    requires q !in body && '\\' !in body
    ensures Quotable(body, q) && Faded(body) == Blanks(body)
  {
    if body != "" {
      assert body[0] in body && forall c <- body[1..] :: c in body;
      PlainBody(body[1..], q);
    }
  }

  // ------------------------------------------------------------------
  // What cleaning keeps
  // ------------------------------------------------------------------

  /** The mode a cleaned text is read in: comments have become code, literals stay literals. */
  function Settled(m: Mode): Mode {
    match m
    case Quoted(q) => m
    case Escaped(q) => Quoted(q)
    case _ => Code
  }

  lemma {:induction false} QuotesAreQuotes(s: string, i: nat)
    requires i <= |s|
    ensures var m := ModeAt(s, i); (m.Quoted? || m.Escaped?) ==> IsQuote(m.q)
  {
    if i > 0 { QuotesAreQuotes(s, i - 1); }
  }

  /** Same length; every character kept or replaced by a space; line breaks kept except those a backslash
      escapes inside a literal; no comment left. */
  lemma CleanKeepsPlaces(s: string, i: nat)
    requires i < |s|
    ensures |Clean(s)| == |s|
    ensures Clean(s)[i] == s[i] || Clean(s)[i] == ' '
    ensures Clean(s)[i] == '\n' <==> s[i] == '\n' && !ModeAt(s, i).Escaped?
    ensures !Pair(Clean(s), i, '/', '/') && !Pair(Clean(s), i, '/', '*')
  {
    QuotesAreQuotes(s, i);
    if i + 1 < |s| {
      QuotesAreQuotes(s, i + 1);
    }
  }

  /** Reading the cleaned text, every character is where it was. */
  lemma {:induction false} CleanModes(s: string, i: nat)
    requires i <= |s|
    ensures |Clean(s)| == |s| && ModeAt(Clean(s), i) == Settled(ModeAt(s, i))
  {
    if i > 0 {
      CleanModes(s, i - 1);
      CleanKeepsPlaces(s, i - 1);
      QuotesAreQuotes(s, i - 1);
      CleanStep(s, i - 1);
    }
  }

  lemma CleanStep(s: string, i: nat)
    requires i < |s| == |Clean(s)| && ModeAt(Clean(s), i) == Settled(ModeAt(s, i))
    requires !Pair(Clean(s), i, '/', '/') && !Pair(Clean(s), i, '/', '*')
    requires var m := ModeAt(s, i); (m.Quoted? || m.Escaped?) ==> IsQuote(m.q)
    ensures NextMode(Clean(s), i, Settled(ModeAt(s, i))) == Settled(NextMode(s, i, ModeAt(s, i)))
  {
    assert Clean(s)[i] == CleanAt(s, i);
  }

  lemma CleanIsIdempotent(s: string)
    ensures Clean(Clean(s)) == Clean(s)
  {
    var t := Clean(s);
    forall i | 0 <= i < |s| ensures CleanAt(t, i) == t[i] {
      CleanModes(s, i);
      CleanKeepsPlaces(s, i);
      QuotesAreQuotes(s, i);
      assert t[i] == CleanAt(s, i);
    }
  }

  // ------------------------------------------------------------------
  // Parentheses
  // ------------------------------------------------------------------

  function Weight(c: char): int { if c == '(' then 1 else if c == ')' then -1 else 0 }

  /** Openings less closings in s[lo..hi], counting every parenthesis. */
  function Depth(s: string, lo: nat, hi: nat): int
    requires lo <= hi <= |s|
    decreases hi
  {
    if lo == hi then 0 else Depth(s, lo, hi - 1) + Weight(s[hi - 1])
  }

  /** Openings less closings in s[lo..hi], counting only those that stand in code. */
  function CodeDepth(s: string, lo: nat, hi: nat): int
    requires lo <= hi <= |s|
    decreases hi
  {
    if lo == hi then 0
    else CodeDepth(s, lo, hi - 1) + (if ModeAt(s, hi - 1) == Code then Weight(s[hi - 1]) else 0)
  }

  /** _matching_paren. */
  method MatchingParen(s: string, open: nat) returns (r: int)
    requires open < |s| && s[open] == '('
    ensures r == -1 || (open < r < |s| && s[r] == ')' && Depth(s, open, r + 1) == 0)
    ensures forall j :: open < j <= (if r == -1 then |s| else r) ==> Depth(s, open, j) > 0
  {
    var depth := 0;
    for i := open to |s|
      invariant depth == Depth(s, open, i)
      invariant forall j :: open < j <= i ==> Depth(s, open, j) > 0
    {
      if s[i] == '(' {
        depth := depth + 1;
      } else if s[i] == ')' {
        depth := depth - 1;
        if depth == 0 { return i; }
      }
    }
    return -1;
  }

  /** A parenthesis survives cleaning exactly when it stands in code. */
  lemma ParenSurvives(s: string, i: nat)
    requires i < |s|
    ensures Weight(Clean(s)[i]) == if ModeAt(s, i) == Code then Weight(s[i]) else 0
  {
    QuotesAreQuotes(s, i);
    assert Clean(s)[i] == CleanAt(s, i);
  }

  lemma {:induction false} CleanDepth(s: string, lo: nat, hi: nat)
    requires lo <= hi <= |s|
    ensures |Clean(s)| == |s| && Depth(Clean(s), lo, hi) == CodeDepth(s, lo, hi)
    decreases hi
  {
    if lo < hi {
      CleanDepth(s, lo, hi - 1);
      ParenSurvives(s, hi - 1);
    }
  }

  /** `close` is the closing parenthesis of the opening one at `open`, comments and literals aside. */
  ghost predicate TrueMatch(s: string, open: nat, close: int) {
    && open < close < |s| && s[close] == ')' && ModeAt(s, close) == Code
    && CodeDepth(s, open, close + 1) == 0
    && forall j :: open < j <= close ==> CodeDepth(s, open, j) > 0
  }

  lemma TrueMatchIsUnique(s: string, open: nat, a: int, b: int)
    requires TrueMatch(s, open, a) && TrueMatch(s, open, b)
    ensures a == b
  {
    assert CodeDepth(s, open, a + 1) == 0 && CodeDepth(s, open, b + 1) == 0;
  }

  datatype Params = NoMatch | Params(text: string, close: nat)

  /** Cutting the parameter list of parse_signature: offsets found in the cleaned text, text cut from the original. */
  method CutParams(code: string, open: nat) returns (p: Params)
    requires open < |Clean(code)| && Clean(code)[open] == '('
    ensures code[open] == '(' && ModeAt(code, open) == Code
    ensures p.Params? ==> TrueMatch(code, open, p.close) && p.text == code[open + 1..p.close]
    ensures p.NoMatch? ==> forall c :: !TrueMatch(code, open, c)
  {
    var clean := StripComments(code);
    ParenSurvives(code, open);
    var close := MatchingParen(clean, open);
    forall j | open <= j <= |code| ensures |clean| == |code| && Depth(clean, open, j) == CodeDepth(code, open, j) {
      CleanDepth(code, open, j);
    }
    if close == -1 {
      return NoMatch;
    }
    ParenSurvives(code, close);
    return Params(code[open + 1..close], close);
  }

  // ------------------------------------------------------------------
  // Parentheses inside a literal
  // ------------------------------------------------------------------

  /** Code in which nothing is blanked and nothing opens or closes. */
  predicate Bland(a: string) {
    forall c <- a :: c != '"' && c != '\'' && c != '/' && c != '(' && c != ')'
  }

  lemma {:induction false} CleanBland(a: string, t: string)
    requires Bland(a)
    ensures Clean(a + t) == a + Clean(t)
  {
    hide Clean;
    if a == "" {
      assert a + t == t;
    } else {
      assert a[0] in a && forall c <- a[1..] :: c in a;
      CleanBland(a[1..], t);
      assert a + t == [a[0]] + (a[1..] + t);
      CleanCode(a[0], a[1..] + t);
      assert [a[0]] + (a[1..] + Clean(t)) == a + Clean(t);
    }
  }

  lemma {:induction false} FadedIsBlank(body: string)
    ensures forall c <- Faded(body) :: c == ' ' || c == '\n'
  {
    if body != "" {
      if body[0] == '\\' && |body| > 1 { FadedIsBlank(body[2..]); } else { FadedIsBlank(body[1..]); }
    }
  }

  lemma {:induction false} DepthFlat(s: string, lo: nat, hi: nat)
    requires lo < hi <= |s| && s[lo] == '(' && forall i :: lo < i < hi ==> s[i] != '(' && s[i] != ')'
    ensures Depth(s, lo, hi) == 1
    decreases hi
  {
    if hi > lo + 1 { DepthFlat(s, lo, hi - 1); } else { assert Depth(s, lo, lo) == 0; }
  }

  /** The cleaned text of a parameter list with a literal in it. */
  lemma {:induction false} CleanParams(h: string, a: string, q: char, body: string, b: string, t: string)
    requires Bland(h) && Bland(a) && Bland(b) && (q == '"' || q == '\'') && Quotable(body, q)
    ensures Clean(h + ("(" + (a + ([q] + body + [q] + (b + (")" + t)))))) ==
      h + ("(" + (a + ([q] + Faded(body) + [q] + (b + (")" + Clean(t))))))
  {
    hide Clean, Bland, Quotable, Faded;
    var end := ")" + t;
    CleanCode(')', t);
    CleanBland(b, end);
    CleanLiteral(q, body, b + end);
    var literal := [q] + body + [q] + (b + end);
    CleanBland(a, literal);
    CleanCode('(', a + literal);
    CleanBland(h, "(" + (a + literal));
  }

  /** The closing parenthesis is found behind a literal, whatever parentheses the literal holds. */
  lemma {:induction false} LiteralHidesParentheses(h: string, a: string, q: char, body: string, b: string, t: string)
    requires Bland(h) && Bland(a) && Bland(b) && (q == '"' || q == '\'') && Quotable(body, q)
    ensures TrueMatch(h + ("(" + (a + ([q] + body + [q] + (b + (")" + t))))), |h|, |h| + |a| + |body| + |b| + 3)
  {
    var s := h + ("(" + (a + ([q] + body + [q] + (b + (")" + t)))));
    var open, close := |h|, |h| + |a| + |body| + |b| + 3;
    CleanParams(h, a, q, body, b, t);
    CleanDepth(s, 0, 0);
    assert |Faded(body)| == |body|;
    FadedIsBlank(body);
    var clean := Clean(s);
    hide Clean, Faded, Quotable;
    forall i | open < i < close ensures clean[i] != '(' && clean[i] != ')' {
      if i <= |h| + |a| {
        assert clean[i] == a[i - |h| - 1] && clean[i] in a;
      } else if i >= close - |b| {
        assert clean[i] == b[i - (close - |b|)] && clean[i] in b;
      } else if |h| + |a| + 1 < i < close - |b| - 1 {
        assert clean[i] == Faded(body)[i - |h| - |a| - 2] && clean[i] in Faded(body);
      } else {
        assert clean[i] == q;
      }
    }
    assert clean[open] == '(' && clean[close] == ')' == s[close];
    forall j | open < j <= close ensures CodeDepth(s, open, j) == 1 {
      DepthFlat(clean, open, j);
      CleanDepth(s, open, j);
    }
    CleanDepth(s, open, close + 1);
    ParenSurvives(s, close);
    assert TrueMatch(s, open, close);
  }

  /** A character literal that holds a closing parenthesis. */
  lemma ParenthesisCharacter()
    ensures TrueMatch("f(char c=')'){", 1, 12)
  {
    var h, a, body, t := "f", "char c=", ")", "{";
    assert Bland(h) && Bland(a) && Quotable(body, '\'') by { assert body[1..] == ""; }
    LiteralHidesParentheses(h, a, '\'', body, "", t);
    assert h + ("(" + (a + (['\''] + body + ['\''] + ("" + (")" + t))))) == "f(char c=')'){";
  }
}
