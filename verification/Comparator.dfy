/**
 The lenient output comparator: exact equality, floats within a tolerance, null against an empty list,
 numeric text against numbers, and one-element lists against their element.
 */
module Comparator {
  import opened Wrappers

  /** A decoded JSON value.  Floats are real numbers; NaN and infinities are not represented. */
  datatype Json =
    | Null
    | Bool(truth: bool)
    | Int(whole: int)
    | Float(decimal: real)
    | Str(text: string)
    | Arr(items: seq<Json>)
    | Obj(fields: map<string, Json>)

  const FLOAT_TOLERANCE := 0.00001

  /** What float() makes of a text; a text it rejects, or reads as NaN, equals no number. */
  datatype Number = Finite(value: real) | Infinity(positive: bool)

  /** Python's str() on decoded values, and float() on texts. */
  datatype Printer = Printer(str: Json -> string, float: string -> Option<Number>)

  // ------------------------------------------------------------------
  // The rules
  // ------------------------------------------------------------------

  /** Booleans are numbers to Python's ==. */
  predicate Numeric(a: Json) { a.Bool? || a.Int? || a.Float? }

  function NumberOf(a: Json): real
    requires Numeric(a)
  {
    match a
    case Bool(b) => if b then 1.0 else 0.0
    case Int(n) => n as real
    case Float(x) => x
  }

  /** Python's == on decoded values: 1 == 1.0 == True at every depth. */
  predicate PyEqual(a: Json, b: Json)
    decreases a
  {
    if Numeric(a) && Numeric(b) then NumberOf(a) == NumberOf(b)
    else if a.Arr? && b.Arr? then
      |a.items| == |b.items| && forall i :: 0 <= i < |a.items| ==> PyEqual(a.items[i], b.items[i])
    else if a.Obj? && b.Obj? then
      a.fields.Keys == b.fields.Keys && forall k <- a.fields :: PyEqual(a.fields[k], b.fields[k])
    else a == b
  }

  function Abs(x: real): real { if x < 0.0 then -x else x }

  function Max(x: real, y: real): real { if x < y then y else x }

  predicate FloatsClose(a: real, b: real) {
    Abs(a - b) <= FLOAT_TOLERANCE * Max(1.0, Max(Abs(a), Abs(b)))
  }

  predicate FloatRule(a: Json, b: Json) {
    (a.Float? || b.Float?) && (a.Int? || a.Float?) && (b.Int? || b.Float?)
  }

  /** _values_match. */
  predicate ValuesMatch(a: Json, b: Json)
    decreases a
  {
    PyEqual(a, b)
    || (a.Null? && b == Arr([])) || (a == Arr([]) && b.Null?)
    || if FloatRule(a, b) then FloatsClose(NumberOf(a), NumberOf(b))
    else if a.Arr? && b.Arr? && |a.items| == |b.items| then
      forall i :: 0 <= i < |a.items| ==> ValuesMatch(a.items[i], b.items[i])
    else
      && a.Obj? && b.Obj? && a.fields.Keys == b.fields.Keys
      && forall k <- a.fields :: ValuesMatch(a.fields[k], b.fields[k])
  }

  predicate TextsMatch(p: Printer, a: Json, b: Json) {
    var s, t := p.str(a), p.str(b);
    s == t || (p.float(s).Some? && p.float(s) == p.float(t))
  }

  predicate Boxed(a: Json) { a.Arr? && |a.items| == 1 }

  /** _outputs_match on plain values. */
  predicate OutputsMatch(p: Printer, a: Json, e: Json)
    decreases a, e
  {
    || ValuesMatch(a, e)
    || TextsMatch(p, a, e)
    || (Boxed(a) && OutputsMatch(p, a.items[0], e))
    || (Boxed(e) && OutputsMatch(p, a, e.items[0]))
  }

  /** What a run returns: a value, or nothing together with the mutated first argument. */
  datatype Returned = Plain(value: Json) | InPlace(value: Json, mutated: Json)

  /** _outputs_match on whatever a run returned. */
  predicate Matches(p: Printer, r: Returned, e: Json) {
    OutputsMatch(p, r.value, e) || (r.InPlace? && OutputsMatch(p, r.mutated, e))
  }

  // ------------------------------------------------------------------
  // Numbers
  // ------------------------------------------------------------------

  /** A difference of at most a hundred-thousandth of `size`. */
  predicate Within(d: real, size: real) { -0.00001 * size <= d <= 0.00001 * size }

  /** The difference is small, or small next to one of the numbers. */
  predicate Near(x: real, y: real) {
    Within(x - y, 1.0) || Within(x - y, x) || Within(x - y, -x) || Within(x - y, y) || Within(x - y, -y)
  }

  lemma CloseIsNear(x: real, y: real)
    ensures FloatsClose(x, y) <==> Near(x, y)
  {
  }

  /** Numbers match when one is a float and they differ by at most a hundred-thousandth, absolutely or relative to either;
      integers match only themselves. */
  lemma NumbersMatch(x: real, y: real, m: int, n: int)
    ensures ValuesMatch(Float(x), Float(y)) <==> Near(x, y)
    ensures ValuesMatch(Int(m), Float(y)) <==> Near(m as real, y)
    ensures ValuesMatch(Float(x), Int(n)) <==> Near(x, n as real)
    ensures ValuesMatch(Int(m), Int(n)) <==> m == n
  {
    CloseIsNear(x, y);
    CloseIsNear(m as real, y);
    CloseIsNear(x, n as real);
    assert Near(x, x);
  }

  /** A boolean matches the number it stands for, exactly: no tolerance. */
  lemma BooleansMatch(b: bool, c: bool, n: int, x: real)
    ensures ValuesMatch(Bool(b), Int(n)) <==> n == if b then 1 else 0
    ensures ValuesMatch(Bool(b), Float(x)) <==> x == if b then 1.0 else 0.0
    ensures ValuesMatch(Bool(b), Bool(c)) <==> b == c
  {
  }

  /** Above one the tolerance is relative: whether two floats match does not depend on the unit. */
  lemma ScaleInvariant(x: real, y: real, k: real)
    requires k >= 1.0 && !(-1.0 < x < 1.0 && -1.0 < y < 1.0)
    ensures ValuesMatch(Float(k * x), Float(k * y)) <==> ValuesMatch(Float(x), Float(y))
  {
    var size := Max(Abs(x), Abs(y));
    LargeFloats(x, y);
    Magnified(x, y, k);
    LargeFloats(Times(k, x), Times(k, y));
    TimesOrder(k, Abs(x - y), FLOAT_TOLERANCE * size);
    TimesTolerance(k, size);
    hide ValuesMatch, Abs, Max;
    assert ValuesMatch(Float(Times(k, x)), Float(Times(k, y))) <==> ValuesMatch(Float(x), Float(y));
  }

  lemma LargeFloats(x: real, y: real)
    requires Max(Abs(x), Abs(y)) >= 1.0
    ensures ValuesMatch(Float(x), Float(y)) <==> Abs(x - y) <= FLOAT_TOLERANCE * Max(Abs(x), Abs(y))
  {
  }

  function Times(k: real, x: real): real { k * x }

  lemma TimesOrder(k: real, a: real, b: real)
    requires k >= 1.0
    ensures Times(k, a) <= Times(k, b) <==> a <= b
    ensures Times(k, a - b) == Times(k, a) - Times(k, b) && Times(k, -a) == -Times(k, a) && Times(k, 0.0) == 0.0
    ensures a >= 0.0 ==> Times(k, a) >= a
  {
    TimesMinus(k, a, b);
    TimesMinus(k, b, a);
    TimesSign(k, a - b);
    TimesSign(k, b - a);
    TimesMinus(k, 0.0, a);
    TimesSign(k - 1.0, a);
    assert (k - 1.0) * a == k * a - a;
    hide Times;
    assert Times(k, a) <= Times(k, b) <==> a <= b;
  }

  lemma TimesSign(k: real, a: real)
    requires k >= 0.0
    ensures (a >= 0.0 ==> k * a >= 0.0) && (a > 0.0 && k > 0.0 ==> k * a > 0.0) && k * 0.0 == 0.0
  {
  }

  lemma TimesMinus(k: real, a: real, b: real)
    ensures k * (a - b) == k * a - k * b && Times(k, a - b) == k * (a - b) && Times(k, a) == k * a && Times(k, b) == k * b
  {
  }

  lemma TimesTolerance(k: real, a: real)
    ensures Times(k, FLOAT_TOLERANCE * a) == FLOAT_TOLERANCE * Times(k, a)
  {
  }

  lemma Magnified(x: real, y: real, k: real)
    requires k >= 1.0
    ensures Abs(Times(k, x) - Times(k, y)) == Times(k, Abs(x - y))
    ensures var size := Max(Abs(x), Abs(y)); Max(Abs(Times(k, x)), Abs(Times(k, y))) == Times(k, size) >= size
  {
    TimesOrder(k, x, y);
    TimesOrder(k, y, x);
    TimesOrder(k, x, 0.0);
    TimesOrder(k, y, 0.0);
    TimesOrder(k, x - y, 0.0);
    TimesOrder(k, Abs(x), Abs(y));
    TimesOrder(k, Abs(y), Abs(x));
    hide Times;
    assert Abs(Times(k, x)) == Times(k, Abs(x)) && Abs(Times(k, y)) == Times(k, Abs(y));
    assert Abs(Times(k, x) - Times(k, y)) == Times(k, Abs(x - y));
    var size := Max(Abs(x), Abs(y));
    assert Max(Abs(Times(k, x)), Abs(Times(k, y))) == Times(k, size) >= size;
  }

  /** Next to a million, a half is within the relative tolerance and eleven is not. */
  lemma NextToAMillion()
    ensures ValuesMatch(Float(1000000.0), Float(1000000.5)) && !ValuesMatch(Float(1000000.0), Int(1000011))
  {
    NumbersMatch(1000000.0, 1000000.5, 0, 1000011);
  }

  /** The rules on texts: values that neither match nor are one-element lists match exactly when they are written alike
      or read as the same number. */
  lemma TextRule(p: Printer, a: Json, e: Json)
    requires !ValuesMatch(a, e) && !(a.Arr? && |a.items| == 1) && !(e.Arr? && |e.items| == 1)
    ensures OutputsMatch(p, a, e) <==>
      p.str(a) == p.str(e) || exists n :: p.float(p.str(a)) == Some(n) && p.float(p.str(e)) == Some(n)
  {
    assert OutputsMatch(p, a, e) <==> TextsMatch(p, a, e);
  }

  /** A text matches an integer exactly when it is written like it or read by float as that number. */
  lemma NumericText(p: Printer, s: string, n: int)
    requires p.str(Str(s)) == s && p.float(p.str(Int(n))) == Some(Finite(n as real))
    ensures OutputsMatch(p, Str(s), Int(n)) <==> s == p.str(Int(n)) || p.float(s) == Some(Finite(n as real))
    ensures OutputsMatch(p, Int(n), Str(s)) <==> s == p.str(Int(n)) || p.float(s) == Some(Finite(n as real))
  {
    TextRule(p, Str(s), Int(n));
    TextRule(p, Int(n), Str(s));
  }

  // ------------------------------------------------------------------
  // Peeling
  // ------------------------------------------------------------------

  /** How many one-element lists can be taken off. */
  function Layers(a: Json): nat { if Boxed(a) then 1 + Layers(a.items[0]) else 0 }

  function Peel(a: Json, n: nat): Json
    requires n <= Layers(a)
    decreases n
  {
    if n == 0 then a else Peel(a.items[0], n - 1)
  }

  /** The rules that look at a pair without taking lists off. */
  predicate Base(p: Printer, a: Json, e: Json) { ValuesMatch(a, e) || TextsMatch(p, a, e) }

  predicate PeeledMatch(p: Printer, a: Json, e: Json, i: nat, j: nat) {
    i <= Layers(a) && j <= Layers(e) && Base(p, Peel(a, i), Peel(e, j))
  }

  /** The recursive comparator is a search over all pairs of peelings. */
  lemma MatchIffPeeledMatch(p: Printer, a: Json, e: Json)
    ensures OutputsMatch(p, a, e) <==> exists i: nat, j: nat :: PeeledMatch(p, a, e, i, j)
    decreases a, e
  {
    if OutputsMatch(p, a, e) {
      var i, j := WitnessOfMatch(p, a, e);
      assert PeeledMatch(p, a, e, i, j);
    }
    if exists i: nat, j: nat :: PeeledMatch(p, a, e, i, j) {
      var i: nat, j: nat :| PeeledMatch(p, a, e, i, j);
      MatchOfWitness(p, a, e, i, j);
    }
  }

  lemma {:induction false} WitnessOfMatch(p: Printer, a: Json, e: Json) returns (i: nat, j: nat)
    requires OutputsMatch(p, a, e)
    ensures PeeledMatch(p, a, e, i, j)
    decreases a, e
  {
    if Base(p, a, e) {
      i, j := 0, 0;
    } else if Boxed(a) && OutputsMatch(p, a.items[0], e) {
      i, j := WitnessOfMatch(p, a.items[0], e);
      i := i + 1;
    } else {
      i, j := WitnessOfMatch(p, a, e.items[0]);
      j := j + 1;
    }
  }

  lemma {:induction false} MatchOfWitness(p: Printer, a: Json, e: Json, i: nat, j: nat)
    requires PeeledMatch(p, a, e, i, j)
    ensures OutputsMatch(p, a, e)
    decreases i + j
  {
    if i > 0 {
      MatchOfWitness(p, a.items[0], e, i - 1, j);
    } else if j > 0 {
      MatchOfWitness(p, a, e.items[0], i, j - 1);
    }
  }

  /** Extra one-element lists around either side are forgiven. */
  lemma {:induction false} BoxesForgiven(p: Printer, a: Json, e: Json, i: nat, j: nat)
    requires i <= Layers(a) && j <= Layers(e) && OutputsMatch(p, Peel(a, i), Peel(e, j))
    ensures OutputsMatch(p, a, e)
    decreases i + j
  {
    if i > 0 {
      BoxesForgiven(p, a.items[0], e, i - 1, j);
    } else if j > 0 {
      BoxesForgiven(p, a, e.items[0], i, j - 1);
    }
  }

  // ------------------------------------------------------------------
  // Symmetry
  // ------------------------------------------------------------------

  lemma {:induction false} PyEqualSymmetric(a: Json, b: Json)
    ensures PyEqual(a, b) <==> PyEqual(b, a)
    decreases a
  {
    if a.Arr? && b.Arr? && |a.items| == |b.items| {
      forall i | 0 <= i < |a.items| ensures PyEqual(a.items[i], b.items[i]) <==> PyEqual(b.items[i], a.items[i]) {
        PyEqualSymmetric(a.items[i], b.items[i]);
      }
    } else if a.Obj? && b.Obj? && a.fields.Keys == b.fields.Keys {
      forall k | k in a.fields ensures PyEqual(a.fields[k], b.fields[k]) <==> PyEqual(b.fields[k], a.fields[k]) {
        PyEqualSymmetric(a.fields[k], b.fields[k]);
      }
    }
  }

  lemma {:induction false} ValuesMatchSymmetric(a: Json, b: Json)
    ensures ValuesMatch(a, b) <==> ValuesMatch(b, a)
    decreases a
  {
    PyEqualSymmetric(a, b);
    if a.Arr? && b.Arr? && |a.items| == |b.items| {
      forall i | 0 <= i < |a.items| ensures ValuesMatch(a.items[i], b.items[i]) <==> ValuesMatch(b.items[i], a.items[i]) {
        ValuesMatchSymmetric(a.items[i], b.items[i]);
      }
    } else if a.Obj? && b.Obj? && a.fields.Keys == b.fields.Keys {
      forall k | k in a.fields ensures ValuesMatch(a.fields[k], b.fields[k]) <==> ValuesMatch(b.fields[k], a.fields[k]) {
        ValuesMatchSymmetric(a.fields[k], b.fields[k]);
      }
    }
  }

  lemma MatchIsSymmetric(p: Printer, a: Json, e: Json)
    ensures OutputsMatch(p, a, e) <==> OutputsMatch(p, e, a)
    decreases a, e
  {
    if OutputsMatch(p, a, e) { MatchFlips(p, a, e); }
    if OutputsMatch(p, e, a) { MatchFlips(p, e, a); }
  }

  lemma MatchFlips(p: Printer, a: Json, e: Json)
    requires OutputsMatch(p, a, e)
    ensures OutputsMatch(p, e, a)
  {
    var i, j := WitnessOfMatch(p, a, e);
    ValuesMatchSymmetric(Peel(a, i), Peel(e, j));
    MatchOfWitness(p, e, a, j, i);
  }

  // ------------------------------------------------------------------
  // The deep equality shortcut
  // ------------------------------------------------------------------

  /** The tolerant relation without the deep equality test: only leaves are compared. */
  predicate Leafwise(a: Json, b: Json)
    decreases a
  {
    if a.Arr? && b.Arr? then
      |a.items| == |b.items| && forall i :: 0 <= i < |a.items| ==> Leafwise(a.items[i], b.items[i])
    else if a.Obj? && b.Obj? then
      a.fields.Keys == b.fields.Keys && forall k <- a.fields :: Leafwise(a.fields[k], b.fields[k])
    else if (a.Float? && (b.Int? || b.Float?)) || (a.Int? && b.Float?) then Near(NumberOf(a), NumberOf(b))
    else if Numeric(a) && Numeric(b) then NumberOf(a) == NumberOf(b)
    else a == b || {a, b} == {Null, Arr([])}
  }

  lemma {:induction false} EqualIsLeafwise(a: Json, b: Json)
    requires PyEqual(a, b)
    ensures Leafwise(a, b)
    decreases a
  {
    if a.Arr? && b.Arr? {
      forall i | 0 <= i < |a.items| ensures Leafwise(a.items[i], b.items[i]) {
        EqualIsLeafwise(a.items[i], b.items[i]);
      }
    } else if a.Obj? && b.Obj? {
      forall k | k in a.fields ensures Leafwise(a.fields[k], b.fields[k]) {
        EqualIsLeafwise(a.fields[k], b.fields[k]);
      }
    }
  }

  /** Testing deep equality first, at every level, never changes the answer. */
  lemma {:induction false} ShortcutIsRedundant(a: Json, b: Json)
    ensures ValuesMatch(a, b) <==> Leafwise(a, b)
    decreases a
  {
    if PyEqual(a, b) {
      EqualIsLeafwise(a, b);
    } else if a.Arr? && b.Arr? && |a.items| == |b.items| {
      forall i | 0 <= i < |a.items| ensures ValuesMatch(a.items[i], b.items[i]) <==> Leafwise(a.items[i], b.items[i]) {
        ShortcutIsRedundant(a.items[i], b.items[i]);
      }
    } else if a.Obj? && b.Obj? && a.fields.Keys == b.fields.Keys {
      forall k | k in a.fields ensures ValuesMatch(a.fields[k], b.fields[k]) <==> Leafwise(a.fields[k], b.fields[k]) {
        ShortcutIsRedundant(a.fields[k], b.fields[k]);
      }
    } else {
      OneSided(a, b);
    }
  }

  /** The two relations agree on pairs that are not both lists or both objects. */
  lemma OneSided(a: Json, b: Json)
    requires !PyEqual(a, b)
    requires !(a.Arr? && b.Arr? && |a.items| == |b.items|)
    requires !(a.Obj? && b.Obj? && a.fields.Keys == b.fields.Keys)
    ensures ValuesMatch(a, b) <==> Leafwise(a, b)
  {
    if Numeric(a) && Numeric(b) { CloseIsNear(NumberOf(a), NumberOf(b)); }
    var empty := Arr([]);
    assert {a, b} == {Null, empty} <==> (a == Null && b == empty) || (a == empty && b == Null) by {
      if {a, b} == {Null, empty} {
        assert a in {Null, empty} && b in {Null, empty} && Null in {a, b} && empty in {a, b};
      }
    }
  }

  lemma {:induction false} PyEqualTransitive(a: Json, b: Json, c: Json)
    requires PyEqual(a, b) && PyEqual(b, c)
    ensures PyEqual(a, c)
    decreases a
  {
    if a.Arr? && b.Arr? && c.Arr? {
      forall i | 0 <= i < |a.items| ensures PyEqual(a.items[i], c.items[i]) {
        PyEqualTransitive(a.items[i], b.items[i], c.items[i]);
      }
    } else if a.Obj? && b.Obj? && c.Obj? {
      forall k | k in a.fields ensures PyEqual(a.fields[k], c.fields[k]) {
        PyEqualTransitive(a.fields[k], b.fields[k], c.fields[k]);
      }
    }
  }

  // ------------------------------------------------------------------
  // When matching is transitive
  // ------------------------------------------------------------------

  /** No integer or float anywhere in the value; booleans are compared exactly. */
  predicate NumberFree(b: Json)
    decreases b
  {
    match b
    case Int(_) => false
    case Float(_) => false
    case Arr(items) => forall i :: 0 <= i < |items| ==> NumberFree(items[i])
    case Obj(fields) => forall k <- fields :: NumberFree(fields[k])
    case _ => true
  }

  lemma {:induction false} LeafwiseReflexive(a: Json)
    ensures Leafwise(a, a)
  {
    if a.Arr? {
      forall i | 0 <= i < |a.items| ensures Leafwise(a.items[i], a.items[i]) { LeafwiseReflexive(a.items[i]); }
    } else if a.Obj? {
      forall k | k in a.fields ensures Leafwise(a.fields[k], a.fields[k]) { LeafwiseReflexive(a.fields[k]); }
    }
  }

  /** What matches a value that is no number, no object and no longer list: the same value, up to null and [],
      or for a boolean any number equal to it. */
  lemma Neighbours(a: Json, b: Json)
    requires Leafwise(a, b) || Leafwise(b, a)
    requires NumberFree(b) && !b.Obj? && (b.Arr? ==> b.items == [])
    ensures if b.Bool? then Numeric(a) && NumberOf(a) == NumberOf(b)
            else if b.Str? then a == b
            else a == Null || a == Arr([])
  {
    var empty := Arr([]);
    if {a, b} == {Null, empty} || {b, a} == {Null, empty} {
      assert a in {Null, empty} by { assert a in {a, b} && a in {b, a}; }
      assert b in {Null, empty} by { assert b in {a, b} && b in {b, a}; }
    }
  }

  lemma {:induction false} ThroughNumberFree(a: Json, b: Json, c: Json)
    requires NumberFree(b) && Leafwise(a, b) && Leafwise(b, c)
    ensures Leafwise(a, c)
    decreases b
  {
    if b.Arr? && b.items != [] {
      forall i | 0 <= i < |b.items| ensures Leafwise(a.items[i], c.items[i]) {
        ThroughNumberFree(a.items[i], b.items[i], c.items[i]);
      }
    } else if b.Obj? {
      forall k | k in b.fields ensures Leafwise(a.fields[k], c.fields[k]) {
        ThroughNumberFree(a.fields[k], b.fields[k], c.fields[k]);
      }
    } else {
      Neighbours(a, b);
      Neighbours(c, b);
    }
  }

  /** Two floats on either side of a number, each close to it but not to each other. */
  lemma Spread(v: real) returns (x: real, y: real)
    ensures Near(x, v) && Near(v, y) && !Near(x, y)
  {
    var d := FLOAT_TOLERANCE * Max(1.0, Abs(v));
    x, y := v + d, v - d;
  }

  /** Around every value with a number in it there are two that match it and not each other. */
  lemma {:induction false} SpreadInside(b: Json) returns (a: Json, c: Json)
    requires !NumberFree(b)
    ensures Leafwise(a, b) && Leafwise(b, c) && !Leafwise(a, c)
  {
    LeafwiseReflexive(b);
    if b.Arr? {
      var i :| 0 <= i < |b.items| && !NumberFree(b.items[i]);
      var x, y := SpreadInside(b.items[i]);
      a, c := Arr(b.items[i := x]), Arr(b.items[i := y]);
    } else if b.Obj? {
      var k :| k in b.fields && !NumberFree(b.fields[k]);
      var x, y := SpreadInside(b.fields[k]);
      a, c := Obj(b.fields[k := x]), Obj(b.fields[k := y]);
      assert a.fields.Keys == b.fields.Keys == c.fields.Keys;
      assert !Leafwise(a.fields[k], c.fields[k]);
    } else {
      var x, y := Spread(NumberOf(b));
      a, c := Float(x), Float(y);
    }
  }

  /** Matching is transitive through exactly the values without numbers. */
  lemma TransitiveIffNumberFree(b: Json)
    ensures (forall a, c :: ValuesMatch(a, b) && ValuesMatch(b, c) ==> ValuesMatch(a, c)) <==> NumberFree(b)
  {
    if NumberFree(b) {
      forall a, c | ValuesMatch(a, b) && ValuesMatch(b, c) ensures ValuesMatch(a, c) {
        ShortcutIsRedundant(a, b);
        ShortcutIsRedundant(b, c);
        ThroughNumberFree(a, b, c);
        ShortcutIsRedundant(a, c);
      }
    } else {
      var a, c := SpreadInside(b);
      ShortcutIsRedundant(a, b);
      ShortcutIsRedundant(b, c);
      ShortcutIsRedundant(a, c);
    }
  }

  /** The whole comparator fails to be transitive on three floats exactly when the text rules do not relate the outer two. */
  lemma ToleranceIsNotTransitive(p: Printer)
    ensures var x, y, z := Float(0.0), Float(0.00001), Float(0.00002);
      && OutputsMatch(p, x, y) && OutputsMatch(p, y, z)
      && (OutputsMatch(p, x, z) <==> TextsMatch(p, x, z))
  {
    assert FloatsClose(0.0, 0.00001) && FloatsClose(0.00001, 0.00002) && !FloatsClose(0.0, 0.00002);
  }
}
