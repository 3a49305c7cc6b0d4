/** Rule conditions: dotted paths into a JSON payload, comparisons, and their boolean combinations. */
module Conditions {

  import opened Wrappers
  import opened Text

  datatype Json =
    | Null
    | Bool(b: bool)
    /** A JSON number is an integer or a float; the two are different values. */
    | Num(n: real, float: bool)
    | Str(s: string)
    | Arr(items: seq<Json>)
    | Obj(fields: map<string, Json>)

  datatype Cmp = Eq | Ne | Gt | Lt | Contains

  datatype Expr =
    | Leaf(path: string, cmp: Cmp, value: Json)
    | And(items: seq<Expr>)
    | Or(items: seq<Expr>)
    | Not(inner: Expr)

  // ---------- paths ----------

  function FirstDot(s: string): (i: nat)
    ensures i <= |s| && (i < |s| ==> s[i] == '.') && forall k :: 0 <= k < i ==> s[k] != '.'
  {
    if s == "" || s[0] == '.' then 0 else 1 + FirstDot(s[1..])
  }

  /** split('.'): never empty; the empty path is one empty segment. */
  function Segments(path: string): (segs: seq<string>)
    ensures segs != []
    decreases |path|
  {
    var i := FirstDot(path);
    if i == |path| then [path] else [path[..i]] + Segments(path[i + 1..])
  }

  /** parse::<usize>(): digits, with an optional plus sign, below 2^64. */
  function ParseIndex(s: string): Option<nat> {
    var digits := if s != "" && s[0] == '+' then s[1..] else s;
    if digits == "" || !AllDigits(digits) then None
    else if DecimalValue(digits) < 0x1_0000_0000_0000_0000 then Some(DecimalValue(digits)) else None
  }

  function Child(v: Json, seg: string): Option<Json> {
    match v
    case Obj(fields) => if seg in fields then Some(fields[seg]) else None
    case Arr(items) =>
      (match ParseIndex(seg)
       case None => None
       case Some(i) => if i < |items| then Some(items[i]) else None)
    case _ => None
  }

  function Walk(v: Option<Json>, segs: seq<string>): Option<Json>
    decreases segs
  {
    if v.None? || segs == [] then v else Walk(Child(v.value, segs[0]), segs[1..])
  }

  function PathIn(v: Json, path: string): Option<Json> {
    Walk(Some(v), Segments(path))
  }

  method GetPath(v: Json, path: string) returns (r: Option<Json>)
    ensures r == PathIn(v, path)
  {
    var cur := v;
    var segs := Segments(path);
    for i := 0 to |segs|
      invariant Walk(Some(cur), segs[i..]) == PathIn(v, path)
    {
      assert segs[i..][1..] == segs[i + 1..];
      match cur {
        case Obj(fields) =>
          if segs[i] !in fields { return None; }
          cur := fields[segs[i]];
        case Arr(items) =>
          var idx := ParseIndex(segs[i]);
          if idx.None? || idx.value >= |items| { return None; }
          cur := items[idx.value];
        case _ => return None;
      }
    }
    return Some(cur);
  }

  lemma FirstDotAt(head: string, rest: string)
    requires '.' !in head
    ensures FirstDot(head + "." + rest) == |head|
  {
    var s := head + "." + rest;
    assert s[|head|] == '.';
    assert forall k :: 0 <= k < |head| ==> s[k] == head[k];
  }

  lemma SegmentsCons(head: string, rest: string)
    requires '.' !in head
    ensures Segments(head + "." + rest) == [head] + Segments(rest)
  {
    var s := head + "." + rest;
    FirstDotAt(head, rest);
    assert s[..|head|] == head && s[|head| + 1..] == rest;
  }

  lemma DotsRegroup(a: string, b: string, c: string)
    ensures a + "." + b + "." + c == a + "." + (b + "." + c)
  {
  }

  lemma SegmentsConcatStep(head: string, rest: string, q: string)
    requires '.' !in head && Segments(rest + "." + q) == Segments(rest) + Segments(q)
    ensures Segments(head + "." + rest + "." + q) == Segments(head + "." + rest) + Segments(q)
  {
    SegmentsCons(head, rest);
    SegmentsCons(head, rest + "." + q);
    DotsRegroup(head, rest, q);
    SegmentsRegroup(head, Segments(rest), Segments(q));
  }

  lemma SegmentsRegroup(head: string, a: seq<string>, b: seq<string>)
    ensures [head] + (a + b) == ([head] + a) + b
  {
  }

  lemma CutAtDot(p: string, i: nat)
    requires i < |p| && p[i] == '.'
    ensures p == p[..i] + "." + p[i + 1..]
  {
  }

  lemma {:induction false} SegmentsConcat(p: string, q: string)
    ensures Segments(p + "." + q) == Segments(p) + Segments(q)
    decreases |p|
  {
    var i := FirstDot(p);
    if i == |p| {
      SegmentsCons(p, q);
    } else {
      SegmentsConcat(p[i + 1..], q);
      SegmentsConcatStep(p[..i], p[i + 1..], q);
      CutAtDot(p, i);
    }
  }

  lemma {:induction false} WalkConcat(v: Option<Json>, a: seq<string>, b: seq<string>)
    ensures Walk(v, a + b) == Walk(Walk(v, a), b)
    decreases |a|
  {
    if a == [] {
      assert a + b == b;
    } else {
      assert (a + b)[1..] == a[1..] + b;
      if v.Some? { WalkConcat(Child(v.value, a[0]), a[1..], b); }
    }
  }

  /** A path without dots names a field of an object, or an item of an array by its index. */
  lemma OneSegment(v: Json, seg: string)
    requires '.' !in seg
    ensures v.Obj? ==> PathIn(v, seg) == if seg in v.fields then Some(v.fields[seg]) else None
    ensures v.Arr? ==>
              PathIn(v, seg) == (var i := ParseIndex(seg);
                                 if i.Some? && i.value < |v.items| then Some(v.items[i.value]) else None)
    ensures !v.Obj? && !v.Arr? ==> PathIn(v, seg).None?
  {
    assert Segments(seg) == [seg] && [seg][1..] == [];
    assert Walk(Child(v, seg), []) == Child(v, seg);
  }

  /** An array item is named by its index in decimal, with a plus sign or without. */
  lemma IndexReads(items: seq<Json>, i: nat, sign: string)
    requires i < |items| && i < 0x1_0000_0000_0000_0000 && (sign == "" || sign == "+")
    ensures PathIn(Arr(items), sign + Decimal(i)) == Some(items[i])
  {
    DecimalReadsBack(i);
    SignedIndex(sign, Decimal(i));
    OneSegment(Arr(items), sign + Decimal(i));
  }

  lemma SignedIndex(sign: string, digits: string)
    requires (sign == "" || sign == "+") && digits != "" && AllDigits(digits)
    ensures '.' !in sign + digits && ParseIndex(sign + digits) == ParseIndex(digits)
  {
    forall k | 0 <= k < |digits| ensures digits[k] != '.' && digits[k] != '+' {
      assert IsDigit(digits[k]);
    }
    assert sign != "" ==> (sign + digits)[1..] == digits;
    assert sign == "" ==> sign + digits == digits;
  }

  /** A dotted path goes where its first part goes and on from there. */
  lemma PathsCompose(v: Json, p: string, q: string)
    ensures PathIn(v, p + "." + q) ==
            match PathIn(v, p) case None => None case Some(u) => PathIn(u, q)
  {
    SegmentsConcat(p, q);
    WalkConcat(Some(v), Segments(p), Segments(q));
  }

  // ---------- comparisons ----------

  /** Strings are ordered by their code points. */
  predicate Below(s: string, t: string) {
    if t == "" then false
    else if s == "" then true
    else if s[0] != t[0] then s[0] < t[0]
    else Below(s[1..], t[1..])
  }

  predicate Less(a: Json, b: Json) {
    match (a, b)
    case (Num(x, _), Num(y, _)) => x < y
    case (Str(x), Str(y)) => Below(x, y)
    case _ => false
  }

  /** Numbers are equal across integer and float; inside arrays and objects they are not. */
  predicate JsonEq(a: Json, b: Json) {
    if a.Num? && b.Num? then a.n == b.n else a == b
  }

  predicate Holds(a: Json, sub: Json) {
    match a
    case Str(h) => sub.Str? && Find(h, sub.s).Some?
    case Arr(items) => exists i :: 0 <= i < |items| && JsonEq(items[i], sub)
    case _ => false
  }

  /** A path that leads nowhere satisfies Ne and nothing else. */
  predicate Compare(actual: Option<Json>, cmp: Cmp, expected: Json) {
    match actual
    case None => cmp.Ne?
    case Some(a) =>
      match cmp
      case Eq => JsonEq(a, expected)
      case Ne => !JsonEq(a, expected)
      case Gt => Less(expected, a)
      case Lt => Less(a, expected)
      case Contains => Holds(a, expected)
  }

  predicate Eval(e: Expr, payload: Json) {
    match e
    case Leaf(path, cmp, value) => Compare(PathIn(payload, path), cmp, value)
    case And(items) => forall i :: 0 <= i < |items| ==> Eval(items[i], payload)
    case Or(items) => exists i :: 0 <= i < |items| && Eval(items[i], payload)
    case Not(inner) => !Eval(inner, payload)
  }

  lemma {:induction false} BelowTotal(s: string, t: string)
    ensures s == t || Below(s, t) || Below(t, s)
    ensures !(Below(s, t) && Below(t, s)) && !Below(s, s)
  {
    if s != "" && t != "" && s[0] == t[0] {
      BelowTotal(s[1..], t[1..]);
      assert s == [s[0]] + s[1..] && t == [t[0]] + t[1..];
    }
    if s != "" { BelowIrreflexive(s); }
  }

  lemma {:induction false} BelowIrreflexive(s: string)
    ensures !Below(s, s)
  {
    if s != "" { BelowIrreflexive(s[1..]); }
  }

  predicate Comparable(a: Json, b: Json) {
    (a.Num? && b.Num?) || (a.Str? && b.Str?)
  }

  /** Between two numbers or two strings exactly one of less, equal and greater holds; between other
    * values neither less nor greater does. */
  lemma ComparisonsAreTotal(a: Json, b: Json)
    ensures Comparable(a, b) ==>
              && (Compare(Some(a), Lt, b) || Compare(Some(a), Eq, b) || Compare(Some(a), Gt, b))
              && !(Compare(Some(a), Lt, b) && Compare(Some(a), Eq, b))
              && !(Compare(Some(a), Gt, b) && Compare(Some(a), Eq, b))
              && !(Compare(Some(a), Lt, b) && Compare(Some(a), Gt, b))
    ensures !Comparable(a, b) ==> !Compare(Some(a), Lt, b) && !Compare(Some(a), Gt, b)
  {
    if a.Str? && b.Str? { BelowTotal(a.s, b.s); }
  }

  lemma {:induction false} BelowTransitive(s: string, t: string, u: string)
    requires Below(s, t) && Below(t, u)
    ensures Below(s, u)
  {
    if s != "" && s[0] == t[0] && t[0] == u[0] { BelowTransitive(s[1..], t[1..], u[1..]); }
  }

  /** Numbers are compared as numbers, whatever their representation; a string is below all its extensions, and
    * otherwise the first difference decides. */
  lemma OrderIsThatOfNumbers(x: real, y: real, f: bool, g: bool)
    ensures Compare(Some(Num(x, f)), Lt, Num(y, g)) <==> x < y
    ensures Compare(Some(Num(x, f)), Gt, Num(y, g)) <==> x > y
  {
  }

  lemma {:induction false} BelowAfterPrefix(p: string, s: string, t: string)
    ensures Below(p + s, p + t) <==> Below(s, t)
  {
    if p == "" {
      assert p + s == s && p + t == t;
    } else {
      assert (p + s)[1..] == p[1..] + s && (p + t)[1..] == p[1..] + t;
      BelowAfterPrefix(p[1..], s, t);
    }
  }

  lemma FirstDifferenceDecides(p: string, s: string, t: string)
    requires t != "" && (s != "" ==> s[0] != t[0])
    ensures Compare(Some(Str(p + s)), Lt, Str(p + t)) <==> s == "" || s[0] < t[0]
    ensures Compare(Some(Str(p + t)), Gt, Str(p + s)) <==> s == "" || s[0] < t[0]
  {
    BelowAfterPrefix(p, s, t);
  }

  /** A string contains its substrings, an array what equals one of its items, and nothing else contains anything. */
  lemma ContainsExact(a: Json, sub: Json)
    ensures Compare(Some(a), Contains, sub) <==>
            || (a.Str? && sub.Str? && Text.Contains(a.s, sub.s))
            || (a.Arr? && exists i :: 0 <= i < |a.items| && Compare(Some(a.items[i]), Eq, sub))
  {
    if a.Str? && sub.Str? && Find(a.s, sub.s).Some? { assert At(a.s, sub.s, Find(a.s, sub.s).value); }
    if a.Arr? {
      forall i | 0 <= i < |a.items| ensures Compare(Some(a.items[i]), Eq, sub) <==> JsonEq(a.items[i], sub) {
      }
    }
  }

  /** Ne is the negation of Eq, whether or not the path leads anywhere. */
  lemma NeIsNotEq(path: string, value: Json, payload: Json)
    ensures Eval(Leaf(path, Ne, value), payload) <==> Eval(Not(Leaf(path, Eq, value)), payload)
  {
  }

  /** The lenient equality is for the compared values themselves, not for what they contain. */
  lemma NestedNumbersAreStrict(n: real)
    ensures var i, f := Num(n, false), Num(n, true);
            JsonEq(i, f) && !JsonEq(Arr([i]), Arr([f])) && Holds(Arr([i]), f)
  {
    var i, f := Num(n, false), Num(n, true);
    assert [i][0] != [f][0];
    assert JsonEq([i][0], f);
  }

  /** A missing field differs from null exactly in equality tests against null, which it fails. */
  lemma MissingIsNullIff(cmp: Cmp, value: Json)
    ensures Compare(None, cmp, value) == Compare(Some(Null), cmp, value) <==> !(value.Null? && (cmp.Eq? || cmp.Ne?))
  {
  }

  // ---------- equality up to the representation of numbers ----------

  /** The value with every number in it, at any depth, written as an integer. */
  function Plain(v: Json): Json {
    match v
    case Num(n, _) => Num(n, false)
    case Arr(items) => Arr(seq(|items|, i requires 0 <= i < |items| => Plain(items[i])))
    case Obj(fields) => Obj(map k | k in fields :: Plain(fields[k]))
    case _ => v
  }

  /** The value with every number in it, at any depth, written the other way. */
  ghost function Flipped(v: Json): Json {
    match v
    case Num(n, float) => Num(n, !float)
    case Arr(items) => Arr(seq(|items|, i requires 0 <= i < |items| => Flipped(items[i])))
    case Obj(fields) => Obj(map k | k in fields :: Flipped(fields[k]))
    case _ => v
  }

  predicate NumberFree(v: Json) {
    match v
    case Num(_, _) => false
    case Arr(items) => forall i :: 0 <= i < |items| ==> NumberFree(items[i])
    case Obj(fields) => forall k :: k in fields ==> NumberFree(fields[k])
    case _ => true
  }

  lemma {:induction false} PlainKeepsFreedom(v: Json)
    ensures NumberFree(Plain(v)) <==> NumberFree(v)
  {
    match v
    case Arr(items) =>
      forall i | 0 <= i < |items| ensures NumberFree(Plain(items[i])) <==> NumberFree(items[i]) {
        PlainKeepsFreedom(items[i]);
      }
      assert forall i :: 0 <= i < |items| ==> Plain(v).items[i] == Plain(items[i]);
    case Obj(fields) =>
      forall k | k in fields ensures NumberFree(Plain(fields[k])) <==> NumberFree(fields[k]) {
        PlainKeepsFreedom(fields[k]);
      }
      assert forall k :: k in fields ==> Plain(v).fields[k] == Plain(fields[k]);
    case _ =>
  }

  lemma {:induction false} FreeIsPlain(v: Json)
    requires NumberFree(v)
    ensures Plain(v) == v
  {
    match v
    case Arr(items) => forall i | 0 <= i < |items| ensures Plain(items[i]) == items[i] { FreeIsPlain(items[i]); }
    case Obj(fields) => forall k | k in fields ensures Plain(fields[k]) == fields[k] { FreeIsPlain(fields[k]); }
    case _ =>
  }

  lemma {:induction false} FlippedIsPlain(v: Json)
    ensures Plain(Flipped(v)) == Plain(v)
  {
    match v
    case Arr(items) =>
      forall i | 0 <= i < |items| ensures Plain(Flipped(items[i])) == Plain(items[i]) { FlippedIsPlain(items[i]); }
    case Obj(fields) =>
      forall k | k in fields ensures Plain(Flipped(fields[k])) == Plain(fields[k]) { FlippedIsPlain(fields[k]); }
    case _ =>
  }

  lemma {:induction false} FlippedDiffers(v: Json)
    requires !NumberFree(v)
    ensures Flipped(v) != v
  {
    match v
    case Arr(items) =>
      var i :| 0 <= i < |items| && !NumberFree(items[i]);
      FlippedDiffers(items[i]);
      assert Flipped(v).items[i] == Flipped(items[i]);
    case Obj(fields) =>
      var k :| k in fields && !NumberFree(fields[k]);
      FlippedDiffers(fields[k]);
      assert Flipped(v).fields[k] == Flipped(fields[k]);
    case _ =>
  }

  /** Equality takes no notice of how numbers are written exactly for numbers themselves and for values
    * without a number anywhere inside. */
  lemma EqualityIsLenientIff(a: Json)
    ensures (forall b :: JsonEq(a, b) <==> Plain(a) == Plain(b)) <==> a.Num? || NumberFree(a)
  {
    if a.Num? {
    } else if NumberFree(a) {
      forall b ensures JsonEq(a, b) <==> Plain(a) == Plain(b) {
        if Plain(a) == Plain(b) {
          FreeIsPlain(a);
          PlainKeepsFreedom(b);
          FreeIsPlain(b);
        }
      }
    } else {
      FlippedIsPlain(a);
      FlippedDiffers(a);
      assert !JsonEq(a, Flipped(a));
    }
  }

  // ---------- combinations ----------

  /** The complement of a condition, with every negation pushed down to the comparisons. */
  function Complement(e: Expr): Expr {
    match e
    case Leaf(path, cmp, value) =>
      if cmp.Eq? then Leaf(path, Ne, value) else if cmp.Ne? then Leaf(path, Eq, value) else Not(e)
    case And(items) => Or(seq(|items|, i requires 0 <= i < |items| => Complement(items[i])))
    case Or(items) => And(seq(|items|, i requires 0 <= i < |items| => Complement(items[i])))
    case Not(inner) => inner
  }

  /** It holds exactly when the condition does not: De Morgan over lists of any length and depth, and equality
    * against inequality, also on paths that lead nowhere. */
  lemma {:induction false} ComplementIsNegation(e: Expr, payload: Json)
    ensures Eval(Complement(e), payload) <==> !Eval(e, payload)
  {
    match e
    case Leaf(path, _, value) => NeIsNotEq(path, value, payload);
    case And(items) =>
      forall i | 0 <= i < |items| ensures Eval(Complement(items[i]), payload) <==> !Eval(items[i], payload) {
        ComplementIsNegation(items[i], payload);
      }
      ComplementOfList(items, payload);
    case Or(items) =>
      forall i | 0 <= i < |items| ensures Eval(Complement(items[i]), payload) <==> !Eval(items[i], payload) {
        ComplementIsNegation(items[i], payload);
      }
      ComplementOfList(items, payload);
    case Not(_) =>
  }

  /** A condition and its negation: never both, always one. */
  lemma ExcludedMiddle(e: Expr, payload: Json)
    ensures !Eval(And([e, Not(e)]), payload) && Eval(Or([e, Not(e)]), payload)
  {
    var items := [e, Not(e)];
    assert Eval(items[0], payload) <==> !Eval(items[1], payload);
  }

  lemma EmptyLists(payload: Json)
    ensures Eval(And([]), payload) && !Eval(Or([]), payload)
  {
  }

  /** A conjunction goes on holding only when the next condition holds too ... */
  lemma AndGrows(items: seq<Expr>, e: Expr, payload: Json)
    ensures Eval(And(items + [e]), payload) <==> Eval(And(items), payload) && Eval(e, payload)
  {
    var more := items + [e];
    assert more[|items|] == e && forall i :: 0 <= i < |items| ==> more[i] == items[i];
  }

  /** ... and a disjunction holds as soon as one does. */
  lemma OrGrows(items: seq<Expr>, e: Expr, payload: Json)
    ensures Eval(Or(items + [e]), payload) <==> Eval(Or(items), payload) || Eval(e, payload)
  {
    var more := items + [e];
    assert more[|items|] == e && forall i :: 0 <= i < |items| ==> more[i] == items[i];
  }

  lemma ComplementOfList(items: seq<Expr>, payload: Json)
    requires forall i :: 0 <= i < |items| ==> (Eval(Complement(items[i]), payload) <==> !Eval(items[i], payload))
    ensures Eval(Complement(And(items)), payload) <==> !Eval(And(items), payload)
    ensures Eval(Complement(Or(items)), payload) <==> !Eval(Or(items), payload)
  {
    var n := seq(|items|, i requires 0 <= i < |items| => Complement(items[i]));
    assert forall i :: 0 <= i < |items| ==> (Eval(n[i], payload) <==> !Eval(items[i], payload));
    assert Complement(And(items)) == Or(n) && Complement(Or(items)) == And(n);
  }
}
