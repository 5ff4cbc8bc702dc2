/** What the evaluator promises, stated over the functions of module Eval. */
module Properties {
  import opened Values
  import opened Syntax
  import opened Outcomes
  import opened Eval
  import Numbers

  // ---------------------------------------------------------------------------
  // Paths

  /** `eval_path` is a left fold: the empty path returns the context, and the keys of
      `p + q` are the keys of `p` followed by those of `q` applied to its result. */
  lemma {:induction false} EvalPathAppend(root: Json, c: Json, p: Path, q: Path)
    ensures EvalPath(root, c, []) == Ok(c)
    ensures EvalPath(root, c, p + q) ==
            if EvalPath(root, c, p).Ok? then EvalPath(root, EvalPath(root, c, p).value, q)
            else EvalPath(root, c, p)
    decreases p
  {
    if p != [] {
      assert (p + q)[0] == p[0] && (p + q)[1..] == p[1..] + q;
      var k := EvalKey(root, c, p[0]);
      if k.Ok? {
        EvalPathAppend(root, k.value, p[1..], q);
      }
    } else {
      assert p + q == q;
    }
  }

  /** A word key looks up an object member; a missing member, or a context that is not
      an object, gives Null and not a failure. */
  lemma WordKey(root: Json, c: Json, w: string)
    ensures c.Obj? && w in c.members ==> EvalKey(root, c, Word(w)) == Ok(c.members[w])
    ensures !(c.Obj? && w in c.members) ==> EvalKey(root, c, Word(w)) == Ok(Null)
  {
  }

  /** The value reached by following the members `ks` one after another; Null as soon
      as one of them is missing. */
  function Nested(d: Json, ks: seq<string>): Json
    decreases ks
  {
    if ks == [] then d else Nested(Get(d, ks[0]), ks[1..])
  }

  /** A dot path `$.k1...kn` never fails and returns the nested value. */
  lemma {:induction false} DotPathIsNestedLookup(root: Json, d: Json, ks: seq<string>)
    ensures EvalPath(root, d, Words(ks)) == Ok(Nested(d, ks))
    decreases ks
  {
    if ks != [] {
      var p := Words(ks);
      assert p[1..] == Words(ks[1..]);
      DotPathIsNestedLookup(root, Get(d, ks[0]), ks[1..]);
    }
  }

  /** Once a segment is missing, the rest of a dot path gives Null. */
  lemma {:induction false} NullAbsorbs(ks: seq<string>)
    ensures Nested(Null, ks) == Null
    decreases ks
  {
    if ks != [] { NullAbsorbs(ks[1..]); }
  }

  lemma {:induction false} NestedAppend(d: Json, ks: seq<string>, ms: seq<string>)
    ensures Nested(d, ks + ms) == Nested(Nested(d, ks), ms)
    decreases ks
  {
    if ks != [] {
      assert (ks + ms)[1..] == ks[1..] + ms;
      NestedAppend(Get(d, ks[0]), ks[1..], ms);
    } else {
      assert ks + ms == ms;
    }
  }

  /** If segment `i` of a dot path is not a member of the value reached before it, the
      whole path evaluates to Null. */
  lemma MissingSegmentIsNull(root: Json, d: Json, ks: seq<string>, i: nat)
    requires i < |ks|
    requires var v := Nested(d, ks[..i]); !(v.Obj? && ks[i] in v.members)
    ensures EvalPath(root, d, Words(ks)) == Ok(Null)
  {
    DotPathIsNestedLookup(root, d, ks);
    assert ks == ks[..i] + ks[i..];
    NestedAppend(d, ks[..i], ks[i..]);
    var v := Nested(d, ks[..i]);
    assert ks[i..][0] == ks[i] && ks[i..][1..] == ks[i + 1..];
    assert Get(v, ks[i]) == Null;
    assert Nested(v, ks[i..]) == Nested(Null, ks[i + 1..]);
    NullAbsorbs(ks[i + 1..]);
  }

  // ---------------------------------------------------------------------------
  // Dynamic keys

  /** A dynamic key evaluates its path from the stored root, whatever the context is;
      a string result is then used as a word key on the context, any other result is
      a failure, and a failure of the nested path is passed on. */
  lemma DynamicKey(root: Json, c: Json, p: Path)
    ensures Root(root, p).Err? ==> EvalKey(root, c, Sub(p)) == Root(root, p)
    ensures Root(root, p).Ok? && Root(root, p).value.Str? ==>
              EvalKey(root, c, Sub(p)) == EvalKey(root, c, Word(Root(root, p).value.s))
    ensures Root(root, p).Ok? && !Root(root, p).value.Str? ==>
              EvalKey(root, c, Sub(p)) == Err(KeyNotString(Root(root, p).value))
  {
  }

  /** The stored root is consulted only through dynamic keys: a path with none gives
      the same result for every root document. In particular the `@` paths of a
      filter look only at the element under test. */
  lemma {:induction false} PathIgnoresRoot(r1: Json, r2: Json, c: Json, p: Path)
    requires PathRootFree(p)
    ensures EvalPath(r1, c, p) == EvalPath(r2, c, p)
    decreases p, 0, 0
  {
    if p != [] {
      PathRootFreeParts(p);
      KeyIgnoresRoot(r1, r2, c, p[0]);
      var k := EvalKey(r1, c, p[0]);
      if k.Ok? {
        PathIgnoresRoot(r1, r2, k.value, p[1..]);
        assert EvalPath(r1, c, p) == EvalPath(r1, k.value, p[1..]);
        assert EvalPath(r2, c, p) == EvalPath(r2, k.value, p[1..]);
      }
    }
  }

  lemma PathRootFreeParts(p: Path)
    requires PathRootFree(p) && p != []
    ensures KeyRootFree(p[0]) && PathRootFree(p[1..])
  {
    forall i | 0 <= i < |p[1..]| ensures KeyRootFree(p[1..][i]) {
      assert p[1..][i] == p[i + 1];
    }
  }

  lemma {:induction false} KeyIgnoresRoot(r1: Json, r2: Json, c: Json, k: Key)
    requires KeyRootFree(k)
    ensures EvalKey(r1, c, k) == EvalKey(r2, c, k)
    decreases k, 0, 0
  {
    match k
    case Word(_) =>
    case Filter(b) => FilterIgnoresRoot(r1, r2, c, b);
  }

  lemma {:induction false} FilterIgnoresRoot(r1: Json, r2: Json, c: Json, b: Body)
    requires BodyRootFree(b)
    ensures ApplyFilter(r1, c, b) == ApplyFilter(r2, c, b)
    decreases b, 3, 0
  {
    if c.Arr? {
      SelectIgnoresRoot(r1, r2, c.elems, b);
    }
  }

  lemma {:induction false} SelectIgnoresRoot(r1: Json, r2: Json, elems: seq<Json>, b: Body)
    requires BodyRootFree(b)
    ensures Select(r1, elems, b) == Select(r2, elems, b)
    decreases b, 2, |elems|
  {
    if elems != [] {
      ShouldFilterIgnoresRoot(r1, r2, elems[0], b);
      SelectIgnoresRoot(r1, r2, elems[1..], b);
    }
  }

  lemma {:induction false} ShouldFilterIgnoresRoot(r1: Json, r2: Json, e: Json, b: Body)
    requires BodyRootFree(b)
    ensures ShouldFilter(r1, e, b) == ShouldFilter(r2, e, b)
    decreases b, 1, 0
  {
    match b
    case Exists(p) => PathIgnoresRoot(r1, r2, e, p);
    case Cmp(l, op, r) => ExpressionIgnoresRoot(r1, r2, e, l, op, r);
  }

  lemma {:induction false} ExpressionIgnoresRoot(r1: Json, r2: Json, c: Json, l: Path, op: Op, r: Rhs)
    requires BodyRootFree(Cmp(l, op, r))
    ensures FilterExpression(r1, c, l, op, r) == FilterExpression(r2, c, l, op, r)
    decreases Cmp(l, op, r), 0, 0
  {
    assert PathRootFree(l);
    PathIgnoresRoot(r1, r2, c, l);
    RightValueIgnoresRoot(r1, r2, c, r);
  }

  lemma {:induction false} RightValueIgnoresRoot(r1: Json, r2: Json, c: Json, r: Rhs)
    requires r.RPath? ==> PathRootFree(r.path)
    ensures RightValue(r1, c, r) == RightValue(r2, c, r)
    decreases r, 1, 0
  {
    if r.RPath? {
      PathIgnoresRoot(r1, r2, c, r.path);
    }
  }

  // ---------------------------------------------------------------------------
  // Filters

  /** `s` is `t` with some elements removed, the rest in their original order. */
  predicate IsSubsequence(s: seq<Json>, t: seq<Json>)
    decreases t
  {
    if s == [] then true
    else if t == [] then false
    else (s[0] == t[0] && IsSubsequence(s[1..], t[1..])) || IsSubsequence(s, t[1..])
  }

  /** The filter yields a verdict, not a failure, for every element. */
  predicate AllDecided(root: Json, elems: seq<Json>, body: Body)
  {
    forall i :: 0 <= i < |elems| ==> ShouldFilter(root, elems[i], body).Ok?
  }

  /** The filter loop fails exactly when some element has no verdict. */
  lemma {:induction false} SelectDecided(root: Json, elems: seq<Json>, body: Body)
    ensures Select(root, elems, body).Ok? <==> AllDecided(root, elems, body)
    decreases |elems|
  {
    if elems != [] {
      var tail := elems[1..];
      SelectDecided(root, tail, body);
      assert AllDecided(root, elems, body) <==>
             ShouldFilter(root, elems[0], body).Ok? && AllDecided(root, tail, body) by {
        forall i | 0 < i < |elems| ensures elems[i] == tail[i - 1] { }
      }
    }
  }

  /** A failing filter loop fails with the failure of the first element that has no
      verdict. */
  lemma {:induction false} SelectFirstFailure(root: Json, elems: seq<Json>, body: Body)
    requires Select(root, elems, body).Err?
    ensures exists i :: 0 <= i < |elems| &&
                        ShouldFilter(root, elems[i], body) == Err(Select(root, elems, body).error) &&
                        AllDecided(root, elems[..i], body)
    decreases |elems|
  {
    var e, tail := elems[0], elems[1..];
    var v := ShouldFilter(root, e, body);
    if v.Err? {
      assert elems[..0] == [];
      assert ShouldFilter(root, elems[0], body) == Err(Select(root, elems, body).error);
    } else {
      var rest := Select(root, tail, body);
      assert rest.Err? && rest.error == Select(root, elems, body).error;
      SelectFirstFailure(root, tail, body);
      var j :| 0 <= j < |tail| && ShouldFilter(root, tail[j], body) == Err(rest.error) &&
               AllDecided(root, tail[..j], body);
      assert elems[j + 1] == tail[j];
      assert elems[..j + 1] == [e] + tail[..j];
      var pre := elems[..j + 1];
      assert AllDecided(root, pre, body) by {
        forall i | 0 <= i < |pre| ensures ShouldFilter(root, pre[i], body).Ok? {
          if i > 0 { assert pre[i] == tail[..j][i - 1]; }
        }
      }
    }
  }

  /** The filter loop keeps, in order, exactly the elements the filter holds for,
      each as often as it occurs. */
  lemma {:induction false} SelectKeeps(root: Json, elems: seq<Json>, body: Body)
    requires Select(root, elems, body).Ok?
    ensures IsSubsequence(Select(root, elems, body).value, elems)
    ensures forall x :: multiset(Select(root, elems, body).value)[x] ==
                        if ShouldFilter(root, x, body) == Ok(true) then multiset(elems)[x] else 0
    decreases |elems|
  {
    if elems != [] {
      var e, tail := elems[0], elems[1..];
      assert elems == [e] + tail;
      SelectKeeps(root, tail, body);
      var keep := ShouldFilter(root, e, body).value;
      var rest := Select(root, tail, body).value;
      assert Select(root, elems, body).value == if keep then [e] + rest else rest;
      if !keep {
        assert rest != [] ==> IsSubsequence(rest, elems) by {
          assert elems[1..] == tail;
        }
      }
    }
  }

  /** The filter loop keeps exactly the elements the filter holds for: membership
      form of `SelectKeeps`. */
  lemma SelectMembers(root: Json, elems: seq<Json>, body: Body, x: Json)
    requires Select(root, elems, body).Ok?
    ensures x in Select(root, elems, body).value <==> x in elems && ShouldFilter(root, x, body) == Ok(true)
  {
    SelectKeeps(root, elems, body);
    assert x in Select(root, elems, body).value <==> multiset(Select(root, elems, body).value)[x] > 0;
  }

  /** One step of the filter loop: the first element's verdict, then the rest. */
  lemma SelectCons(root: Json, elems: seq<Json>, body: Body)
    requires elems != []
    ensures var v, rest := ShouldFilter(root, elems[0], body), Select(root, elems[1..], body);
            Select(root, elems, body) ==
              if v.Err? then Err(v.error)
              else if rest.Err? then rest
              else Ok((if v.value then [elems[0]] else []) + rest.value)
  {
    var rest := Select(root, elems[1..], body);
    if rest.Ok? {
      assert [] + rest.value == rest.value;
    }
  }

  /** A comparison's verdict is the operator applied to the two operand values. */
  lemma ComparisonVerdict(root: Json, e: Json, l: Path, op: Op, r: Rhs, lv: Json, rv: Json)
    requires FilterValue(root, e, l) == Ok(lv) && RightValue(root, e, r) == Ok(rv)
    ensures ShouldFilter(root, e, Cmp(l, op, r)) == Compare(op, lv, rv)
  {
  }

  /** The filter loop on a single element keeps it exactly when the filter holds. */
  lemma SelectSingleton(root: Json, e: Json, body: Body)
    ensures var v := ShouldFilter(root, e, body);
            Select(root, [e], body) == if v.Ok? then Ok(if v.value then [e] else []) else Err(v.error)
  {
    assert [e][0] == e && [e][1..] == [];
    assert [e] + [] == [e];
  }

  /** Filtering the concatenation of two arrays filters each part, failing with the
      first part's failure first. */
  lemma {:induction false} SelectAppend(root: Json, a: seq<Json>, b: seq<Json>, body: Body)
    ensures Select(root, a + b, body) ==
            if Select(root, a, body).Err? then Select(root, a, body)
            else if Select(root, b, body).Err? then Select(root, b, body)
            else Ok(Select(root, a, body).value + Select(root, b, body).value)
    decreases |a|
  {
    if a == [] {
      assert a + b == b;
      if Select(root, b, body).Ok? {
        assert [] + Select(root, b, body).value == Select(root, b, body).value;
      }
    } else {
      assert (a + b)[0] == a[0] && (a + b)[1..] == a[1..] + b;
      SelectAppend(root, a[1..], b, body);
      var v := ShouldFilter(root, a[0], body);
      if v.Ok? {
        var ra, rb := Select(root, a[1..], body), Select(root, b, body);
        if ra.Ok? && rb.Ok? && v.value {
          assert [a[0]] + (ra.value + rb.value) == ([a[0]] + ra.value) + rb.value;
        }
      }
    }
  }

  /** A filter fails on anything but an array, on an array its result is an array of
      the kept elements, and it fails exactly when some element has no verdict. */
  lemma ApplyFilterSpec(root: Json, c: Json, body: Body)
    ensures !c.Arr? ==> ApplyFilter(root, c, body) == Err(NotAnArray(c))
    ensures c.Arr? ==> (ApplyFilter(root, c, body).Ok? <==> AllDecided(root, c.elems, body))
    ensures c.Arr? && ApplyFilter(root, c, body).Ok? ==>
              var out := ApplyFilter(root, c, body).value;
              out.Arr? && IsSubsequence(out.elems, c.elems) &&
              (forall x :: x in out.elems <==> x in c.elems && ShouldFilter(root, x, body) == Ok(true)) &&
              forall x :: multiset(out.elems)[x] ==
                           if ShouldFilter(root, x, body) == Ok(true) then multiset(c.elems)[x] else 0
  {
    if c.Arr? {
      SelectDecided(root, c.elems, body);
      if ApplyFilter(root, c, body).Ok? {
        SelectKeeps(root, c.elems, body);
        forall x ensures x in Select(root, c.elems, body).value <==>
                         x in c.elems && ShouldFilter(root, x, body) == Ok(true) {
          SelectMembers(root, c.elems, body, x);
        }
      }
    }
  }

  /** Filtering an empty array gives an empty array, even when the filter would fail. */
  lemma EmptyArrayFilter(root: Json, body: Body)
    ensures ApplyFilter(root, Arr([]), body) == Ok(Arr([]))
  {
  }

  /** `?(@.p)` keeps exactly the elements whose `@.p`, evaluated from the element
      itself, is not Null. */
  lemma ExistsFilter(root: Json, elems: seq<Json>, p: Path, x: Json)
    requires Select(root, elems, Exists(p)).Ok?
    ensures x in Select(root, elems, Exists(p)).value <==>
            x in elems && FilterValue(root, x, p).Ok? && FilterValue(root, x, p).value != Null
  {
    SelectMembers(root, elems, Exists(p), x);
  }

  // ---------------------------------------------------------------------------
  // Comparisons

  /** `!=` is the negation of `==`, with the same failures, and `==` is structural
      equality of the two operands. */
  lemma NotEqualNegatesEqual(root: Json, c: Json, l: Path, r: Rhs)
    ensures var eq := FilterExpression(root, c, l, Equal, r);
            FilterExpression(root, c, l, NotEqual, r) == if eq.Ok? then Ok(!eq.value) else eq
    ensures var lv, rv := FilterValue(root, c, l), RightValue(root, c, r);
            lv.Ok? && rv.Ok? ==> FilterExpression(root, c, l, Equal, r) == Ok(lv.value == rv.value)
  {
  }

  /** A bare word on the right is the string literal with that text. */
  lemma WordOperandIsString(root: Json, c: Json, l: Path, op: Op, w: string)
    ensures RightValue(root, c, RWord(w)) == Ok(Str(w))
    ensures FilterValue(root, c, l).Ok? && op == Equal ==>
              FilterExpression(root, c, l, op, RWord(w)) == Ok(FilterValue(root, c, l).value == Str(w))
  {
  }

  /** Every operator other than `==` and `!=` fails, and never yields a verdict; once
      both operands have values the failure names the operator. */
  lemma UnsupportedOperator(root: Json, c: Json, l: Path, op: Op, r: Rhs)
    requires op != Equal && op != NotEqual
    ensures FilterExpression(root, c, l, op, r).Err?
    ensures FilterValue(root, c, l).Ok? && RightValue(root, c, r).Ok? ==>
              FilterExpression(root, c, l, op, r) == Err(Unsupported(op))
  {
  }

  /** A filter with an unsupported operator fails on every non-empty array. */
  lemma UnsupportedFilterFails(root: Json, elems: seq<Json>, l: Path, op: Op, r: Rhs)
    requires op != Equal && op != NotEqual
    requires elems != []
    ensures ApplyFilter(root, Arr(elems), Cmp(l, op, r)).Err?
  {
    UnsupportedOperator(root, elems[0], l, op, r);
    assert ShouldFilter(root, elems[0], Cmp(l, op, r)).Err?;
  }

  /** `?(@.k1...kn == word)` keeps exactly the elements whose nested value at
      `k1...kn` is the string `word`; with `!=` it keeps exactly the others. */
  lemma WordEqualityFilter(root: Json, elems: seq<Json>, ks: seq<string>, eq: bool, w: string, x: Json)
    ensures var body := Cmp(Words(ks), if eq then Equal else NotEqual, RWord(w));
            Select(root, elems, body).Ok? &&
            (x in Select(root, elems, body).value <==> x in elems && (Nested(x, ks) == Str(w)) == eq)
  {
    var body := Cmp(Words(ks), if eq then Equal else NotEqual, RWord(w));
    forall y ensures ShouldFilter(root, y, body) == Ok((Nested(y, ks) == Str(w)) == eq) {
      DotPathIsNestedLookup(root, y, ks);
      assert FilterValue(root, y, Words(ks)) == Ok(Nested(y, ks));
      assert RightValue(root, y, RWord(w)) == Ok(Str(w));
    }
    SelectDecided(root, elems, body);
    SelectMembers(root, elems, body, x);
  }

  /** A number literal `a.b` equals exactly the float with that decimal value; it never
      equals an integer or a string. A literal too large for a double equals Null
      instead. */
  lemma NumberOperand(root: Json, c: Json, l: Path, a: string, b: string)
    requires Numbers.IsInt(a) && Numbers.IsInt(b)
    requires FilterValue(root, c, l).Ok?
    ensures var v, lv := Numbers.DecimalValue(a, b), FilterValue(root, c, l).value;
            FilterExpression(root, c, l, Equal, RNum(a + "." + b)) ==
            Ok(if v < Numbers.F64Overflow as real then lv == Num(Float(v)) else lv == Null)
  {
    Numbers.ParseSplit(a, b);
  }

  /** An integer literal is read as a float, so `?(@.p == 12)` never matches the
      integer 12 in a document. */
  lemma IntegerLiteralMissesInteger(root: Json, c: Json, l: Path, n: nat)
    requires FilterValue(root, c, l) == Ok(Num(PosInt(n)))
    ensures FilterExpression(root, c, l, Equal, RNum(Numbers.Decimal(n))) == Ok(false)
  {
    Numbers.IntegerLiteralIsFloat(n);
  }

  /** An integer literal too large for a double overflows to infinity, which is Null:
      `?(@.p == 1000...0)` with 309 or more zeros holds exactly where `@.p` is Null or
      missing. */
  lemma OverflowLiteralMatchesNull(root: Json, c: Json, l: Path, n: nat)
    requires n >= Numbers.F64Overflow
    requires FilterValue(root, c, l).Ok?
    ensures FilterExpression(root, c, l, Equal, RNum(Numbers.Decimal(n))) == Ok(FilterValue(root, c, l).value == Null)
  {
    Numbers.IntegerLiteralIsFloat(n);
  }
}
