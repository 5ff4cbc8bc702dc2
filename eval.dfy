/** The evaluator as pure functions: each one is a method of the original `Runner`,
    with the stored root document passed in as `root`. */
module Eval {
  import opened Values
  import opened Syntax
  import opened Outcomes
  import Numbers

  /** `eval_path`: a left fold of `EvalKey` over the keys of `path`, from `context`.
      The first failing key ends the evaluation. */
  function EvalPath(root: Json, context: Json, path: Path): (r: Result<Json>)
    ensures path == [] ==> r == Ok(context)
    ensures r.Ok? && path != [] && path[|path| - 1].Filter? ==> r.value.Arr?
    decreases path, 0, 0
  {
    if path == [] then Ok(context)
    else
      var next :- EvalKey(root, context, path[0]);
      EvalPath(root, next, path[1..])
  }

  /** `root`: a `$` path, evaluated from the root document. */
  function Root(root: Json, path: Path): (r: Result<Json>)
    ensures path == [] ==> r == Ok(root)
    ensures r.Ok? && path != [] && path[|path| - 1].Filter? ==> r.value.Arr?
    decreases path, 1, 0
  {
    EvalPath(root, root, path)
  }

  /** `key`: one key segment applied to `context`. */
  function EvalKey(root: Json, context: Json, key: Key): (r: Result<Json>)
    ensures key.Word? ==> r.Ok?
    ensures key.Filter? && r.Ok? ==> r.value.Arr?
    ensures key.Sub? && r.Ok? ==> Root(root, key.path).Ok? && Root(root, key.path).value.Str?
    decreases key, 0, 0
  {
    match key
    case Sub(p) =>
      var name :- Root(root, p);
      if name.Str? then Ok(Get(context, name.s)) else Err(KeyNotString(name))
    case Word(w) => Ok(Get(context, w))
    case Filter(b) => ApplyFilter(root, context, b)
  }

  /** `filter`: the elements of an array for which the filter holds, in order. */
  function ApplyFilter(root: Json, context: Json, body: Body): (r: Result<Json>)
    ensures !context.Arr? ==> r == Err(NotAnArray(context))
    ensures r.Ok? ==> context.Arr? && r.value.Arr? && |r.value.elems| <= |context.elems|
    decreases body, 3, 0
  {
    match context
    case Arr(elems) =>
      var kept :- Select(root, elems, body);
      Ok(Arr(kept))
    case _ => Err(NotAnArray(context))
  }

  /** The loop of `filter`: tests each element in turn and keeps those that pass. */
  function Select(root: Json, elems: seq<Json>, body: Body): (r: Result<seq<Json>>)
    ensures elems == [] ==> r == Ok([])
    ensures r.Ok? ==> |r.value| <= |elems|
    decreases body, 2, |elems|
  {
    if elems == [] then Ok([])
    else
      var keep :- ShouldFilter(root, elems[0], body);
      var rest :- Select(root, elems[1..], body);
      Ok(if keep then [elems[0]] + rest else rest)
  }

  /** `should_filter`: an existence test or a comparison, against one element. */
  function ShouldFilter(root: Json, element: Json, body: Body): (r: Result<bool>)
    ensures body.Cmp? && body.op != Equal && body.op != NotEqual ==> r.Err?
    decreases body, 1, 0
  {
    match body
    case Exists(p) =>
      var v :- FilterValue(root, element, p);
      Ok(v != Null)
    case Cmp(l, op, r) => FilterExpression(root, element, l, op, r)
  }

  /** `filter_value`: an `@` path, evaluated from the element under test. */
  function FilterValue(root: Json, context: Json, path: Path): (r: Result<Json>)
    ensures path == [] ==> r == Ok(context)
    decreases path, 1, 0
  {
    EvalPath(root, context, path)
  }

  /** The right operand of a comparison: a path from the element, a word read as a
      string literal, or a number literal. */
  function RightValue(root: Json, context: Json, right: Rhs): (r: Result<Json>)
    ensures right.RWord? ==> r == Ok(Str(right.word))
    ensures right.RNum? ==> (r.Ok? <==> Numbers.IsNumberLexeme(right.lexeme))
    ensures right.RNum? && r.Ok? ==> r.value == Null || (r.value.Num? && r.value.n.Float?)
    decreases right, 1, 0
  {
    match right
    case RPath(q) => FilterValue(root, context, q)
    case RWord(w) => Ok(Str(w))
    case RNum(lexeme) => Numbers.ParseNumber(lexeme)
  }

  /** `filter_expression`: the left operand, then the right operand, then the operator. */
  function FilterExpression(root: Json, context: Json, left: Path, op: Op, right: Rhs): (r: Result<bool>)
    ensures r.Ok? ==> op == Equal || op == NotEqual
    ensures r.Ok? ==> FilterValue(root, context, left).Ok? && RightValue(root, context, right).Ok?
    decreases Cmp(left, op, right), 0, 0
  {
    var lv :- FilterValue(root, context, left);
    var rv :- RightValue(root, context, right);
    Compare(op, lv, rv)
  }

  /** The operator of a `filter_expression`: only `==` and `!=` are implemented, as
      structural equality; every other operator fails. */
  function Compare(op: Op, lv: Json, rv: Json): (r: Result<bool>)
    ensures r.Ok? <==> op == Equal || op == NotEqual
    ensures r.Ok? ==> (r.value <==> ((op == Equal) <==> lv == rv))
    ensures r.Err? ==> r.error == Unsupported(op)
  {
    match op
    case Equal => Ok(lv == rv)
    case NotEqual => Ok(lv != rv)
    case _ => Err(Unsupported(op))
  }
}
