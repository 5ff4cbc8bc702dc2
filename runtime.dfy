/** The `Runner` object: a parsed query and the document it is run on. */
module Runtime {
  import opened Values
  import opened Syntax
  import opened Outcomes
  import Eval
  import Properties

  /** `Runner`: `ast` is fixed when the runner is built; `run` overwrites `root`. The
      methods walk the tree the way the original does, with an explicit loop for the
      keys of a path and for the elements of a filtered array, and each one computes
      what the function of the same name in module Eval specifies. */
  class Runner {
    var root: Json
    const ast: Path

    /** `Runner::new` once the query has been parsed into `ast`. */
    constructor (ast: Path)
      ensures this.ast == ast && root == Null
    {
      this.ast := ast;
      root := Null;
    }

    /** `run`: stores the document as the root and evaluates the query from it. */
    method Run(document: Json) returns (r: Result<Json>)
      modifies this
      ensures root == document
      ensures r == Eval.Root(document, ast)
    {
      root := document;
      r := Root(ast);
    }

    method Root(path: Path) returns (r: Result<Json>)
      ensures r == Eval.Root(root, path)
      decreases path, 1
    {
      r := EvalPath(root, path);
    }

    /** `eval_path`: replaces the context by the result of each key in turn. */
    method EvalPath(context: Json, path: Path) returns (r: Result<Json>)
      ensures r == Eval.EvalPath(root, context, path)
      decreases path, 0
    {
      var current := context;
      var i := 0;
      while i < |path|
        invariant 0 <= i <= |path|
        invariant Eval.EvalPath(root, current, path[i..]) == Eval.EvalPath(root, context, path)
      {
        assert path[i..][0] == path[i] && path[i..][1..] == path[i + 1..];
        var next := EvalKey(current, path[i]);
        if next.Err? {
          return next;
        }
        current := next.value;
        i := i + 1;
      }
      assert path[i..] == [];
      r := Ok(current);
    }

    /** `key`: dispatches on the kind of key. */
    method EvalKey(context: Json, key: Key) returns (r: Result<Json>)
      ensures r == Eval.EvalKey(root, context, key)
      decreases key, 0
    {
      match key
      case Sub(p) =>
        var name := Root(p);
        if name.Err? {
          return Err(name.error);
        }
        if !name.value.Str? {
          return Err(KeyNotString(name.value));
        }
        r := Ok(Get(context, name.value.s));
      case Word(w) =>
        r := Ok(Get(context, w));
      case Filter(b) =>
        r := ApplyFilter(context, b);
    }

    /** `filter`: pushes each element that passes onto a new array. */
    method ApplyFilter(context: Json, body: Body) returns (r: Result<Json>)
      ensures r == Eval.ApplyFilter(root, context, body)
    {
      if !context.Arr? {
        return Err(NotAnArray(context));
      }
      var elems := context.elems;
      var kept: seq<Json> := [];
      var i := 0;
      assert elems[0..] == elems;
      ghost var all := Eval.Select(root, elems, body);
      assert all.Ok? ==> [] + all.value == all.value;
      while i < |elems|
        invariant 0 <= i <= |elems|
        invariant var rest := Eval.Select(root, elems[i..], body);
                  Eval.Select(root, elems, body) == if rest.Ok? then Ok(kept + rest.value) else rest
      {
        assert elems[i..][0] == elems[i] && elems[i..][1..] == elems[i + 1..];
        Properties.SelectCons(root, elems[i..], body);
        var keep := Eval.ShouldFilter(root, elems[i], body);
        if keep.Err? {
          return Err(keep.error);
        }
        ghost var rest := Eval.Select(root, elems[i + 1..], body);
        if keep.value {
          if rest.Ok? {
            assert kept + ([elems[i]] + rest.value) == (kept + [elems[i]]) + rest.value;
          }
          kept := kept + [elems[i]];
        } else if rest.Ok? {
          assert [] + rest.value == rest.value;
        }
        i := i + 1;
      }
      assert elems[i..] == [];
      assert kept + [] == kept;
      r := Ok(Arr(kept));
    }
  }

  /** Running the same document twice gives the same result both times: nothing of a
      run survives into the next one except the document it stored. */
  method RunTwice(runner: Runner, document: Json) returns (first: Result<Json>, second: Result<Json>)
    modifies runner
    ensures first == second == Eval.Root(document, runner.ast)
    ensures runner.root == document
  {
    first := runner.Run(document);
    second := runner.Run(document);
  }
}
