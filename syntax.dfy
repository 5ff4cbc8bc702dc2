/** The parse tree the evaluator walks, one constructor per grammar production it handles. */
module Syntax {

  /** The twelve filter operators of the grammar; only Equal and NotEqual are evaluated. */
  datatype Op =
    | Equal | NotEqual
    | Less | LessEqual | Greater | GreaterEqual
    | Regex | In | Nin | SubsetOf | Size | Empty

  /** A `root_path` (after `$`) or a `filter_value` (after `@`): its ordered `key` children. */
  type Path = seq<Key>

  /** A `key` node: `.word` and `["word"]` both become Word, `[$...]` is a nested
      root path (a dynamic key), `[?(...)]` is a filter. */
  datatype Key =
    | Word(word: string)
    | Sub(path: Path)
    | Filter(body: Body)

  /** The inner node of a `filter`: an existence test or a `filter_expression`. */
  datatype Body =
    | Exists(value: Path)
    | Cmp(left: Path, op: Op, right: Rhs)

  /** The right operand of a `filter_expression`. */
  datatype Rhs =
    | RPath(path: Path)
    | RWord(word: string)
    | RNum(lexeme: string)

  /** The path `.k1.k2...kn` of word keys. */
  function Words(ks: seq<string>): (p: Path)
    ensures |p| == |ks|
    ensures forall i :: 0 <= i < |ks| ==> p[i] == Word(ks[i])
  {
    if ks == [] then [] else [Word(ks[0])] + Words(ks[1..])
  }

  /** No key of the path, at any depth, is a dynamic key. */
  predicate PathRootFree(p: Path)
    decreases p
  {
    forall i :: 0 <= i < |p| ==> KeyRootFree(p[i])
  }

  predicate KeyRootFree(k: Key)
    decreases k
  {
    match k
    case Word(_) => true
    case Sub(_) => false
    case Filter(b) => BodyRootFree(b)
  }

  predicate BodyRootFree(b: Body)
    decreases b
  {
    match b
    case Exists(p) => PathRootFree(p)
    case Cmp(l, _, r) => PathRootFree(l) && (r.RPath? ==> PathRootFree(r.path))
  }
}
