# r-json-path evaluator, modelled in Dafny

This project models the JSONPath evaluator of r-json-path: the `Runner` type in
`src/lib.rs`. A runner holds a query's parse tree. It runs that tree over a JSON document
by handling each key of a path in turn:

- a word key (`.name`, `["name"]`) looks up an object member;
- a dynamic key (`[$.p]`) evaluates `$.p` from the document root and uses the string it
  yields as the member name;
- a filter (`[?(...)]`) keeps the elements of an array for which an existence test
  (`?(@.p)`) or a comparison (`?(@.p == rhs)`) holds.

Only `==` and `!=` are implemented. Every other comparison operator aborts.

Modules:

- `Values`: the JSON value (`Json`, with numbers as `PosInt`, `NegInt` or `Float`, as in
  serde_json), and the member lookup `Get`, which returns `Null` when the member is
  missing or the value is not an object.
- `Syntax`: the parse tree as a datatype.
  - A `Path` is a sequence of `Key`s.
  - A `Key` is a `Word`, a dynamic `Sub` path or a `Filter`.
  - A filter `Body` is `Exists(path)` or `Cmp(path, op, rhs)`.
  - An `Rhs` is an `@` path, a bare word or a number lexeme.
  - The twelve `Op` tags are the operators of the comparison match.
- `Outcomes`: the error result. Each abort of the original becomes an `Error`:
  - `Unsupported(op)` for an operator that is not implemented;
  - `NotAnArray` for a filter applied to a non-array;
  - `KeyNotString` for a dynamic key whose value is not a string;
  - `BadNumber` for a number literal that cannot be parsed.
- `Numbers`: `parse_number`, with the grammar's number lexeme (`int` or `int.int`) and
  its exact decimal value.
- `Eval`: the evaluator as pure functions over the tree. The stored root is an explicit
  parameter. The functions follow the methods `eval_path`, `root`, `key`, `filter`,
  `should_filter`, `filter_value` and `filter_expression` (`EvalPath`, `Root`,
  `EvalKey`, `ApplyFilter`, `ShouldFilter`, `FilterValue`, `FilterExpression`). Three
  more are parts of those methods: `Select` is the loop inside `filter`; `RightValue`
  is the right-operand match inside `filter_expression`; `Compare` is its operator
  match. `parse_number` is in `Numbers`, and `run` is in `Runtime`.
- `Properties`: lemmas about those functions.
- `Runtime`: the `Runner` class. `root` is a mutable field and `ast` an immutable one.
  `Run` stores the document and is proved to return `Eval.Root` from it. `Root` and
  `EvalKey` dispatch as the original does. `EvalPath` and `ApplyFilter` loop over the
  keys and over the elements, as the original does. Each of these four is proved to
  compute the `Eval` function of the same name.
- `Scenarios`: the documents and queries of the original unit tests, with the results
  those tests expect, proved about the model.

Decisions where the code decides:

- **Numbers.** A number literal is parsed as `f64` first (lines 65-66). The `u64` and
  `i64` branches (lines 67-70) suggest that integer literals were meant to stay
  integers. They are never reached with a float parser that accepts every
  digits-and-dot lexeme (Rust's, from version 1.55 on): `f64` accepts every lexeme of the
  number rule (`12`, `12.99`). The model follows the code, so `ParseNumber` never yields an integer.
- **Overflow to Null.** A literal whose value is at least 2^1024 - 2^970 (an `int` of 310
  or more digits, for instance) parses to an infinite `f64`. `json!` turns that into
  `Null`. The model's `ParseNumber` gives `Null` for it, so `?(@.p == 1000...0)` with
  309 or more zeros holds exactly where `@.p` is `Null` or missing
  (`Properties.OverflowLiteralMatchesNull`).
- **Integer literals never match.** serde_json's equality ranks `Float(12.0)` and
  `PosInt(12)` as different. So `?(@.p == 12)` never matches an integer member, as
  `Properties.IntegerLiteralMissesInteger` states.
- **Exact floats.** A `Float` holds the exact decimal value of its literal, not the
  nearest `f64`.
- **JSON numbers in documents** are given directly as `PosInt`, `NegInt` or `Float`
  values.
- **Aborts become errors.** Each abort (`unimplemented!`, `unreachable!`, the `unwrap`
  on a dynamic key, the number `panic!`) becomes an `Err` that propagates out of the
  evaluation. In the original the first such abort stops the whole program.
- **Unrepresentable arms.** The catch-all arms that reject a node of the wrong kind
  (lines 57-59, 83-86, 92-95, 115, 123, 151 and 165) cannot be reached in the model. The
  typed tree offers exactly the kinds each match accepts.

## Model

| member | source | states |
|---|---|---|
| Properties.EvalPathAppend | src/lib.rs:160-169 | the empty path returns the context unchanged; evaluating `p + q` evaluates `q` from the result of `p`, and fails with `p`'s failure when `p` fails (a left fold) |
| Properties.WordKey | src/lib.rs:149 | a word key on an object that has the member returns that member; on a missing member or a non-object it returns Null and never fails |
| Properties.DotPathIsNestedLookup | src/lib.rs:144-169 | a path of word keys never fails and yields the value reached by following the members one by one (Null once one is missing) |
| Properties.NullAbsorbs | src/lib.rs:149 | following any members from Null gives Null |
| Properties.NestedAppend | src/lib.rs:160-169 | following `ks + ms` is following `ms` from the end of `ks` |
| Properties.MissingSegmentIsNull | src/lib.rs:144-169 | when segment `i` of a dot path is not a member of the value reached before it, the whole path gives Null |
| Properties.DynamicKey | src/lib.rs:144-157 | a dynamic key evaluates its path from the stored root, not the context; a string result indexes the context; a non-string result is `KeyNotString`; a failure of the path is passed on |
| Properties.PathIgnoresRoot | src/lib.rs:144-169 | a path without dynamic keys gives the same result whatever the stored root is |
| Properties.KeyIgnoresRoot | src/lib.rs:144-153 | a key without dynamic keys gives the same result whatever the stored root is |
| Properties.FilterIgnoresRoot | src/lib.rs:127-141 | a filter without dynamic keys gives the same result whatever the stored root is |
| Properties.SelectIgnoresRoot | src/lib.rs:131-137 | the element loop of such a filter gives the same result whatever the stored root is |
| Properties.ShouldFilterIgnoresRoot | src/lib.rs:119-125 | the test of one element by such a filter does not depend on the stored root |
| Properties.ExpressionIgnoresRoot | src/lib.rs:76-117 | such a comparison does not depend on the stored root |
| Properties.RightValueIgnoresRoot | src/lib.rs:88-96 | a right operand without dynamic keys does not depend on the stored root |
| Properties.SelectDecided | src/lib.rs:131-137 | the filter loop succeeds exactly when every element gets a verdict |
| Properties.SelectFirstFailure | src/lib.rs:131-137 | a failing filter loop fails with the failure of the first element without a verdict, all elements before it having one |
| Properties.SelectKeeps | src/lib.rs:131-137 | a successful filter loop returns an order-preserving subsequence of the elements, holding each value as often as it occurs among the elements the filter holds for |
| Properties.SelectMembers | src/lib.rs:131-137 | a value is in the filter's output exactly when it is an element that the filter holds for |
| Properties.SelectSingleton | src/lib.rs:132-135 | a one-element array keeps its element exactly when the filter holds for it |
| Properties.SelectAppend | src/lib.rs:131-137 | filtering `a + b` is filtering `a` and then `b`, failing with `a`'s failure first |
| Properties.ApplyFilterSpec | src/lib.rs:127-141 | a filter on a non-array is `NotAnArray`; on an array it succeeds exactly when every element gets a verdict, and then yields an order-preserving subsequence holding each element the filter holds for as often as it occurs, and no other |
| Properties.EmptyArrayFilter | src/lib.rs:130-137 | filtering an empty array gives an empty array, whatever the filter |
| Properties.ExistsFilter | src/lib.rs:119-121 | `?(@.p)` keeps exactly the elements whose `@.p`, evaluated from the element, is not Null |
| Properties.NotEqualNegatesEqual | src/lib.rs:99-100 | `!=` fails when `==` fails and otherwise is its negation; `==` is structural equality of the operands |
| Properties.WordOperandIsString | src/lib.rs:88-100 | a bare word on the right is the string with that text, so `== word` holds exactly when the left value is that string |
| Properties.UnsupportedOperator | src/lib.rs:101-114 | every operator other than `==` and `!=` fails; once both operands have values the failure is `Unsupported(op)` |
| Properties.UnsupportedFilterFails | src/lib.rs:101-114 | a filter with such an operator fails on every non-empty array |
| Properties.WordEqualityFilter | src/lib.rs:88-100 | `?(@.k1...kn == word)` keeps exactly the elements whose nested value is that string, and `!=` keeps exactly the others |
| Properties.NumberOperand | src/lib.rs:88-100 | `== a.b` holds exactly when the left value is the float with the decimal value `a.b`; when that value overflows a double, exactly when the left value is Null |
| Properties.OverflowLiteralMatchesNull | src/lib.rs:63-74 | an integer literal of at least 2^1024 - 2^970 compares equal exactly to Null |
| Properties.IntegerLiteralMissesInteger | src/lib.rs:63-74 | `== n` with an integer literal is false on the integer `n`: the literal is read as a float (or as Null when it overflows) |
| Syntax.Words | src/lib.rs:149 | dot keys `.k1...kn` are the word keys `k1`...`kn`, in order |
| Numbers.ParseNumber | src/lib.rs:63-74 | a lexeme parses exactly when it is the grammar's `int` or `int.int`; its result is a float, or Null when the value overflows a double, never an integer; any other lexeme is `BadNumber` |
| Numbers.LexemeHasOneSplit | src/lib.rs:63-66 | a lexeme with a dot is a number exactly when both parts around its first dot are digit strings |
| Numbers.DotIndex | src/lib.rs:63-66 | the position of the first dot, or the length when there is none |
| Numbers.DecimalDigits | src/lib.rs:65 | the decimal rendering of `n` is a digit string whose value is `n` |
| Numbers.IntegerLiteralIsFloat | src/lib.rs:65-70 | the literal of a natural number `n` parses to the float `n` below 2^1024 - 2^970 and to Null from there on, never to `PosInt(n)` |
| Numbers.DotIndexOfSplit | src/lib.rs:63-66 | in `a.b`, with `a` all digits, the first dot is right after `a` |
| Numbers.DecimalValueTrailingZero | src/lib.rs:65 | a trailing zero in the fraction does not change the decimal value |
| Numbers.FractionTrailingZero | src/lib.rs:63-66 | `a.b0` and `a.b` parse to the same number |
| Numbers.ParseSplit | src/lib.rs:63-66 | `a.b` parses to the float with the exact decimal value `a.b`, or to Null when that value is at least 2^1024 - 2^970 |
| Numbers.PointZeroIsInteger | src/lib.rs:63-66 | `a.0` parses to the same number as `a` |
| Values.Get | src/lib.rs:147-149 | serde's `value[key]`: a non-Null result is the member of an object; an object's member is returned as it is |
| Eval.EvalPath | src/lib.rs:160-169 | the empty path returns the context; a path that succeeds and ends in a filter yields an array |
| Eval.Root | src/lib.rs:155-157 | `$` alone is the document; a `$` path ending in a filter yields an array |
| Eval.EvalKey | src/lib.rs:144-153 | a word key never fails; a filter key that succeeds yields an array; a dynamic key succeeds only when its path yields a string |
| Eval.ApplyFilter | src/lib.rs:127-141 | a non-array is `NotAnArray`; a success came from an array and yields an array no longer than it |
| Eval.Select | src/lib.rs:131-137 | an empty array gives no elements; a success keeps at most as many elements as there are |
| Eval.ShouldFilter | src/lib.rs:119-125 | a comparison with an operator other than `==` and `!=` fails on every element |
| Eval.FilterValue | src/lib.rs:56-61 | `@` alone is the element under test |
| Eval.RightValue | src/lib.rs:88-96 | a bare word is the string with that text; a number operand succeeds exactly when its lexeme is a number, and is then a float or Null |
| Eval.FilterExpression | src/lib.rs:76-117 | a verdict needs `==` or `!=` and both operands evaluated |
| Eval.Compare | src/lib.rs:98-116 | a verdict exists exactly for `==` and `!=`; it is true when the operator is `==` and the values are equal, or it is `!=` and they differ; any other operator is `Unsupported(op)` |
| Runtime.Runner.constructor | src/lib.rs:42-49 | a runner starts with the given tree and a Null root |
| Runtime.Runner.Run | src/lib.rs:51-54 | `run` stores the document as the root and returns the evaluation of the tree from it |
| Runtime.Runner.Root | src/lib.rs:155-157 | evaluates a path from the stored root |
| Runtime.Runner.EvalPath | src/lib.rs:160-169 | the loop over the keys computes the left fold of the keys over the context, stopping at the first failure |
| Runtime.Runner.EvalKey | src/lib.rs:144-153 | dispatches on the kind of key and computes the key's value |
| Runtime.Runner.ApplyFilter | src/lib.rs:127-141 | the loop pushing the passing elements computes the filter's result, and a non-array is `NotAnArray` |
| Runtime.RunTwice | src/lib.rs:51-54 | two runs of one runner on the same document give equal results, both the evaluation from that document |
| Scenarios.BlargIsFive | src/lib.rs:225-228 | `$.blarg` on `{"blarg":5,"test":5}` is 5 |
| Scenarios.ReferenceBooks | src/lib.rs:230-245 | `$.store.book[?(@.category == 'reference')]` on the bookstore is the one reference book |
| Scenarios.BooksAtPrice | src/lib.rs:247-268 | `$.store.book[?(@.price == 12.99)]` on the bookstore is the two books at 12.99, in order |
| Scenarios.TwelveNinetyNine | src/lib.rs:63-66 | the literal `12.99` is the float 12.99 |
| Scenarios.ExistenceFilter | src/lib.rs:270-282 | `$.test.array[?(@.blarg.test)]` keeps only the element that has `blarg.test` |
| Scenarios.GreaterIsUnsupported | src/lib.rs:284-310 | the filter key `[?(@.value > @.test)]`, whose tree that parse test fixes, fails with `Unsupported(Greater)`; the `$.test.array` prefix and the one-element document are supplied by the model, since the test evaluates nothing |
| Scenarios.NestedPathKey | src/lib.rs:332-342 | `$.object[$.myKey]` is "SUCCESS" |
| Scenarios.WhatevTest | src/lib.rs:355-376 | `$["whatev"]["test"]` and `$.whatev.test` are both "hi!" |
| Scenarios.MixedTraversal | src/lib.rs:343-354 | running `$["whatev"].test` twice with one runner gives "hi!" both times |

## Left out

- `json_path` (src/lib.rs:27-34): reading JSON text and writing the result back as text with serde_json. This is I/O around the evaluator. Documents are given as `Json` values.
- `Runner::new` and the pest parser (src/lib.rs:18-25, 42-49): the grammar file is not part of this model. The parse tree is an input datatype. The `parses_to!` tests (src/lib.rs:284-539) only fix the shape of that tree. `$["whatev"]` and `$.whatev` both give a word key, for example. A syntax error of `new` is therefore not modelled.
- Numbers.ParseNumber: does not model `f64` rounding. A float holds the exact decimal of its literal, so two literals that round to the same `f64` are different here.
- Numbers.ParseNumber: it assumes a float parser that accepts every lexeme of the number rule, as Rust's does from 1.55 on. The source needs a 2018 nightly compiler (src/lib.rs:1). Before 1.55, Rust's `f64` parser rejected lexemes that need too many intermediate digits, such as `0.` followed by about 375 threes. Such a lexeme also fails the `u64` and `i64` parses and ends in the `panic!` at src/lib.rs:72. The model gives it a float instead. `ParseSplit`, `NumberOperand` and `Eval.RightValue` inherit this edge.
- Numbers.ParseNumber: lexemes outside the grammar's number rule are `BadNumber`, although Rust's `f64` parser also accepts some of them (`inf`, `1e5`). The parser never hands such a lexeme to `parse_number`.
- Array indexing by a word key (the FIXME at src/lib.rs:148): as in the original, a word key on an array gives Null.
- The catch-all `unreachable!`/`unimplemented!` arms for nodes of the wrong kind: the typed parse tree cannot express those nodes.
- Aborts: the original stops the program on the first abort. The model returns the first `Err` instead, as seen by the caller of `run`.
- The wasm-bindgen host glue (wasm/): marshalling strings across linear memory and loading the module. It has no evaluator logic.
- Number ranges: serde_json keeps `PosInt` below 2^64 and `NegInt` below zero and at least -2^63. The model's `Number` does not enforce these bounds, so it also admits values such as `NegInt(0)` that no serde_json document holds. The evaluator never builds an integer itself.
- Cloning of `Value`s and the `'a` lifetimes: Dafny values are immutable, so a clone is the value itself.
