/** The documents and queries of the original unit tests, evaluated by the model. */
module Scenarios {
  import opened Values
  import opened Syntax
  import opened Outcomes
  import opened Eval
  import Numbers
  import Properties
  import Runtime

  function Book(category: string, author: string, title: string, price: real): Json
  {
    Obj(map["category" := Str(category), "author" := Str(author), "title" := Str(title),
            "price" := Num(Float(price))])
  }

  function BookWithIsbn(category: string, author: string, title: string, isbn: string, price: real): Json
  {
    Obj(map["category" := Str(category), "author" := Str(author), "title" := Str(title),
            "isbn" := Str(isbn), "price" := Num(Float(price))])
  }

  function Books(): seq<Json>
  {
    [ Book("reference", "Nigel Rees", "Sayings of the Century", 8.95),
      Book("fiction", "Evelyn Waugh", "Sword of Honour", 12.99),
      Book("fiction", "Evelyn Waugh", "Old man and the sea", 12.99),
      BookWithIsbn("fiction", "Herman Melville", "Moby Dick", "0-553-21311-3", 8.99),
      BookWithIsbn("fiction", "J. R. R. Tolkien", "The Lord of the Rings", "0-395-19395-8", 22.99) ]
  }

  /** The bookstore document of the tests. */
  function Store(): Json
  {
    Obj(map[
      "store" := Obj(map[
        "book" := Arr(Books()),
        "bicycle" := Obj(map["color" := Str("red"), "price" := Num(Float(19.95))])]),
      "expensive" := Num(PosInt(10))])
  }

  /** The category and the price of each book. */
  lemma BookMembers()
    ensures var bs := Books();
            |bs| == 5 && bs == [bs[0], bs[1], bs[2], bs[3], bs[4]]
    ensures Get(Books()[0], "category") == Str("reference") && Get(Books()[0], "price") == Num(Float(8.95))
    ensures Get(Books()[1], "category") == Str("fiction") && Get(Books()[1], "price") == Num(Float(12.99))
    ensures Get(Books()[2], "category") == Str("fiction") && Get(Books()[2], "price") == Num(Float(12.99))
    ensures Get(Books()[3], "category") == Str("fiction") && Get(Books()[3], "price") == Num(Float(8.99))
    ensures Get(Books()[4], "category") == Str("fiction") && Get(Books()[4], "price") == Num(Float(22.99))
  {
  }

  lemma StoreBooks()
    ensures EvalPath(Store(), Store(), [Word("store"), Word("book")]) == Ok(Arr(Books()))
  {
    Properties.DotPathIsNestedLookup(Store(), Store(), ["store", "book"]);
    assert Words(["store", "book"]) == [Word("store"), Word("book")];
  }

  /** A filter over the bookstore's books, after `$.store.book`. */
  lemma BookFilter(body: Body)
    ensures Root(Store(), [Word("store"), Word("book"), Filter(body)]) == ApplyFilter(Store(), Arr(Books()), body)
  {
    StoreBooks();
    Properties.EvalPathAppend(Store(), Store(), [Word("store"), Word("book")], [Filter(body)]);
    assert [Word("store"), Word("book")] + [Filter(body)] == [Word("store"), Word("book"), Filter(body)];
  }

  /** One step of the filter loop over the suffix of `bs` from `i`. */
  lemma SelectFrom(root: Json, bs: seq<Json>, i: nat, body: Body, keep: bool, kept: seq<Json>)
    requires i < |bs|
    requires ShouldFilter(root, bs[i], body) == Ok(keep) && Select(root, bs[i + 1..], body) == Ok(kept)
    ensures Select(root, bs[i..], body) == Ok(if keep then [bs[i]] + kept else kept)
  {
    assert bs[i..][0] == bs[i] && bs[i..][1..] == bs[i + 1..];
    Properties.SelectCons(root, bs[i..], body);
  }

  /** `$.blarg` on `{"blarg":5,"test":5}` is 5. */
  lemma BlargIsFive()
    ensures Root(Obj(map["blarg" := Num(PosInt(5)), "test" := Num(PosInt(5))]), [Word("blarg")])
            == Ok(Num(PosInt(5)))
  {
  }

  lemma CategoryVerdict(root: Json, e: Json, category: string)
    requires Get(e, "category") == Str(category)
    ensures ShouldFilter(root, e, Cmp([Word("category")], Equal, RWord("reference"))) == Ok(category == "reference")
  {
    assert FilterValue(root, e, [Word("category")]) == Ok(Str(category));
  }

  /** Five elements categorised like the five books: only the first is kept. */
  lemma ReferenceSelectOf(root: Json, b0: Json, b1: Json, b2: Json, b3: Json, b4: Json)
    requires Get(b0, "category") == Str("reference") && Get(b1, "category") == Str("fiction")
    requires Get(b2, "category") == Str("fiction") && Get(b3, "category") == Str("fiction")
    requires Get(b4, "category") == Str("fiction")
    ensures Select(root, [b0, b1, b2, b3, b4], Cmp([Word("category")], Equal, RWord("reference"))) == Ok([b0])
  {
    var bs, body := [b0, b1, b2, b3, b4], Cmp([Word("category")], Equal, RWord("reference"));
    assert bs[5..] == [];
    CategoryVerdict(root, b4, "fiction");
    SelectFrom(root, bs, 4, body, false, []);
    CategoryVerdict(root, b3, "fiction");
    SelectFrom(root, bs, 3, body, false, []);
    CategoryVerdict(root, b2, "fiction");
    SelectFrom(root, bs, 2, body, false, []);
    CategoryVerdict(root, b1, "fiction");
    SelectFrom(root, bs, 1, body, false, []);
    CategoryVerdict(root, b0, "reference");
    SelectFrom(root, bs, 0, body, true, []);
    assert bs[0..] == bs && [b0] + [] == [b0];
  }

  lemma ReferenceSelect(root: Json)
    ensures Select(root, Books(), Cmp([Word("category")], Equal, RWord("reference"))) == Ok([Books()[0]])
  {
    BookMembers();
    var bs := Books();
    ReferenceSelectOf(root, bs[0], bs[1], bs[2], bs[3], bs[4]);
  }

  /** `$.store.book[?(@.category == 'reference')]` keeps the one reference book. */
  lemma ReferenceBooks()
    ensures Root(Store(), [Word("store"), Word("book"),
                           Filter(Cmp([Word("category")], Equal, RWord("reference")))])
            == Ok(Arr([Books()[0]]))
  {
    BookFilter(Cmp([Word("category")], Equal, RWord("reference")));
    ReferenceSelect(Store());
  }

  /** A price comparison against a literal that parses to `value`. */
  lemma PriceVerdict(root: Json, e: Json, price: real, literal: string, value: real)
    requires Get(e, "price") == Num(Float(price))
    requires Numbers.ParseNumber(literal) == Ok(Num(Float(value)))
    ensures ShouldFilter(root, e, Cmp([Word("price")], Equal, RNum(literal))) == Ok(price == value)
  {
    assert FilterValue(root, e, [Word("price")]) == Ok(Num(Float(price)));
    Properties.ComparisonVerdict(root, e, [Word("price")], Equal, RNum(literal), Num(Float(price)), Num(Float(value)));
  }

  /** The literal `12.99` is the float 12.99. */
  lemma TwelveNinetyNine()
    ensures Numbers.ParseNumber("12.99") == Ok(Num(Float(12.99)))
  {
    TwoDigits('1', '2');
    TwoDigits('9', '9');
    assert "12.99" == "12" + "." + "99";
    Numbers.ParseSplit("12", "99");
    assert Numbers.Pow10(2) == 100;
  }

  lemma TwoDigits(c: char, d: char)
    requires Numbers.IsDigit(c) && Numbers.IsDigit(d)
    ensures Numbers.IsInt([c, d])
    ensures Numbers.DigitsValue([c, d]) == 10 * ((c as int) - ('0' as int)) + ((d as int) - ('0' as int))
  {
    assert [c, d] == [c] + [d] && [c] == [] + [c];
    Numbers.DigitsValueSnoc([], c);
    Numbers.DigitsValueSnoc([c], d);
  }

  /** Five elements priced like the five books, against a literal that parses to 12.99:
      the second and the third are kept. */
  lemma PriceSelectOf(root: Json, b0: Json, b1: Json, b2: Json, b3: Json, b4: Json, literal: string)
    requires Numbers.ParseNumber(literal) == Ok(Num(Float(12.99)))
    requires Get(b0, "price") == Num(Float(8.95)) && Get(b1, "price") == Num(Float(12.99))
    requires Get(b2, "price") == Num(Float(12.99)) && Get(b3, "price") == Num(Float(8.99))
    requires Get(b4, "price") == Num(Float(22.99))
    ensures Select(root, [b0, b1, b2, b3, b4], Cmp([Word("price")], Equal, RNum(literal))) == Ok([b1, b2])
  {
    var bs, body := [b0, b1, b2, b3, b4], Cmp([Word("price")], Equal, RNum(literal));
    assert bs[5..] == [];
    PriceVerdict(root, b4, 22.99, literal, 12.99);
    SelectFrom(root, bs, 4, body, false, []);
    PriceVerdict(root, b3, 8.99, literal, 12.99);
    SelectFrom(root, bs, 3, body, false, []);
    PriceVerdict(root, b2, 12.99, literal, 12.99);
    SelectFrom(root, bs, 2, body, true, []);
    PriceVerdict(root, b1, 12.99, literal, 12.99);
    assert [b2] + [] == [b2];
    SelectFrom(root, bs, 1, body, true, [b2]);
    PriceVerdict(root, b0, 8.95, literal, 12.99);
    assert [b1] + [b2] == [b1, b2];
    SelectFrom(root, bs, 0, body, false, [b1, b2]);
    assert bs[0..] == bs;
  }

  lemma PriceSelect(root: Json)
    ensures Select(root, Books(), Cmp([Word("price")], Equal, RNum("12.99"))) == Ok([Books()[1], Books()[2]])
  {
    BookMembers();
    TwelveNinetyNine();
    var bs := Books();
    PriceSelectOf(root, bs[0], bs[1], bs[2], bs[3], bs[4], "12.99");
  }

  /** `$.store.book[?(@.price == 12.99)]` keeps the two books at 12.99, in order. */
  lemma BooksAtPrice()
    ensures Root(Store(), [Word("store"), Word("book"),
                           Filter(Cmp([Word("price")], Equal, RNum("12.99")))])
            == Ok(Arr([Books()[1], Books()[2]]))
  {
    BookFilter(Cmp([Word("price")], Equal, RNum("12.99")));
    PriceSelect(Store());
  }

  /** `$.test.array[?(@.blarg.test)]` keeps the one element that has `blarg.test`. */
  lemma ExistenceFilter()
    ensures var first := Obj(map["value" := Num(PosInt(5)), "blarg" := Obj(map["test" := Num(PosInt(15))])]);
            var doc := Obj(map["test" := Obj(map["array" := Arr([first, Obj(map["value" := Num(PosInt(7))]), Obj(map[])])])]);
            Root(doc, [Word("test"), Word("array"), Filter(Exists([Word("blarg"), Word("test")]))])
            == Ok(Arr([first]))
  {
    var first := Obj(map["value" := Num(PosInt(5)), "blarg" := Obj(map["test" := Num(PosInt(15))])]);
    var second, third := Obj(map["value" := Num(PosInt(7))]), Obj(map[]);
    var body := Exists([Word("blarg"), Word("test")]);
    var doc := Obj(map["test" := Obj(map["array" := Arr([first, second, third])])]);
    Properties.DotPathIsNestedLookup(doc, first, ["blarg", "test"]);
    Properties.DotPathIsNestedLookup(doc, second, ["blarg", "test"]);
    Properties.DotPathIsNestedLookup(doc, third, ["blarg", "test"]);
    assert Words(["blarg", "test"]) == [Word("blarg"), Word("test")];
    assert ShouldFilter(doc, first, body) == Ok(true);
    assert ShouldFilter(doc, second, body) == Ok(false);
    assert ShouldFilter(doc, third, body) == Ok(false);
    Properties.SelectSingleton(doc, first, body);
    Properties.SelectSingleton(doc, second, body);
    Properties.SelectSingleton(doc, third, body);
    Properties.SelectAppend(doc, [first], [second], body);
    Properties.SelectAppend(doc, [first] + [second], [third], body);
    assert [first, second, third] == [first] + [second] + [third];
  }

  /** `$.object[$.myKey]` uses the value of `$.myKey` as the key. */
  lemma NestedPathKey()
    ensures var doc := Obj(map["myKey" := Str("key"), "object" := Obj(map["key" := Str("SUCCESS")])]);
            Root(doc, [Word("object"), Sub([Word("myKey")])]) == Ok(Str("SUCCESS"))
  {
  }

  function Whatev(): Json
  {
    Obj(map["test" := Str("blarg"), "whatev" := Obj(map["test" := Str("hi!")])])
  }

  /** `$["whatev"].test`, `$["whatev"]["test"]` and `$.whatev.test` all parse to the
      same two word keys, and give "hi!". */
  lemma WhatevTest()
    ensures Root(Whatev(), [Word("whatev"), Word("test")]) == Ok(Str("hi!"))
  {
  }

  /** The filter key `[?(@.value > @.test)]`, in the tree its parse test fixes, cannot
      be evaluated: after a `$.test.array` prefix, on a document with a one-element
      array, both supplied here, it fails with `Unsupported(Greater)`. */
  lemma GreaterIsUnsupported()
    ensures var doc := Obj(map["test" := Obj(map["array" := Arr([Obj(map["value" := Num(PosInt(5))])])])]);
            Root(doc, [Word("test"), Word("array"), Filter(Cmp([Word("value")], Greater, RPath([Word("test")])))])
            == Err(Unsupported(Greater))
  {
    var elem := Obj(map["value" := Num(PosInt(5))]);
    var doc := Obj(map["test" := Obj(map["array" := Arr([elem])])]);
    var body := Cmp([Word("value")], Greater, RPath([Word("test")]));
    Properties.DotPathIsNestedLookup(doc, doc, ["test", "array"]);
    assert Words(["test", "array"]) == [Word("test"), Word("array")];
    Properties.EvalPathAppend(doc, doc, [Word("test"), Word("array")], [Filter(body)]);
    assert [Word("test"), Word("array")] + [Filter(body)] == [Word("test"), Word("array"), Filter(body)];
    assert FilterValue(doc, elem, [Word("value")]) == Ok(Num(PosInt(5)));
    assert RightValue(doc, elem, RPath([Word("test")])) == Ok(Null);
    Properties.ComparisonVerdict(doc, elem, [Word("value")], Greater, RPath([Word("test")]), Num(PosInt(5)), Null);
    Properties.SelectSingleton(doc, elem, body);
  }

  /** The mixed traversal test runs one runner twice on the same document. */
  method MixedTraversal() returns (first: Result<Json>, second: Result<Json>)
    ensures first == second == Ok(Str("hi!"))
  {
    var runner := new Runtime.Runner([Word("whatev"), Word("test")]);
    first, second := Runtime.RunTwice(runner, Whatev());
    WhatevTest();
  }
}
