/** The conversion of a number literal in a filter into a JSON number. */
module Numbers {
  import opened Values
  import opened Outcomes

  predicate IsDigit(c: char) { '0' <= c <= '9' }

  /** All characters are decimal digits. */
  predicate AllDigits(s: string) { forall i :: 0 <= i < |s| ==> IsDigit(s[i]) }

  /** The grammar's `int`: one or more digits. */
  predicate IsInt(s: string) { |s| > 0 && AllDigits(s) }

  /** The grammar's `number`: an `int`, optionally followed by `.` and a second `int`. */
  predicate IsNumberLexeme(s: string)
  {
    IsInt(s) || exists k :: 0 < k < |s| && s[k] == '.' && IsInt(s[..k]) && IsInt(s[k + 1..])
  }

  /** The value of a string of decimal digits, most significant first. */
  function DigitsValue(s: string): nat
    requires AllDigits(s)
  {
    if s == [] then 0
    else 10 * DigitsValue(s[..|s| - 1]) + ((s[|s| - 1] as int) - ('0' as int))
  }

  function Pow10(n: nat): (p: nat)
    ensures p >= 1
  {
    if n == 0 then 1 else 10 * Pow10(n - 1)
  }

  /** The position of the first '.', or |s| when there is none. */
  function DotIndex(s: string): (k: nat)
    ensures k <= |s|
    ensures k < |s| ==> s[k] == '.'
    ensures forall i :: 0 <= i < k ==> s[i] != '.'
  {
    if s == [] || s[0] == '.' then 0 else 1 + DotIndex(s[1..])
  }

  /** The exact value of the decimal `whole.frac`. */
  function DecimalValue(whole: string, frac: string): real
    requires AllDigits(whole) && AllDigits(frac)
  {
    DigitsValue(whole) as real + DigitsValue(frac) as real / Pow10(|frac|) as real
  }

  /** The least value that binary64 rounding (to nearest, ties to even) takes to
      infinity: the largest finite double, 2^1024 - 2^971, plus half a unit in its last
      place, that is 2^1024 - 2^970. */
  const F64Overflow: nat := 0xFFFF_FFFF_FFFF_FC00_0000_0000_0000_0000_0000_0000_0000_0000_0000_0000_0000_0000_0000_0000_0000_0000_0000_0000_0000_0000_0000_0000_0000_0000_0000_0000_0000_0000_0000_0000_0000_0000_0000_0000_0000_0000_0000_0000_0000_0000_0000_0000_0000_0000_0000_0000_0000_0000_0000_0000_0000_0000_0000_0000_0000_0000_0000_0000_0000_0000

  /** `json!` of a parsed `f64`: the float, or Null once parsing overflowed to infinity,
      since a JSON number cannot hold a non-finite value. */
  function FromF64(x: real): Json
  {
    if x < F64Overflow as real then Num(Float(x)) else Null
  }

  /** `parse_number`: the literal is read as a 64-bit float first. That succeeds for
      every lexeme of the grammar's `number` (a value too large for a double becomes
      infinity, which `json!` turns into Null), so the unsigned and signed integer
      alternatives are never reached and the result is never an integer. A lexeme that
      is not a number is the fatal "could not parse" error. */
  function ParseNumber(lexeme: string): (r: Result<Json>)
    ensures r.Ok? <==> IsNumberLexeme(lexeme)
    ensures r.Ok? ==> r.value == Null || (r.value.Num? && r.value.n.Float?)
    ensures r.Err? ==> r.error == BadNumber(lexeme)
  {
    var k := DotIndex(lexeme);
    if k == |lexeme| then
      if IsInt(lexeme) then Ok(FromF64(DigitsValue(lexeme) as real))
      else Err(BadNumber(lexeme))
    else
      LexemeHasOneSplit(lexeme, k);
      var whole, frac := lexeme[..k], lexeme[k + 1..];
      if IsInt(whole) && IsInt(frac) then Ok(FromF64(DecimalValue(whole, frac)))
      else Err(BadNumber(lexeme))
  }

  /** When `s` contains a dot, the only split the grammar's `number` can use is at the
      first dot. */
  lemma LexemeHasOneSplit(s: string, k: nat)
    requires k == DotIndex(s) < |s|
    ensures IsNumberLexeme(s) <==> IsInt(s[..k]) && IsInt(s[k + 1..])
  {
    assert !IsDigit(s[k]);
    forall j | k < j <= |s| ensures !IsInt(s[..j]) {
      assert s[..j][k] == '.';
    }
    if IsNumberLexeme(s) {
      assert !IsInt(s);
      var j :| 0 < j < |s| && s[j] == '.' && IsInt(s[..j]) && IsInt(s[j + 1..]);
      assert j == k;
    }
  }

  /** The decimal rendering of a natural number, without leading zeros. */
  function Decimal(n: nat): (s: string)
    decreases n
  {
    if n < 10 then [('0' as int + n) as char]
    else Decimal(n / 10) + [('0' as int + n % 10) as char]
  }

  lemma {:induction false} DecimalDigits(n: nat)
    ensures IsInt(Decimal(n))
    ensures DigitsValue(Decimal(n)) == n
    decreases n
  {
    if n >= 10 {
      DecimalDigits(n / 10);
      var s := Decimal(n);
      assert s[..|s| - 1] == Decimal(n / 10);
    }
  }

  /** An integer literal parses back to the same value, but as a float, never as
      `PosInt`: the float alternative is tried first and always succeeds. From
      `F64Overflow` on, the float is infinite and the literal is Null. */
  lemma IntegerLiteralIsFloat(n: nat)
    ensures n < F64Overflow ==> ParseNumber(Decimal(n)) == Ok(Num(Float(n as real)))
    ensures n >= F64Overflow ==> ParseNumber(Decimal(n)) == Ok(Null)
  {
    DecimalDigits(n);
    var s := Decimal(n);
    assert DotIndex(s) == |s|;
  }

  lemma DotIndexOfSplit(a: string, b: string)
    requires AllDigits(a)
    ensures DotIndex(a + "." + b) == |a|
  {
    var s := a + "." + b;
    var k := DotIndex(s);
    assert s[|a|] == '.';
  }

  /** Appending a digit multiplies the value by ten and adds the digit. */
  lemma DigitsValueSnoc(s: string, c: char)
    requires AllDigits(s) && IsDigit(c)
    ensures AllDigits(s + [c])
    ensures DigitsValue(s + [c]) == 10 * DigitsValue(s) + ((c as int) - ('0' as int))
  {
    assert (s + [c])[..|s|] == s;
  }

  lemma DecimalValueTrailingZero(a: string, b: string)
    requires AllDigits(a) && AllDigits(b)
    ensures AllDigits(b + "0")
    ensures DecimalValue(a, b + "0") == DecimalValue(a, b)
  {
    DigitsValueSnoc(b, '0');
    assert |b + "0"| == |b| + 1;
    assert Pow10(|b| + 1) == 10 * Pow10(|b|);
    ScaleFraction(DigitsValue(b), Pow10(|b|));
  }

  /** A trailing zero in the fraction does not change the value: `12.990` and `12.99`
      are the same number. */
  lemma FractionTrailingZero(a: string, b: string)
    requires IsInt(a) && IsInt(b)
    ensures ParseNumber(a + "." + b + "0") == ParseNumber(a + "." + b)
  {
    assert a + "." + b + "0" == a + "." + (b + "0");
    DecimalValueTrailingZero(a, b);
    ParseSplit(a, b);
    ParseSplit(a, b + "0");
  }

  /** A lexeme `a.b` parses to the exact decimal `a.b`, or to Null when that is too
      large for a double. */
  lemma ParseSplit(a: string, b: string)
    requires IsInt(a) && IsInt(b)
    ensures DecimalValue(a, b) < F64Overflow as real ==>
              ParseNumber(a + "." + b) == Ok(Num(Float(DecimalValue(a, b))))
    ensures DecimalValue(a, b) >= F64Overflow as real ==> ParseNumber(a + "." + b) == Ok(Null)
  {
    var s := a + "." + b;
    DotIndexOfSplit(a, b);
    assert s[..|a|] == a && s[|a| + 1..] == b;
  }

  lemma ScaleFraction(v: nat, p: nat)
    requires p >= 1
    ensures (10 * v) as real / (10 * p) as real == v as real / p as real
  {
  }

  /** `12.0` is the same number as `12`. */
  lemma PointZeroIsInteger(a: string)
    requires IsInt(a)
    ensures ParseNumber(a + ".0") == ParseNumber(a)
  {
    var s := a + ".0";
    assert a + ".0" == a + "." + "0";
    DotIndexOfSplit(a, "0");
    assert s[..|a|] == a && s[|a| + 1..] == "0";
    assert DigitsValue("0") == 0 by { assert "0"[..0] == ""; }
    assert DotIndex(a) == |a|;
  }
}
