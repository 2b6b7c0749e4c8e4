/**
 * Card costs (`parse_cost` in scraper/utils.py), and the part of Python's
 * `int(str)` it relies on.
 *
 * `int` accepts an optional sign followed by decimal digits, where single
 * underscores may separate digits (`"1_000"`). `ParseInt` scans the text
 * left to right as CPython does; `Grouped` and `DecimalValue` are the
 * declarative reading of the same grammar, and `ParseUnsignedIsGrouped`
 * proves the two agree. `ShowInt` (Python's `str` of an integer) is a
 * right inverse: `int(str(n)) == n`, while `int` also reads texts `str`
 * never writes, such as `"007"`, `"+5"` and `"1_0"`.
 */
module Costs {

  import opened Wrappers
  import opened Text

  /** The value of a decimal digit. */
  function DigitValue(c: char): (v: nat)
    requires IsDigit(c)
    ensures v < 10
  {
    c as int - '0' as int
  }

  /** The digit whose value is `v`. */
  function DigitChar(v: nat): (c: char)
    requires v < 10
    ensures IsDigit(c) && DigitValue(c) == v
  {
    ('0' as int + v) as char
  }

  /** The value of a run of decimal digits, most significant first. */
  function DecimalValue(d: string): nat
    requires All(d, IsDigit)
  {
    if d == [] then 0 else 10 * DecimalValue(d[..|d| - 1]) + DigitValue(d[|d| - 1])
  }

  /** Positions `i` and `i + 1` of `b` both hold an underscore. */
  predicate UnderscorePair(b: string, i: nat)
    requires i < |b| - 1
  {
    b[i] == '_' && b[i + 1] == '_'
  }

  /**
   * The digit part of an integer literal: digits, with single underscores
   * allowed between two digits.
   */
  predicate Grouped(b: string) {
    && b != [] && IsDigit(b[0]) && IsDigit(b[|b| - 1])
    && (forall i :: 0 <= i < |b| ==> IsDigit(b[i]) || b[i] == '_')
    && (forall i :: 0 <= i < |b| - 1 ==> !UnderscorePair(b, i))
  }

  /** The digits of `b`, underscores removed. */
  function DigitsOf(b: string): (d: string)
    ensures |d| <= |b|
  {
    if b == [] then [] else (if b[0] == '_' then [] else [b[0]]) + DigitsOf(b[1..])
  }

  // ---------------------------------------------------------------------------
  // The scanner
  // ---------------------------------------------------------------------------

  /**
   * Reads the rest `b` of a literal whose digits so far are worth `acc`;
   * `afterUnderscore` says the last character read was an underscore.
   */
  function Accumulate(b: string, acc: nat, afterUnderscore: bool): (r: Option<nat>)
    ensures b == [] ==> (r.Some? <==> !afterUnderscore)
    decreases |b|
  {
    if b == [] then (if afterUnderscore then None else Some(acc))
    else if IsDigit(b[0]) then Accumulate(b[1..], 10 * acc + DigitValue(b[0]), false)
    else if b[0] == '_' && !afterUnderscore then Accumulate(b[1..], acc, true)
    else None
  }

  /** An unsigned literal: a digit first, then the scanner. */
  function ParseUnsigned(b: string): (r: Option<nat>)
    ensures r.Some? ==> b != [] && IsDigit(b[0])
  {
    if b != [] && IsDigit(b[0]) then Accumulate(b[1..], DigitValue(b[0]), false) else None
  }

  /**
   * What `int(s)` accepts in a text without surrounding whitespace: a
   * grouped digit string, optionally after one sign.
   */
  predicate IntLiteral(s: string) {
    Grouped(s) || (|s| > 1 && (s[0] == '+' || s[0] == '-') && Grouped(s[1..]))
  }

  /** The value of an integer literal: its digits in decimal, negated after a minus sign. */
  function LiteralValue(s: string): int
    requires IntLiteral(s)
  {
    if Grouped(s) then
      GroupedDigits(s);
      DecimalValue(DigitsOf(s))
    else
      GroupedDigits(s[1..]);
      var n: int := DecimalValue(DigitsOf(s[1..]));
      if s[0] == '-' then -n else n
  }

  /**
   * `int(s)` for a text without surrounding whitespace; `None` where Python
   * raises `ValueError`. The text is read by the scanner, and the result is
   * exactly the value of the literal when the text is one.
   */
  function ParseInt(s: string): (r: Option<int>)
    ensures r.Some? ==> s != []
    ensures r.Some? <==> IntLiteral(s)
    ensures r.Some? ==> r.value == LiteralValue(s)
  {
    if s != [] && (s[0] == '+' || s[0] == '-') then
      ParseUnsignedIsGrouped(s[1..]);
      match ParseUnsigned(s[1..])
      case None => None
      case Some(n) =>
        var v: int := if s[0] == '-' then -(n as int) else n;
        Some(v)
    else
      ParseUnsignedIsGrouped(s);
      match ParseUnsigned(s)
      case None => None
      case Some(n) =>
        var v: int := n;
        Some(v)
  }

  /**
   * `parse_cost`: no text, the empty text and a lone dash (after stripping)
   * have no cost; otherwise the stripped text is read as an integer, and a
   * text `int` rejects has no cost either. So a cost is found exactly when
   * the stripped text is an integer literal, and it is that literal's value.
   */
  function ParseCost(costText: Option<string>): (r: Option<int>)
    ensures costText.None? || costText == Some("") ==> r.None?
    ensures costText.Some? && Strip(costText.value) == "-" ==> r.None?
    ensures costText.Some? && costText.value != "" && Strip(costText.value) != "-" ==>
      r == ParseInt(Strip(costText.value))
    ensures r.Some? <==> costText.Some? && IntLiteral(Strip(costText.value))
    ensures r.Some? ==> r.value == LiteralValue(Strip(costText.value))
  {
    match costText
    case None => None
    case Some(t) =>
      if t == "" || Strip(t) == "-" then None else ParseInt(Strip(t))
  }

  // ---------------------------------------------------------------------------
  // The scanner reads exactly the grammar
  // ---------------------------------------------------------------------------

  /**
   * What the scanner accepts after the first digit: digits and underscores,
   * never two underscores in a row (counting one just read), and not ending
   * on an underscore.
   */
  predicate ValidRest(b: string, afterUnderscore: bool) {
    && (forall i :: 0 <= i < |b| ==> IsDigit(b[i]) || b[i] == '_')
    && (forall i :: 0 <= i < |b| - 1 ==> !UnderscorePair(b, i))
    && (afterUnderscore && b != [] ==> b[0] != '_')
    && (b == [] ==> !afterUnderscore)
    && (b != [] ==> b[|b| - 1] != '_')
  }

  /** The digits of a grouped string are digits. */
  lemma GroupedDigits(b: string)
    requires Grouped(b)
    ensures All(DigitsOf(b), IsDigit)
  {
    DigitsOfAreDigits(b);
  }

  lemma DecimalValueSnoc(d: string, c: char)
    requires All(d, IsDigit) && IsDigit(c)
    ensures All(d + [c], IsDigit)
    ensures DecimalValue(d + [c]) == 10 * DecimalValue(d) + DigitValue(c)
  {
    assert (d + [c])[..|d|] == d;
  }

  lemma DigitsOfCons(c: char, b: string)
    ensures DigitsOf([c] + b) == (if c == '_' then [] else [c]) + DigitsOf(b)
  {
    assert ([c] + b)[1..] == b;
  }

  lemma {:induction false} DigitsOfAreDigits(b: string)
    requires forall i :: 0 <= i < |b| ==> IsDigit(b[i]) || b[i] == '_'
    ensures All(DigitsOf(b), IsDigit)
    decreases |b|
  {
    if b != [] {
      DigitsOfAreDigits(b[1..]);
    }
  }

  lemma ValidRestStep(b: string, u: bool)
    requires b != []
    ensures ValidRest(b, u) <==>
      (IsDigit(b[0]) && ValidRest(b[1..], false)) || (b[0] == '_' && !u && ValidRest(b[1..], true))
  {
    var t := b[1..];
    if ValidRest(b, u) {
      forall i | 0 <= i < |t| - 1
        ensures !UnderscorePair(t, i)
      {
        assert !UnderscorePair(b, i + 1);
      }
      if t != [] && b[0] == '_' {
        assert !UnderscorePair(b, 0);
      }
    }
    if (IsDigit(b[0]) && ValidRest(t, false)) || (b[0] == '_' && !u && ValidRest(t, true)) {
      forall i | 0 <= i < |b| - 1
        ensures !UnderscorePair(b, i)
      {
        if i > 0 {
          assert !UnderscorePair(t, i - 1);
        }
      }
    }
  }

  /**
   * Reading the rest `b` after digits `d`: the scanner accepts exactly when
   * `b` is a valid rest, and then yields the value of all the digits.
   */
  lemma {:induction false} AccumulateValue(d: string, b: string, u: bool)
    requires All(d, IsDigit)
    requires forall i :: 0 <= i < |b| ==> IsDigit(b[i]) || b[i] == '_'
    ensures All(d + DigitsOf(b), IsDigit)
    ensures Accumulate(b, DecimalValue(d), u) ==
      (if ValidRest(b, u) then Some(DecimalValue(d + DigitsOf(b))) else None)
    decreases |b|
  {
    DigitsOfAreDigits(b);
    if b == [] {
      assert d + DigitsOf(b) == d;
    } else {
      var c, t := b[0], b[1..];
      ValidRestStep(b, u);
      DigitsOfCons(c, t);
      assert b == [c] + t;
      if IsDigit(c) {
        DecimalValueSnoc(d, c);
        AccumulateValue(d + [c], t, false);
        assert d + [c] + DigitsOf(t) == d + DigitsOf(b);
      } else if c == '_' && !u {
        AccumulateValue(d, t, true);
        assert d + DigitsOf(t) == d + DigitsOf(b);
      }
    }
  }

  lemma GroupedSplit(b: string)
    requires b != [] && IsDigit(b[0])
    ensures Grouped(b) <==> ValidRest(b[1..], false)
  {
    ValidRestStep(b, false);
    if |b| > 1 {
      assert b[1..][|b| - 2] == b[|b| - 1];
    }
  }

  /** The scanner accepts exactly the grouped digit strings, with the value of their digits. */
  lemma ParseUnsignedIsGrouped(b: string)
    ensures forall i :: 0 <= i < |b| && Grouped(b) ==> IsDigit(b[i]) || b[i] == '_'
    ensures Grouped(b) ==> All(DigitsOf(b), IsDigit)
    ensures ParseUnsigned(b) == (if Grouped(b) then Some(DecimalValue(DigitsOf(b))) else None)
  {
    if b != [] && IsDigit(b[0]) {
      var c, t := b[0], b[1..];
      if forall i :: 0 <= i < |t| ==> IsDigit(t[i]) || t[i] == '_' {
        AccumulateValue([c], t, false);
        assert DecimalValue([c]) == DigitValue(c) by {
          assert [c][..0] == [];
        }
        DigitsOfCons(c, t);
        assert b == [c] + t;
        GroupedSplit(b);
      } else {
        var i :| 0 <= i < |t| && !(IsDigit(t[i]) || t[i] == '_');
        assert !ValidRest(t, false);
        assert !Grouped(b) by {
          assert b[i + 1] == t[i];
        }
        NotValidRejects(t, DigitValue(c), false, i);
      }
    }
  }

  /** A character that is neither a digit nor an underscore makes the scanner fail. */
  lemma {:induction false} NotValidRejects(b: string, acc: nat, u: bool, i: nat)
    requires i < |b| && !IsDigit(b[i]) && b[i] != '_'
    ensures Accumulate(b, acc, u) == None
    decreases |b|
  {
    if i > 0 && (IsDigit(b[0]) || (b[0] == '_' && !u)) {
      var acc' := if IsDigit(b[0]) then 10 * acc + DigitValue(b[0]) else acc;
      assert b[1..][i - 1] == b[i];
      NotValidRejects(b[1..], acc', !IsDigit(b[0]), i - 1);
    }
  }

  // ---------------------------------------------------------------------------
  // Writing an integer
  // ---------------------------------------------------------------------------

  /** The decimal digits of `n` without leading zeros (`"0"` for zero). */
  function ShowNat(n: nat): (d: string)
    ensures d != [] && All(d, IsDigit)
    ensures DecimalValue(d) == n
  {
    var last := [DigitChar(n % 10)];
    if n < 10 then
      assert last[..0] == [];
      last
    else
      var d := ShowNat(n / 10) + last;
      assert d[..|d| - 1] == ShowNat(n / 10);
      d
  }

  /** `str(n)`: a minus sign for negative numbers, then the digits. */
  function ShowInt(n: int): (s: string)
    ensures s != [] && IsDigit(s[|s| - 1])
    ensures s[0] == '-' <==> n < 0
    ensures s[0] != '-' ==> IsDigit(s[0])
  {
    if n < 0 then "-" + ShowNat(-n) else ShowNat(n)
  }

  lemma {:induction false} DigitsOfDigits(d: string)
    requires All(d, IsDigit)
    ensures DigitsOf(d) == d
    decreases |d|
  {
    if d != [] {
      DigitsOfDigits(d[1..]);
      DigitsOfCons(d[0], d[1..]);
      assert d == [d[0]] + d[1..];
    }
  }

  lemma DigitsGrouped(d: string)
    requires d != [] && All(d, IsDigit)
    ensures Grouped(d)
  {
    forall i | 0 <= i < |d| - 1
      ensures !UnderscorePair(d, i)
    {
    }
  }

  /** A written integer is an integer literal whose value is the integer. */
  lemma ShowIntLiteral(n: int)
    ensures IntLiteral(ShowInt(n)) && LiteralValue(ShowInt(n)) == n
  {
    var s := ShowInt(n);
    var d := ShowNat(if n < 0 then -n else n);
    DigitsGrouped(d);
    DigitsOfDigits(d);
    if n < 0 {
      assert s[1..] == d;
      assert !Grouped(s);
    }
  }

  /** `int(str(n)) == n`. */
  lemma ParseShowInt(n: int)
    ensures ParseInt(ShowInt(n)) == Some(n)
  {
    ShowIntLiteral(n);
  }

  /** A written cost surrounded by any whitespace parses back to the cost. */
  lemma ParseCostShow(lead: string, n: int, trail: string)
    requires AllSpace(lead) && AllSpace(trail)
    ensures ParseCost(Some(lead + ShowInt(n) + trail)) == Some(n)
  {
    var s := ShowInt(n);
    StripPadded(lead, s, trail);
    assert |lead + s + trail| > 0;
    assert s != "-" by {
      if n < 0 {
        assert |s| > 1;
      }
    }
    ParseShowInt(n);
  }

  /**
   * A cost text has a cost exactly when, once stripped, it is an optionally
   * signed grouped digit string, and the cost is the value of its digits,
   * negated after a minus sign.
   */
  lemma ParseCostShape(t: string)
    ensures var s := Strip(t);
      && (ParseCost(Some(t)).Some? <==>
            Grouped(s) || (|s| > 1 && (s[0] == '+' || s[0] == '-') && Grouped(s[1..])))
      && (Grouped(s) ==> All(DigitsOf(s), IsDigit) && ParseCost(Some(t)) == Some(DecimalValue(DigitsOf(s))))
      && (|s| > 1 && (s[0] == '+' || s[0] == '-') && Grouped(s[1..]) ==>
            All(DigitsOf(s[1..]), IsDigit)
            && ParseCost(Some(t)) == Some(if s[0] == '-' then -(DecimalValue(DigitsOf(s[1..])) as int) else DecimalValue(DigitsOf(s[1..]))))
  {
    var s := Strip(t);
    if Grouped(s) {
      GroupedDigits(s);
    } else if |s| > 1 && (s[0] == '+' || s[0] == '-') && Grouped(s[1..]) {
      GroupedDigits(s[1..]);
    }
  }

  // ---------------------------------------------------------------------------
  // The examples of tests/test_utils.py
  // ---------------------------------------------------------------------------

  lemma ExampleCostFive(t: string)
    requires t == "5"
    ensures ParseCost(Some(t)) == Some(5)
  {
    ParseCostShow([], 5, []);
    assert ShowInt(5) == t;
    assert [] + t + [] == t;
  }

  lemma ExampleCostPadded(t: string)
    requires t == " 10 "
    ensures ParseCost(Some(t)) == Some(10)
  {
    ParseCostShow(" ", 10, " ");
    assert ShowInt(10) == "10";
    assert " " + "10" + " " == t;
  }

  lemma ExampleCostDash(t: string)
    requires t == "-"
    ensures ParseCost(Some(t)) == None
  {
    StripPadded([], t, []);
    assert [] + t + [] == t;
  }

  lemma ExampleCostLetter(t: string)
    requires t == "X"
    ensures ParseCost(Some(t)) == None
  {
    StripPadded([], t, []);
    assert [] + t + [] == t;
  }

  /** `parse_cost` keeps the sign: a negative number is a cost too. */
  lemma ExampleCostNegative(t: string)
    requires t == "-5"
    ensures ParseCost(Some(t)) == Some(-5)
  {
    ParseCostShow([], -5, []);
    assert ShowInt(-5) == t;
    assert [] + t + [] == t;
  }

  /** `int` also reads texts `str` never writes: leading zeros are allowed. */
  lemma ExampleCostLeadingZeros(a: string)
    requires a == "007"
    ensures ParseCost(Some(a)) == Some(7)
  {
    StripPadded([], a, []);
    assert [] + a + [] == a;
    var t := a[1..];
    assert t[1..][1..] == [];
    assert Accumulate(t[1..], 0, false) == Some(7);
    assert Accumulate(t, 0, false) == Some(7);
  }

  /** A plus sign is allowed. */
  lemma ExampleCostPlus(b: string)
    requires b == "+5"
    ensures ParseCost(Some(b)) == Some(5)
  {
    StripPadded([], b, []);
    assert [] + b + [] == b;
    assert b[1..][1..] == [];
  }

  /** A single underscore between digits is allowed and ignored. */
  lemma ExampleCostUnderscore(c: string)
    requires c == "1_0"
    ensures ParseCost(Some(c)) == Some(10)
  {
    StripPadded([], c, []);
    assert [] + c + [] == c;
    var t := c[1..];
    assert t[1..][1..] == [];
    assert Accumulate(t[1..], 1, true) == Some(10);
    assert Accumulate(t, 1, false) == Some(10);
  }
}
