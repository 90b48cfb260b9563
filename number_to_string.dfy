/**
 * The sign-classifying formatters of src/number_to_string.cpp. Every
 * formatter is a three-way branch on the sign of a C++ `int` that returns a
 * string concatenation; `std::to_string` is Decimal.IntToString.
 */
module NumberToString {
  import opened Wrappers
  import opened Decimal

  /** A C++ `int`: 32-bit two's complement. */
  type Int32 = n: int | -0x8000_0000 <= n < 0x8000_0000

  /**
   * The NumberGroup class: a number and the name of its group. Its C++
   * constructor only stores its two arguments, which is what this datatype's
   * constructor does.
   */
  datatype NumberGroup = NumberGroup(number: Int32, group: string)

  /**
   * `numberToString(int)`. Its label classifies the sign of the number, each
   * label in both directions.
   */
  function NumberToString(number: Int32): (s: string)
    ensures "NEGATIVE: " <= s <==> number < 0
    ensures s == "NULL" <==> number == 0
    ensures "POSITIVE: " <= s <==> number > 0
  {
    if number < 0 then
      var s := "NEGATIVE: " + IntToString(number);
      assert s[0] == 'N' && s[1] == 'E' && |s| > 4;
      s
    else if number == 0 then "NULL"
    else
      var s := "POSITIVE: " + IntToString(number);
      assert s[0] == 'P' && |s| > 4;
      s
  }

  /**
   * `numberToString(const NumberGroup&)`: the group name, ": ", then what the
   * int overload prints for the number.
   */
  function GroupNumberToString(ng: NumberGroup): (s: string)
    ensures s == ng.group + ": " + NumberToString(ng.number)
  {
    if ng.number < 0 then ng.group + ": NEGATIVE: " + IntToString(ng.number)
    else if ng.number == 0 then ng.group + ": NULL"
    else ng.group + ": POSITIVE: " + IntToString(ng.number)
  }

  /** The five variants as one formatter of the digit `k` in their labels. */
  function ReturnNumberVariant(k: nat, str: string, number: Int32): string
    requires 1 <= k <= 5
  {
    var d := DigitChar(k);
    if number < 0 then "NEGATIVE" + [d] + ": " + str + IntToString(number)
    else if number == 0 then "NULL" + [d] + ": " + str
    else "POSITIVE" + [d] + ": " + str + IntToString(number)
  }

  /** The label of a variant's output classifies the sign of the number. */
  lemma VariantSign(k: nat, str: string, number: Int32)
    requires 1 <= k <= 5
    ensures "NEGATIVE" + [DigitChar(k)] <= ReturnNumberVariant(k, str, number) <==> number < 0
    ensures ReturnNumberVariant(k, str, number) == "NULL" + [DigitChar(k)] + ": " + str <==> number == 0
    ensures "POSITIVE" + [DigitChar(k)] <= ReturnNumberVariant(k, str, number) <==> number > 0
  {
    var s := ReturnNumberVariant(k, str, number);
    if number < 0 {
      assert s[1] == 'E';
    } else if number == 0 {
      assert s[0] == 'N' && s[1] == 'U';
    } else {
      assert s[0] == 'P';
    }
  }

  /** The digits of the five variants' labels. */
  lemma VariantDigits()
    ensures DigitChar(1) == '1' && DigitChar(2) == '2' && DigitChar(3) == '3'
    ensures DigitChar(4) == '4' && DigitChar(5) == '5'
  {
  }

  /** `returnNumberVariant1`: the generic formatter at digit 1. */
  function ReturnNumberVariant1(str: string, number: Int32): (s: string)
    ensures s == ReturnNumberVariant(1, str, number)
  {
    VariantDigits();
    if number < 0 then "NEGATIVE1: " + str + IntToString(number)
    else if number == 0 then "NULL1: " + str
    else "POSITIVE1: " + str + IntToString(number)
  }

  /** `returnNumberVariant2`: the generic formatter at digit 2. */
  function ReturnNumberVariant2(str: string, number: Int32): (s: string)
    ensures s == ReturnNumberVariant(2, str, number)
  {
    VariantDigits();
    if number < 0 then "NEGATIVE2: " + str + IntToString(number)
    else if number == 0 then "NULL2: " + str
    else "POSITIVE2: " + str + IntToString(number)
  }

  /** `returnNumberVariant3`: the generic formatter at digit 3. */
  function ReturnNumberVariant3(str: string, number: Int32): (s: string)
    ensures s == ReturnNumberVariant(3, str, number)
  {
    VariantDigits();
    if number < 0 then "NEGATIVE3: " + str + IntToString(number)
    else if number == 0 then "NULL3: " + str
    else "POSITIVE3: " + str + IntToString(number)
  }

  /** `returnNumberVariant4`: the generic formatter at digit 4. */
  function ReturnNumberVariant4(str: string, number: Int32): (s: string)
    ensures s == ReturnNumberVariant(4, str, number)
  {
    VariantDigits();
    if number < 0 then "NEGATIVE4: " + str + IntToString(number)
    else if number == 0 then "NULL4: " + str
    else "POSITIVE4: " + str + IntToString(number)
  }

  /** `returnNumberVariant5`: the generic formatter at digit 5. */
  function ReturnNumberVariant5(str: string, number: Int32): (s: string)
    ensures s == ReturnNumberVariant(5, str, number)
  {
    VariantDigits();
    if number < 0 then "NEGATIVE5: " + str + IntToString(number)
    else if number == 0 then "NULL5: " + str
    else "POSITIVE5: " + str + IntToString(number)
  }

  /** Reads a `numberToString` output back; the label must agree with the sign. */
  function ParseNumberString(s: string): Option<int> {
    if s == "NULL" then Some(0)
    else if "NEGATIVE: " <= s then
      match ParseInt(s[10..])
      case Some(v) => if v < 0 then Some(v) else None
      case None => None
    else if "POSITIVE: " <= s then
      match ParseInt(s[10..])
      case Some(v) => if v > 0 then Some(v) else None
      case None => None
    else None
  }

  /** `numberToString(n)` determines n: reading it back gives n again. */
  lemma NumberToStringRoundTrip(n: Int32)
    ensures ParseNumberString(NumberToString(n)) == Some(n)
  {
    var s := NumberToString(n);
    ParseIntToString(n);
    if n < 0 {
      assert s != "NULL" by { assert |s| > 4; }
      assert s[10..] == IntToString(n);
    } else if n > 0 {
      assert s != "NULL" by { assert |s| > 4; }
      assert !("NEGATIVE: " <= s) by { assert s[0] == 'P'; }
      assert s[10..] == IntToString(n);
    }
  }

  /** For a fixed digit and string, a variant's output determines the number. */
  lemma VariantDeterminesNumber(k: nat, str: string, a: Int32, b: Int32)
    requires 1 <= k <= 5
    ensures ReturnNumberVariant(k, str, a) == ReturnNumberVariant(k, str, b) <==> a == b
  {
    var s, t := ReturnNumberVariant(k, str, a), ReturnNumberVariant(k, str, b);
    if s == t {
      VariantSign(k, str, a);
      VariantSign(k, str, b);
      var d := DigitChar(k);
      if a < 0 {
        var p := "NEGATIVE" + [d] + ": " + str;
        assert s == p + IntToString(a) && t == p + IntToString(b);
        assert IntToString(a) == s[|p|..];
        IntToStringInjective(a, b);
      } else if a > 0 {
        var p := "POSITIVE" + [d] + ": " + str;
        assert s == p + IntToString(a) && t == p + IntToString(b);
        assert IntToString(a) == s[|p|..];
        IntToStringInjective(a, b);
      }
    }
  }

  lemma SmallDecimals()
    ensures IntToString(1) == "1" && IntToString(-1) == "-1"
    ensures IntToString(-3) == "-3" && IntToString(5) == "5"
    ensures IntToString(-7) == "-7"
    ensures IntToString(10) == "10" && IntToString(-10) == "-10"
  {
    assert NatToString(1) == [DigitChar(1)] == "1";
    assert NatToString(3) == [DigitChar(3)] == "3";
    assert NatToString(5) == [DigitChar(5)] == "5";
    assert NatToString(7) == [DigitChar(7)] == "7";
    assert NatToString(10) == NatToString(1) + [DigitChar(0)] == "10";
  }

  /** The outputs tests/test_number_to_string.cpp expects of the int overload. */
  lemma ExpectedNumberToString()
    ensures NumberToString(10) == "POSITIVE: 10"
    ensures NumberToString(-10) == "NEGATIVE: -10"
    ensures NumberToString(0) == "NULL"
  {
    assert IntToString(-10) == "-10" && IntToString(10) == "10" by {
      SmallDecimals();
    }
  }

  /** The outputs tests/test_number_to_string.cpp expects of the group overload. */
  lemma ExpectedGroupNumberToString()
    ensures GroupNumberToString(NumberGroup(5, "GROUP_A")) == "GROUP_A: POSITIVE: 5"
    ensures GroupNumberToString(NumberGroup(-7, "GROUP_B")) == "GROUP_B: NEGATIVE: -7"
    ensures GroupNumberToString(NumberGroup(0, "GROUP_C")) == "GROUP_C: NULL"
  {
    assert GroupNumberToString(NumberGroup(5, "GROUP_A")) == "GROUP_A: POSITIVE: 5" by {
      assert IntToString(5) == "5" by {
        SmallDecimals();
      }
      assert "GROUP_A" + ": POSITIVE: " + "5" == "GROUP_A: POSITIVE: 5";
    }
    assert GroupNumberToString(NumberGroup(-7, "GROUP_B")) == "GROUP_B: NEGATIVE: -7" by {
      assert IntToString(-7) == "-7" by {
        SmallDecimals();
      }
      assert "GROUP_B" + ": NEGATIVE: " + "-7" == "GROUP_B: NEGATIVE: -7";
    }
    assert GroupNumberToString(NumberGroup(0, "GROUP_C")) == "GROUP_C: NULL" by {
      assert "GROUP_C" + ": NULL" == "GROUP_C: NULL";
    }
  }

  /** The outputs tests/test_number_to_string.cpp expects of variants 1 and 2. */
  lemma ExpectedVariants12()
    ensures ReturnNumberVariant1("TEST", 5) == "POSITIVE1: TEST5"
    ensures ReturnNumberVariant1("TEST", -3) == "NEGATIVE1: TEST-3"
    ensures ReturnNumberVariant1("TEST", 0) == "NULL1: TEST"
    ensures ReturnNumberVariant2("TEST", 5) == "POSITIVE2: TEST5"
    ensures ReturnNumberVariant2("TEST", -3) == "NEGATIVE2: TEST-3"
    ensures ReturnNumberVariant2("TEST", 0) == "NULL2: TEST"
  {
    assert IntToString(-3) == "-3" && IntToString(5) == "5" by {
      SmallDecimals();
    }
  }

  /** The outputs tests/test_number_to_string.cpp expects of variants 3 and 4. */
  lemma ExpectedVariants34()
    ensures ReturnNumberVariant3("TEST", 5) == "POSITIVE3: TEST5"
    ensures ReturnNumberVariant3("TEST", -3) == "NEGATIVE3: TEST-3"
    ensures ReturnNumberVariant3("TEST", 0) == "NULL3: TEST"
    ensures ReturnNumberVariant4("TEST", 5) == "POSITIVE4: TEST5"
    ensures ReturnNumberVariant4("TEST", -3) == "NEGATIVE4: TEST-3"
    ensures ReturnNumberVariant4("TEST", 0) == "NULL4: TEST"
  {
    assert IntToString(-3) == "-3" && IntToString(5) == "5" by {
      SmallDecimals();
    }
  }

  /** The outputs tests/test_number_to_string.cpp expects of variant 5, and its zero case. */
  lemma ExpectedVariant5()
    ensures ReturnNumberVariant5("TEST", 5) == "POSITIVE5: TEST5"
    ensures ReturnNumberVariant5("TEST", -3) == "NEGATIVE5: TEST-3"
    ensures ReturnNumberVariant5("TEST", 0) == "NULL5: TEST"
  {
    assert IntToString(-3) == "-3" && IntToString(5) == "5" by {
      SmallDecimals();
    }
  }

  /**
   * tests/test_ai.cpp calls the formatters `number_to_string(n)` and
   * `number_to_string(n, group)`, names the header does not declare; they are
   * read here as the two `numberToString` overloads.
   */
  /** The outputs tests/test_ai.cpp expects of the int overload. */
  lemma ExpectedAiNumberToString()
    ensures NumberToString(-1) == "NEGATIVE: -1"
    ensures NumberToString(0) == "NULL"
    ensures NumberToString(1) == "POSITIVE: 1"
  {
    assert IntToString(-1) == "-1" && IntToString(1) == "1" by {
      SmallDecimals();
    }
  }

  /** The outputs tests/test_ai.cpp expects of the group overload. */
  lemma ExpectedAiGroupNumberToString()
    ensures GroupNumberToString(NumberGroup(-1, "GROUP")) == "GROUP: NEGATIVE: -1"
    ensures GroupNumberToString(NumberGroup(0, "GROUP")) == "GROUP: NULL"
    ensures GroupNumberToString(NumberGroup(1, "GROUP")) == "GROUP: POSITIVE: 1"
  {
    assert GroupNumberToString(NumberGroup(-1, "GROUP")) == "GROUP: NEGATIVE: -1" by {
      assert IntToString(-1) == "-1" by {
        SmallDecimals();
      }
      assert "GROUP" + ": NEGATIVE: " + "-1" == "GROUP: NEGATIVE: -1";
    }
    assert GroupNumberToString(NumberGroup(0, "GROUP")) == "GROUP: NULL" by {
      assert "GROUP" + ": NULL" == "GROUP: NULL";
    }
    assert GroupNumberToString(NumberGroup(1, "GROUP")) == "GROUP: POSITIVE: 1" by {
      assert IntToString(1) == "1" by {
        SmallDecimals();
      }
      assert "GROUP" + ": POSITIVE: " + "1" == "GROUP: POSITIVE: 1";
    }
  }

  /** The outputs tests/test_ai.cpp expects of variants 1 and 2. */
  lemma ExpectedAiVariants12()
    ensures ReturnNumberVariant1("str", -1) == "NEGATIVE1: str-1"
    ensures ReturnNumberVariant1("str", 0) == "NULL1: str"
    ensures ReturnNumberVariant1("str", 1) == "POSITIVE1: str1"
    ensures ReturnNumberVariant2("str", -1) == "NEGATIVE2: str-1"
    ensures ReturnNumberVariant2("str", 0) == "NULL2: str"
    ensures ReturnNumberVariant2("str", 1) == "POSITIVE2: str1"
  {
    assert IntToString(-1) == "-1" && IntToString(1) == "1" by {
      SmallDecimals();
    }
  }

  /** The outputs tests/test_ai.cpp expects of variants 3 and 4. */
  lemma ExpectedAiVariants34()
    ensures ReturnNumberVariant3("str", -1) == "NEGATIVE3: str-1"
    ensures ReturnNumberVariant3("str", 0) == "NULL3: str"
    ensures ReturnNumberVariant3("str", 1) == "POSITIVE3: str1"
    ensures ReturnNumberVariant4("str", -1) == "NEGATIVE4: str-1"
    ensures ReturnNumberVariant4("str", 0) == "NULL4: str"
    ensures ReturnNumberVariant4("str", 1) == "POSITIVE4: str1"
  {
    assert IntToString(-1) == "-1" && IntToString(1) == "1" by {
      SmallDecimals();
    }
  }

  /** The outputs tests/test_ai.cpp expects of variant 5. */
  lemma ExpectedAiVariant5()
    ensures ReturnNumberVariant5("str", -1) == "NEGATIVE5: str-1"
    ensures ReturnNumberVariant5("str", 0) == "NULL5: str"
    ensures ReturnNumberVariant5("str", 1) == "POSITIVE5: str1"
  {
    assert IntToString(-1) == "-1" && IntToString(1) == "1" by {
      SmallDecimals();
    }
  }
}
