/** JavaScript numbers as the lyrics code produces and compares them: the
    unary `+` coercion of a string, `*`, `+` and `<`. Values are exact reals;
    NaN is kept as its own case because it is what malformed timestamps and
    `+undefined` produce, and it changes how comparisons come out. */
module Numbers {
  import opened Strings

  datatype Num = NaN | Val(v: real)

  /** `a + b`: NaN if either side is NaN. */
  function Add(a: Num, b: Num): (r: Num)
    ensures r.Val? <==> a.Val? && b.Val?
    ensures r.Val? ==> r.v == a.v + b.v
  {
    if a.Val? && b.Val? then Val(a.v + b.v) else NaN
  }

  /** `a * k` for a finite factor `k`. */
  function Scale(a: Num, k: real): (r: Num)
    ensures r.Val? <==> a.Val?
    ensures r.Val? ==> r.v == a.v * k
  {
    if a.Val? then Val(a.v * k) else NaN
  }

  /** `t < n`: every comparison with NaN is false. */
  predicate Less(t: real, n: Num)
    ensures n == NaN ==> !Less(t, n)
  {
    n.Val? && t < n.v
  }

  predicate IsDigit(ch: char)
  {
    '0' <= ch <= '9'
  }

  predicate AllDigits(s: string)
  {
    forall i :: 0 <= i < |s| ==> IsDigit(s[i])
  }

  /** The value of a string of decimal digits (the empty string counts 0). */
  function DigitsValue(s: string): nat
    requires AllDigits(s)
    decreases |s|
  {
    if s == [] then 0
    else DigitsValue(s[..|s| - 1]) * 10 + (s[|s| - 1] as int - '0' as int)
  }

  /** The value of the digits after a decimal point: `0.frac`, which is below one. */
  function FractionValue(frac: string): (x: real)
    requires AllDigits(frac)
    ensures 0.0 <= x < 1.0
    decreases |frac|
  {
    if frac == [] then 0.0
    else
      assert AllDigits(frac[1..]) by {
        forall i | 0 <= i < |frac| - 1 ensures IsDigit(frac[1..][i]) {
          assert frac[1..][i] == frac[i + 1];
        }
      }
      ((frac[0] as int - '0' as int) as real + FractionValue(frac[1..])) / 10.0
  }

  /** The value written `whole.frac`. */
  function DecimalValue(whole: string, frac: string): real
    requires AllDigits(whole) && AllDigits(frac)
  {
    DigitsValue(whole) as real + FractionValue(frac)
  }

  /** Unary `+` on a string, for the forms a timestamp field takes: the empty
      string is 0, a run of digits with at most one `.` (and at least one digit)
      is its decimal value, anything else is NaN. */
  function ToNumber(s: string): (r: Num)
    ensures r.Val? ==> r.v >= 0.0
  {
    if s == "" then Val(0.0)
    else if '.' in s then
      var k := FirstIndex(s, '.');
      var whole, frac := s[..k], s[k + 1..];
      if AllDigits(whole) && AllDigits(frac) && |whole| + |frac| > 0
      then Val(DecimalValue(whole, frac))
      else NaN
    else if AllDigits(s) then Val(DigitsValue(s) as real)
    else NaN
  }

  /** A non-empty run of digits converts to its value. */
  lemma ToNumberInteger(s: string)
    requires |s| > 0 && AllDigits(s)
    ensures ToNumber(s) == Val(DigitsValue(s) as real)
  {
    assert forall i :: 0 <= i < |s| ==> s[i] != '.';
  }

  /** `whole.frac` with digit runs on both sides, not both empty, converts to its decimal value. */
  lemma ToNumberDecimal(whole: string, frac: string)
    requires AllDigits(whole) && AllDigits(frac) && |whole| + |frac| > 0
    ensures ToNumber(whole + "." + frac) == Val(DecimalValue(whole, frac))
  {
    var s := whole + "." + frac;
    assert s[|whole|] == '.';
    var k := FirstIndex(s, '.');
    assert k == |whole|;
    assert s[..k] == whole;
    assert s[k + 1..] == frac;
  }

  /** A character that is neither a digit nor the decimal point makes the result NaN. */
  lemma ToNumberStray(s: string, i: nat)
    requires i < |s| && !IsDigit(s[i]) && s[i] != '.'
    ensures ToNumber(s) == NaN
  {
    if '.' in s {
      var k := FirstIndex(s, '.');
      if i < k {
        assert s[..k][i] == s[i];
      } else {
        assert i > k;
        assert s[k + 1..][i - k - 1] == s[i];
      }
    }
  }

  /** The seconds field of the worked timestamp `01:23.50`. */
  lemma ToNumberExample()
    ensures ToNumber("23.50") == Val(23.5)
  {
    ToNumberDecimal("23", "50");
    assert "23" + "." + "50" == "23.50";
    assert DigitsValue("23") == 23 by {
      assert "23"[..1] == "2";
      assert DigitsValue("2") == 2 by { assert "2"[..0] == ""; }
    }
    assert FractionValue("50") == 0.5 by {
      assert "50"[1..] == "0";
      assert FractionValue("0") == 0.0 by { assert "0"[1..] == ""; }
    }
  }

  /** A zero-padded zero field. */
  lemma ToNumberZero()
    ensures ToNumber("00") == Val(0.0)
  {
    ToNumberInteger("00");
    assert DigitsValue("00") == 0;
  }
}
