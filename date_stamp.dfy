/** The output-file stamp `"" + year + (month + 1) + day` the three scripts build
    from the current date. The date parts are parameters; `month` is zero-based as
    `Date.getMonth()` returns it. */
module DateStamp {
  import opened JsValues

  function Stamp(year: nat, month: nat, day: nat): (s: string)
    ensures AllDigits(s)
    ensures |s| == |Decimal(year)| + |Decimal(month + 1)| + |Decimal(day)|
  {
    Decimal(year) + Decimal(month + 1) + Decimal(day)
  }

  /** The stamp is not zero-padded, so two different dates can share one stamp:
      11 January and 1 November 2014 both give "2014111". */
  lemma StampCollision()
    ensures Stamp(2014, 0, 11) == Stamp(2014, 10, 1) == "2014111"
  {
    assert Decimal(2) == "2";
    assert Decimal(20) == "20";
    assert Decimal(201) == "201";
    assert Decimal(2014) == "2014";
    assert Decimal(1) == "1";
    assert Decimal(11) == "11";
  }

  /** When the month number and the day both have two digits the stamp does name
      one date: year, month and day can be read back from it. */
  lemma StampInjectiveOnTwoDigitParts(y1: nat, m1: nat, d1: nat, y2: nat, m2: nat, d2: nat)
    requires 10 <= m1 + 1 < 100 && 10 <= d1 < 100
    requires 10 <= m2 + 1 < 100 && 10 <= d2 < 100
    requires Stamp(y1, m1, d1) == Stamp(y2, m2, d2)
    ensures y1 == y2 && m1 == m2 && d1 == d2
  {
    DecimalTwoDigits(m1 + 1);
    DecimalTwoDigits(d1);
    DecimalTwoDigits(m2 + 1);
    DecimalTwoDigits(d2);
    var s := Stamp(y1, m1, d1);
    var n := |s|;
    assert |Decimal(y1)| == n - 4 == |Decimal(y2)|;
    assert Decimal(y1) == s[..n - 4] == Decimal(y2);
    assert Decimal(m1 + 1) == s[n - 4..n - 2] == Decimal(m2 + 1);
    assert Decimal(d1) == s[n - 2..] == Decimal(d2);
    DecimalInjective(y1, y2);
    DecimalInjective(m1 + 1, m2 + 1);
    DecimalInjective(d1, d2);
  }
}
