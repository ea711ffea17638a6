/** The client's range check for the `-r` count and for a URL port. */
module Numbers {
  import opened LibC

  /**
   * isPositiveNumberUnder16Bit: a non-empty string that strtol consumes
   * completely and whose value lies in [1, 65535].
   */
  predicate IsPositiveNumberUnder16Bit(s: seq<char>) {
    s != [] && FullyConverted(s) && 0 < Strtol(s).value < 65536
  }

  /** On a plain numeral the check is exactly the range test. */
  lemma NumeralAccepted(d: seq<char>)
    requires |d| > 0 && AllDigits(d)
    ensures IsPositiveNumberUnder16Bit(d) <==> 0 < Decimal(d) < 65536
  {
    StrtolDigits(d);
  }

  /**
   * Every accepted string is leading whitespace followed by a numeral,
   * possibly with a '+' in front, whose value is in [1, 65535].
   */
  lemma AcceptedShape(s: seq<char>)
    requires IsPositiveNumberUnder16Bit(s)
    ensures var t := s[SpaceRun(s, 0)..];
      || (|t| > 0 && AllDigits(t) && 0 < Decimal(t) < 65536)
      || (|t| > 1 && t[0] == '+' && AllDigits(t[1..]) && 0 < Decimal(t[1..]) < 65536)
  {
    var i := SpaceRun(s, 0);
    var j := NumberStart(s);
    var k := |s|;
    assert Strtol(s).end == k;
    var d := s[j..k];
    assert AllDigits(d);
    if j == i {
      assert i > 0 ==> IsSpace(s[i - 1]);
      assert Strtol(s).value == Decimal(d);
      assert s[i..] == d;
    } else {
      assert s[i] == '+';
      assert Strtol(s).value == Decimal(d);
      assert s[i..][1..] == d;
    }
  }

  /** Leading whitespace and a '+' sign are admitted. */
  lemma SignedWithSpaceAccepted()
    ensures IsPositiveNumberUnder16Bit(" +7")
  {
    assert SpaceRun(" +7", 0) == 1;
    assert DigitRun(" +7", 2) == 3;
    assert " +7"[2..3] == "7";
    assert Decimal("7") == 7;
  }

  /** A negative value is refused. */
  lemma NegativeRefused()
    ensures !IsPositiveNumberUnder16Bit("-5")
  {
    assert SpaceRun("-5", 0) == 0;
    assert DigitRun("-5", 1) == 2;
    assert "-5"[1..2] == "5";
    assert Decimal("5") == 5;
  }

  /** Trailing text after the digits is refused. */
  lemma TrailingTextRefused()
    ensures !IsPositiveNumberUnder16Bit("12a")
  {
    assert SpaceRun("12a", 0) == 0;
    assert DigitRun("12a", 0) == 2;
  }

  /** 65535 is the largest accepted value. */
  lemma UpperBoundary()
    ensures IsPositiveNumberUnder16Bit("65535")
    ensures !IsPositiveNumberUnder16Bit("65536")
  {
    NumeralAccepted("65535");
    NumeralAccepted("65536");
    Decimal6553();
    assert "65535"[..4] == "6553" && "65536"[..4] == "6553";
  }

  lemma Decimal6553()
    ensures Decimal("6553") == 6553
  {
    assert "6553"[..3] == "655";
    assert "655"[..2] == "65";
    assert "65"[..1] == "6";
  }
}
