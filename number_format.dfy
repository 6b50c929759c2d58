/**
 Python's format specification "," for a non-negative integer (f"{n:,}"):
 the decimal digits of n, with a comma before every group of three digits
 counted from the right.
 */
module NumberFormat {

  predicate IsDigit(c: char) { '0' <= c <= '9' }

  predicate AllDigits(s: string)
  {
    forall i :: 0 <= i < |s| ==> IsDigit(s[i])
  }

  function DigitChar(d: nat): char
    requires d < 10
  {
    ('0' as int + d) as char
  }

  function DigitValue(c: char): nat
    requires IsDigit(c)
  {
    c as int - '0' as int
  }

  /** str(n): the decimal digits of n, with no leading zero unless n is zero. */
  function DecimalDigits(n: nat): (r: string)
    ensures |r| >= 1 && AllDigits(r)
    ensures r[0] == '0' <==> n == 0
  {
    if n < 10 then [DigitChar(n)] else DecimalDigits(n / 10) + [DigitChar(n % 10)]
  }

  /** int(s) for a string of decimal digits. */
  function ParseDecimal(s: string): nat
    requires AllDigits(s)
    decreases |s|
  {
    if s == [] then 0 else 10 * ParseDecimal(s[..|s| - 1]) + DigitValue(s[|s| - 1])
  }

  /** Reading the digits back gives the number. */
  lemma {:induction false} ParseDecimalDigits(n: nat)
    ensures ParseDecimal(DecimalDigits(n)) == n
  {
    var r := DecimalDigits(n);
    if n >= 10 {
      ParseDecimalDigits(n / 10);
      assert r[..|r| - 1] == DecimalDigits(n / 10);
    }
  }

  /** Inserts a comma before every complete group of three digits, from the right. */
  function GroupThousands(digits: string): string
    decreases |digits|
  {
    if |digits| <= 3 then digits
    else GroupThousands(digits[..|digits| - 3]) + "," + digits[|digits| - 3..]
  }

  /** f"{n:,}" */
  function FormatThousands(n: nat): string
  {
    GroupThousands(DecimalDigits(n))
  }

  /** s.replace(",", "") */
  function RemoveCommas(s: string): (r: string)
    decreases |s|
  {
    if s == [] then []
    else RemoveCommas(s[..|s| - 1]) + (if s[|s| - 1] == ',' then [] else [s[|s| - 1]])
  }

  lemma {:induction false} RemoveCommasAppend(a: string, b: string)
    ensures RemoveCommas(a + b) == RemoveCommas(a) + RemoveCommas(b)
    decreases |b|
  {
    if b == [] {
      assert a + b == a;
    } else {
      var b' := b[..|b| - 1];
      assert (a + b)[..|a + b| - 1] == a + b';
      RemoveCommasAppend(a, b');
    }
  }

  lemma {:induction false} RemoveCommasNoComma(s: string)
    requires AllDigits(s)
    ensures RemoveCommas(s) == s
    decreases |s|
  {
    if s != [] {
      RemoveCommasNoComma(s[..|s| - 1]);
      assert s == s[..|s| - 1] + [s[|s| - 1]];
    }
  }

  /**
   The shape of a number written with thousands separators, stated by
   position: counting from the right end, every fourth character is a comma
   and every other character is a digit; the length is not a multiple of
   four, so the leftmost group holds one to three digits and every later
   group exactly three.
   */
  ghost predicate WellGrouped(s: string)
  {
    && |s| % 4 != 0
    && forall i :: 0 <= i < |s| ==>
         (s[i] == ',' <==> (|s| - i) % 4 == 0) && (s[i] != ',' ==> IsDigit(s[i]))
  }

  /** Appending a comma and three digits to a well-grouped string keeps it well grouped. */
  lemma WellGroupedExtend(t: string, last: string)
    requires WellGrouped(t)
    requires |last| == 3 && AllDigits(last)
    ensures WellGrouped(t + "," + last)
  {
    var s := t + "," + last;
    forall i | 0 <= i < |s|
      ensures (s[i] == ',' <==> (|s| - i) % 4 == 0) && (s[i] != ',' ==> IsDigit(s[i]))
    {
      if i < |t| {
        assert s[i] == t[i];
        assert |s| - i == (|t| - i) + 4;
      } else if i > |t| {
        assert s[i] == last[i - |t| - 1];
      }
    }
  }

  /** A well-grouped string longer than one group ends in a comma and three digits. */
  lemma WellGroupedSplit(s: string)
    requires WellGrouped(s) && |s| > 3
    ensures |s| >= 5 && s[|s| - 4] == ','
    ensures s == s[..|s| - 4] + "," + s[|s| - 3..]
    ensures WellGrouped(s[..|s| - 4])
    ensures AllDigits(s[|s| - 3..])
  {
    var t, last := s[..|s| - 4], s[|s| - 3..];
    assert (|s| - (|s| - 4)) % 4 == 0;
    assert s == t + "," + last;
    forall i | 0 <= i < |t|
      ensures (t[i] == ',' <==> (|t| - i) % 4 == 0) && (t[i] != ',' ==> IsDigit(t[i]))
    {
      assert t[i] == s[i];
      assert |s| - i == (|t| - i) + 4;
    }
    forall i | 0 <= i < 3 ensures IsDigit(last[i]) {
      assert last[i] == s[|s| - 3 + i];
      assert |s| - (|s| - 3 + i) == 3 - i;
    }
  }

  /** The comma inserted before a group is the only character dropped. */
  lemma RemoveCommasStep(t: string, last: string)
    requires AllDigits(last)
    ensures RemoveCommas(t + "," + last) == RemoveCommas(t) + last
  {
    var tc := t + ",";
    assert tc[..|tc| - 1] == t && tc[|tc| - 1] == ',';
    assert RemoveCommas(tc) == RemoveCommas(t) + [];
    assert RemoveCommas(t) + [] == RemoveCommas(t);
    RemoveCommasAppend(tc, last);
    RemoveCommasNoComma(last);
  }

  /** The two pieces GroupThousands cuts a digit string into are digit strings. */
  lemma DigitsSplit(d: string)
    requires |d| > 3 && AllDigits(d)
    ensures AllDigits(d[..|d| - 3]) && |d[..|d| - 3]| >= 1
    ensures AllDigits(d[|d| - 3..]) && |d[|d| - 3..]| == 3
    ensures d == d[..|d| - 3] + d[|d| - 3..]
  {
  }

  /** One more group keeps the shape and adds its three digits. */
  lemma GroupStep(g: string, head: string, last: string)
    requires WellGrouped(g) && RemoveCommas(g) == head
    requires |last| == 3 && AllDigits(last)
    ensures WellGrouped(g + "," + last)
    ensures RemoveCommas(g + "," + last) == head + last
  {
    WellGroupedExtend(g, last);
    RemoveCommasStep(g, last);
  }

  /** Grouping a non-empty digit string gives a well-grouped string with the same digits. */
  lemma {:induction false} GroupThousandsShape(d: string)
    requires |d| >= 1 && AllDigits(d)
    ensures WellGrouped(GroupThousands(d))
    ensures RemoveCommas(GroupThousands(d)) == d
    decreases |d|
  {
    if |d| <= 3 {
      RemoveCommasNoComma(d);
    } else {
      var head, last := d[..|d| - 3], d[|d| - 3..];
      DigitsSplit(d);
      GroupThousandsShape(head);
      var g := GroupThousands(head);
      assert GroupThousands(d) == g + "," + last;
      GroupStep(g, head, last);
    }
  }

  /**
   There is only one well-grouped way to write a digit string, and it is the
   one GroupThousands produces.
   */
  lemma {:induction false} GroupThousandsUnique(s: string)
    requires WellGrouped(s)
    ensures AllDigits(RemoveCommas(s))
    ensures GroupThousands(RemoveCommas(s)) == s
    decreases |s|
  {
    if |s| <= 3 {
      forall i | 0 <= i < |s| ensures IsDigit(s[i]) {
        assert (|s| - i) % 4 != 0;
      }
      RemoveCommasNoComma(s);
    } else {
      WellGroupedSplit(s);
      var t, last := s[..|s| - 4], s[|s| - 3..];
      GroupThousandsUnique(t);
      RemoveCommasStep(t, last);
      var d := RemoveCommas(s);
      assert d == RemoveCommas(t) + last;
      assert d[..|d| - 3] == RemoveCommas(t);
      assert d[|d| - 3..] == last;
    }
  }

  /**
   f"{n:,}" is well grouped, and dropping its commas gives back str(n),
   which reads back as n.
   */
  lemma FormatThousandsRoundTrip(n: nat)
    ensures WellGrouped(FormatThousands(n))
    ensures RemoveCommas(FormatThousands(n)) == DecimalDigits(n)
    ensures ParseDecimal(DecimalDigits(n)) == n
  {
    GroupThousandsShape(DecimalDigits(n));
    ParseDecimalDigits(n);
  }

  /** Two well-grouped strings with the same digits are the same string. */
  lemma WellGroupedDeterminedByDigits(s: string, t: string)
    requires WellGrouped(s) && WellGrouped(t)
    requires RemoveCommas(s) == RemoveCommas(t)
    ensures s == t
  {
    GroupThousandsUnique(s);
    GroupThousandsUnique(t);
  }

  /** Two prices of the shipped catalog, written as the assistant writes them. */
  lemma FormatThousandsFiveDigits()
    ensures FormatThousands(23000) == "23,000"
  {
  }

  lemma FormatThousandsSixDigits()
    ensures FormatThousands(120000) == "120,000"
  {
  }
}
