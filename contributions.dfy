/** The yearly contribution count read from a profile page heading
    (User.py:149): `int(text.split()[0].replace(',', ''))`.

    The search for the heading in the page is not modelled; the input is
    the heading's text.
 */
module ContributionParse {
  import opened Wrappers

  /** A character `str.split()` splits on (the ASCII whitespace of Python). */
  predicate IsSpace(c: char)
  {
    c == ' ' || 9 <= c as int <= 13 || 28 <= c as int <= 31
  }

  /** An ASCII decimal digit. */
  predicate IsDigit(c: char)
  {
    '0' <= c <= '9'
  }

  /** A non-empty string of decimal digits: what `int()` accepts here. */
  predicate IsDecimal(s: string)
  {
    |s| > 0 && forall i :: 0 <= i < |s| ==> IsDigit(s[i])
  }

  /** Number of leading whitespace characters of `s`. */
  function LeadingSpaces(s: string): (k: nat)
    ensures k <= |s|
    ensures forall i :: 0 <= i < k ==> IsSpace(s[i])
    ensures k < |s| ==> !IsSpace(s[k])
  {
    if s == [] || !IsSpace(s[0]) then 0 else 1 + LeadingSpaces(s[1..])
  }

  /** Length of the longest prefix of `s` without whitespace. */
  function NonSpaceRun(s: string): (n: nat)
    ensures n <= |s|
    ensures forall i :: 0 <= i < n ==> !IsSpace(s[i])
    ensures n < |s| ==> IsSpace(s[n])
  {
    if s == [] || IsSpace(s[0]) then 0 else 1 + NonSpaceRun(s[1..])
  }

  /** `t` is the first whitespace-separated field of `s`, starting at `k`. */
  predicate IsFirstFieldAt(s: string, k: nat, t: string)
  {
    && k + |t| <= |s|
    && (forall i :: 0 <= i < k ==> IsSpace(s[i]))
    && s[k..k + |t|] == t
    && |t| > 0
    && (forall i :: 0 <= i < |t| ==> !IsSpace(t[i]))
    && (k + |t| == |s| || IsSpace(s[k + |t|]))
  }

  /** `s.split()[0]`, or `None` where Python raises IndexError because
      `s` holds no field. */
  function FirstField(s: string): (t: Option<string>)
    ensures t.None? <==> forall i :: 0 <= i < |s| ==> IsSpace(s[i])
    ensures t.Some? ==> IsFirstFieldAt(s, LeadingSpaces(s), t.value)
  {
    var k := LeadingSpaces(s);
    if k == |s| then None else Some(s[k..k + NonSpaceRun(s[k..])])
  }

  /** `s.replace(',', '')`. */
  function StripCommas(s: string): (r: string)
    ensures forall i :: 0 <= i < |r| ==> r[i] != ','
    ensures |r| <= |s|
  {
    if s == [] then []
    else if s[0] == ',' then StripCommas(s[1..])
    else [s[0]] + StripCommas(s[1..])
  }

  /** The number a string of decimal digits denotes. */
  function DecimalValue(s: string): nat
    requires forall i :: 0 <= i < |s| ==> IsDigit(s[i])
  {
    if s == [] then 0
    else
      var last := s[|s| - 1];
      assert IsDigit(last);
      10 * DecimalValue(s[..|s| - 1]) + (last as int - '0' as int)
  }

  /** The contribution count written at the start of `heading`, thousands
      separators allowed; IndexError when there is no field, ValueError when
      the field is not a decimal numeral once its commas are dropped. */
  function ParseContributions(heading: string): (r: Result<nat>)
    ensures r == Failure(IndexOutOfRange) <==> forall i :: 0 <= i < |heading| ==> IsSpace(heading[i])
    ensures r.Success? <==>
      FirstField(heading).Some? && IsDecimal(StripCommas(FirstField(heading).value))
    ensures r.Success? ==> r.value == DecimalValue(StripCommas(FirstField(heading).value))
    ensures r.Failure? ==> r.error in {IndexOutOfRange, BadValue}
  {
    match FirstField(heading)
    case None => Failure(IndexOutOfRange)
    case Some(field) =>
      var digits := StripCommas(field);
      if IsDecimal(digits) then Success(DecimalValue(digits)) else Failure(BadValue)
  }

  // ---------------------------------------------------------------------
  // The numerals the page writes, and the round trip through the parser

  /** The digit character of `d`. */
  function DigitChar(d: nat): char
    requires d < 10
  {
    ('0' as int + d) as char
  }

  /** The shortest decimal numeral of `n`. */
  function Decimal(n: nat): (s: string)
    ensures IsDecimal(s)
  {
    if n < 10 then [DigitChar(n)] else Decimal(n / 10) + [DigitChar(n % 10)]
  }

  /** Three digits for `r < 1000`, with leading zeros. */
  function Pad3(r: nat): (s: string)
    requires r < 1000
  {
    [DigitChar(r / 100), DigitChar(r / 10 % 10), DigitChar(r % 10)]
  }

  /** `n` written with a comma before every group of three digits, as in
      "1,234". */
  function WithThousands(n: nat): string
  {
    if n < 1000 then Decimal(n) else WithThousands(n / 1000) + "," + Pad3(n % 1000)
  }

  /** Reading a numeral back gives its number. */
  lemma {:induction false} DecimalValueOfDecimal(n: nat)
    ensures DecimalValue(Decimal(n)) == n
  {
    if n >= 10 {
      DecimalValueOfDecimal(n / 10);
      var s := Decimal(n);
      assert s[..|s| - 1] == Decimal(n / 10);
    }
  }

  /** Appending a digit to the numeral of a positive `m`. */
  lemma DecimalAppendDigit(m: nat, d: nat)
    requires m >= 1 && d < 10
    ensures Decimal(10 * m + d) == Decimal(m) + [DigitChar(d)]
  {
    assert (10 * m + d) / 10 == m;
    assert (10 * m + d) % 10 == d;
  }

  /** The numeral of `1000 * q + r`, for positive `q`, ends in the three
      padded digits of `r`. */
  lemma DecimalThousands(q: nat, r: nat)
    requires q >= 1 && r < 1000
    ensures Decimal(1000 * q + r) == Decimal(q) + Pad3(r)
  {
    var d0, d1, d2 := r % 10, r / 10 % 10, r / 100;
    assert r == 100 * d2 + 10 * d1 + d0;
    DecimalAppendDigit(q, d2);
    DecimalAppendDigit(10 * q + d2, d1);
    DecimalAppendDigit(100 * q + 10 * d2 + d1, d0);
    assert 10 * (10 * q + d2) + d1 == 100 * q + 10 * d2 + d1;
    assert 10 * (100 * q + 10 * d2 + d1) + d0 == 1000 * q + r;
  }

  /** Dropping commas distributes over concatenation. */
  lemma {:induction false} StripCommasAppend(a: string, b: string)
    ensures StripCommas(a + b) == StripCommas(a) + StripCommas(b)
  {
    if a != [] {
      assert (a + b)[1..] == a[1..] + b;
      StripCommasAppend(a[1..], b);
    } else {
      assert a + b == b;
    }
  }

  /** Dropping commas from one character: a comma goes, anything else stays. */
  lemma StripCommasOne(c: char)
    ensures StripCommas([c]) == if c == ',' then [] else [c]
  {
    assert [c][1..] == [];
  }

  /** Dropping commas keeps every other character, with its multiplicity. */
  lemma {:induction false} StripCommasKeeps(s: string)
    ensures multiset(StripCommas(s)) == multiset(s)[',' := 0]
  {
    if s != [] {
      assert s == [s[0]] + s[1..];
      StripCommasKeeps(s[1..]);
    }
  }

  /** A string without commas is left as it is. */
  lemma {:induction false} StripCommasNoComma(s: string)
    requires forall i :: 0 <= i < |s| ==> s[i] != ','
    ensures StripCommas(s) == s
  {
    if s != [] {
      StripCommasNoComma(s[1..]);
    }
  }

  /** Dropping the separators of a grouped numeral gives the plain numeral. */
  lemma {:induction false} StripWithThousands(n: nat)
    ensures StripCommas(WithThousands(n)) == Decimal(n)
  {
    if n < 1000 {
      StripCommasNoComma(Decimal(n));
    } else {
      var q, r := n / 1000, n % 1000;
      StripWithThousands(q);
      StripCommasAppend(WithThousands(q) + ",", Pad3(r));
      StripCommasAppend(WithThousands(q), ",");
      StripCommasNoComma(Pad3(r));
      DecimalThousands(q, r);
      assert n == 1000 * q + r;
    }
  }

  /** A grouped numeral is a non-empty string without whitespace. */
  lemma {:induction false} WithThousandsIsField(n: nat)
    ensures |WithThousands(n)| > 0
    ensures forall i :: 0 <= i < |WithThousands(n)| ==> !IsSpace(WithThousands(n)[i])
  {
    if n >= 1000 {
      WithThousandsIsField(n / 1000);
    }
  }

  /** A non-space word followed by the end or by whitespace is the first
      field. */
  lemma {:induction false} NonSpaceRunOfField(w: string, rest: string)
    requires forall i :: 0 <= i < |w| ==> !IsSpace(w[i])
    requires rest == [] || IsSpace(rest[0])
    ensures NonSpaceRun(w + rest) == |w|
  {
    if w != [] {
      assert (w + rest)[1..] == w[1..] + rest;
      NonSpaceRunOfField(w[1..], rest);
    } else {
      assert w + rest == rest;
    }
  }

  /** Round trip: a heading that starts with the grouped numeral of `n`,
      followed by whitespace or nothing, parses to `n`. */
  lemma ParseWithThousands(n: nat, rest: string)
    requires rest == [] || IsSpace(rest[0])
    ensures ParseContributions(WithThousands(n) + rest) == Success(n)
  {
    var w := WithThousands(n);
    var s := w + rest;
    WithThousandsIsField(n);
    assert LeadingSpaces(s) == 0;
    NonSpaceRunOfField(w, rest);
    assert s[0..|w|] == w;
    assert FirstField(s) == Some(w);
    StripWithThousands(n);
    DecimalValueOfDecimal(n);
  }

  /** The heading of the profile page for a user with 1234 contributions. */
  lemma ParseExample()
    ensures ParseContributions("1,234 contributions in the last year") == Success(1234)
  {
    assert Decimal(1) == "1";
    assert Pad3(234) == "234";
    assert WithThousands(1234) == "1,234";
    assert "1,234 contributions in the last year" == WithThousands(1234) + " contributions in the last year";
    ParseWithThousands(1234, " contributions in the last year");
  }
}
