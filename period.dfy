/** The period tag of a batch, read from the name of the directory the batch came from
    with Python's `datetime.strptime(name, "%b %Y")`, then re-rendered as
    `strftime("%b")` and `str(date.year)`.

    In the C locale the format accepts: one of the twelve three-letter month
    abbreviations, in any mix of ASCII case; then one or more whitespace characters
    (strptime turns the blank of the format into `\s+`); then exactly four decimal digits
    of any script (`%Y` is `\d\d\d\d`, and `\d` of a str pattern is Unicode's decimal
    digit class) and nothing after them; the year, as `int` reads the digits, must be at
    least 1, since `datetime` has no year 0. */
module Period {
  import opened Store

  const MonthAbbreviations: seq<string> :=
    ["Jan", "Feb", "Mar", "Apr", "May", "Jun", "Jul", "Aug", "Sep", "Oct", "Nov", "Dec"]

  /** The two tag values a batch's rows receive. */
  datatype Period = Period(month: string, year: string)

  /** The characters `\s` matches in a Python str pattern (those `str.isspace` accepts). */
  predicate IsSpace(c: char)
  {
    || c == ' ' || '\t' <= c <= '\r' || '\U{1c}' <= c <= '\U{1f}'
    || c == '\U{85}' || c == '\U{a0}' || c == '\U{1680}' || '\U{2000}' <= c <= '\U{200a}'
    || c == '\U{2028}' || c == '\U{2029}' || c == '\U{202f}' || c == '\U{205f}' || c == '\U{3000}'
  }

  predicate AllSpace(s: string)
  {
    forall i :: 0 <= i < |s| ==> IsSpace(s[i])
  }

  // ---------------------------------------------------------------------------
  // Decimal digits

  /** The number of runs of decimal digits: the characters of Unicode's general category
      Nd (Unicode 15.0, the version Python 3.12 carries) come in 68 runs, each holding the
      digits 0 to 9 at ten consecutive code points. */
  const DigitRuns: nat := 68

  /** The code point of the zero of the k-th run, the runs in ascending order. */
  function RunZero(k: nat): (z: int)
    requires k < DigitRuns
    ensures 0x30 <= z && z + 10 <= 0x2_0000 && (z + 10 <= 0xD800 || 0xE000 <= z)
  {
    match k
      case 0 => 0x30  case 1 => 0x660  case 2 => 0x6f0  case 3 => 0x7c0
      case 4 => 0x966  case 5 => 0x9e6  case 6 => 0xa66  case 7 => 0xae6
      case 8 => 0xb66  case 9 => 0xbe6  case 10 => 0xc66  case 11 => 0xce6
      case 12 => 0xd66  case 13 => 0xde6  case 14 => 0xe50  case 15 => 0xed0
      case 16 => 0xf20  case 17 => 0x1040  case 18 => 0x1090  case 19 => 0x17e0
      case 20 => 0x1810  case 21 => 0x1946  case 22 => 0x19d0  case 23 => 0x1a80
      case 24 => 0x1a90  case 25 => 0x1b50  case 26 => 0x1bb0  case 27 => 0x1c40
      case 28 => 0x1c50  case 29 => 0xa620  case 30 => 0xa8d0  case 31 => 0xa900
      case 32 => 0xa9d0  case 33 => 0xa9f0  case 34 => 0xaa50  case 35 => 0xabf0
      case 36 => 0xff10  case 37 => 0x104a0  case 38 => 0x10d30  case 39 => 0x11066
      case 40 => 0x110f0  case 41 => 0x11136  case 42 => 0x111d0  case 43 => 0x112f0
      case 44 => 0x11450  case 45 => 0x114d0  case 46 => 0x11650  case 47 => 0x116c0
      case 48 => 0x11730  case 49 => 0x118e0  case 50 => 0x11950  case 51 => 0x11c50
      case 52 => 0x11d50  case 53 => 0x11da0  case 54 => 0x11f50  case 55 => 0x16a60
      case 56 => 0x16ac0  case 57 => 0x16b50  case 58 => 0x1d7ce  case 59 => 0x1d7d8
      case 60 => 0x1d7e2  case 61 => 0x1d7ec  case 62 => 0x1d7f6  case 63 => 0x1e140
      case 64 => 0x1e2f0  case 65 => 0x1e4f0  case 66 => 0x1e950  case _ => 0x1fbf0
  }

  /** The runs do not overlap and come in ascending order. */
  lemma RunsAscending()
    ensures forall k: nat :: k < DigitRuns - 1 ==> RunZero(k) + 10 <= RunZero(k + 1)
  {
    // The solver finds the 67 comparisons faster when the runs are split into quarters.
    forall k: nat | k < DigitRuns - 1 ensures RunZero(k) + 10 <= RunZero(k + 1) {
      if k < 17 {} else if k < 34 {} else if k < 51 {} else {}
    }
  }

  /** The value `int` gives a character `\d` matches; None for any other character. */
  function DigitValue(c: char): (r: Option<nat>)
    ensures r.Some? ==> r.value < 10
    ensures '0' <= c <= '9' ==> r == Some(c as int - '0' as int)
  {
    DigitValueFrom(c, 0)
  }

  /** The scan of the runs from the k-th on; it stops at the first run that starts above
      the character. */
  function DigitValueFrom(c: char, k: nat): (r: Option<nat>)
    requires k <= DigitRuns
    ensures r.Some? ==> r.value < 10
    decreases DigitRuns - k
  {
    if k == DigitRuns || c as int < RunZero(k) then None
    else if c as int < RunZero(k) + 10 then Some(c as int - RunZero(k))
    else DigitValueFrom(c, k + 1)
  }

  /** Only the digits of the runs are found, each with its place in its run as its value. */
  lemma DigitValueSound(c: char)
    requires DigitValue(c).Some?
    ensures exists k: nat :: k < DigitRuns && c as int == RunZero(k) + DigitValue(c).value
  {
    DigitValueFromSound(c, 0);
  }

  lemma {:induction false} DigitValueFromSound(c: char, i: nat)
    requires i <= DigitRuns && DigitValueFrom(c, i).Some?
    ensures exists k: nat :: i <= k < DigitRuns && c as int == RunZero(k) + DigitValueFrom(c, i).value
    decreases DigitRuns - i
  {
    if c as int >= RunZero(i) + 10 {
      DigitValueFromSound(c, i + 1);
    }
  }

  /** Every digit of every run is found, with its place in the run as its value. */
  lemma DigitValueComplete(k: nat, v: nat)
    requires k < DigitRuns && v < 10
    ensures DigitValue((RunZero(k) + v) as char) == Some(v)
  {
    RunsAscending();
    DigitValueFromComplete(0, k, v);
  }

  lemma {:induction false} DigitValueFromComplete(i: nat, k: nat, v: nat)
    requires i <= k < DigitRuns && v < 10
    requires forall j: nat :: j < DigitRuns - 1 ==> RunZero(j) + 10 <= RunZero(j + 1)
    ensures DigitValueFrom((RunZero(k) + v) as char, i) == Some(v)
    decreases k - i
  {
    if i < k {
      RunsBelow(i, k);
      DigitValueFromComplete(i + 1, k, v);
    }
  }

  lemma {:induction false} RunsBelow(i: nat, k: nat)
    requires i < k < DigitRuns
    requires forall j: nat :: j < DigitRuns - 1 ==> RunZero(j) + 10 <= RunZero(j + 1)
    ensures RunZero(i) + 10 <= RunZero(k)
    decreases k - i
  {
    if i + 1 < k {
      RunsBelow(i + 1, k);
    }
  }

  predicate IsDigit(c: char)
  {
    DigitValue(c).Some?
  }

  predicate AllDigits(s: string)
  {
    forall i :: 0 <= i < |s| ==> IsDigit(s[i])
  }

  /** `int(digits)`: the decimal value of a run of digits, most significant first. */
  function DigitsValue(d: string): nat
    requires AllDigits(d)
    decreases |d|
  {
    if d == [] then 0 else DigitsValue(d[..|d| - 1]) * 10 + DigitValue(d[|d| - 1]).value
  }

  function Pow10(k: nat): (p: nat)
    ensures p >= 1
  {
    if k == 0 then 1 else 10 * Pow10(k - 1)
  }

  /** k digits are worth less than 10^k. */
  lemma {:induction false} DigitsValueBound(d: string)
    requires AllDigits(d)
    ensures DigitsValue(d) < Pow10(|d|)
    decreases |d|
  {
    if d != [] {
      DigitsValueBound(d[..|d| - 1]);
    }
  }

  /** The value of four digits, written out place by place. */
  lemma FourDigits(d: string)
    requires |d| == 4 && AllDigits(d)
    ensures DigitsValue(d) == ((DigitValue(d[0]).value * 10 + DigitValue(d[1]).value) * 10
      + DigitValue(d[2]).value) * 10 + DigitValue(d[3]).value
  {
    var a, b, c := d[..3], d[..3][..2], d[..3][..2][..1];
    assert DigitsValue(c) == DigitValue(d[0]).value by {
      assert c[..0] == [];
    }
    assert DigitsValue(b) == DigitsValue(c) * 10 + DigitValue(d[1]).value;
    assert DigitsValue(a) == DigitsValue(b) * 10 + DigitValue(d[2]).value;
  }

  /** A year text as `str(date.year)` prints it: one to four ASCII digits, no leading zero. */
  predicate IsYearText(y: string)
  {
    1 <= |y| <= 4 && (forall i :: 0 <= i < |y| ==> '0' <= y[i] <= '9') && y[0] != '0'
  }

  /** `str` of a year between 1 and 9999 is a year text. */
  lemma YearTextOf(n: nat)
    requires 1 <= n < 10000
    ensures IsYearText(NatToString(n))
  {
    NatToStringLength(n, 4);
  }

  lemma {:induction false} NatToStringLength(n: nat, k: nat)
    requires 1 <= k && n < Pow10(k)
    ensures |NatToString(n)| <= k
    ensures 1 <= n < 10 ==> NatToString(n)[0] != '0'
    decreases k
  {
    if n >= 10 {
      NatToStringLength(n / 10, k - 1);
    }
  }

  /** The round trip `str(int(y))` of a year text: reading it and printing it back gives the
      same text. */
  lemma {:induction false} YearTextRoundTrip(y: string)
    requires 1 <= |y| && (forall i :: 0 <= i < |y| ==> '0' <= y[i] <= '9') && y[0] != '0'
    ensures AllDigits(y) && DigitsValue(y) >= 1 && NatToString(DigitsValue(y)) == y
    decreases |y|
  {
    var n := |y|;
    var v := y[n - 1] as int - '0' as int;
    assert DigitValue(y[n - 1]) == Some(v);
    if n == 1 {
      assert y[..0] == [];
      assert NatToString(v) == [DigitChar(v)];
    } else {
      var p := y[..n - 1];
      YearTextRoundTrip(p);
      assert y[n - 1..] == [y[n - 1]];
      assert y == p + y[n - 1..];
      AppendDigit(p, y[n - 1]);
    }
  }

  /** One more ASCII digit after a run whose printed value is the run itself. */
  lemma AppendDigit(p: string, c: char)
    requires '0' <= c <= '9'
    requires AllDigits(p) && DigitsValue(p) >= 1 && NatToString(DigitsValue(p)) == p
    ensures AllDigits(p + [c]) && DigitsValue(p + [c]) >= 1 && NatToString(DigitsValue(p + [c])) == p + [c]
  {
    var y := p + [c];
    var v := c as int - '0' as int;
    assert DigitValue(c) == Some(v);
    assert y[..|y| - 1] == p;
    var x := DigitsValue(p);
    assert DigitsValue(y) == x * 10 + v;
    DivModTen(x, v);
    assert DigitChar(v) == c;
  }

  lemma DivModTen(x: nat, v: nat)
    requires v < 10
    ensures (x * 10 + v) / 10 == x && (x * 10 + v) % 10 == v
  {
  }

  // ---------------------------------------------------------------------------
  // Months

  /** Case-insensitive matching of a three-character prefix against an abbreviation.
      Under IGNORECASE the regex also takes four non-ASCII letters: the long s for `s`, the
      dotted and dotless i for `i`, and the Kelvin sign for `k`. No abbreviation has an `i`
      or a `k`. For the long s, strptime looks the lower-cased text up among the
      lower-case abbreviations, `str.lower` leaves the long s as it is, and the lookup
      raises ValueError. So what is accepted is exactly an ASCII-case variant of an
      abbreviation. */
  predicate MatchesMonth(a: string, month: string)
    requires |month| == 3
  {
    |a| == 3 && forall i :: 0 <= i < 3 ==> LowerChar(a[i]) == LowerChar(month[i])
  }

  /** Which abbreviation (if any) a three-character prefix spells. */
  function MonthIndex(a: string): (r: Option<nat>)
    ensures r.Some? ==> r.value < 12 && MatchesMonth(a, MonthAbbreviations[r.value])
    ensures r.None? ==> forall k :: 0 <= k < 12 ==> !MatchesMonth(a, MonthAbbreviations[k])
  {
    MonthIndexFrom(a, 0)
  }

  function MonthIndexFrom(a: string, k: nat): (r: Option<nat>)
    requires k <= 12
    ensures r.Some? ==> k <= r.value < 12 && MatchesMonth(a, MonthAbbreviations[r.value])
    ensures r.None? ==> forall j :: k <= j < 12 ==> !MatchesMonth(a, MonthAbbreviations[j])
    decreases 12 - k
  {
    if k == 12 then None
    else if MatchesMonth(a, MonthAbbreviations[k]) then Some(k)
    else MonthIndexFrom(a, k + 1)
  }

  /** `strptime(dirName, "%b %Y")` followed by `strftime("%b")` and `str(date.year)`;
      None where strptime raises ValueError. */
  function ParsePeriod(dirName: string): (r: Option<Period>)
    ensures r.Some? ==> r.value.month in MonthAbbreviations
    ensures r.Some? ==> IsYearText(r.value.year)
  {
    if |dirName| < 8 then None
    else
      var m := MonthIndex(dirName[..3]);
      var digits := dirName[|dirName| - 4..];
      if m.None? || !AllSpace(dirName[3..|dirName| - 4]) || !AllDigits(digits) then None
      else
        var year := DigitsValue(digits);
        if year == 0 then None
        else
          DigitsValueBound(digits);
          YearTextOf(year);
          Some(Period(MonthAbbreviations[m.value], NatToString(year)))
  }

  /** An abbreviation spells one month, so a prefix spells at most one. */
  lemma MonthMatchUnique(a: string, k: nat, j: nat)
    requires k < 12 && j < 12
    requires MatchesMonth(a, MonthAbbreviations[k]) && MatchesMonth(a, MonthAbbreviations[j])
    ensures k == j
  {
    var m, n := MonthAbbreviations[k], MonthAbbreviations[j];
    assert LowerChar(m[0]) == LowerChar(n[0]);
    assert LowerChar(m[1]) == LowerChar(n[1]);
    assert LowerChar(m[2]) == LowerChar(n[2]);
  }

  /** Every name strptime accepts is a month spelling, a non-empty whitespace run and four
      decimal digits worth at least 1, and its tag is the canonical abbreviation with the
      year `int` reads from the digits, as `str` prints it. */
  lemma ParsedNameShape(s: string)
    requires ParsePeriod(s).Some?
    ensures |s| >= 8
    ensures var p := ParsePeriod(s).value; var ws := s[3..|s| - 4]; var d := s[|s| - 4..];
      && s == s[..3] + ws + d
      && MatchesMonth(s[..3], p.month)
      && |ws| >= 1 && AllSpace(ws)
      && AllDigits(d) && DigitsValue(d) >= 1
      && p.year == NatToString(DigitsValue(d))
  {
    ParsedNameFields(s);
    SplitThree(s, 3, |s| - 4);
  }

  lemma ParsedNameFields(s: string)
    requires ParsePeriod(s).Some?
    ensures |s| >= 8
    ensures var p := ParsePeriod(s).value; var ws := s[3..|s| - 4]; var d := s[|s| - 4..];
      && MonthIndex(s[..3]).Some? && p.month == MonthAbbreviations[MonthIndex(s[..3]).value]
      && |ws| >= 1 && AllSpace(ws)
      && AllDigits(d) && DigitsValue(d) >= 1
      && p.year == NatToString(DigitsValue(d))
  {
  }

  lemma SplitThree(s: string, i: nat, j: nat)
    requires i <= j <= |s|
    ensures s == s[..i] + s[i..j] + s[j..]
  {
  }

  /** Conversely, every such name parses, to its canonical month and its year. */
  lemma {:induction false} ParsesEveryPeriodName(a: string, ws: string, m: nat, d: string)
    requires m < 12 && MatchesMonth(a, MonthAbbreviations[m])
    requires |ws| >= 1 && AllSpace(ws)
    requires |d| == 4 && AllDigits(d) && DigitsValue(d) >= 1
    ensures ParsePeriod(a + ws + d) == Some(Period(MonthAbbreviations[m], NatToString(DigitsValue(d))))
  {
    var s := a + ws + d;
    assert s[..3] == a;
    assert s[3..|s| - 4] == ws;
    assert s[|s| - 4..] == d;
    var k := MonthIndex(a);
    MonthMatchUnique(a, k.value, m);
  }

  /** The round trip `strptime(strftime(date, "%b %Y"), "%b %Y")`: the canonical rendering
      of a period with a four-digit year parses back to that period. */
  lemma CanonicalNamesParse(m: nat, year: string)
    requires m < 12 && |year| == 4 && IsYearText(year)
    ensures ParsePeriod(MonthAbbreviations[m] + " " + year) == Some(Period(MonthAbbreviations[m], year))
  {
    assert MatchesMonth(MonthAbbreviations[m], MonthAbbreviations[m]);
    YearTextRoundTrip(year);
    ParsesEveryPeriodName(MonthAbbreviations[m], " ", m, year);
  }

  /** Names the ingestors skip: a full month name, a missing separator, a two-digit year,
      year 0, a trailing blank, and a month spelled with the long s. */
  lemma RejectedNames()
    ensures ParsePeriod("January 2020") == None
    ensures ParsePeriod("Jan2020") == None
    ensures ParsePeriod("Jan 20") == None
    ensures ParsePeriod("Jan 0000") == None
    ensures ParsePeriod("Jan 2020 ") == None
    ensures ParsePeriod("\U{17f}ep 2020") == None
  {
    RejectsFullMonthName();
    RejectsTrailingBlank();
    RejectsYearZero();
    RejectsLongS();
  }

  lemma RejectsFullMonthName()
    ensures ParsePeriod("January 2020") == None
  {
    assert !IsSpace("January 2020"[3]);
    assert !AllSpace("January 2020"[3..8]);
  }

  lemma RejectsTrailingBlank()
    ensures ParsePeriod("Jan 2020 ") == None
  {
    assert !IsDigit("Jan 2020 "[8]);
    assert !AllDigits("Jan 2020 "[5..]);
  }

  lemma RejectsYearZero()
    ensures ParsePeriod("Jan 0000") == None
  {
    ZeroYear();
    assert "Jan 0000"[4..] == "0000";
  }

  lemma RejectsLongS()
    ensures ParsePeriod("\U{17f}ep 2020") == None
  {
    LongSIsNoMonth();
    assert "\U{17f}ep 2020"[..3] == "\U{17f}ep";
  }

  lemma ZeroYear()
    ensures AllDigits("0000") && DigitsValue("0000") == 0
  {
    assert AllDigits("0000") by {
      assert DigitValue('0') == Some(0);
    }
    FourDigits("0000");
  }

  lemma LongSIsNoMonth()
    ensures MonthIndex("\U{17f}ep").None?
  {
    assert LowerChar("\U{17f}ep"[0]) == '\U{17f}';
    assert forall k :: 0 <= k < 12 ==> 'A' <= MonthAbbreviations[k][0] <= 'Z';
  }

  /** The canonical spelling the source's directories use. */
  lemma AcceptsCanonicalName()
    ensures ParsePeriod("Jan 2020") == Some(Period("Jan", "2020"))
  {
    assert "Jan 2020" == MonthAbbreviations[0] + " " + "2020";
    CanonicalNamesParse(0, "2020");
  }

  /** Case is ignored and any whitespace run separates the fields. */
  lemma AcceptsLowerCaseAndTab()
    ensures ParsePeriod("jan\t 2020") == Some(Period("Jan", "2020"))
  {
    YearTextRoundTrip("2020");
    assert "jan\t 2020" == "jan" + "\t " + "2020";
    ParsesEveryPeriodName("jan", "\t ", 0, "2020");
  }

  /** A year written with a leading zero is tagged without it. */
  lemma TagsYearWithoutLeadingZero()
    ensures ParsePeriod("Jan 0999") == Some(Period("Jan", "999"))
  {
    YearWithLeadingZero();
    assert "Jan 0999" == "Jan" + " " + "0999";
    ParsesEveryPeriodName("Jan", " ", 0, "0999");
  }

  lemma YearWithLeadingZero()
    ensures AllDigits("0999") && DigitsValue("0999") == 999
    ensures NatToString(999) == "999"
  {
    YearTextRoundTrip("999");
    var d := "0999";
    assert AllDigits(d) by {
      assert DigitValue('0') == Some(0) && DigitValue('9') == Some(9);
    }
    FourDigits(d);
    assert DigitsValue("999") == 999 by {
      assert "999"[..2][..1][..0] == [];
    }
  }

  /** Years in any script's decimal digits are read by value: fullwidth `２０２０` is 2020. */
  lemma AcceptsFullwidthYear()
    ensures ParsePeriod("Jan \U{ff12}\U{ff10}\U{ff12}\U{ff10}") == Some(Period("Jan", "2020"))
  {
    var d := "\U{ff12}\U{ff10}\U{ff12}\U{ff10}";
    FullwidthYear();
    PrintsYear2020();
    assert MatchesMonth("Jan", MonthAbbreviations[0]);
    ParsesEveryPeriodName("Jan", " ", 0, d);
    assert "Jan " + d == "Jan" + " " + d;
  }

  lemma PrintsYear2020()
    ensures NatToString(2020) == "2020"
  {
    assert NatToString(2) == "2";
    assert NatToString(20) == "20";
    assert NatToString(202) == "202";
  }

  lemma FullwidthYear()
    ensures AllDigits("\U{ff12}\U{ff10}\U{ff12}\U{ff10}")
    ensures DigitsValue("\U{ff12}\U{ff10}\U{ff12}\U{ff10}") == 2020
  {
    FullwidthDigits();
    FourDigits("\U{ff12}\U{ff10}\U{ff12}\U{ff10}");
  }

  lemma FullwidthDigits()
    ensures DigitValue('\U{ff10}') == Some(0) && DigitValue('\U{ff12}') == Some(2)
  {
    DigitValueComplete(36, 0);
    DigitValueComplete(36, 2);
  }
}
