/**
 * The decade filter of lib/yearRanges.ts: a label chosen in the search form becomes optional
 * lower and upper ISO release-date bounds ("YYYY-MM-DD"). ISO dates of equal length compare as
 * strings in date order, which is how the bounds are used.
 */
module YearRanges {
  import opened Wrappers
  import opened Text

  /** `{ gte?: string; lte?: string }` */
  datatype DateRange = DateRange(gte: Option<string>, lte: Option<string>)

  /** The four digits of a year below 10000. */
  function YearText(y: nat): (s: string)
    requires y < 10000
    ensures |s| == 4 && AllDigits(s) && DigitsValue(s) == y
  {
    var d0, d1, d2, d3 := y / 1000, y / 100 % 10, y / 10 % 10, y % 10;
    assert y / 100 == d0 * 10 + d1;
    assert y / 10 == y / 100 * 10 + d2;
    assert y == y / 10 * 10 + d3;
    var s := [DigitChar(d0), DigitChar(d1), DigitChar(d2), DigitChar(d3)];
    assert s[..1][..0] == [];
    assert DigitsValue(s[..1]) == d0;
    assert s[..2][..1] == s[..1];
    assert DigitsValue(s[..2]) == y / 100;
    assert s[..3][..2] == s[..2];
    assert DigitsValue(s[..3]) == y / 10;
    assert s[..4][..3] == s[..3] && s[..4] == s;
    s
  }

  /** The decades the form offers. */
  const DECADES: set<nat> := {2020, 2000, 1990, 1980, 1970}

  /** The range of the decade starting in year `d`: its first to its last day. */
  function Decade(d: nat): DateRange
    requires d + 9 < 10000
  {
    DateRange(Some(YearText(d) + "-01-01"), Some(YearText(d + 9) + "-12-31"))
  }

  /** `getYearRange(yearFilter)` */
  function YearRange(yearFilter: string): (r: DateRange)
    ensures r.gte.Some? ==> r.lte.Some?
    ensures r.lte.Some? <==> yearFilter in {"2020s", "2000s", "1990s", "1980s", "1970s", "earlier"}
  {
    match yearFilter
    case "2020s" => DateRange(Some("2020-01-01"), Some("2029-12-31"))
    case "2000s" => DateRange(Some("2000-01-01"), Some("2009-12-31"))
    case "1990s" => DateRange(Some("1990-01-01"), Some("1999-12-31"))
    case "1980s" => DateRange(Some("1980-01-01"), Some("1989-12-31"))
    case "1970s" => DateRange(Some("1970-01-01"), Some("1979-12-31"))
    case "earlier" => DateRange(None, Some("1969-12-31"))
    case _ => DateRange(None, None)
  }

  lemma DigitChars()
    ensures DigitChar(0) == '0' && DigitChar(1) == '1' && DigitChar(2) == '2'
    ensures DigitChar(6) == '6' && DigitChar(7) == '7' && DigitChar(8) == '8' && DigitChar(9) == '9'
  {
  }

  /** The text of a year with a known decade digit and last digit in the 1900s or 2000s. */
  lemma YearTextOf(y: nat, century: nat, decade: nat, last: nat)
    requires century in {19, 20} && decade < 10 && last < 10
    requires y == century * 100 + decade * 10 + last
    ensures YearText(y) ==
      [DigitChar(century / 10), DigitChar(century % 10), DigitChar(decade), DigitChar(last)]
  {
    assert y / 1000 == century / 10 && y / 100 % 10 == century % 10 by {
      if century == 19 {
        assert 1900 <= y < 2000;
      } else {
        assert 2000 <= y < 2100;
      }
    }
    assert y / 10 == century * 10 + decade && y % 10 == last;
  }

  /** Each offered decade label "Ds" covers its decade from the first to the last day. */
  lemma DecadeRanges(d: nat)
    requires d in DECADES
    ensures YearRange(YearText(d) + "s") == Decade(d)
  {
    if d == 2020 {
      Decade2020();
    } else if d == 2000 {
      Decade2000();
    } else if d == 1990 {
      Decade1990();
    } else if d == 1980 {
      Decade1980();
    } else {
      Decade1970();
    }
  }

  lemma Decade2020()
    ensures YearRange(YearText(2020) + "s") == Decade(2020)
  {
    DigitChars();
    assert "2020" + "s" == "2020s" && "2020" + "-01-01" == "2020-01-01";
    assert "2029" + "-12-31" == "2029-12-31";
    DecadeText(2020, 20, 2, "2020", "2029");
  }

  lemma Decade2000()
    ensures YearRange(YearText(2000) + "s") == Decade(2000)
  {
    DigitChars();
    assert "2000" + "s" == "2000s" && "2000" + "-01-01" == "2000-01-01";
    assert "2009" + "-12-31" == "2009-12-31";
    DecadeText(2000, 20, 0, "2000", "2009");
  }

  lemma Decade1990()
    ensures YearRange(YearText(1990) + "s") == Decade(1990)
  {
    DigitChars();
    assert "1990" + "s" == "1990s" && "1990" + "-01-01" == "1990-01-01";
    assert "1999" + "-12-31" == "1999-12-31";
    DecadeText(1990, 19, 9, "1990", "1999");
  }

  lemma Decade1980()
    ensures YearRange(YearText(1980) + "s") == Decade(1980)
  {
    DigitChars();
    assert "1980" + "s" == "1980s" && "1980" + "-01-01" == "1980-01-01";
    assert "1989" + "-12-31" == "1989-12-31";
    DecadeText(1980, 19, 8, "1980", "1989");
  }

  lemma Decade1970()
    ensures YearRange(YearText(1970) + "s") == Decade(1970)
  {
    DigitChars();
    assert "1970" + "s" == "1970s" && "1970" + "-01-01" == "1970-01-01";
    assert "1979" + "-12-31" == "1979-12-31";
    DecadeText(1970, 19, 7, "1970", "1979");
  }

  /** A decade whose first and last years, written out, label and bound its range. */
  lemma DecadeText(d: nat, century: nat, decade: nat, first: string, last: string)
    requires century in {19, 20} && decade < 10 && d == century * 100 + decade * 10
    requires first == [DigitChar(century / 10), DigitChar(century % 10), DigitChar(decade), '0']
    requires last == first[..3] + "9"
    requires YearRange(first + "s") == DateRange(Some(first + "-01-01"), Some(last + "-12-31"))
    ensures YearRange(YearText(d) + "s") == Decade(d)
  {
    YearTextOf(d, century, decade, 0);
    YearTextOf(d + 9, century, decade, 9);
    DigitChars();
    assert YearText(d) == first;
    assert YearText(d + 9) == last;
  }

  /** "earlier" has only an upper bound, the day before the 1970s start. */
  lemma EarlierRange()
    ensures YearRange("earlier") == DateRange(None, Some(YearText(1969) + "-12-31"))
  {
    DigitChars();
    YearTextOf(1969, 19, 6, 9);
    assert YearText(1969) == "1969";
    assert YearText(1969) + "-12-31" == "1969-12-31";
  }

  /** The 2010s are not offered: that label, like any other unknown one, sets no bound. */
  lemma TwentyTensUnbounded()
    ensures YearRange("2010s") == DateRange(None, None)
  {
  }

  /** Strict lexicographic order on strings. */
  predicate Less(a: string, b: string) {
    b != [] && (a == [] || a[0] < b[0] || (a[0] == b[0] && Less(a[1..], b[1..])))
  }

  lemma {:induction false} LessTrichotomy(a: string, b: string)
    ensures Less(a, b) || a == b || Less(b, a)
  {
    if a != [] && b != [] && a[0] == b[0] {
      LessTrichotomy(a[1..], b[1..]);
      if a[1..] == b[1..] {
        assert a == [a[0]] + a[1..] && b == [b[0]] + b[1..];
      }
    }
  }

  lemma {:induction false} LessTransitive(a: string, b: string, c: string)
    requires Less(a, b) && Less(b, c)
    ensures Less(a, c)
  {
    if a != [] && a[0] == b[0] && b[0] == c[0] {
      LessTransitive(a[1..], b[1..], c[1..]);
    }
  }

  lemma {:induction false} LessIrreflexive(a: string)
    ensures !Less(a, a)
  {
    if a != [] {
      LessIrreflexive(a[1..]);
    }
  }

  /** Whether a date lies within a range, both bounds included. */
  predicate Within(date: string, r: DateRange) {
    (r.gte.None? || !Less(date, r.gte.value)) && (r.lte.None? || !Less(r.lte.value, date))
  }

  /** When both bounds are present the lower one comes first, so the range is not empty. */
  lemma BoundsOrdered(yearFilter: string)
    requires YearRange(yearFilter).gte.Some?
    ensures Less(YearRange(yearFilter).gte.value, YearRange(yearFilter).lte.value)
  {
  }

  /** `x` ends before `y` starts. */
  predicate Precedes(x: DateRange, y: DateRange) {
    x.lte.Some? && y.gte.Some? && Less(x.lte.value, y.gte.value)
  }

  /** No date lies in two ranges of which one precedes the other. */
  lemma PrecedesDisjoint(x: DateRange, y: DateRange, date: string)
    requires Precedes(x, y)
    ensures !(Within(date, x) && Within(date, y))
  {
    if Within(date, x) && Within(date, y) {
      var l, g := x.lte.value, y.gte.value;
      LessTrichotomy(l, date);
      if date != l {
        LessTransitive(date, l, g);
      }
    }
  }

  /** The labels the form offers, from the oldest range to the newest. */
  const OFFERED: seq<string> := ["earlier", "1970s", "1980s", "1990s", "2000s", "2020s"]

  /** Each offered range ends before the next one starts. */
  lemma AdjacentPrecede(i: nat)
    requires i + 1 < |OFFERED|
    ensures Precedes(YearRange(OFFERED[i]), YearRange(OFFERED[i + 1]))
  {
    if i == 0 {
      assert OFFERED[i] == "earlier" && OFFERED[i + 1] == "1970s";
    } else if i == 1 {
      assert OFFERED[i] == "1970s" && OFFERED[i + 1] == "1980s";
    } else if i == 2 {
      assert OFFERED[i] == "1980s" && OFFERED[i + 1] == "1990s";
    } else if i == 3 {
      assert OFFERED[i] == "1990s" && OFFERED[i + 1] == "2000s";
    } else {
      assert OFFERED[i] == "2000s" && OFFERED[i + 1] == "2020s";
    }
  }

  /** Ranges in which each one ends before the next starts and every one after the first has a
      lower bound before its upper bound. */
  predicate Chained(rs: seq<DateRange>) {
    && (forall k :: 0 <= k < |rs| - 1 ==> Precedes(rs[k], rs[k + 1]))
    && (forall k :: 0 < k < |rs| ==> rs[k].gte.Some? && rs[k].lte.Some? && Less(rs[k].gte.value, rs[k].lte.value))
  }

  /** In a chain, any range ends before every later one starts. */
  lemma {:induction false} ChainedPrecede(rs: seq<DateRange>, i: nat, j: nat)
    requires Chained(rs) && i < j < |rs|
    ensures Precedes(rs[i], rs[j])
    decreases j - i
  {
    if i + 1 < j {
      ChainedPrecede(rs, i + 1, j);
      var x, m, y := rs[i], rs[i + 1], rs[j];
      assert Precedes(x, m);
      LessTransitive(x.lte.value, m.gte.value, m.lte.value);
      LessTransitive(x.lte.value, m.lte.value, y.gte.value);
    }
  }

  /** The offered ranges, oldest first. */
  function OfferedRanges(): (rs: seq<DateRange>)
    ensures |rs| == |OFFERED|
    ensures forall k :: 0 <= k < |rs| ==> rs[k] == YearRange(OFFERED[k])
  {
    seq(|OFFERED|, k requires 0 <= k < |OFFERED| => YearRange(OFFERED[k]))
  }

  /** The offered ranges form a chain. */
  lemma OfferedChained()
    ensures Chained(OfferedRanges())
  {
    var rs := OfferedRanges();
    forall k | 0 <= k < |rs| - 1
      ensures Precedes(rs[k], rs[k + 1])
    {
      AdjacentPrecede(k);
    }
    forall k | 0 < k < |rs|
      ensures rs[k].gte.Some? && rs[k].lte.Some? && Less(rs[k].gte.value, rs[k].lte.value)
    {
      AdjacentPrecede(k - 1);
      BoundsOrdered(OFFERED[k]);
    }
  }

  /** The six offered labels pick pairwise disjoint date ranges. */
  lemma RangesDisjoint(a: string, b: string, date: string)
    requires a in OFFERED && b in OFFERED && a != b
    ensures !(Within(date, YearRange(a)) && Within(date, YearRange(b)))
  {
    var i :| 0 <= i < |OFFERED| && OFFERED[i] == a;
    var j :| 0 <= j < |OFFERED| && OFFERED[j] == b;
    var rs := OfferedRanges();
    OfferedChained();
    if i < j {
      ChainedPrecede(rs, i, j);
      PrecedesDisjoint(YearRange(a), YearRange(b), date);
    } else {
      ChainedPrecede(rs, j, i);
      PrecedesDisjoint(YearRange(b), YearRange(a), date);
    }
  }
}
