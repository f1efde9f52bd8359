/**
 * Calendar dates and the part of Python's `datetime.strptime` the program
 * uses.
 *
 * `strptime` turns its format into one regular expression, matches it at the
 * start of the input ignoring case (first successful alternative wins, with
 * backtracking), refuses the input when characters are left over, and then
 * refuses dates the Gregorian calendar does not have.  The directives used
 * are `%Y` (exactly four digits), `%m` (alternatives `1[0-2]`, `0[1-9]`,
 * `[1-9]`), `%d` (alternatives `3[01]`, `[12]\d`, `0[1-9]`, `[1-9]`,
 * ` [1-9]`), tried in that order, `%b` and `%B` (the English month names of
 * the C locale, abbreviated or in full), and whitespace in the format, which
 * matches a run of one or more whitespace characters, longest first.
 */
module Dates {
  import opened Text

  predicate IsLeap(y: int)
  {
    y % 4 == 0 && (y % 100 != 0 || y % 400 == 0)
  }

  function DaysInMonth(y: int, m: int): int
    requires 1 <= m <= 12
  {
    if m == 2 then (if IsLeap(y) then 29 else 28)
    else if m == 4 || m == 6 || m == 9 || m == 11 then 30
    else 31
  }

  /** What `datetime.date(y, m, d)` accepts. */
  predicate ValidDate(y: int, m: int, d: int)
  {
    1 <= y <= 9999 && 1 <= m <= 12 && 1 <= d <= DaysInMonth(y, m)
  }

  datatype Date = Date(year: nat, month: nat, day: nat)
  {
    predicate Valid() { ValidDate(year, month, day) }
  }

  /** `strftime("%Y-%m-%d")`, the year zero-padded to four digits. */
  function IsoFormat(d: Date): string
  {
    PadNat(d.year, 4) + "-" + PadNat(d.month, 2) + "-" + PadNat(d.day, 2)
  }

  /**
   * One directive of a `strptime` format: `%Y`, `%m`, `%d`, `%b`, `%B`,
   * whitespace, or a literal character.
   */
  datatype Directive = Year4 | Month | Day | MonthAbbr | MonthName | Space | Lit(c: char)

  /** The formats the program passes to `strptime`. */
  const YmdDash: seq<Directive> := [Year4, Lit('-'), Month, Lit('-'), Day]
  const YmdCompact: seq<Directive> := [Year4, Month, Day]
  const MdySlash: seq<Directive> := [Month, Lit('/'), Day, Lit('/'), Year4]
  const YearOnly: seq<Directive> := [Year4]
  /** "%d %b %Y", "%b %d, %Y" and "%B %d, %Y". */
  const DayMonYear: seq<Directive> := [Day, Space, MonthAbbr, Space, Year4]
  const MonDayYear: seq<Directive> := [MonthAbbr, Space, Day, Lit(','), Space, Year4]
  const MonthDayYear: seq<Directive> := [MonthName, Space, Day, Lit(','), Space, Year4]

  /** The month names of the C locale, lower-cased as `strptime` compares them. */
  const MonthAbbrs: seq<string> := ["jan", "feb", "mar", "apr", "may", "jun", "jul", "aug", "sep", "oct", "nov", "dec"]
  const MonthNames: seq<string> := ["january", "february", "march", "april", "may", "june", "july", "august",
                                    "september", "october", "november", "december"]

  /**
   * The names from `names[k]` on that the text spells at `i`, ignoring
   * case: (month number, index after the name).
   */
  function NameAlternatives(names: seq<string>, s: string, i: nat, k: nat): seq<(nat, nat)>
    decreases |names| - k
  {
    if k >= |names| then []
    else
      var n := names[k];
      (if i + |n| <= |s| && Lower(s[i..i + |n|]) == n then [(k + 1, i + |n|)] else [])
      + NameAlternatives(names, s, i, k + 1)
  }

  /** The end of the whitespace run starting at `i`. */
  function WhitespaceEnd(s: string, i: nat): (e: nat)
    requires i <= |s|
    ensures i <= e <= |s| && (e == |s| || !IsSpace(s[e]))
    ensures forall k :: i <= k < e ==> IsSpace(s[k])
    decreases |s| - i
  {
    if i < |s| && IsSpace(s[i]) then WhitespaceEnd(s, i + 1) else i
  }

  /** `\s+` at `i`, ending at `e` or earlier: the longest run first. */
  function SpaceAlternatives(i: nat, e: nat): seq<(nat, nat)>
    decreases e
  {
    if e <= i then [] else [(0, e)] + SpaceAlternatives(i, e - 1)
  }

  datatype Fields = Fields(year: Option<nat>, month: Option<nat>, day: Option<nat>)

  /**
   * The ways directive `d` can match at index `i` of `s`, in the order the
   * regular expression engine tries them: (value, index after the match).
   */
  function Alternatives(d: Directive, s: string, i: nat): seq<(nat, nat)>
  {
    match d
    case Year4 =>
      if i + 4 <= |s| && AllDigits(s[i..i + 4]) then [(DigitsValue(s[i..i + 4]), i + 4)] else []
    case Month =>
      (if i + 2 <= |s| && s[i] == '1' && '0' <= s[i + 1] <= '2'
       then [(10 + DigitValue(s[i + 1]), i + 2)] else [])
      + (if i + 2 <= |s| && s[i] == '0' && '1' <= s[i + 1] <= '9'
         then [(DigitValue(s[i + 1]), i + 2)] else [])
      + (if i + 1 <= |s| && '1' <= s[i] <= '9' then [(DigitValue(s[i]), i + 1)] else [])
    case Day =>
      (if i + 2 <= |s| && s[i] == '3' && '0' <= s[i + 1] <= '1'
       then [(30 + DigitValue(s[i + 1]), i + 2)] else [])
      + (if i + 2 <= |s| && '1' <= s[i] <= '2' && IsDigit(s[i + 1])
         then [(10 * DigitValue(s[i]) + DigitValue(s[i + 1]), i + 2)] else [])
      + (if i + 2 <= |s| && s[i] == '0' && '1' <= s[i + 1] <= '9'
         then [(DigitValue(s[i + 1]), i + 2)] else [])
      + (if i + 1 <= |s| && '1' <= s[i] <= '9' then [(DigitValue(s[i]), i + 1)] else [])
      + (if i + 2 <= |s| && s[i] == ' ' && '1' <= s[i + 1] <= '9'
         then [(DigitValue(s[i + 1]), i + 2)] else [])
    case MonthAbbr => NameAlternatives(MonthAbbrs, s, i, 0)
    case MonthName => NameAlternatives(MonthNames, s, i, 0)
    case Space => if i <= |s| then SpaceAlternatives(i, WhitespaceEnd(s, i)) else []
    case Lit(c) =>
      if i < |s| && s[i] == c then [(0, i + 1)] else []
  }

  function Record(f: Fields, d: Directive, v: nat): Fields
  {
    match d
    case Year4 => f.(year := Some(v))
    case Month => f.(month := Some(v))
    case Day => f.(day := Some(v))
    case MonthAbbr => f.(month := Some(v))
    case MonthName => f.(month := Some(v))
    case Space => f
    case Lit(_) => f
  }

  /** The first match of the directives `fmt` at index `i`, as the engine finds it. */
  function MatchFrom(fmt: seq<Directive>, s: string, i: nat, f: Fields): Option<(Fields, nat)>
    decreases |fmt|, 1, 0
  {
    if |fmt| == 0 then Some((f, i)) else TryAlternatives(fmt, s, Alternatives(fmt[0], s, i), f)
  }

  function TryAlternatives(fmt: seq<Directive>, s: string, alts: seq<(nat, nat)>, f: Fields): Option<(Fields, nat)>
    requires |fmt| > 0
    decreases |fmt|, 0, |alts|
  {
    if |alts| == 0 then None
    else
      var r := MatchFrom(fmt[1..], s, alts[0].1, Record(f, fmt[0], alts[0].0));
      if r.Some? then r else TryAlternatives(fmt, s, alts[1..], f)
  }

  /** `datetime.strptime(s, fmt)`: `None` where Python raises `ValueError`. */
  function Strptime(s: string, fmt: seq<Directive>): Option<Date>
  {
    var hit := MatchFrom(fmt, s, 0, Fields(None, None, None));
    if hit.None? || hit.value.1 != |s| then None
    else
      var f := hit.value.0;
      var y := if f.year.Some? then f.year.value else 1900;
      var m := if f.month.Some? then f.month.value else 1;
      var d := if f.day.Some? then f.day.value else 1;
      if ValidDate(y, m, d) then Some(Date(y, m, d)) else None
  }

  /** Trying each format in turn and keeping the first that parses. */
  function FirstParse(s: string, fmts: seq<seq<Directive>>): Option<Date>
  {
    if |fmts| == 0 then None
    else
      var r := Strptime(s, fmts[0]);
      if r.Some? then r else FirstParse(s, fmts[1..])
  }

  /** Every date `Strptime` yields is a real calendar date. */
  lemma {:induction false} StrptimeValid(s: string, fmt: seq<Directive>)
    ensures Strptime(s, fmt).Some? ==> Strptime(s, fmt).value.Valid()
  {
  }

  lemma {:induction false} FirstParseValid(s: string, fmts: seq<seq<Directive>>)
    ensures FirstParse(s, fmts).Some? ==> FirstParse(s, fmts).value.Valid()
  {
    if |fmts| > 0 {
      StrptimeValid(s, fmts[0]);
      FirstParseValid(s, fmts[1..]);
    }
  }

  lemma PadTwo(n: nat)
    requires n < 100
    ensures PadNat(n, 2) == [DigitChar(n / 10), DigitChar(n % 10)]
  {
    if n >= 10 {
      assert NatToString(n / 10) == [DigitChar(n / 10)];
    }
  }

  lemma PadFour(n: nat)
    requires n < 10000
    ensures PadNat(n, 4) == [DigitChar(n / 1000), DigitChar(n / 100 % 10), DigitChar(n / 10 % 10), DigitChar(n % 10)]
  {
    var d3, d2, d1, d0 := n / 1000, n / 100 % 10, n / 10 % 10, n % 10;
    assert n / 10 / 10 == n / 100 && n / 100 / 10 == n / 1000;
    if n >= 1000 {
      assert NatToString(n / 100) == [DigitChar(d3), DigitChar(d2)];
      assert NatToString(n / 10) == [DigitChar(d3), DigitChar(d2), DigitChar(d1)];
      assert NatToString(n) == [DigitChar(d3), DigitChar(d2), DigitChar(d1), DigitChar(d0)];
    } else if n >= 100 {
      assert NatToString(n / 10) == [DigitChar(d2), DigitChar(d1)];
      assert NatToString(n) == [DigitChar(d2), DigitChar(d1), DigitChar(d0)];
    } else if n >= 10 {
      assert NatToString(n) == [DigitChar(d1), DigitChar(d0)];
    }
  }

  lemma DigitRoundTrip(n: nat)
    requires n < 10
    ensures IsDigit(DigitChar(n)) && DigitValue(DigitChar(n)) == n
  {
  }

  /** The `%m` directive reads a zero-padded month back as that month. */
  lemma MonthAlternative(s: string, i: nat, m: nat)
    requires 1 <= m <= 12 && i + 2 <= |s| && s[i..i + 2] == PadNat(m, 2)
    ensures |Alternatives(Month, s, i)| > 0 && Alternatives(Month, s, i)[0] == (m, i + 2)
  {
    PadTwo(m);
    assert s[i] == DigitChar(m / 10) && s[i + 1] == DigitChar(m % 10);
  }

  /** The `%d` directive reads a zero-padded day back as that day. */
  lemma DayAlternative(s: string, i: nat, d: nat)
    requires 1 <= d <= 31 && i + 2 <= |s| && s[i..i + 2] == PadNat(d, 2)
    ensures |Alternatives(Day, s, i)| > 0 && Alternatives(Day, s, i)[0] == (d, i + 2)
  {
    PadTwo(d);
    assert s[i] == DigitChar(d / 10) && s[i + 1] == DigitChar(d % 10);
  }

  lemma YearAlternative(s: string, i: nat, y: nat)
    requires y < 10000 && i + 4 <= |s| && s[i..i + 4] == PadNat(y, 4)
    ensures Alternatives(Year4, s, i) == [(y, i + 4)]
  {
    PadFour(y);
    PadValue(y, 4);
    var t := s[i..i + 4];
    assert AllDigits(t) && DigitsValue(t) == y;
  }

  lemma {:induction false} ZerosValue(z: string)
    requires forall k :: 0 <= k < |z| ==> z[k] == '0'
    ensures AllDigits(z) && DigitsValue(z) == 0
  {
    if |z| > 0 {
      ZerosValue(z[..|z| - 1]);
    }
  }

  lemma {:induction false} LeadingZerosValue(z: string, t: string)
    requires forall k :: 0 <= k < |z| ==> z[k] == '0'
    requires AllDigits(t)
    ensures AllDigits(z + t) && DigitsValue(z + t) == DigitsValue(t)
  {
    if |t| == 0 {
      assert z + t == z;
      ZerosValue(z);
    } else {
      LeadingZerosValue(z, t[..|t| - 1]);
      assert (z + t)[..|z + t| - 1] == z + t[..|t| - 1];
    }
  }

  /** Zero padding does not change the value a digit string denotes. */
  lemma PadValue(n: nat, w: nat)
    ensures AllDigits(PadNat(n, w)) && DigitsValue(PadNat(n, w)) == n
  {
    NatToStringDigits(n);
    var s := NatToString(n);
    if |s| < w {
      LeadingZerosValue(seq(w - |s|, _ => '0'), s);
    }
  }

  /**
   * Reading a formatted date back with `%Y-%m-%d` gives the same date: the
   * two halves of `strptime(...).strftime("%Y-%m-%d")` are inverse.
   */
  lemma IsoRoundTrip(d: Date)
    requires d.Valid()
    ensures Strptime(IsoFormat(d), YmdDash) == Some(d)
  {
    var s := IsoFormat(d);
    IsoPieces(d);
    YearAlternative(s, 0, d.year);
    MonthAlternative(s, 5, d.month);
    DayAlternative(s, 8, d.day);
    MatchIso(s, d.year, d.month, d.day);
  }

  /** Where the three numbers and the two dashes of a formatted date sit. */
  lemma IsoPieces(d: Date)
    requires d.Valid()
    ensures var s := IsoFormat(d);
            |s| == 10 && s[0..4] == PadNat(d.year, 4) && s[4] == '-' && s[5..7] == PadNat(d.month, 2) &&
            s[7] == '-' && s[8..10] == PadNat(d.day, 2)
  {
    PadFour(d.year);
    PadTwo(d.month);
    PadTwo(d.day);
  }

  /** `%Y-%m-%d` matches a ten-character text whose fields read as `y`, `m` and `d`. */
  lemma MatchIso(s: string, y: nat, m: nat, d: nat)
    requires |s| == 10 && s[4] == '-' && s[7] == '-'
    requires Alternatives(Year4, s, 0) == [(y, 4)]
    requires |Alternatives(Month, s, 5)| > 0 && Alternatives(Month, s, 5)[0] == (m, 7)
    requires |Alternatives(Day, s, 8)| > 0 && Alternatives(Day, s, 8)[0] == (d, 10)
    ensures var f := Fields(Some(y), Some(m), Some(d));
            MatchFrom(YmdDash, s, 0, Fields(None, None, None)) == Some((f, 10))
  {
    var f0 := Fields(None, None, None);
    var f1 := f0.(year := Some(y));
    var f3 := f1.(month := Some(m));
    var f5 := f3.(day := Some(d));
    assert MatchFrom(YmdDash[5..], s, 10, f5) == Some((f5, 10));
    assert MatchFrom(YmdDash[4..], s, 8, f3) == Some((f5, 10));
    assert MatchFrom(YmdDash[3..], s, 7, f3) == Some((f5, 10));
    assert MatchFrom(YmdDash[2..], s, 5, f1) == Some((f5, 10));
    assert MatchFrom(YmdDash[1..], s, 4, f1) == Some((f5, 10));
  }

  /** A formatted date is ten characters with dashes at 4 and 7. */
  lemma IsoShape(d: Date)
    requires d.Valid()
    ensures |IsoFormat(d)| == 10 && IsoFormat(d)[4] == '-' && IsoFormat(d)[7] == '-'
    ensures EndsWith(IsoFormat(d), "-01-01") <==> d.month == 1 && d.day == 1
  {
    PadFour(d.year);
    PadTwo(d.month);
    PadTwo(d.day);
    var s := IsoFormat(d);
    if EndsWith(s, "-01-01") {
      assert s[5] == '0' && s[6] == '1' && s[8] == '0' && s[9] == '1';
      assert DigitChar(d.month / 10) == '0' && DigitChar(d.month % 10) == '1';
      assert DigitChar(d.day / 10) == '0' && DigitChar(d.day % 10) == '1';
    }
  }

  /** The twelve abbreviations are distinct three-letter lower-case words. */
  lemma MonthAbbrsShape()
    ensures |MonthAbbrs| == 12
    ensures forall a :: 0 <= a < 12 ==> |MonthAbbrs[a]| == 3 && IsLowerAscii(MonthAbbrs[a][0])
    ensures forall a, b :: 0 <= a < b < 12 ==> MonthAbbrs[a] != MonthAbbrs[b]
  {
  }

  /** The first name, from `names[m]` on, that the text spells at `i` is the one tried first. */
  lemma {:induction false} NameFirst(names: seq<string>, s: string, i: nat, m: nat, k: nat)
    requires m <= k < |names| && i + |names[k]| <= |s| && Lower(s[i..i + |names[k]|]) == names[k]
    requires forall j :: m <= j < k ==> !(i + |names[j]| <= |s| && Lower(s[i..i + |names[j]|]) == names[j])
    ensures |NameAlternatives(names, s, i, m)| > 0 && NameAlternatives(names, s, i, m)[0] == (k + 1, i + |names[k]|)
    decreases k - m
  {
    var n := names[m];
    if m < k {
      assert !(i + |n| <= |s| && Lower(s[i..i + |n|]) == n);
      NameFirst(names, s, i, m + 1, k);
      assert NameAlternatives(names, s, i, m) == NameAlternatives(names, s, i, m + 1);
    } else {
      assert NameAlternatives(names, s, i, m) == [(k + 1, i + |n|)] + NameAlternatives(names, s, i, m + 1);
    }
  }

  /** The abbreviation a text starts with is the first one `%b` tries. */
  lemma AbbrFirst(s: string, k: nat)
    requires k < 12 && |s| >= 3 && Lower(s[..3]) == MonthAbbrs[k]
    ensures |Alternatives(MonthAbbr, s, 0)| > 0 && Alternatives(MonthAbbr, s, 0)[0] == (k + 1, 3)
  {
    MonthAbbrsShape();
    assert s[0..3] == s[..3];
    forall j | 0 <= j < k
      ensures !(0 + |MonthAbbrs[j]| <= |s| && Lower(s[0..0 + |MonthAbbrs[j]|]) == MonthAbbrs[j])
    {
    }
    NameFirst(MonthAbbrs, s, 0, 0, k);
  }

  /** The characters of " DD, YYYY" at index 3. */
  lemma MonDayYearPieces(s: string, x: Date)
    requires x.Valid() && |s| >= 3 && s[3..] == " " + PadNat(x.day, 2) + ", " + PadNat(x.year, 4)
    ensures |s| == 12 && s[3] == ' ' && s[4..6] == PadNat(x.day, 2) && IsDigit(s[4])
    ensures s[6] == ',' && s[7] == ' ' && s[8..12] == PadNat(x.year, 4) && IsDigit(s[8])
  {
    PadTwo(x.day);
    PadFour(x.year);
    assert s[4..6] == s[3..][1..3];
    assert s[8..12] == s[3..][5..9];
  }

  /** ", YYYY" after the day. */
  lemma CommaYear(s: string, y: nat, f2: Fields)
    requires y < 10000 && |s| == 12 && s[6] == ',' && s[7] == ' ' && s[8..12] == PadNat(y, 4) && IsDigit(s[8])
    ensures MatchFrom(MonDayYear[3..], s, 6, f2) == Some((f2.(year := Some(y)), 12))
  {
    YearAlternative(s, 8, y);
    assert WhitespaceEnd(s, 8) == 8;
    assert WhitespaceEnd(s, 7) == 8;
    assert MonDayYear[5..] == [Year4] && [Year4][1..] == [];
    assert TryAlternatives([Year4], s, [(y, 12)], f2) == Some((f2.(year := Some(y)), 12));
    assert MatchFrom(MonDayYear[5..], s, 8, f2) == Some((f2.(year := Some(y)), 12));
    assert MatchFrom(MonDayYear[4..], s, 7, f2) == Some((f2.(year := Some(y)), 12));
  }

  /** " DD, YYYY" after the abbreviation. */
  lemma MonDayYearTail(s: string, x: Date, f1: Fields)
    requires x.Valid() && |s| >= 3 && s[3..] == " " + PadNat(x.day, 2) + ", " + PadNat(x.year, 4)
    ensures MatchFrom(MonDayYear[1..], s, 3, f1) == Some((f1.(day := Some(x.day)).(year := Some(x.year)), |s|))
  {
    MonDayYearPieces(s, x);
    var f2 := f1.(day := Some(x.day));
    CommaYear(s, x.year, f2);
    DayAlternative(s, 4, x.day);
    assert MatchFrom(MonDayYear[2..], s, 4, f1) == Some((f2.(year := Some(x.year)), 12));
    assert WhitespaceEnd(s, 4) == 4;
    assert WhitespaceEnd(s, 3) == 4;
  }

  /**
   * "%b %d, %Y" reads a month abbreviation, in any letter case, a space, a
   * two-digit day, a comma, a space and a four-digit year as that date.
   */
  lemma MonDayYearReads(s: string, x: Date)
    requires x.Valid() && |s| >= 3 && Lower(s[..3]) == MonthAbbrs[x.month - 1]
    requires s[3..] == " " + PadNat(x.day, 2) + ", " + PadNat(x.year, 4)
    ensures Strptime(s, MonDayYear) == Some(x)
  {
    MonDayYearMatch(s, x);
    StrptimeOfMatch(s, MonDayYear, x);
  }

  lemma MonDayYearMatch(s: string, x: Date)
    requires x.Valid() && |s| >= 3 && Lower(s[..3]) == MonthAbbrs[x.month - 1]
    requires s[3..] == " " + PadNat(x.day, 2) + ", " + PadNat(x.year, 4)
    ensures MatchFrom(MonDayYear, s, 0, Fields(None, None, None)) == Some((Fields(Some(x.year), Some(x.month), Some(x.day)), |s|))
  {
    var f1 := Fields(None, Some(x.month), None);
    AbbrFirst(s, x.month - 1);
    MonDayYearTail(s, x, f1);
    AbbrThenRest(s, x.month, MatchFrom(MonDayYear[1..], s, 3, f1));
  }

  lemma AbbrThenRest(s: string, m: nat, r: Option<(Fields, nat)>)
    requires |Alternatives(MonthAbbr, s, 0)| > 0 && Alternatives(MonthAbbr, s, 0)[0] == (m, 3)
    requires MatchFrom(MonDayYear[1..], s, 3, Fields(None, Some(m), None)) == r && r.Some?
    ensures MatchFrom(MonDayYear, s, 0, Fields(None, None, None)) == r
  {
    assert MonDayYear[0] == MonthAbbr;
    FirstAlternative(MonDayYear, s, 0, Fields(None, None, None));
  }

  /** When the first alternative of the first directive leads to a match, that match is the result. */
  lemma FirstAlternative(fmt: seq<Directive>, s: string, i: nat, f: Fields)
    requires |fmt| > 0 && |Alternatives(fmt[0], s, i)| > 0
    requires var a := Alternatives(fmt[0], s, i)[0]; MatchFrom(fmt[1..], s, a.1, Record(f, fmt[0], a.0)).Some?
    ensures var a := Alternatives(fmt[0], s, i)[0];
            MatchFrom(fmt, s, i, f) == MatchFrom(fmt[1..], s, a.1, Record(f, fmt[0], a.0))
  {
  }

  /** A match of the whole text that sets all three fields of a real date yields that date. */
  lemma StrptimeOfMatch(s: string, fmt: seq<Directive>, x: Date)
    requires x.Valid()
    requires MatchFrom(fmt, s, 0, Fields(None, None, None)) == Some((Fields(Some(x.year), Some(x.month), Some(x.day)), |s|))
    ensures Strptime(s, fmt) == Some(x)
  {
  }
}
