/** The names of backup archives: how the backup spells them from the clock,
    which remote names the pruner's pattern admits, and how it reads the
    timestamp back out of a name. */
module ArchiveName {
  import opened Decimal
  import opened Py
  import opened DateTime

  const Prefix := "MoviePliot-Backup-"
  const Extension := ".zip"
  /** `|Prefix| + |"YYYY-MM-DD_HH-MM-SS"| + |Extension|` */
  const NameLength := 41

  /** `strftime('%Y-%m-%d_%H-%M-%S')`. */
  function StampText(t: Timestamp): (s: string)
    requires Valid(t)
    ensures |s| == 19
  {
    SpellStamp(Padded(t.year, 4), Padded(t.month, 2), Padded(t.day, 2),
               Padded(t.hour, 2), Padded(t.minute, 2), Padded(t.second, 2))
  }

  /** Six digit fields joined in the `%Y-%m-%d_%H-%M-%S` layout. */
  function SpellStamp(year: string, month: string, day: string, hour: string, minute: string, second: string): string {
    year + "-" + month + "-" + day + "_" + hour + "-" + minute + "-" + second
  }

  /** The basename of the archive a backup started at time `t` produces. */
  function ArchiveFileName(t: Timestamp): (name: string)
    requires Valid(t)
    ensures |name| == NameLength
    ensures name[..18] == Prefix && name[37..] == Extension
  {
    Prefix + StampText(t) + Extension
  }

  /** `re.match(r"MoviePliot-Backup-\d{4}-\d{2}-\d{2}_\d{2}-\d{2}-\d{2}\.zip", name)`:
      the pattern is anchored at the start only, so anything may follow `.zip`. */
  predicate Matches(name: string) {
    && NameLength <= |name|
    && name[..18] == Prefix
    && AllDigits(name[18..22]) && name[22] == '-'
    && AllDigits(name[23..25]) && name[25] == '-'
    && AllDigits(name[26..28]) && name[28] == '_'
    && AllDigits(name[29..31]) && name[31] == '-'
    && AllDigits(name[32..34]) && name[34] == '-'
    && AllDigits(name[35..37])
    && name[37..41] == Extension
  }

  /** The six numeric fields a matching name spells. */
  function Fields(name: string): Timestamp
    requires Matches(name)
  {
    Timestamp(
      ValueOf(name[18..22]), ValueOf(name[23..25]), ValueOf(name[26..28]),
      ValueOf(name[29..31]), ValueOf(name[32..34]), ValueOf(name[35..37]))
  }

  /** `datetime.strptime(name, "MoviePliot-Backup-%Y-%m-%d_%H-%M-%S.zip")` on a
      name the pattern admits (the only names it is applied to); `None` is the
      ValueError. Text after `.zip` is "unconverted data"; a month, day, hour or
      minute out of range fails the format's own field patterns; seconds 60
      and 61, year 0000 and a day past the month's end pass those patterns
      but are refused when the date-time is built. Every such failure is a
      ValueError. */
  function ParseStamp(name: string): (r: Option<Timestamp>)
    requires Matches(name)
  {
    if |name| != NameLength then None
    else if Valid(Fields(name)) then Some(Fields(name))
    else None
  }

  // ---------------------------------------------------------------------
  // `strptime` as CPython's `_strptime` carries it out

  /* `_strptime` first matches the whole name against a regular expression
     built from the format, one group per directive, then builds the
     `datetime`. On the names the archive pattern admits every field is two
     (or, for the year, four) digits followed by a separator or `.zip`, so a
     directive group matches exactly when one of its two-character
     alternatives does: the one-digit alternatives would leave a digit where
     the separator must come. */

  /** `%m`: `1[0-2]|0[1-9]|[1-9]`. */
  predicate MonthDirective(s: string)
    requires |s| == 2
  {
    (s[0] == '1' && '0' <= s[1] <= '2') || (s[0] == '0' && '1' <= s[1] <= '9')
  }

  /** `%d`: `3[01]|[12]\d|0[1-9]|[1-9]| [1-9]`. */
  predicate DayDirective(s: string)
    requires |s| == 2
  {
    || (s[0] == '3' && (s[1] == '0' || s[1] == '1'))
    || ((s[0] == '1' || s[0] == '2') && IsDigit(s[1]))
    || (s[0] == '0' && '1' <= s[1] <= '9')
  }

  /** `%H`: `2[0-3]|[0-1]\d|\d`. */
  predicate HourDirective(s: string)
    requires |s| == 2
  {
    (s[0] == '2' && '0' <= s[1] <= '3') || ((s[0] == '0' || s[0] == '1') && IsDigit(s[1]))
  }

  /** `%M`: `[0-5]\d|\d`. */
  predicate MinuteDirective(s: string)
    requires |s| == 2
  {
    '0' <= s[0] <= '5' && IsDigit(s[1])
  }

  /** `%S`: `6[0-1]|[0-5]\d|\d`, which lets leap seconds through. */
  predicate SecondDirective(s: string)
    requires |s| == 2
  {
    (s[0] == '6' && (s[1] == '0' || s[1] == '1')) || ('0' <= s[0] <= '5' && IsDigit(s[1]))
  }

  /** The three stages at which `strptime` can raise ValueError on an
      admitted name: the format's regular expression (`%Y` is `\d\d\d\d`
      and admits every year), the "unconverted data remains" check, and the
      `datetime` constructor's range check. */
  predicate StrptimeAccepts(name: string)
    requires Matches(name)
  {
    && MonthDirective(name[23..25]) && DayDirective(name[26..28])
    && HourDirective(name[29..31]) && MinuteDirective(name[32..34])
    && SecondDirective(name[35..37])
    && |name| == NameLength
    && Valid(Fields(name))
  }

  /** `ParseStamp` is `strptime` on admitted names: it succeeds exactly when
      all three stages pass, and then gives the fields. The directive stage
      refuses nothing the constructor would accept, so a single range check
      stands for both. */
  lemma ParseStampIsStrptime(name: string)
    requires Matches(name)
    ensures ParseStamp(name).Some? <==> StrptimeAccepts(name)
    ensures ParseStamp(name).Some? ==> ParseStamp(name).value == Fields(name)
  {
    MonthRange(name[23..25]);
    DayRange(name[26..28]);
    HourRange(name[29..31]);
    MinuteRange(name[32..34]);
    SecondRange(name[35..37]);
  }

  /** Two digits as a number: `10 * first + second`. */
  lemma TwoDigits(s: string)
    requires |s| == 2 && AllDigits(s)
    ensures ValueOf(s) == 10 * DigitValue(s[0]) + DigitValue(s[1])
  {
    assert s == [s[0], s[1]];
    ValueOfTwo(s[0], s[1]);
  }

  lemma MonthRange(s: string)
    requires |s| == 2 && AllDigits(s)
    ensures MonthDirective(s) <==> 1 <= ValueOf(s) <= 12
  {
    TwoDigits(s);
  }

  lemma DayRange(s: string)
    requires |s| == 2 && AllDigits(s)
    ensures DayDirective(s) <==> 1 <= ValueOf(s) <= 31
  {
    TwoDigits(s);
  }

  lemma HourRange(s: string)
    requires |s| == 2 && AllDigits(s)
    ensures HourDirective(s) <==> ValueOf(s) <= 23
  {
    TwoDigits(s);
  }

  lemma MinuteRange(s: string)
    requires |s| == 2 && AllDigits(s)
    ensures MinuteDirective(s) <==> ValueOf(s) <= 59
  {
    TwoDigits(s);
  }

  /** Seconds 60 and 61 pass the directive; the constructor refuses them. */
  lemma SecondRange(s: string)
    requires |s| == 2 && AllDigits(s)
    ensures SecondDirective(s) <==> ValueOf(s) <= 61
  {
    TwoDigits(s);
  }

  /** `re.match` anchors the pattern at the start only: a name matches iff it
      has at least the archive length and its first `NameLength` characters
      match. */
  lemma MatchIsAnchoredAtStart(name: string)
    ensures Matches(name) <==> NameLength <= |name| && Matches(name[..NameLength])
  {
    if NameLength <= |name| {
      var h := name[..NameLength];
      assert h[..18] == name[..18];
      assert h[18..22] == name[18..22] && h[23..25] == name[23..25];
      assert h[26..28] == name[26..28] && h[29..31] == name[29..31];
      assert h[32..34] == name[32..34] && h[35..37] == name[35..37];
      assert h[37..41] == name[37..41];
    }
  }

  lemma StampTextShape(t: Timestamp)
    requires Valid(t)
    ensures var s := StampText(t);
      && |s| == 19
      && s[0..4] == Padded(t.year, 4) && s[4] == '-'
      && s[5..7] == Padded(t.month, 2) && s[7] == '-'
      && s[8..10] == Padded(t.day, 2) && s[10] == '_'
      && s[11..13] == Padded(t.hour, 2) && s[13] == '-'
      && s[14..16] == Padded(t.minute, 2) && s[16] == '-'
      && s[17..19] == Padded(t.second, 2)
  {
    var y, mo, d := Padded(t.year, 4), Padded(t.month, 2), Padded(t.day, 2);
    var h, mi, se := Padded(t.hour, 2), Padded(t.minute, 2), Padded(t.second, 2);
    var s := StampText(t);
    assert s == y + "-" + mo + "-" + d + "_" + h + "-" + mi + "-" + se;
    assert s[0..4] == y;
    assert s[5..7] == mo && s[8..10] == d;
    assert s[11..13] == h && s[14..16] == mi && s[17..19] == se;
  }

  lemma ArchiveFileNameShape(t: Timestamp, extra: string)
    requires Valid(t)
    ensures var name := ArchiveFileName(t) + extra;
      && |name| == NameLength + |extra|
      && name[..18] == Prefix
      && name[18..37] == StampText(t)
      && name[37..41] == Extension
      && name[41..] == extra
  {
  }

  /** A generated archive name, followed by any text at all, is admitted by
      the pruner's pattern and spells the generating time in its fields. */
  lemma {:induction false} ArchiveFileNameMatches(t: Timestamp, extra: string)
    requires Valid(t)
    ensures Matches(ArchiveFileName(t) + extra)
    ensures Fields(ArchiveFileName(t) + extra) == t
  {
    var name := ArchiveFileName(t) + extra;
    var s := StampText(t);
    ArchiveFileNameShape(t, extra);
    StampTextShape(t);
    assert name[18..22] == s[0..4];
    assert name[23..25] == s[5..7];
    assert name[26..28] == s[8..10];
    assert name[29..31] == s[11..13];
    assert name[32..34] == s[14..16];
    assert name[35..37] == s[17..19];
    assert name[22] == s[4] && name[25] == s[7] && name[28] == s[10];
    assert name[31] == s[13] && name[34] == s[16];
    assert Pow10(4) == 10000 && Pow10(2) == 100;
    ValueOfPadded(t.year, 4);
    ValueOfPadded(t.month, 2);
    ValueOfPadded(t.day, 2);
    ValueOfPadded(t.hour, 2);
    ValueOfPadded(t.minute, 2);
    ValueOfPadded(t.second, 2);
  }

  /** Round trip: the name the backup generates passes the pruner's pattern
      and parses back to exactly the time it was generated from. */
  lemma ArchiveFileNameRoundTrip(t: Timestamp)
    requires Valid(t)
    ensures Matches(ArchiveFileName(t))
    ensures ParseStamp(ArchiveFileName(t)) == Some(t)
  {
    ArchiveFileNameMatches(t, "");
    assert ArchiveFileName(t) + "" == ArchiveFileName(t);
    ArchiveFileNameShape(t, "");
  }

  /** Anything after `.zip` still passes the pattern, but then the timestamp
      cannot be parsed (the prune of such a listing is aborted). */
  lemma TrailingTextMatchesButDoesNotParse(t: Timestamp, extra: string)
    requires Valid(t) && extra != ""
    ensures Matches(ArchiveFileName(t) + extra)
    ensures ParseStamp(ArchiveFileName(t) + extra) == None
  {
    ArchiveFileNameMatches(t, extra);
    assert |ArchiveFileName(t) + extra| != NameLength;
  }

  /** The converse of the round trip: a name that parses is exactly the name
      the backup would generate for its timestamp. So the parsed timestamp
      determines the name, and two names with equal keys are equal. */
  lemma {:induction false} ParsedNameIsCanonical(name: string)
    requires Matches(name) && ParseStamp(name).Some?
    ensures name == ArchiveFileName(ParseStamp(name).value)
  {
    var t := ParseStamp(name).value;
    PaddedValueOf(name[18..22]);
    PaddedValueOf(name[23..25]);
    PaddedValueOf(name[26..28]);
    PaddedValueOf(name[29..31]);
    PaddedValueOf(name[32..34]);
    PaddedValueOf(name[35..37]);
    MatchingNameSpelled(name);
    ArchiveFileNameSpelled(t);
  }

  /** A generated name is spelled from the zero-padded fields. */
  lemma ArchiveFileNameSpelled(t: Timestamp)
    requires Valid(t)
    ensures ArchiveFileName(t) == Spell(Padded(t.year, 4), Padded(t.month, 2), Padded(t.day, 2),
                                        Padded(t.hour, 2), Padded(t.minute, 2), Padded(t.second, 2))
  {
  }

  /** A matching name of the archive length is spelled from its own fields. */
  lemma MatchingNameSpelled(name: string)
    requires Matches(name) && |name| == NameLength
    ensures name == Spell(name[18..22], name[23..25], name[26..28], name[29..31], name[32..34], name[35..37])
  {
    assert name[18..25] == name[18..22] + "-" + name[23..25];
    assert name[18..28] == name[18..25] + "-" + name[26..28];
    assert name[18..31] == name[18..28] + "_" + name[29..31];
    assert name[18..34] == name[18..31] + "-" + name[32..34];
    assert name[18..37] == name[18..34] + "-" + name[35..37];
    assert name == name[..18] + name[18..37] + name[37..];
  }

  lemma ValueOfTwo(a: char, b: char)
    requires IsDigit(a) && IsDigit(b)
    ensures ValueOf([a, b]) == 10 * DigitValue(a) + DigitValue(b)
  {
  }

  lemma ValueOfFour(a: char, b: char, c: char, d: char)
    requires IsDigit(a) && IsDigit(b) && IsDigit(c) && IsDigit(d)
    ensures ValueOf([a, b, c, d])
      == 1000 * DigitValue(a) + 100 * DigitValue(b) + 10 * DigitValue(c) + DigitValue(d)
  {
    assert [a, b, c, d][..3] == [a, b, c];
    assert [a, b, c][..2] == [a, b];
    ValueOfTwo(a, b);
  }

  /** The name spelled from six digit fields, in the archive layout. */
  function Spell(year: string, month: string, day: string, hour: string, minute: string, second: string): string {
    Prefix + SpellStamp(year, month, day, hour, minute, second) + Extension
  }

  lemma {:induction false} SpelledNameMatches(year: string, month: string, day: string, hour: string, minute: string, second: string)
    requires |year| == 4 && AllDigits(year)
    requires |month| == 2 && AllDigits(month) && |day| == 2 && AllDigits(day)
    requires |hour| == 2 && AllDigits(hour) && |minute| == 2 && AllDigits(minute)
    requires |second| == 2 && AllDigits(second)
    ensures var name := Spell(year, month, day, hour, minute, second);
      && |name| == NameLength
      && Matches(name)
      && Fields(name) == Timestamp(ValueOf(year), ValueOf(month), ValueOf(day),
                                   ValueOf(hour), ValueOf(minute), ValueOf(second))
  {
    var name := Spell(year, month, day, hour, minute, second);
    assert name[..18] == Prefix;
    assert name[18..22] == year;
    assert name[23..25] == month;
    assert name[26..28] == day;
    assert name[29..31] == hour;
    assert name[32..34] == minute;
    assert name[35..37] == second;
    assert name[37..41] == Extension;
  }

  /** A remote name the pattern admits but the parser refuses: month 13. */
  lemma PatternAdmitsMonthThirteen()
    ensures Matches(Spell("2024", "13", "01", "00", "00", "00"))
    ensures ParseStamp(Spell("2024", "13", "01", "00", "00", "00")) == None
  {
    SpelledNameMatches("2024", "13", "01", "00", "00", "00");
    ValueOfTwo('1', '3');
  }

  /** A leap second passes the pattern and `%S`, and only the `datetime`
      constructor refuses it. */
  lemma LeapSecondRefusedByConstructor()
    ensures Matches(Spell("2024", "01", "01", "23", "59", "60"))
    ensures SecondDirective(Spell("2024", "01", "01", "23", "59", "60")[35..37])
    ensures ParseStamp(Spell("2024", "01", "01", "23", "59", "60")) == None
  {
    var name := Spell("2024", "01", "01", "23", "59", "60");
    SpelledNameMatches("2024", "01", "01", "23", "59", "60");
    assert name[35..37] == "60";
    ValueOfTwo('6', '0');
  }

  /** A remote name the pattern admits but the parser refuses: the 29th of
      February of a year that is not a leap year. */
  lemma PatternAdmitsNonLeapFebruary29()
    ensures Matches(Spell("2023", "02", "29", "12", "00", "00"))
    ensures ParseStamp(Spell("2023", "02", "29", "12", "00", "00")) == None
  {
    SpelledNameMatches("2023", "02", "29", "12", "00", "00");
    ValueOfFour('2', '0', '2', '3');
    ValueOfTwo('0', '2');
    ValueOfTwo('2', '9');
  }
}
