/** Instants as text and back (`iso8601`, `parse_iso8601`); times are nanoseconds since 1970. */
module Iso8601 {
  import opened Prelude
  import opened Civil
  import opened Digits

  const SECOND: int := 1_000_000_000
  const DAY: int := 86_400

  /** 10000-01-01T00:00:00Z: from here a year takes five digits. */
  const YEAR_10000: int := 253_402_300_800

  function Zeros(k: nat): Bytes {
    if k == 0 then [] else [48 as Byte] + Zeros(k - 1)
  }

  /** `{n:0width}`: at least `width` digits. */
  function Padded(n: nat, width: nat): Bytes {
    var text := Decimal(n);
    Zeros(if |text| < width then width - |text| else 0) + text
  }

  /** Whole seconds since the epoch; an earlier time counts as the epoch. */
  function Seconds(t: int): (secs: nat)
    ensures t >= 0 ==> secs * SECOND <= t < (secs + 1) * SECOND
  {
    if t < 0 then 0 else t / SECOND
  }

  /** `Y-M-DTh:m:sZ`, from the six fields as printed. */
  function Assemble(y: Bytes, mo: Bytes, d: Bytes, h: Bytes, mi: Bytes, s: Bytes): Bytes {
    y + [45 as Byte] + mo + [45 as Byte] + d + [84 as Byte] + h + [58 as Byte] + mi + [58 as Byte] + s + [90 as Byte]
  }

  function Iso(t: int): Bytes {
    var secs := Seconds(t);
    var rem := secs % DAY;
    var date := CivilFromDays(secs / DAY);
    DatesAreFine(secs / DAY);
    Assemble(Padded(date.y, 4), Padded(date.m, 2), Padded(date.d, 2),
             Padded(rem / 3600, 2), Padded(rem % 3600 / 60, 2), Padded(rem % 60, 2))
  }

  lemma DatesAreFine(days: nat)
    ensures ValidDate(CivilFromDays(days)) && CivilFromDays(days).y >= 1970
    ensures days < YEAR_10000 / DAY <==> CivilFromDays(days).y < 10_000
  {
    DayRoundTrip(days);
    var date := CivilFromDays(days);
    DaysKeepOrder(date, Date(1970, 1, 1));
    DaysKeepOrder(date, Date(10_000, 1, 1));
    Anchors();
  }

  lemma Anchors()
    ensures DaysFromCivil(Date(1970, 1, 1)) == 0
    ensures DaysFromCivil(Date(10_000, 1, 1)) == YEAR_10000 / DAY
  {
  }

  // ---------------------------------------------------------------------------------------
  // Parsing
  // ---------------------------------------------------------------------------------------

  /** `str::parse::<i64>` on a few characters: one sign is allowed, then at least one digit. */
  function ParseInt(text: Bytes): Option<int> {
    if text == [] then None
    else if text[0] == 43 || text[0] == 45 then
      if |text| > 1 && AllDigits(text[1..]) then
        var n: int := Value(text[1..]);
        Some(if text[0] == 45 then -n else n)
      else None
    else if AllDigits(text) then Some(Value(text))
    else None
  }

  predicate Shaped(s: Bytes) {
    && |s| == 20
    && s[4] == 45 && s[7] == 45 && s[10] == 84 && s[13] == 58 && s[16] == 58 && s[19] == 90
  }

  function ParseIso(s: Bytes): Option<int> {
    if !Shaped(s) then None
    else
      match (ParseInt(s[0..4]), ParseInt(s[5..7]), ParseInt(s[8..10]),
             ParseInt(s[11..13]), ParseInt(s[14..16]), ParseInt(s[17..19])) {
        case (Some(y), Some(mo), Some(d), Some(h), Some(mi), Some(sec)) =>
          if !(1 <= mo <= 12) || !(1 <= d <= 31) || h > 23 || mi > 59 || sec > 60 then None
          else
            var secs := DaysFromCivil(Date(y, mo, d)) * DAY + h * 3600 + mi * 60 + sec;
            if secs < 0 then None else Some(secs * SECOND)
        case _ => None
      }
  }

  // ---------------------------------------------------------------------------------------
  // Fields
  // ---------------------------------------------------------------------------------------

  /** Exactly `width` digits. */
  function Field(n: nat, width: nat): (text: Bytes)
    ensures |text| == width && AllDigits(text)
  {
    if width == 0 then [] else Field(n / 10, width - 1) + [Digit(n % 10)]
  }

  function Pow10(k: nat): (p: nat)
    ensures p > 0
  {
    if k == 0 then 1 else 10 * Pow10(k - 1)
  }

  lemma {:induction false} FieldValue(n: nat, width: nat)
    requires n < Pow10(width)
    ensures Value(Field(n, width)) == n
  {
    if width > 0 {
      FieldValue(n / 10, width - 1);
      var text := Field(n, width);
      assert text[..|text|-1] == Field(n / 10, width - 1);
    }
  }

  lemma {:induction false} ValueField(text: Bytes)
    requires AllDigits(text)
    ensures Value(text) < Pow10(|text|) && Field(Value(text), |text|) == text
    decreases |text|
  {
    if text != [] {
      var init, last := text[..|text|-1], text[|text|-1] as int - 48;
      ValueField(init);
      assert Value(text) / 10 == Value(init) && Value(text) % 10 == last;
      assert text == init + [text[|text|-1]];
    }
  }

  lemma {:induction false} ZerosThen(k: nat)
    requires k > 0
    ensures Zeros(k) == Zeros(k - 1) + [48 as Byte]
  {
    if k > 1 {
      ZerosThen(k - 1);
    }
  }

  /** A number that fits prints as its field; one that does not prints longer. */
  lemma {:induction false} PaddedIsField(n: nat, width: nat)
    requires width > 0
    ensures n < Pow10(width) ==> Padded(n, width) == Field(n, width)
    ensures n >= Pow10(width) ==> |Padded(n, width)| > width
    decreases width
  {
    if n < 10 {
      ShortField(n, width);
      DecimalLength(n, width);
    } else if width == 1 {
      DecimalLength(n, width);
    } else {
      PaddedIsField(n / 10, width - 1);
      DecimalLength(n, width);
      DecimalLength(n / 10, width - 1);
    }
  }

  lemma {:induction false} ShortField(n: nat, width: nat)
    requires n < 10 && width > 0
    ensures Field(n, width) == Zeros(width - 1) + [Digit(n)]
  {
    if width > 1 {
      ShortField(0, width - 1);
      ZerosThen(width - 1);
    }
  }

  lemma {:induction false} DecimalLength(n: nat, width: nat)
    requires width > 0
    ensures n < Pow10(width) <==> |Decimal(n)| <= width
    decreases n
  {
    if n >= 10 {
      if width > 1 {
        DecimalLength(n / 10, width - 1);
      }
    } else {
      assert Pow10(width) == 10 * Pow10(width - 1);
    }
  }

  lemma ParseField(n: nat, width: nat)
    requires width > 0 && n < Pow10(width)
    ensures ParseInt(Field(n, width)) == Some(n)
  {
    FieldValue(n, width);
    assert IsDigit(Field(n, width)[0]);
  }

  // ---------------------------------------------------------------------------------------
  // Main results
  // ---------------------------------------------------------------------------------------

  lemma Powers()
    ensures Pow10(2) == 100 && Pow10(4) == 10_000
  {
    assert Pow10(1) == 10 && Pow10(3) == 1000;
  }

  /** The six fields sit where the parser looks for them. */
  lemma AssembleShape(y: Bytes, mo: Bytes, d: Bytes, h: Bytes, mi: Bytes, sec: Bytes)
    requires |y| == 4 && |mo| == |d| == |h| == |mi| == |sec| == 2
    ensures var s := Assemble(y, mo, d, h, mi, sec);
            && Shaped(s)
            && s[0..4] == y && s[5..7] == mo && s[8..10] == d
            && s[11..13] == h && s[14..16] == mi && s[17..19] == sec
  {
  }

  lemma ShapeIsAssembled(s: Bytes)
    requires Shaped(s)
    ensures s == Assemble(s[0..4], s[5..7], s[8..10], s[11..13], s[14..16], s[17..19])
  {
  }

  lemma ClockSplit(rem: nat)
    requires rem < DAY
    ensures rem / 3600 <= 23 && rem % 3600 / 60 <= 59
    ensures rem / 3600 * 3600 + rem % 3600 / 60 * 60 + rem % 60 == rem
  {
    assert rem % 3600 % 60 == rem % 60;
  }

  /**
   Reading back what was written gives the whole second, for every time up to the year
   9999, and nothing from the year 10000 on.
   */
  lemma TextRoundTrip(t: int)
    ensures ParseIso(Iso(t)) == if Seconds(t) < YEAR_10000 then Some(Seconds(t) * SECOND) else None
  {
    hide DaysFromCivil, CivilFromDays, Padded, ParseInt;
    var secs := Seconds(t);
    DatesAreFine(secs / DAY);
    if secs >= YEAR_10000 {
      LongYear(t);
    } else {
      DayRoundTrip(secs / DAY);
      PrintedFields(CivilFromDays(secs / DAY), secs % DAY);
    }
  }

  lemma LongYear(t: int)
    requires Seconds(t) >= YEAR_10000
    ensures |Iso(t)| != 20
  {
    var secs := Seconds(t);
    var rem := secs % DAY;
    var date := CivilFromDays(secs / DAY);
    DatesAreFine(secs / DAY);
    Powers();
    PaddedIsField(date.y, 4);
    PaddedIsField(date.m, 2);
    PaddedIsField(date.d, 2);
    PaddedIsField(rem / 3600, 2);
    PaddedIsField(rem % 3600 / 60, 2);
    PaddedIsField(rem % 60, 2);
  }

  lemma PrintedField(n: nat, width: nat)
    requires width > 0 && n < Pow10(width)
    ensures |Padded(n, width)| == width && ParseInt(Padded(n, width)) == Some(n)
  {
    PaddedIsField(n, width);
    ParseField(n, width);
  }

  /** Six good fields parse to their instant. */
  lemma ParseAssembled(y: Bytes, mo: Bytes, d: Bytes, h: Bytes, mi: Bytes, sec: Bytes, date: Date, rem: nat)
    requires |y| == 4 && |mo| == |d| == |h| == |mi| == |sec| == 2
    requires ParseInt(y) == Some(date.y) && ParseInt(mo) == Some(date.m) && ParseInt(d) == Some(date.d)
    requires ParseInt(h) == Some(rem / 3600) && ParseInt(mi) == Some(rem % 3600 / 60)
    requires ParseInt(sec) == Some(rem % 60)
    requires ValidDate(date) && DaysFromCivil(date) >= 0 && rem < DAY
    ensures ParseIso(Assemble(y, mo, d, h, mi, sec)) == Some((DaysFromCivil(date) * DAY + rem) * SECOND)
  {
    hide DaysFromCivil, ParseInt;
    AssembleShape(y, mo, d, h, mi, sec);
    ClockSplit(rem);
  }

  lemma PrintedFields(date: Date, rem: nat)
    requires ValidDate(date) && 1970 <= date.y < 10_000 && rem < DAY && DaysFromCivil(date) >= 0
    ensures ParseIso(Assemble(Padded(date.y, 4), Padded(date.m, 2), Padded(date.d, 2),
                              Padded(rem / 3600, 2), Padded(rem % 3600 / 60, 2), Padded(rem % 60, 2)))
            == Some((DaysFromCivil(date) * DAY + rem) * SECOND)
  {
    hide DaysFromCivil, ParseInt, Padded, ParseIso;
    Powers();
    ClockSplit(rem);
    PrintedField(date.y, 4);
    PrintedField(date.m, 2);
    PrintedField(date.d, 2);
    PrintedField(rem / 3600, 2);
    PrintedField(rem % 3600 / 60, 2);
    PrintedField(rem % 60, 2);
    ParseAssembled(Padded(date.y, 4), Padded(date.m, 2), Padded(date.d, 2),
                   Padded(rem / 3600, 2), Padded(rem % 3600 / 60, 2), Padded(rem % 60, 2), date, rem);
  }

  /** Digits, at least one, after a sign or none. */
  ghost predicate ReadsAs(text: Bytes, n: int) {
    exists digits ::
      && digits != [] && AllDigits(digits)
      && ((n == Value(digits) && (text == digits || text == [43] + digits))
          || (n + Value(digits) == 0 && text == [45] + digits))
  }

  lemma ParseIntExactly(text: Bytes, n: int)
    ensures ParseInt(text) == Some(n) <==> ReadsAs(text, n)
  {
    hide Value;
    if ParseInt(text) == Some(n) {
      var digits := if text[0] == 43 || text[0] == 45 then text[1..] else text;
      assert text == digits || text == [43] + digits || text == [45] + digits;
    }
    if digits :|
      && digits != [] && AllDigits(digits)
      && ((n == Value(digits) && (text == digits || text == [43] + digits))
          || (n + Value(digits) == 0 && text == [45] + digits))
    {
      assert IsDigit(digits[0]);
      assert text != digits ==> text[1..] == digits;
    }
  }

  /** Six numbers in the ranges the parser allows, and the instant they make. */
  ghost predicate IsInstant(y: int, mo: int, d: int, h: int, mi: int, sec: int, t: int) {
    && 1 <= mo <= 12 && 1 <= d <= 31 && h <= 23 && mi <= 59 && sec <= 60
    && t == (DaysFromCivil(Date(y, mo, d)) * DAY + h * 3600 + mi * 60 + sec) * SECOND >= 0
  }

  /** The six fields read as these numbers. */
  ghost predicate FieldsRead(s: Bytes, y: int, mo: int, d: int, h: int, mi: int, sec: int) {
    && Shaped(s)
    && ReadsAs(s[0..4], y) && ReadsAs(s[5..7], mo) && ReadsAs(s[8..10], d)
    && ReadsAs(s[11..13], h) && ReadsAs(s[14..16], mi) && ReadsAs(s[17..19], sec)
  }

  lemma FieldsReadExactly(s: Bytes, y: int, mo: int, d: int, h: int, mi: int, sec: int)
    ensures FieldsRead(s, y, mo, d, h, mi, sec) <==>
      && Shaped(s)
      && ParseInt(s[0..4]) == Some(y) && ParseInt(s[5..7]) == Some(mo) && ParseInt(s[8..10]) == Some(d)
      && ParseInt(s[11..13]) == Some(h) && ParseInt(s[14..16]) == Some(mi) && ParseInt(s[17..19]) == Some(sec)
  {
    hide ReadsAs, ParseInt;
    if Shaped(s) {
      ParseIntExactly(s[0..4], y);
      ParseIntExactly(s[5..7], mo);
      ParseIntExactly(s[8..10], d);
      ParseIntExactly(s[11..13], h);
      ParseIntExactly(s[14..16], mi);
      ParseIntExactly(s[17..19], sec);
    }
  }

  lemma ParsedFields(s: Bytes, t: int) returns (y: int, mo: int, d: int, h: int, mi: int, sec: int)
    requires ParseIso(s) == Some(t)
    ensures FieldsRead(s, y, mo, d, h, mi, sec) && IsInstant(y, mo, d, h, mi, sec, t)
  {
    hide ReadsAs, ParseInt, DaysFromCivil;
    y, mo, d := ParseInt(s[0..4]).value, ParseInt(s[5..7]).value, ParseInt(s[8..10]).value;
    h, mi, sec := ParseInt(s[11..13]).value, ParseInt(s[14..16]).value, ParseInt(s[17..19]).value;
    FieldsReadExactly(s, y, mo, d, h, mi, sec);
  }

  /** The texts the parser takes, exactly: six fields of fixed width that read as numbers in range. */
  lemma ParsesExactly(s: Bytes, t: int)
    ensures ParseIso(s) == Some(t) <==>
      exists y, mo, d, h, mi, sec :: FieldsRead(s, y, mo, d, h, mi, sec) && IsInstant(y, mo, d, h, mi, sec, t)
  {
    hide FieldsRead, ParseInt, DaysFromCivil;
    if ParseIso(s) == Some(t) {
      var y, mo, d, h, mi, sec := ParsedFields(s, t);
    }
    if y, mo, d, h, mi, sec :| FieldsRead(s, y, mo, d, h, mi, sec) && IsInstant(y, mo, d, h, mi, sec, t) {
      FieldsReadExactly(s, y, mo, d, h, mi, sec);
    }
  }

  /** What a text that parses must also be to come back as itself: digits alone, a real date. */
  predicate Canonical(s: Bytes) {
    && Shaped(s)
    && AllDigits(s[0..4]) && AllDigits(s[5..7]) && AllDigits(s[8..10])
    && AllDigits(s[11..13]) && AllDigits(s[14..16]) && AllDigits(s[17..19])
    && Value(s[8..10]) <= MonthLength(Value(s[0..4]), Value(s[5..7]))
    && Value(s[17..19]) < 60
  }

  lemma CanonicalReprints(s: Bytes, t: int)
    requires ParseIso(s) == Some(t) && Canonical(s)
    ensures Iso(t) == s
  {
    hide DaysFromCivil, CivilFromDays, Padded, MonthLength;
    var y, mo, d := Value(s[0..4]), Value(s[5..7]), Value(s[8..10]);
    var h, mi, sec := Value(s[11..13]), Value(s[14..16]), Value(s[17..19]);
    var date := Date(y, mo, d);
    var rem := h * 3600 + mi * 60 + sec;
    FieldsParse(s);
    assert t == (DaysFromCivil(date) * DAY + rem) * SECOND;
    DateRoundTrip(date);
    ClockJoin(DaysFromCivil(date), h, mi, sec);
    Reprinted(s[0..4]);
    Reprinted(s[5..7]);
    Reprinted(s[8..10]);
    Reprinted(s[11..13]);
    Reprinted(s[14..16]);
    Reprinted(s[17..19]);
    ShapeIsAssembled(s);
  }

  lemma FieldsParse(s: Bytes)
    requires Canonical(s)
    ensures ParseInt(s[0..4]) == Some(Value(s[0..4])) && ParseInt(s[5..7]) == Some(Value(s[5..7]))
    ensures ParseInt(s[8..10]) == Some(Value(s[8..10])) && ParseInt(s[11..13]) == Some(Value(s[11..13]))
    ensures ParseInt(s[14..16]) == Some(Value(s[14..16])) && ParseInt(s[17..19]) == Some(Value(s[17..19]))
  {
    hide Value;
    assert IsDigit(s[0..4][0]) && IsDigit(s[5..7][0]) && IsDigit(s[8..10][0]);
    assert IsDigit(s[11..13][0]) && IsDigit(s[14..16][0]) && IsDigit(s[17..19][0]);
  }

  lemma Reprinted(text: Bytes)
    requires AllDigits(text) && |text| > 0
    ensures Padded(Value(text), |text|) == text
  {
    ValueField(text);
    PaddedIsField(Value(text), |text|);
  }

  lemma ClockJoin(days: int, h: nat, mi: nat, sec: nat)
    requires h <= 23 && mi <= 59 && sec <= 59 && days * DAY + (h * 3600 + mi * 60 + sec) >= 0
    ensures var t := (days * DAY + (h * 3600 + mi * 60 + sec)) * SECOND;
            var rem := Seconds(t) % DAY;
            Seconds(t) / DAY == days && rem / 3600 == h && rem % 3600 / 60 == mi && rem % 60 == sec
  {
    var rem := h * 3600 + mi * 60 + sec;
    DivUnique(days * DAY + rem, DAY, days, rem);
    DivUnique(rem, 3600, h, mi * 60 + sec);
    DivUnique(mi * 60 + sec, 60, mi, sec);
    DivUnique(rem, 60, h * 60 + mi, sec);
  }

  lemma FieldDigits(n: nat, width: nat)
    requires width > 0 && n < Pow10(width)
    ensures |Padded(n, width)| == width && AllDigits(Padded(n, width)) && Value(Padded(n, width)) == n
  {
    PaddedIsField(n, width);
    FieldValue(n, width);
  }

  lemma ReprintsAreCanonical(t: int)
    requires Seconds(t) < YEAR_10000
    ensures Canonical(Iso(t))
  {
    hide DaysFromCivil, CivilFromDays, Padded, Value, AllDigits;
    var secs := Seconds(t);
    var date, rem := CivilFromDays(secs / DAY), secs % DAY;
    DatesAreFine(secs / DAY);
    Powers();
    ClockSplit(rem);
    FieldDigits(date.y, 4);
    FieldDigits(date.m, 2);
    FieldDigits(date.d, 2);
    FieldDigits(rem / 3600, 2);
    FieldDigits(rem % 3600 / 60, 2);
    FieldDigits(rem % 60, 2);
    AssembleShape(Padded(date.y, 4), Padded(date.m, 2), Padded(date.d, 2),
                  Padded(rem / 3600, 2), Padded(rem % 3600 / 60, 2), Padded(rem % 60, 2));
  }

  /**
   The parser takes more than the printer writes. A text it takes is the one its instant
   prints as exactly when every field is digits alone, the day is a day of its month, and
   the second is below sixty.
   */
  lemma StrictExactly(s: Bytes, t: int)
    requires ParseIso(s) == Some(t)
    ensures Iso(t) == s <==> Canonical(s)
  {
    if Canonical(s) {
      CanonicalReprints(s, t);
    }
    if Iso(t) == s {
      if Seconds(t) >= YEAR_10000 {
        LongYear(t);
      }
      ReprintsAreCanonical(t);
    }
  }

  /** `2026-02-31T-1:00:60Z`: a day no month has, an hour below zero, a sixty-first second. */
  lemma LenientText() returns (s: Bytes, t: int)
    ensures ParseIso(s) == Some(t) && Iso(t) != s
  {
    var y, mo, d: Bytes := [50, 48, 50, 54], [48, 50], [51, 49];
    var h, mi, sec: Bytes := [45, 49], [48, 48], [54, 48];
    s := Assemble(y, mo, d, h, mi, sec);
    AssembleShape(y, mo, d, h, mi, sec);
    SmallValues();
    assert h[1..] == [49];
    t := ParseIso(s).value;
    assert !IsDigit(s[11..13][0]);
    StrictExactly(s, t);
  }

  lemma SmallValues()
    ensures Value([50, 48, 50, 54]) == 2026 && Value([48, 50]) == 2 && Value([51, 49]) == 31
    ensures Value([49]) == 1 && Value([48, 48]) == 0 && Value([54, 48]) == 60
  {
    TwoDigits(50, 48);
    TwoDigits(48, 50);
    TwoDigits(51, 49);
    TwoDigits(48, 48);
    TwoDigits(54, 48);
    assert [50, 48, 50, 54][..3] == [50, 48, 50] && [50, 48, 50][..2] == [50, 48];
    assert Value([50, 48, 50]) == 202;
    assert [49][..0] == [];
  }

  lemma TwoDigits(a: Byte, b: Byte)
    requires IsDigit(a) && IsDigit(b)
    ensures Value([a, b]) == 10 * (a as int - 48) + (b as int - 48)
  {
    assert [a, b][..1] == [a] && [a][..0] == [];
    assert Value([a]) == a as int - 48;
  }
}
