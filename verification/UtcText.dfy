/** Times as text: fixed-width decimal fields, as in section 5.6 of RFC 3339, in UTC only. */
module DecimalText {
  function Pow10(width: nat): (p: nat)
    ensures p > 0
  {
    if width == 0 then 1 else 10 * Pow10(width - 1)
  }

  function Digit(n: int): char {
    (48 + n % 10) as char
  }

  /** `n` in decimal with leading zeros, for numbers that fit the width. */
  function Padded(n: int, width: nat): (s: string)
    ensures |s| == width
    decreases width
  {
    if width == 0 then "" else Padded(n / 10, width - 1) + [Digit(n)]
  }

  predicate IsDigit(c: char) {
    '0' <= c <= '9'
  }

  predicate AllDigits(s: string) {
    forall i :: 0 <= i < |s| ==> IsDigit(s[i])
  }

  function Number(s: string): int {
    if s == "" then 0 else Number(s[..|s| - 1]) * 10 + (s[|s| - 1] as int - 48)
  }

  /** What reading `s` as a number gives: -1 if it is not all digits. */
  function Value(s: string): int {
    if AllDigits(s) then Number(s) else -1
  }

  /** Reading gives back what was written. */
  lemma {:induction false} ReadWritten(n: int, width: nat)
    requires 0 <= n < Pow10(width)
    ensures AllDigits(Padded(n, width)) && Number(Padded(n, width)) == n
    decreases width
  {
    if width > 0 {
      ReadWritten(n / 10, width - 1);
      assert Padded(n, width)[..width - 1] == Padded(n / 10, width - 1);
    }
  }

  /** Writing gives back what was read. */
  lemma {:induction false} WriteRead(s: string)
    requires AllDigits(s)
    ensures 0 <= Number(s) < Pow10(|s|) && Padded(Number(s), |s|) == s
    decreases |s|
  {
    if s != "" {
      var init := s[..|s| - 1];
      WriteRead(init);
      assert IsDigit(s[|s| - 1]);
      assert Number(s) / 10 == Number(init) && Number(s) % 10 == s[|s| - 1] as int - 48;
      assert s == init + [s[|s| - 1]];
    }
  }

  lemma NumberStep(text: string, offset: nat, i: nat)
    requires offset <= i < |text|
    ensures Number(text[offset..i + 1]) == Number(text[offset..i]) * 10 + (text[i] as int - 48)
    ensures AllDigits(text[offset..i + 1]) <==> AllDigits(text[offset..i]) && IsDigit(text[i])
  {
    var s := text[offset..i + 1];
    assert s[..|s| - 1] == text[offset..i] && s[|s| - 1] == text[i];
    assert s == text[offset..i] + [text[i]];
  }

  lemma NotAllDigits(text: string, offset: nat, i: nat, end: nat)
    requires offset <= i < end <= |text| && !IsDigit(text[i])
    ensures !AllDigits(text[offset..end])
  {
    assert text[offset..end][i - offset] == text[i];
  }

  method Digits(text: string, offset: nat, count: nat) returns (value: int)
    requires offset + count <= |text|
    ensures value == Value(text[offset..offset + count])
  {
    value := 0;
    var i: nat := offset;
    while i < offset + count
      invariant offset <= i <= offset + count
      invariant AllDigits(text[offset..i]) && value == Number(text[offset..i])
    {
      if text[i] < '0' || text[i] > '9' {
        NotAllDigits(text, offset, i, offset + count);
        return -1;
      }
      NumberStep(text, offset, i);
      value := value * 10 + (text[i] as int - '0' as int);
      i := i + 1;
    }
  }
}

module UtcText {
  import opened Collections
  import opened UtcCalendars
  import opened UtcTime
  import opened DecimalText

  function Scale(digits: nat): int {
    if digits == 1 then 100 else if digits == 2 then 10 else 1
  }

  /** The separators of a timestamp are in place. */
  predicate Shape(text: string) {
    && (|text| == 20 || 22 <= |text| <= 24)
    && text[4] == '-' && text[7] == '-' && text[10] == 'T' && text[13] == ':' && text[16] == ':'
    && text[|text| - 1] == 'Z' && (|text| != 20 ==> text[19] == '.')
  }

  /** The text writes the time `f` with `digits` digits of fraction, none of them lost. */
  ghost predicate Writes(text: string, f: Fields, digits: nat) {
    && digits <= 3 && Shape(text) && |text| == (if digits == 0 then 20 else 21 + digits)
    && text[0..4] == Padded(f.year, 4) && text[5..7] == Padded(f.month, 2) && text[8..10] == Padded(f.day, 2)
    && text[11..13] == Padded(f.hour, 2) && text[14..16] == Padded(f.minute, 2) && text[17..19] == Padded(f.second, 2)
    && WritesFraction(text, f.millisecond, digits)
  }

  /** The digits are the tenths, the hundredths or the thousandths of a second that the milliseconds are. */
  ghost predicate WritesFraction(text: string, millisecond: int, digits: nat)
    requires digits <= 3 && |text| == (if digits == 0 then 20 else 21 + digits)
  {
    if digits == 0 then millisecond == 0
    else if digits == 1 then millisecond % 100 == 0 && text[20..21] == Padded(millisecond / 100, 1)
    else if digits == 2 then millisecond % 10 == 0 && text[20..22] == Padded(millisecond / 10, 2)
    else text[20..23] == Padded(millisecond, 3)
  }

  /** The seven parts read from a timestamp; a part that is not a number reads as -1. */
  function PartsOf(text: string): Fields
    requires Shape(text)
  {
    Fields(Value(text[0..4]), Value(text[5..7]), Value(text[8..10]), Value(text[11..13]), Value(text[14..16]), Value(text[17..19]),
           if |text| == 20 then 0
           else if Value(text[20..|text| - 1]) < 0 then -1 else Value(text[20..|text| - 1]) * Scale(|text| - 21))
  }

  lemma ValueWritten(s: string, n: int, width: nat)
    requires s == Padded(n, width) && 0 <= n < Pow10(width)
    ensures Value(s) == n
  {
    ReadWritten(n, width);
  }

  lemma FractionWritten(text: string, millisecond: int, digits: nat)
    requires digits <= 3 && |text| == (if digits == 0 then 20 else 21 + digits)
    requires WritesFraction(text, millisecond, digits) && 0 <= millisecond < 1000
    requires Shape(text)
    ensures PartsOf(text).millisecond == millisecond
  {
    if digits > 0 {
      assert Pow10(1) == 10 && Pow10(2) == 100 && Pow10(3) == 1000;
      ValueWritten(text[20..20 + digits], millisecond / Scale(digits), digits);
    }
  }

  lemma DateReads(text: string, f: Fields, digits: nat)
    requires Valid(f) && Writes(text, f, digits)
    ensures Value(text[0..4]) == f.year && Value(text[5..7]) == f.month && Value(text[8..10]) == f.day
  {
    assert Pow10(2) == 100 && Pow10(4) == 10000;
    ValueWritten(text[0..4], f.year, 4);
    ValueWritten(text[5..7], f.month, 2);
    ValueWritten(text[8..10], f.day, 2);
  }

  lemma ClockReads(text: string, f: Fields, digits: nat)
    requires Valid(f) && Writes(text, f, digits)
    ensures Value(text[11..13]) == f.hour && Value(text[14..16]) == f.minute && Value(text[17..19]) == f.second
  {
    assert Pow10(2) == 100;
    ValueWritten(text[11..13], f.hour, 2);
    ValueWritten(text[14..16], f.minute, 2);
    ValueWritten(text[17..19], f.second, 2);
  }

  /** A written time reads as itself. */
  lemma WrittenReads(text: string, f: Fields, digits: nat)
    requires Valid(f) && Writes(text, f, digits)
    ensures PartsOf(text) == f
  {
    DateReads(text, f, digits);
    ClockReads(text, f, digits);
    FractionWritten(text, f.millisecond, digits);
  }

  lemma ReadWrites(s: string)
    requires Value(s) >= 0
    ensures s == Padded(Value(s), |s|)
  {
    WriteRead(s);
  }

  lemma ReadDateIsWritten(text: string)
    requires Shape(text) && Valid(PartsOf(text))
    ensures var f := PartsOf(text);
      text[0..4] == Padded(f.year, 4) && text[5..7] == Padded(f.month, 2) && text[8..10] == Padded(f.day, 2)
  {
    ReadWrites(text[0..4]);
    ReadWrites(text[5..7]);
    ReadWrites(text[8..10]);
  }

  lemma ReadClockIsWritten(text: string)
    requires Shape(text) && Valid(PartsOf(text))
    ensures var f := PartsOf(text);
      text[11..13] == Padded(f.hour, 2) && text[14..16] == Padded(f.minute, 2) && text[17..19] == Padded(f.second, 2)
  {
    ReadWrites(text[11..13]);
    ReadWrites(text[14..16]);
    ReadWrites(text[17..19]);
  }

  lemma ReadFractionIsWritten(text: string)
    requires Shape(text) && |text| != 20 && PartsOf(text).millisecond >= 0
    ensures WritesFraction(text, PartsOf(text).millisecond, |text| - 21)
  {
    var digits, n := |text| - 21, Value(text[20..|text| - 1]);
    assert n >= 0;
    ReadWrites(text[20..|text| - 1]);
    assert digits == 1 ==> (n * 100) / 100 == n && (n * 100) % 100 == 0;
    assert digits == 2 ==> (n * 10) / 10 == n && (n * 10) % 10 == 0;
    assert 20 + digits == |text| - 1;
  }

  /** What reads as a time is that time written out. */
  lemma ReadIsWritten(text: string)
    requires Shape(text) && Valid(PartsOf(text))
    ensures Writes(text, PartsOf(text), if |text| == 20 then 0 else |text| - 21)
  {
    ReadDateIsWritten(text);
    ReadClockIsWritten(text);
    if |text| != 20 { ReadFractionIsWritten(text); }
  }

  /** The text of a time, with three digits of fraction. */
  method UtcFormatMilliseconds(value: int) returns (text: Option<string>)
    ensures text.Some? <==> MIN_MS <= value <= MAX_MS
    ensures text.Some? ==> exists f: Fields :: Valid(f) && Milliseconds(f) == value && Writes(text.value, f, 3)
  {
    var calendar := ReadUtc(value);
    if calendar.None? { return None; }
    var f := calendar.value.fields;
    var date := Joined(Padded(f.year, 4), Padded(f.month, 2), Padded(f.day, 2), '-');
    var clock := Joined(Padded(f.hour, 2), Padded(f.minute, 2), Padded(f.second, 2), ':') + "." + Padded(f.millisecond, 3);
    text := Some(Stamp(date, clock));
    TextWrites(f, text.value);
  }

  function Stamp(date: string, clock: string): string {
    date + "T" + clock + "Z"
  }

  function Joined(a: string, b: string, c: string, separator: char): string {
    a + [separator] + b + [separator] + c
  }

  lemma JoinedPieces(a: string, b: string, c: string, separator: char)
    requires |b| == |c| == 2
    ensures var s := Joined(a, b, c, separator);
      && |s| == |a| + 6 && s[..|a|] == a && s[|a|] == separator && s[|a| + 1..|a| + 3] == b
      && s[|a| + 3] == separator && s[|a| + 4..] == c
  {
  }

  lemma StampPieces(date: string, clock: string, fraction: string)
    requires |date| == 10 && |clock| == 8 && |fraction| == 3
    ensures var s := Stamp(date, clock + "." + fraction);
      |s| == 24 && s[..10] == date && s[10] == 'T' && s[11..19] == clock && s[19] == '.' && s[20..23] == fraction && s[23] == 'Z'
  {
  }

  lemma TextWrites(f: Fields, text: string)
    requires text == Stamp(Joined(Padded(f.year, 4), Padded(f.month, 2), Padded(f.day, 2), '-'),
                           Joined(Padded(f.hour, 2), Padded(f.minute, 2), Padded(f.second, 2), ':') + "." + Padded(f.millisecond, 3))
    ensures Writes(text, f, 3)
  {
    var year, month, day := Padded(f.year, 4), Padded(f.month, 2), Padded(f.day, 2);
    var hour, minute, second, fraction := Padded(f.hour, 2), Padded(f.minute, 2), Padded(f.second, 2), Padded(f.millisecond, 3);
    var date, clock := Joined(year, month, day, '-'), Joined(hour, minute, second, ':');
    JoinedPieces(year, month, day, '-');
    JoinedPieces(hour, minute, second, ':');
    StampPieces(date, clock, fraction);
    SlicesOf(text, date, clock);
  }

  lemma SlicesOf(text: string, date: string, clock: string)
    requires |text| == 24 && |date| == 10 && |clock| == 8 && text[..10] == date && text[11..19] == clock
    ensures text[0..4] == date[..4] && text[4] == date[4] && text[5..7] == date[5..7] && text[7] == date[7] && text[8..10] == date[8..]
    ensures text[11..13] == clock[..2] && text[13] == clock[2] && text[14..16] == clock[3..5] && text[16] == clock[5] && text[17..19] == clock[6..]
  {
    assert forall i :: 0 <= i < 10 ==> text[..10][i] == text[i];
    assert forall i :: 0 <= i < 8 ==> text[11..19][i] == text[11 + i];
  }

  /** Reads a timestamp: exactly the texts that write a time of the years 1900 to 9999 are accepted. */
  method UtcParseMilliseconds(text: string) returns (value: Option<int>)
    ensures value.Some? ==> exists f, digits :: Valid(f) && Writes(text, f, digits) && value.value == Milliseconds(f)
    ensures forall f, digits :: Valid(f) && Writes(text, f, digits) ==> value == Some(Milliseconds(f))
  {
    var size := |text|;
    if (size != 20 && (size < 22 || size > 24)) || text[4] != '-' || text[7] != '-' || text[10] != 'T' || text[13] != ':' || text[16] != ':' ||
       text[size - 1] != 'Z' || (size != 20 && text[19] != '.') {
      return None;
    }
    forall f, digits | Valid(f) && Writes(text, f, digits) ensures PartsOf(text) == f { WrittenReads(text, f, digits); }
    var parts := ReadParts(text);
    if parts.None? { return None; }
    value := MakeUtc(parts.value);
    if value.Some? { ReadIsWritten(text); }
  }

  /** Reads the numbers between the separators. */
  method ReadParts(text: string) returns (parts: Option<seq<int>>)
    requires Shape(text)
    ensures parts.Some? ==> |parts.value| == 7 && Parts(parts.value) == PartsOf(text)
    ensures parts.None? ==> PartsOf(text).millisecond < 0
  {
    var year := Digits(text, 0, 4);
    var month := Digits(text, 5, 2);
    var day := Digits(text, 8, 2);
    var hour := Digits(text, 11, 2);
    var minute := Digits(text, 14, 2);
    var second := Digits(text, 17, 2);
    var millisecond := 0;
    if |text| != 20 {
      var digits := |text| - 21;
      var fraction := Digits(text, 20, digits);
      if fraction < 0 { return None; }
      millisecond := fraction * if digits == 1 then 100 else if digits == 2 then 10 else 1;
    }
    parts := Some([year, month, day, hour, minute, second, millisecond]);
  }

  /** How the first second of the epoch is written, whatever its fraction. */
  lemma EpochWrites(text: string, f: Fields, digits: nat)
    requires digits <= 3 && |text| == (if digits == 0 then 20 else 21 + digits) && text[..19] == "1970-01-01T00:00:00"
    requires f == Fields(1970, 1, 1, 0, 0, 0, f.millisecond) && WritesFraction(text, f.millisecond, digits)
    requires text[|text| - 1] == 'Z' && (digits > 0 ==> text[19] == '.')
    ensures Writes(text, f, digits)
  {
    Within(text, 0, 4);
    Within(text, 5, 7);
    Within(text, 8, 10);
    Within(text, 11, 13);
    Within(text, 14, 16);
    Within(text, 17, 19);
    EpochPieces();
    assert forall i :: 0 <= i < 19 ==> text[i] == text[..19][i];
  }

  lemma EpochMilliseconds(f: Fields)
    requires f == Fields(1970, 1, 1, 0, 0, 0, f.millisecond) && 0 <= f.millisecond < 1000
    ensures Valid(f) && Milliseconds(f) == f.millisecond
  {
    DayNumberCounts(Date(1970, 1, 1));
  }

  lemma EpochPieces()
    ensures "1970-01-01T00:00:00"[0..4] == Padded(1970, 4)
    ensures "1970-01-01T00:00:00"[5..7] == "1970-01-01T00:00:00"[8..10] == Padded(1, 2)
    ensures "1970-01-01T00:00:00"[11..13] == "1970-01-01T00:00:00"[14..16] == "1970-01-01T00:00:00"[17..19] == Padded(0, 2)
  {
    assert "1970-01-01T00:00:00"[0..4] == "1970" == Padded(1970, 4);
    assert "1970-01-01T00:00:00"[5..7] == "1970-01-01T00:00:00"[8..10] == "01" == Padded(1, 2);
    assert "1970-01-01T00:00:00"[11..13] == "1970-01-01T00:00:00"[14..16] == "1970-01-01T00:00:00"[17..19] == "00" == Padded(0, 2);
  }

  lemma Within(text: string, i: nat, j: nat)
    requires i <= j <= 19 <= |text|
    ensures text[i..j] == text[..19][i..j]
  {
  }

  /** The text of a time reads as that time. */
  method TextAndBack(value: int) returns (back: Option<int>)
    requires MIN_MS <= value <= MAX_MS
    ensures back == Some(value)
  {
    var text := UtcFormatMilliseconds(value);
    back := UtcParseMilliseconds(text.value);
  }
}
