/** The strict timestamp parse of the training script and the CSV simulator:
    `pd.to_datetime(values, format='%d/%m/%Y %H:%M')`, which raises on the
    first value that does not match instead of dropping it, and the hour
    extraction that goes through the text `%H:%M` and back. */
module Timestamps {
  import opened Wrappers
  import opened Text
  import opened Calendar
  import opened Frames

  /** The fields of a matched timestamp. */
  datatype Civil = Civil(year: int, month: nat, day: nat, hour: nat, minute: nat)

  /** Why a value was refused: it does not match the format, its day does not
      exist in its month, or it lies outside the nanosecond timestamp range. */
  datatype CellError = Unmatched | DayOutOfRange | OutOfBounds

  predicate ValidCivil(c: Civil) {
    1 <= c.month <= 12 && 1 <= c.day <= DaysInMonth(c.year, c.month) && c.hour < 24 && c.minute < 60
  }

  function ToDateTime(c: Civil): (t: DateTime)
    requires 1 <= c.month <= 12
  {
    DateTime(DaysFromCivil(c.year, c.month, c.day), c.hour * 3600 + c.minute * 60)
  }

  /** A timestamp is a signed 64-bit count of nanoseconds since the epoch:
      whole seconds within ±9223372036.854775807. */
  predicate InBounds(t: DateTime) {
    -9223372036 <= t.day * SecondsPerDay + t.clock <= 9223372036
  }

  // ---------------------------------------------------------------------------
  // Matching the format

  /** `\s` on ASCII text. */
  predicate IsSpace(c: char) {
    c == ' ' || c == '\t' || c == '\n' || c == '\r' || c == '\U{B}' || c == '\U{C}'
  }

  /** Length of the whitespace run at the start of `s`. */
  function SpaceRun(s: string): (k: nat)
    ensures k <= |s|
    ensures forall i :: 0 <= i < k ==> IsSpace(s[i])
    ensures k < |s| ==> !IsSpace(s[k])
    decreases |s|
  {
    if s == [] || !IsSpace(s[0]) then 0
    else 1 + SpaceRun(s[1..])
  }

  /** A numeric field of one to `width` digits, followed by a non-digit:
      the field's value and the text after it. */
  function Field(s: string, width: nat): (r: Option<(nat, string)>)
    ensures r.Some? ==> 1 <= |s| - |r.value.1| <= width && r.value.1 == s[|s| - |r.value.1|..]
  {
    var k := DigitRun(s);
    if 1 <= k <= width then Some((DigitsValue(s[..k]), s[k..])) else None
  }

  /** The day field also accepts a space followed by a single digit 1-9. */
  function DayField(s: string): Option<(nat, string)> {
    if |s| >= 2 && s[0] == ' ' && '1' <= s[1] <= '9' && (|s| == 2 || !IsDigit(s[2]))
    then Some((s[1] as int - '0' as int, s[2..]))
    else Field(s, 2)
  }

  /** The text after a literal character, if it is there. */
  function Literal(s: string, c: char): Option<string> {
    if |s| >= 1 && s[0] == c then Some(s[1..]) else None
  }

  /** The text after a non-empty whitespace run (a space in the format). */
  function Spaces(s: string): Option<string> {
    var k := SpaceRun(s);
    if k >= 1 then Some(s[k..]) else None
  }

  /** `%H:%M` at the start of `s`, with nothing after it. */
  function ReadClock(s: string): (r: Option<(nat, nat)>)
    ensures r.Some? ==> r.value.0 < 24 && r.value.1 < 60
  {
    var h := Field(s, 2);
    if h.None? || h.value.0 > 23 then None
    else
      var s1 := Literal(h.value.1, ':');
      if s1.None? then None
      else
        var m := Field(s1.value, 2);
        if m.None? || m.value.0 > 59 || m.value.1 != [] then None
        else Some((h.value.0, m.value.0))
  }

  /** `%d/%m/` at the start of `s`: day, month and the text after them. */
  function ReadDayMonth(s: string): (r: Option<(nat, nat, string)>)
    ensures r.Some? ==> 1 <= r.value.0 <= 31 && 1 <= r.value.1 <= 12
  {
    var d := DayField(s);
    if d.None? || !(1 <= d.value.0 <= 31) then None
    else
      var s1 := Literal(d.value.1, '/');
      if s1.None? then None
      else
        var m := Field(s1.value, 2);
        if m.None? || !(1 <= m.value.0 <= 12) then None
        else
          var s2 := Literal(m.value.1, '/');
          if s2.None? then None
          else Some((d.value.0, m.value.0, s2.value))
  }

  /** `%Y` at the start of `s`: exactly four digits. */
  function ReadYear(s: string): Option<(nat, string)> {
    var y := Field(s, 4);
    if y.None? || |s| - |y.value.1| != 4 then None else y
  }

  /** `%d/%m/%Y %H:%M` against the whole of `s`. */
  function ReadFields(s: string): (r: Option<Civil>)
    ensures r.Some? ==> 1 <= r.value.day <= 31 && 1 <= r.value.month <= 12
    ensures r.Some? ==> r.value.hour < 24 && r.value.minute < 60
  {
    var dm := ReadDayMonth(s);
    if dm.None? then None
    else
      var y := ReadYear(dm.value.2);
      if y.None? then None
      else
        var s3 := Spaces(y.value.1);
        if s3.None? then None
        else
          var hm := ReadClock(s3.value);
          if hm.None? then None
          else Some(Civil(y.value.0, dm.value.1, dm.value.0, hm.value.0, hm.value.1))
  }

  /** One text value under the strict format: refused as unmatched iff the
      format does not match; a matched text whose day does not exist in its
      month is refused, not rolled over; a matched valid date is accepted iff
      it lies in the timestamp range, and then as the matched fields. */
  function ParseText(s: string): (r: Result<DateTime, CellError>)
    ensures r.Ok? ==> ValidDateTime(r.value) && InBounds(r.value)
    ensures r.Ok? ==> exists c :: ReadFields(s) == Some(c) && ValidCivil(c) && r.value == ToDateTime(c)
    ensures r == Err(Unmatched) <==> ReadFields(s).None?
    ensures ReadFields(s).Some? && ReadFields(s).value.day > DaysInMonth(ReadFields(s).value.year, ReadFields(s).value.month) ==>
              r == Err(DayOutOfRange)
    ensures ReadFields(s).Some? && ValidCivil(ReadFields(s).value) ==>
              (r.Ok? <==> InBounds(ToDateTime(ReadFields(s).value)))
    ensures ReadFields(s).Some? && ValidCivil(ReadFields(s).value) && InBounds(ToDateTime(ReadFields(s).value)) ==>
              r == Ok(ToDateTime(ReadFields(s).value))
  {
    var c := ReadFields(s);
    if c.None? then Err(Unmatched)
    else if c.value.day > DaysInMonth(c.value.year, c.value.month) then Err(DayOutOfRange)
    else if !InBounds(ToDateTime(c.value)) then Err(OutOfBounds)
    else Ok(ToDateTime(c.value))
  }

  /** The spellings of a missing value that the parse turns into NaT. */
  const NatStrings: set<string> := {"", "NaT", "nat", "NAT", "nan", "NaN", "NAN"}

  /** One cell: missing values stay missing, a timestamp or a date passes
      through, text is parsed, and anything else is refused. */
  function ParseCell(v: Value): (r: Result<Value, CellError>)
    ensures r.Ok? ==> r.value == Null || (r.value.Stamp? && ValidDateTime(r.value.t)) || v.Stamp?
    ensures v == Null ==> r == Ok(Null)
    ensures v.Text? && v.s in NatStrings ==> r == Ok(Null)
    ensures v.Text? && v.s !in NatStrings ==>
              (r.Ok? <==> ParseText(v.s).Ok?) &&
              (ParseText(v.s).Ok? ==> r == Ok(Stamp(ParseText(v.s).value))) &&
              (ParseText(v.s).Err? ==> r == Err(ParseText(v.s).error))
    ensures v.Number? ==> r == Err(Unmatched)
  {
    match v
    case Null => Ok(Null)
    case Stamp(t) => Ok(v)
    case Day(d) => Ok(Stamp(DateTime(d, 0)))
    case Number(_) => Err(Unmatched)
    case Text(s) =>
      if s in NatStrings then Ok(Null)
      else
        var t := ParseText(s);
        if t.Ok? then Ok(Stamp(t.value)) else Err(t.error)
  }

  // ---------------------------------------------------------------------------
  // A whole column: the first bad value raises

  /** The parse of `values[from..]`: all of it, or the first refused row. */
  function ParseFrom(values: seq<Value>, from: nat): (r: Result<seq<Value>, (nat, CellError)>)
    requires from <= |values|
    ensures r.Ok? <==> forall k :: from <= k < |values| ==> ParseCell(values[k]).Ok?
    ensures r.Ok? ==> |r.value| == |values| - from
    ensures r.Ok? ==> forall k :: from <= k < |values| ==> r.value[k - from] == ParseCell(values[k]).value
    ensures r.Err? ==> from <= r.error.0 < |values| && ParseCell(values[r.error.0]) == Err(r.error.1)
    ensures r.Err? ==> forall k :: from <= k < r.error.0 ==> ParseCell(values[k]).Ok?
    decreases |values| - from
  {
    if from == |values| then Ok([])
    else
      var head := ParseCell(values[from]);
      if head.Err? then Err((from, head.error))
      else
        var rest := ParseFrom(values, from + 1);
        if rest.Err? then rest else Ok([head.value] + rest.value)
  }

  /** `pd.to_datetime(column, format='%d/%m/%Y %H:%M')`: every value
      converted, or the error of the first value that cannot be. */
  function ParseStrict(values: seq<Value>): (r: Result<seq<Value>, (nat, CellError)>)
    ensures r.Ok? <==> forall k :: 0 <= k < |values| ==> ParseCell(values[k]).Ok?
    ensures r.Ok? ==> |r.value| == |values| && forall k :: 0 <= k < |values| ==> r.value[k] == ParseCell(values[k]).value
    ensures r.Err? ==> r.error.0 < |values| && ParseCell(values[r.error.0]) == Err(r.error.1)
    ensures r.Err? ==> forall k :: 0 <= k < r.error.0 ==> ParseCell(values[k]).Ok?
  {
    ParseFrom(values, 0)
  }

  // ---------------------------------------------------------------------------
  // Rendering, and the round trip

  /** The text of a timestamp in the format `%d/%m/%Y %H:%M`. */
  function Format(c: Civil): string
    requires c.day < 100 && c.month < 100 && 0 <= c.year < 10000 && c.hour < 100 && c.minute < 100
  {
    Pad2(c.day) + ("/" + (Pad2(c.month) + ("/" + (Pad4(c.year) + (" " + ClockText(c.hour, c.minute))))))
  }

  /** `strftime('%H:%M')`. */
  function ClockText(h: nat, m: nat): string
    requires h < 100 && m < 100
  {
    Pad2(h) + (":" + Pad2(m))
  }

  lemma FieldOfPad(ds: string, rest: string, width: nat)
    requires AllDigits(ds) && 1 <= |ds| <= width
    requires rest == [] || !IsDigit(rest[0])
    ensures Field(ds + rest, width) == Some((DigitsValue(ds), rest))
  {
    DigitRunOfField(ds, rest);
    assert (ds + rest)[..|ds|] == ds;
    assert (ds + rest)[|ds|..] == rest;
  }

  lemma LiteralOf(c: char, rest: string)
    ensures Literal([c] + rest, c) == Some(rest)
  {
    assert ([c] + rest)[1..] == rest;
  }

  /** The clock text reads back as the hour and minute it was made from. */
  lemma ClockRoundTrip(h: nat, m: nat)
    requires h < 24 && m < 60
    ensures ReadClock(ClockText(h, m)) == Some((h, m))
  {
    FieldOfPad(Pad2(h), ":" + Pad2(m), 2);
    LiteralOf(':', Pad2(m));
    FieldOfPad(Pad2(m), [], 2);
    assert Pad2(m) + [] == Pad2(m);
  }

  /** A one- or two-digit field that spells `n`. */
  predicate SpellsField(ds: string, n: nat) {
    AllDigits(ds) && 1 <= |ds| <= 2 && DigitsValue(ds) == n
  }

  lemma DayMonthOfFields(dd: string, mm: string, d: nat, m: nat, rest: string)
    requires SpellsField(dd, d) && SpellsField(mm, m)
    requires 1 <= d <= 31 && 1 <= m <= 12 && rest != [] && IsDigit(rest[0])
    ensures ReadDayMonth(dd + ("/" + (mm + ("/" + rest)))) == Some((d, m, rest))
  {
    var afterMonth := "/" + rest;
    var afterDay := "/" + (mm + afterMonth);
    var s := dd + afterDay;
    assert DayField(s) == Field(s, 2) by {
      assert s[0] == dd[0];
    }
    FieldOfPad(dd, afterDay, 2);
    LiteralOf('/', mm + afterMonth);
    FieldOfPad(mm, afterMonth, 2);
    LiteralOf('/', rest);
  }

  lemma YearOfFormat(y: nat, tail: string)
    requires y < 10000 && tail != [] && !IsDigit(tail[0])
    ensures ReadYear(Pad4(y) + tail) == Some((y, tail))
  {
    FieldOfPad(Pad4(y), tail, 4);
  }

  lemma SpacesOfFormat(clock: string)
    requires clock != [] && IsDigit(clock[0])
    ensures Spaces(" " + clock) == Some(clock)
  {
    assert (" " + clock)[1..] == clock;
    assert SpaceRun(" " + clock) == 1;
  }

  /** In-range fields: what the format's field patterns admit. */
  predicate FieldsInRange(c: Civil) {
    1 <= c.day <= 31 && 1 <= c.month <= 12 && 0 <= c.year < 10000 && c.hour < 24 && c.minute < 60
  }

  /** Fields in range, written in the format, read back as themselves. */
  lemma ReadFieldsOfFormat(c: Civil)
    requires FieldsInRange(c)
    ensures ReadFields(Format(c)) == Some(c)
  {
    var clock := ClockText(c.hour, c.minute);
    var rest := Pad4(c.year) + (" " + clock);
    assert rest[0] == Pad4(c.year)[0];
    DayMonthOfFields(Pad2(c.day), Pad2(c.month), c.day, c.month, rest);
    YearOfFormat(c.year, " " + clock);
    assert clock[0] == Pad2(c.hour)[0];
    SpacesOfFormat(clock);
    ClockRoundTrip(c.hour, c.minute);
  }

  /** The strict parse reads the format's own rendering back: a valid
      timestamp in range, written as `dd/mm/YYYY HH:MM`, parses back to
      itself. */
  lemma ParseFormatRoundTrip(c: Civil)
    requires ValidCivil(c) && 0 <= c.year < 10000 && InBounds(ToDateTime(c))
    ensures ParseText(Format(c)) == Ok(ToDateTime(c))
  {
    ReadFieldsOfFormat(c);
  }

  /** A field written without its leading zero. */
  function Unpadded(n: nat): (ds: string)
    requires n < 100
    ensures SpellsField(ds, n)
  {
    if n < 10 then
      assert [DigitChar(n)][..0] == [];
      [DigitChar(n)]
    else Pad2(n)
  }

  /** A run of `n` spaces. */
  function Blanks(n: nat): (s: string)
    ensures |s| == n && forall i :: 0 <= i < n ==> s[i] == ' '
  {
    seq(n, i => ' ')
  }

  lemma {:induction false} SpaceRunOfBlanks(n: nat, rest: string)
    requires rest != [] && !IsSpace(rest[0])
    ensures SpaceRun(Blanks(n) + rest) == n
    decreases n
  {
    if n > 0 {
      assert (Blanks(n) + rest)[1..] == Blanks(n - 1) + rest;
      SpaceRunOfBlanks(n - 1, rest);
    } else {
      assert Blanks(n) + rest == rest;
    }
  }

  /** `d/m/YYYY h:m` with unpadded day, month, hour and minute, and a run of
      `gap` spaces between the date and the clock. */
  function LooseFormat(c: Civil, gap: nat): string
    requires FieldsInRange(c)
  {
    Unpadded(c.day) + ("/" + (Unpadded(c.month) + ("/" + (Pad4(c.year) +
      (Blanks(gap) + (Unpadded(c.hour) + (":" + Unpadded(c.minute))))))))
  }

  lemma LooseClock(h: nat, m: nat)
    requires h < 24 && m < 60
    ensures ReadClock(Unpadded(h) + (":" + Unpadded(m))) == Some((h, m))
  {
    FieldOfPad(Unpadded(h), ":" + Unpadded(m), 2);
    LiteralOf(':', Unpadded(m));
    FieldOfPad(Unpadded(m), [], 2);
    assert Unpadded(m) + [] == Unpadded(m);
  }

  lemma ReadFieldsOfLooseFormat(c: Civil, gap: nat)
    requires FieldsInRange(c) && gap >= 1
    ensures ReadFields(LooseFormat(c, gap)) == Some(c)
  {
    var clock := Unpadded(c.hour) + (":" + Unpadded(c.minute));
    var tail := Blanks(gap) + clock;
    var rest := Pad4(c.year) + tail;
    assert rest[0] == Pad4(c.year)[0];
    DayMonthOfFields(Unpadded(c.day), Unpadded(c.month), c.day, c.month, rest);
    assert tail[0] == ' ';
    YearOfFormat(c.year, tail);
    assert clock[0] == Unpadded(c.hour)[0];
    SpaceRunOfBlanks(gap, clock);
    assert tail[gap..] == clock;
    LooseClock(c.hour, c.minute);
  }

  /** The format's fields need no leading zeros and its space matches any run
      of whitespace: `5/6/2025   7:5` is accepted as 2025-06-05 07:05, and in
      general every valid timestamp in range so written parses to itself. */
  lemma ParseLooseFormat(c: Civil, gap: nat)
    requires ValidCivil(c) && 0 <= c.year < 10000 && InBounds(ToDateTime(c)) && gap >= 1
    ensures ParseText(LooseFormat(c, gap)) == Ok(ToDateTime(c))
  {
    ReadFieldsOfLooseFormat(c, gap);
  }

  /** A matched date whose day does not exist in its month is refused,
      not rolled over into the next month. */
  lemma NoRollOver(c: Civil)
    requires FieldsInRange(c) && c.day > DaysInMonth(c.year, c.month)
    ensures ParseText(Format(c)) == Err(DayOutOfRange)
  {
    ReadFieldsOfFormat(c);
  }

  // ---------------------------------------------------------------------------
  // horario

  /** `.dt.strftime('%H:%M')`, then `pd.to_datetime(.., format='%H:%M').dt.hour`:
      the hour of a timestamp, through its clock text; missing stays missing. */
  function HorarioCell(v: Value): Value {
    match v
    case Stamp(t) =>
      if ValidDateTime(t) then
        var hm := ReadClock(ClockText(Hour(t), MinuteOfHour(t)));
        if hm.Some? then Number(hm.value.0 as real) else Null
      else Null
    case _ => Null
  }

  /** The text detour is lossless: `horario` is the timestamp's own hour,
      between 0 and 23, and is missing exactly where the timestamp is. */
  lemma HorarioIsHour(v: Value)
    requires v.Stamp? ==> ValidDateTime(v.t)
    ensures v.Stamp? ==> HorarioCell(v) == Number(Hour(v.t) as real) && 0 <= Hour(v.t) < 24
    ensures !v.Stamp? ==> HorarioCell(v) == Null
  {
    if v.Stamp? {
      ClockRoundTrip(Hour(v.t), MinuteOfHour(v.t));
    }
  }

  function HorarioColumn(values: seq<Value>): (r: seq<Value>)
    ensures |r| == |values|
  {
    seq(|values|, k requires 0 <= k < |values| => HorarioCell(values[k]))
  }
}
