/** Calendar arithmetic. A calendar date is an integer day number
    (1970-01-01 is day 0), so "fim - timedelta(days=29)" is `fim - 29` and
    consecutive days are consecutive integers. */
module Calendar {
  import opened Wrappers
  import opened Sequences

  /** A pandas Timestamp reduced to its day number and the whole seconds
      elapsed since midnight. */
  datatype DateTime = DateTime(day: int, clock: nat)

  const SecondsPerDay: nat := 86400

  predicate ValidDateTime(t: DateTime) {
    t.clock < SecondsPerDay
  }

  /** `.dt.date`: the date part of a timestamp. */
  function DatePart(t: DateTime): int {
    t.day
  }

  /** `.dt.hour`. */
  function Hour(t: DateTime): (h: nat)
    requires ValidDateTime(t)
    ensures h < 24
  {
    t.clock / 3600
  }

  /** `.dt.minute`. */
  function MinuteOfHour(t: DateTime): (m: nat)
    ensures m < 60
  {
    t.clock / 60 % 60
  }

  predicate IsLeapYear(y: int) {
    y % 4 == 0 && (y % 100 != 0 || y % 400 == 0)
  }

  function DaysInMonth(y: int, m: nat): (n: nat)
    requires 1 <= m <= 12
    ensures 28 <= n <= 31
  {
    if m == 2 then (if IsLeapYear(y) then 29 else 28)
    else if m == 4 || m == 6 || m == 9 || m == 11 then 30
    else 31
  }

  /** Day number of the proleptic Gregorian date `y-m-d`
      (counting days from 1970-01-01 by 400-year eras starting in March). */
  function DaysFromCivil(y: int, m: nat, d: nat): int
    requires 1 <= m <= 12
  {
    var y' := if m <= 2 then y - 1 else y;
    var era := y' / 400;
    var yoe := y' - era * 400;
    var mp := if m > 2 then m - 3 else m + 9;
    var doy := (153 * mp + 2) / 5 + d - 1;
    var doe := yoe * 365 + yoe / 4 - yoe / 100 + doy;
    era * 146097 + doe - 719468
  }

  /** `dayofweek`: Monday is 0 and Sunday is 6; day 0 (1970-01-01) was a Thursday. */
  function Weekday(day: int): (w: nat)
    ensures w < 7
  {
    (day + 3) % 7
  }

  /** `calendar.day_name` and `Timestamp.day_name()`, indexed by `Weekday`. */
  const EnglishDayNames: seq<string> :=
    ["Monday", "Tuesday", "Wednesday", "Thursday", "Friday", "Saturday", "Sunday"]

  /** The Portuguese names the training data is labelled with, in the same order. */
  const PortugueseDayNames: seq<string> :=
    ["Segunda-feira", "Terça-feira", "Quarta-feira", "Quinta-feira", "Sexta-feira", "Sábado", "Domingo"]

  /** The translation table `dia_semana_portugues`. */
  const DiaSemanaPortugues: map<string, string> := map[
    "Monday" := "Segunda-feira",
    "Tuesday" := "Terça-feira",
    "Wednesday" := "Quarta-feira",
    "Thursday" := "Quinta-feira",
    "Friday" := "Sexta-feira",
    "Saturday" := "Sábado",
    "Sunday" := "Domingo"
  ]

  /** English weekday name of a date. */
  function DayName(day: int): string {
    EnglishDayNames[Weekday(day)]
  }

  /** `Series.map(dict)` on one value: a name missing from the table becomes NaN. */
  function ToPortuguese(name: string): Option<string> {
    if name in DiaSemanaPortugues then Some(DiaSemanaPortugues[name]) else None
  }

  lemma TranslationKeys()
    ensures forall name :: name in DiaSemanaPortugues <==> name in EnglishDayNames
  {
  }

  lemma TranslationPairs()
    ensures forall i :: 0 <= i < 7 ==> DiaSemanaPortugues[EnglishDayNames[i]] == PortugueseDayNames[i]
  {
  }

  lemma DayNamesDistinct()
    ensures Distinct(EnglishDayNames) && Distinct(PortugueseDayNames)
  {
    var en := ["Mo", "Tu", "We", "Th", "Fr", "Sa", "Su"];
    var pt := ["Seg", "Ter", "Qua", "Qui", "Sex", "Sáb", "Dom"];
    assert forall i :: 0 <= i < 7 ==> EnglishDayNames[i][..2] == en[i];
    assert forall i :: 0 <= i < 7 ==> PortugueseDayNames[i][..3] == pt[i];
  }

  /** The translation is a bijection from the seven English weekday names onto
      the seven Portuguese ones, pairing them day by day: its keys are exactly the
      English names, each maps to the Portuguese name of the same weekday, and
      both name lists are duplicate-free. */
  lemma TranslationIsBijection()
    ensures forall name :: name in DiaSemanaPortugues <==> name in EnglishDayNames
    ensures forall i :: 0 <= i < 7 ==> DiaSemanaPortugues[EnglishDayNames[i]] == PortugueseDayNames[i]
    ensures Distinct(EnglishDayNames) && Distinct(PortugueseDayNames)
  {
    TranslationKeys();
    TranslationPairs();
    DayNamesDistinct();
  }

  /** Every date's weekday name translates, to the Portuguese name of the same weekday. */
  lemma DayNameTranslates(day: int)
    ensures ToPortuguese(DayName(day)) == Some(PortugueseDayNames[Weekday(day)])
  {
    TranslationIsBijection();
  }

  /** Anchors of the day numbering: the epoch, and 2025-06-06 falls on a Friday. */
  lemma CalendarAnchors()
    ensures DaysFromCivil(1970, 1, 1) == 0
    ensures DaysFromCivil(2025, 6, 6) == 20245
    ensures DayName(DaysFromCivil(2025, 6, 6)) == "Friday"
  {
  }
}
