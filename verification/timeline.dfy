/** The per-point data preparation of `renderTimelineChart` (app.js):
    polarity parsing and clamping, defaults for missing fields, and the
    `"MM DD, YYYY"` date parser.  Sorting is in TimelineSort, the whole
    normaliser in Normalizer. */
module Timeline {
  import opened Wrappers
  import opened Text
  import opened JsNumber
  import opened Calendar

  /** A Date's time value, in days: a day number, or NaN (an Invalid Date). */
  datatype Time = Day(n: int) | InvalidDate

  /** The `polarity` field of a raw point: a JSON number, a string, or
      anything else (missing, null, a boolean, an object). */
  datatype PolarityField = NumberField(x: real) | StringField(s: string) | OtherField

  /** A timeline point as the API delivers it.  For `date`, None stands for
      a value that is missing or is not a string (either makes `split`
      throw).  `sentiment` and `text` are taken to be strings when present;
      None stands for a missing one. */
  datatype RawPoint = RawPoint(
    date: Option<string>,
    polarity: PolarityField,
    sentiment: Option<string>,
    text: Option<string>)

  /** A prepared point: its input position, the clamped polarity, the
      defaulted labels, the original date string and the parsed time. */
  datatype Point = Point(
    index: nat,
    polarity: real,
    sentiment: string,
    text: string,
    date: Option<string>,
    time: Time)

  /** The placeholder for a point without review text ("no review content"). */
  const NoText: string := "无评论内容"

  /** The largest time value a Date may hold, 8.64e15 ms, in days
      (the ECMA-262 abstract operation TimeClip). */
  const MaxDays: int := 100_000_000

  // ---------------------------------------------------------------------------
  // Polarity
  // ---------------------------------------------------------------------------

  /** `typeof p === 'number' ? p : parseFloat(p) || 0`: numbers are kept,
      anything else is parsed, and a falsy result (NaN or zero) becomes 0. */
  function RawPolarity(p: PolarityField): (v: JsNum)
    ensures !v.NaN?
    ensures p.NumberField? ==> v == Finite(p.x)
    ensures p.StringField? && ParseFloat(p.s) != NaN ==> v == ParseFloat(p.s)
    ensures p.StringField? && ParseFloat(p.s) == NaN ==> v == Finite(0.0)
    ensures p.OtherField? ==> v == Finite(0.0)
  {
    match p
    case NumberField(x) => Finite(x)
    case StringField(s) => if ParseFloat(s).NaN? then Finite(0.0) else ParseFloat(s)
    case OtherField => Finite(0.0)
  }

  /** `Math.max(-1, Math.min(1, v))` on a number that is not NaN. */
  function ClampUnit(v: JsNum): (r: real)
    requires !v.NaN?
    ensures -1.0 <= r <= 1.0
    ensures v.Finite? && -1.0 <= v.x <= 1.0 ==> r == v.x
    ensures (v.Finite? && v.x > 1.0) || v == Infinity(false) ==> r == 1.0
    ensures (v.Finite? && v.x < -1.0) || v == Infinity(true) ==> r == -1.0
  {
    match v
    case Finite(x) => if x > 1.0 then 1.0 else if x < -1.0 then -1.0 else x
    case Infinity(negative) => if negative then -1.0 else 1.0
  }

  /** Clamping keeps the order of polarities. */
  lemma ClampMonotone(a: real, b: real)
    requires a <= b
    ensures ClampUnit(Finite(a)) <= ClampUnit(Finite(b))
  {
  }

  /** The polarity a prepared point carries. */
  function Polarity(p: PolarityField): real {
    ClampUnit(RawPolarity(p))
  }

  // ---------------------------------------------------------------------------
  // Dates
  // ---------------------------------------------------------------------------

  /** TimeClip, in days: time values beyond 8.64e15 ms are NaN. */
  function TimeClip(days: int): (t: Time)
    ensures t.Day? <==> -MaxDays <= days <= MaxDays
    ensures t.Day? ==> t.n == days
  {
    if -MaxDays <= days <= MaxDays then Day(days) else InvalidDate
  }

  /** The ECMA-262 abstract operation MakeFullYear: the Date constructor reads
      years 0 to 99 as 1900 to 1999. */
  function FullYear(y: int): int {
    if 0 <= y <= 99 then 1900 + y else y
  }

  /** `new Date(year, month, day)` with integer arguments, as a day number
      in local time. */
  function NewDate(year: int, month: int, day: int): Time {
    TimeClip(MakeDay(FullYear(year), month, day))
  }

  /** What the tokens of a date string say: too few tokens for the
      month-day-year reading, a token that is not a number, or the three
      numbers month (one-based), day and year. */
  datatype DateFields = FewTokens | NotANumber | Fields(month: int, day: int, year: int)

  /** Splits on single spaces; with at least three tokens, reads the first as
      the month, the second with its first comma removed as the day, and the
      third as the year, each with `parseInt`. */
  function ReadFields(s: string): DateFields {
    var parts := Split(s, ' ');
    if |parts| >= 3 then
      match (ParseInt(parts[0]), ParseInt(RemoveFirst(parts[1], ',')), ParseInt(parts[2]))
      case (Some(m), Some(d), Some(y)) => Fields(m, d, y)
      case _ => NotANumber
    else FewTokens
  }

  /** The `parseDate` helper of `renderTimelineChart`.  A date that is not a
      string makes `split` throw, and the handler returns `new Date()`, the
      clock reading `now`.  A string with three numeric tokens becomes
      `new Date(year, month - 1, day)`; a NaN token gives an Invalid Date; a
      string with fewer tokens goes to the engine's own Date parser,
      `fallback`. */
  function ParseDate(date: Option<string>, now: int, fallback: string -> Time): (t: Time)
    ensures date.None? ==> t == Day(now)
    ensures date.Some? && |Split(date.value, ' ')| < 3 ==> t == fallback(date.value)
    ensures date.Some? && |Split(date.value, ' ')| >= 3 ==>
      var parts := Split(date.value, ' ');
      var month := ParseInt(parts[0]);
      var day := ParseInt(RemoveFirst(parts[1], ','));
      var year := ParseInt(parts[2]);
      && (month.None? || day.None? || year.None? ==> t == InvalidDate)
      && (month.Some? && day.Some? && year.Some? ==>
            t == NewDate(year.value, month.value - 1, day.value))
  {
    match date
    case None => Day(now)
    case Some(s) =>
      match ReadFields(s)
      case FewTokens => fallback(s)
      case NotANumber => InvalidDate
      case Fields(m, d, y) => NewDate(y, m - 1, d)
  }

  /** A non-negative number printed with at least two digits, as in "02". */
  function TwoDigits(n: nat): (s: string)
    ensures |s| >= 2 && AllDigits(s, 10)
  {
    var ds := Decimal(n);
    if n < 10 then "0" + ds else ds
  }

  /** A zero-padded numeral still writes its number. */
  lemma TwoDigitsValue(n: nat)
    ensures DigitsValue(TwoDigits(n), 10) == n
  {
    DecimalValue(n);
    if n < 10 {
      LeadingZero(Decimal(n), 10);
    }
  }

  /** The `"MM DD, YYYY"` text of a date with a zero-based month. */
  function DateText(d: Date): string
    requires 0 <= d.month && 0 <= d.day && 0 <= d.year
  {
    TwoDigits(d.month + 1) + " " + TwoDigits(d.day) + ", " + Decimal(d.year)
  }

  /** A well-formed `"MM DD, YYYY"` date parses to its own calendar day
      (years 0 to 99 are read as 1900 to 1999, as the Date constructor does). */
  lemma ParseDateText(d: Date, now: int, fallback: string -> Time)
    requires 0 <= d.year <= 9999
    requires Valid(Date(FullYear(d.year), d.month, d.day))
    ensures ParseDate(Some(DateText(d)), now, fallback)
              == Day(DayNumber(Date(FullYear(d.year), d.month, d.day)))
  {
    DateTextFields(d);
    InRange(Date(FullYear(d.year), d.month, d.day));
  }

  /** The three fields read from a date text are its one-based month, its day
      and its year as written. */
  lemma DateTextFields(d: Date)
    requires 0 <= d.month && 0 <= d.day && 0 <= d.year
    ensures ReadFields(DateText(d)) == Fields(d.month + 1, d.day, d.year)
  {
    DateTokens(d);
    TwoDigitsParse(d.month + 1);
    RemoveComma(TwoDigits(d.day));
    TwoDigitsParse(d.day);
    ParseIntDecimal(d.year);
    ParseTokens(DateText(d), TwoDigits(d.month + 1), TwoDigits(d.day) + ",", Decimal(d.year),
                d.month + 1, d.day, d.year);
  }

  /** Three tokens that each parse give the three numbers. */
  lemma ParseTokens(s: string, a: string, b: string, c: string, m: int, day: int, y: int)
    requires Split(s, ' ') == [a, b, c]
    requires ParseInt(a) == Some(m) && ParseInt(RemoveFirst(b, ',')) == Some(day) && ParseInt(c) == Some(y)
    ensures ReadFields(s) == Fields(m, day, y)
  {
    var parts := Split(s, ' ');
    assert parts[0] == a && parts[1] == b && parts[2] == c;
  }

  /** A date text splits into its month, day-with-comma and year tokens. */
  lemma DateTokens(d: Date)
    requires 0 <= d.month && 0 <= d.day && 0 <= d.year
    ensures Split(DateText(d), ' ') == [TwoDigits(d.month + 1), TwoDigits(d.day) + ",", Decimal(d.year)]
  {
    var a := TwoDigits(d.month + 1);
    var b := TwoDigits(d.day) + ",";
    var c := Decimal(d.year);
    TokensOf(a, TwoDigits(d.day), c);
    JoinThree(a, b, c, ' ');
    assert DateText(d) == a + [' '] + b + [' '] + c;
  }

  /** Joining three pieces puts one separator between neighbours. */
  lemma JoinThree(a: string, b: string, c: string, sep: char)
    ensures Join([a, b, c], sep) == a + [sep] + b + [sep] + c
  {
    assert [a, b, c][1..] == [b, c] && [b, c][1..] == [c];
    assert Join([b, c], sep) == b + [sep] + Join([c], sep);
  }

  /** A two-digit numeral parses back to its number. */
  lemma TwoDigitsParse(n: nat)
    ensures ParseInt(TwoDigits(n)) == Some(n)
  {
    TwoDigitsValue(n);
    ParseIntPlain(TwoDigits(n), n);
  }

  /** The three tokens of a date text, none holding a space. */
  lemma TokensOf(a: string, ds: string, c: string)
    requires AllDigits(a, 10) && AllDigits(ds, 10) && AllDigits(c, 10)
    ensures Split(Join([a, ds + ",", c], ' '), ' ') == [a, ds + ",", c]
  {
    var b := ds + ",";
    NotInDigits(a, ' ');
    NotInDigits(c, ' ');
    NotInDigits(ds, ' ');
    assert forall i :: 0 <= i < |b| ==> b[i] != ' ';
    SplitJoin([a, b, c], ' ');
  }

  /** A character that is not a digit does not occur in a digit string. */
  lemma NotInDigits(s: string, c: char)
    requires AllDigits(s, 10) && !IsDigit(c, 10)
    ensures c !in s
  {
    assert forall i :: 0 <= i < |s| ==> s[i] != c;
  }

  /** Removing the first comma from digits followed by a comma leaves the digits. */
  lemma RemoveComma(ds: string)
    requires AllDigits(ds, 10)
    ensures RemoveFirst(ds + ",", ',') == ds
  {
    var s := ds + ",";
    NotInDigits(ds, ',');
    assert s[|ds|] == ',';
    assert s[..|ds|] == ds;
    assert IndexOf(s, ',') == |ds|;
  }

  /** Dates of years 1 to 9999 are within TimeClip's range. */
  lemma InRange(d: Date)
    requires 1 <= d.year <= 9999 && Valid(d)
    ensures -MaxDays <= DayNumber(d) <= MaxDays
  {
    WithinYear(d);
  }

  /** The double-space quirk: the string is split on single spaces, so two
      spaces after the month leave an empty day token, which does not parse,
      and the date is Invalid. */
  lemma DoubleSpaceIsInvalid(month: string, rest: string, now: int, fallback: string -> Time)
    requires ' ' !in month
    ensures ParseDate(Some(month + "  " + rest), now, fallback) == InvalidDate
  {
    var s := month + "  " + rest;
    assert s == month + [' '] + ([' '] + rest);
    SplitPrefix(month, [' '] + rest, ' ');
    SplitPrefix("", rest, ' ');
    assert "" + [' '] + rest == [' '] + rest;
    var parts := Split(s, ' ');
    assert parts[1] == "";
    assert RemoveFirst("", ',') == "";
    assert ParseInt("") == None;
  }

  // ---------------------------------------------------------------------------
  // The per-point mapping
  // ---------------------------------------------------------------------------

  /** JavaScript truthiness of an optional string field. */
  predicate Truthy(f: Option<string>) {
    f.Some? && f.value != ""
  }

  /** The body of the `data.map((d, i) => ...)` callback. */
  function PreparePoint(p: RawPoint, i: nat, now: int, fallback: string -> Time): (r: Point)
    ensures r.index == i && r.date == p.date
    ensures r.time == ParseDate(p.date, now, fallback)
    ensures -1.0 <= r.polarity <= 1.0
    ensures p.polarity.NumberField? && -1.0 <= p.polarity.x <= 1.0 ==> r.polarity == p.polarity.x
    ensures p.polarity.StringField? && ParseFloat(p.polarity.s) == NaN ==> r.polarity == 0.0
    ensures Truthy(p.sentiment) ==> r.sentiment == p.sentiment.value
    ensures !Truthy(p.sentiment) ==> r.sentiment == "neutral"
    ensures Truthy(p.text) ==> r.text == p.text.value
    ensures !Truthy(p.text) ==> r.text == NoText
  {
    Point(
      i,
      Polarity(p.polarity),
      if Truthy(p.sentiment) then p.sentiment.value else "neutral",
      if Truthy(p.text) then p.text.value else NoText,
      p.date,
      ParseDate(p.date, now, fallback))
  }
}
