/**
 * Column coercion after loading: the date column becomes timestamps, every
 * text column whose name carries a numeric keyword is comma-stripped and
 * parsed as a number, and text time columns become durations when every
 * cell parses. Cell parsers are parameters: they stand for the dataframe
 * library's own parsing.
 */
module Preprocess {
  import opened Wrappers
  import opened Strings
  import opened Schema

  /** A timestamp: whole days since 1970-01-01 and nanoseconds into that day. */
  datatype DateTime = DateTime(day: int, nanos: DayNanos)

  /** Nanoseconds within one day. */
  type DayNanos = n: nat | n < 86_400_000_000_000

  /** A column's storage type; `None` is the missing-value marker (NaN / NaT). */
  datatype Data =
    | Text(cells: seq<Option<string>>)          // object dtype
    | Numbers(values: seq<Option<real>>)        // float dtype
    | Instants(stamps: seq<Option<DateTime>>)   // datetime dtype
    | Spans(nanos: seq<Option<int>>)            // timedelta dtype

  datatype Column = Column(name: string, data: Data)

  type Table = seq<Column>

  /** Cell parsers; `None` means the text does not parse. */
  datatype Parsers = Parsers(
    number: string -> Option<real>,
    instant: string -> Option<DateTime>,
    span: string -> Option<int>)

  /** The date conversion is not guarded, so one unparseable date aborts the load. */
  datatype LoadError = UnparseableDate(column: string)

  function Names(t: Table): (names: seq<string>)
    ensures |names| == |t|
  {
    seq(|t|, i requires 0 <= i < |t| => t[i].name)
  }

  const HeartRate := AnyOf(["heart rate", "avg hr", "max hr"])
  const TimeColumns := AnyOf(["moving time", "elapsed time"])

  /** The names the four numeric coercion lists select: distance, elevation, calories, heart rate. */
  predicate NumericName(name: string) {
    Matches(Distance, name) || Matches(Elevation, name) || Matches(Calories, name) || Matches(HeartRate, name)
  }

  /** Parses every present cell; a missing cell stays missing. */
  function ParseCells<T>(cells: seq<Option<string>>, parse: string -> Option<T>): (r: seq<Option<T>>)
    ensures |r| == |cells|
  {
    seq(|cells|, i requires 0 <= i < |cells| => if cells[i].Some? then parse(cells[i].value) else None)
  }

  predicate AllParse<T>(cells: seq<Option<string>>, parse: string -> Option<T>) {
    forall i :: 0 <= i < |cells| && cells[i].Some? ==> parse(cells[i].value).Some?
  }

  /** `pd.to_numeric(col.str.replace(',', ''), errors='coerce')` on one text column. */
  function ToNumbers(cells: seq<Option<string>>, parse: string -> Option<real>): seq<Option<real>> {
    ParseCells(cells, s => parse(StripCommas(s)))
  }

  /** One numeric coercion step: a text column whose name satisfies `rule` becomes numbers. */
  function CoerceNumeric(c: Column, rule: Rule, parse: string -> Option<real>): Column {
    if Matches(rule, c.name) && c.data.Text? then Column(c.name, Numbers(ToNumbers(c.data.cells, parse)))
    else c
  }

  function NumericPass(t: Table, rule: Rule, parse: string -> Option<real>): (r: Table)
    ensures |r| == |t|
  {
    seq(|t|, i requires 0 <= i < |t| => CoerceNumeric(t[i], rule, parse))
  }

  /** `try: col = pd.to_timedelta(col) except: pass`: all cells convert, or the column is kept. */
  function CoerceSpans(c: Column, parse: string -> Option<int>): Column {
    if Matches(TimeColumns, c.name) && c.data.Text? && AllParse(c.data.cells, parse) then
      Column(c.name, Spans(ParseCells(c.data.cells, parse)))
    else c
  }

  function TimePass(t: Table, parse: string -> Option<int>): (r: Table)
    ensures |r| == |t|
  {
    seq(|t|, i requires 0 <= i < |t| => CoerceSpans(t[i], parse))
  }

  /** The date column, when it holds text, becomes timestamps. */
  function ToInstants(c: Column, dateName: string, parse: string -> Option<DateTime>): Column {
    if c.name == dateName && c.data.Text? then Column(c.name, Instants(ParseCells(c.data.cells, parse)))
    else c
  }

  /** Some text column named `dateName` holds a date that does not parse. */
  predicate HasBadDate(t: Table, dateName: string, parse: string -> Option<DateTime>) {
    exists i :: 0 <= i < |t| && t[i].name == dateName && t[i].data.Text?
                && !AllParse(t[i].data.cells, parse)
  }

  /** The date conversion, chosen with the same exact-name priority as the date role. */
  function ConvertDates(t: Table, parse: string -> Option<DateTime>): Result<Table, LoadError> {
    match DateRole(Names(t))
    case None => Success(t)
    case Some(dateName) =>
      if HasBadDate(t, dateName, parse) then Failure(UnparseableDate(dateName))
      else Success(seq(|t|, i requires 0 <= i < |t| => ToInstants(t[i], dateName, parse)))
  }

  /**
   * What preprocessing does to one column, as a single decision: the date
   * column is parsed as dates; otherwise a numeric-keyword text column is
   * comma-stripped and parsed; otherwise a time text column becomes
   * durations if every cell parses; everything else is unchanged.
   */
  ghost function Normalized(c: Column, dateName: Option<string>, p: Parsers): Column {
    if !c.data.Text? then c
    else if dateName == Some(c.name) then Column(c.name, Instants(ParseCells(c.data.cells, p.instant)))
    else if NumericName(c.name) then Column(c.name, Numbers(ToNumbers(c.data.cells, p.number)))
    else if Matches(TimeColumns, c.name) && AllParse(c.data.cells, p.span) then
      Column(c.name, Spans(ParseCells(c.data.cells, p.span)))
    else c
  }

  /**
   * The whole preprocessing step, in the order the passes run. It fails
   * exactly when the date column holds an unparseable date; otherwise it
   * keeps the column names and order and normalises every column on its own.
   */
  function Preprocess(t: Table, p: Parsers): (r: Result<Table, LoadError>)
    ensures r.Failure? <==> DateRole(Names(t)).Some? && HasBadDate(t, DateRole(Names(t)).value, p.instant)
    ensures r.Success? ==> |r.value| == |t| && Names(r.value) == Names(t)
    ensures r.Success? ==> forall i :: 0 <= i < |t| ==> r.value[i] == Normalized(t[i], DateRole(Names(t)), p)
  {
    match ConvertDates(t, p.instant)
    case Failure(e) => Failure(e)
    case Success(dated) =>
      var numeric :=
        NumericPass(NumericPass(NumericPass(NumericPass(dated, Distance, p.number),
                                            Elevation, p.number),
                                Calories, p.number),
                    HeartRate, p.number);
      Success(TimePass(numeric, p.span))
  }

  /** Preprocessing keeps the names, so roles detected after it are the roles of the upload. */
  lemma PreprocessKeepsRoles(t: Table, p: Parsers)
    requires Preprocess(t, p).Success?
    ensures DetectRoles(Names(Preprocess(t, p).value)) == DetectRoles(Names(t))
  {
  }

  /**
   * Every text column whose name carries a numeric keyword, other than the
   * date column, becomes numbers cell by cell: commas stripped, then parsed.
   * Columns that were not text are left exactly as they were.
   */
  lemma NumericColumnsCommaStripped(t: Table, p: Parsers, i: int)
    requires Preprocess(t, p).Success?
    requires 0 <= i < |t|
    ensures !t[i].data.Text? ==> Preprocess(t, p).value[i] == t[i]
    ensures t[i].data.Text? && NumericName(t[i].name) && DateRole(Names(t)) != Some(t[i].name) ==>
              var cells := t[i].data.cells;
              var d := Preprocess(t, p).value[i].data;
              && d.Numbers?
              && |d.values| == |cells|
              && forall j :: 0 <= j < |cells| ==>
                   d.values[j] == if cells[j].Some? then p.number(StripCommas(cells[j].value)) else None
  {
  }

  /** A text time column becomes durations exactly when every present cell parses. */
  lemma SpansAllOrNothing(t: Table, p: Parsers, i: int)
    requires Preprocess(t, p).Success?
    requires 0 <= i < |t|
    requires t[i].data.Text? && Matches(TimeColumns, t[i].name)
    requires !NumericName(t[i].name) && DateRole(Names(t)) != Some(t[i].name)
    ensures Preprocess(t, p).value[i].data.Spans? <==> AllParse(t[i].data.cells, p.span)
    ensures !AllParse(t[i].data.cells, p.span) ==> Preprocess(t, p).value[i] == t[i]
  {
  }

  /** A string none of whose characters is `sub[k]` does not contain `sub`. */
  lemma MissingCharNotContained(s: string, sub: string, k: int)
    requires 0 <= k < |sub| && sub[k] !in s
    ensures !Contains(s, sub)
  {
    if Contains(s, sub) {
      ContainedChars(s, sub, k);
    }
  }

  /** A name lacking the letters s, l, h, g and m carries no numeric keyword. */
  lemma NoNumericKeyword(name: string)
    requires forall c :: c in Lower(name) ==> c !in "slhgm"
    ensures !NumericName(name)
  {
    var lower := Lower(name);
    MissingCharNotContained(lower, "distance", 2);      // 's'
    MissingCharNotContained(lower, "elevation", 1);     // 'l'
    MissingCharNotContained(lower, "calories", 2);      // 'l'
    MissingCharNotContained(lower, "kilocalories", 2);  // 'l'
    MissingCharNotContained(lower, "heart rate", 0);    // 'h'
    MissingCharNotContained(lower, "avg hr", 2);        // 'g'
    MissingCharNotContained(lower, "max hr", 0);        // 'm'
  }

  /** Neither exact date name carries a numeric keyword, so the date column is never comma-stripped. */
  lemma DateNamesNotNumeric(name: string)
    requires name == "Activity Date" || name == "Date"
    ensures !NumericName(name)
  {
    assert Lower(name) == "activity date" || Lower(name) == "date";
    NoNumericKeyword(name);
  }

  /** A freshly read table holds only text and number columns. */
  predicate IsRaw(t: Table) {
    forall i :: 0 <= i < |t| ==> t[i].data.Text? || t[i].data.Numbers?
  }

  /** After preprocessing a freshly read table, every numeric-keyword column holds numbers. */
  lemma RawNumericColumnsBecomeNumbers(t: Table, p: Parsers)
    requires IsRaw(t)
    requires Preprocess(t, p).Success?
    ensures forall i :: 0 <= i < |t| && NumericName(t[i].name) ==> Preprocess(t, p).value[i].data.Numbers?
  {
    var dateName := DateRole(Names(t));
    if dateName.Some? {
      DateNamesNotNumeric(dateName.value);
    }
  }

  /** A thousands separator never reaches the number parser: "1,234.5" is parsed as "1234.5". */
  lemma ThousandsSeparatorCell(parse: string -> Option<real>)
    ensures ToNumbers([Some("1,234.5")], parse) == [parse("1234.5")]
  {
    StripThousandsSeparator();
  }
}
