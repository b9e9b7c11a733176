/** `DataCleaner.clean_google`, steps 1-7: cleaning the sheet of
    projects (one row per project wave, with its code and date window). */
module GoogleCleaning {
  import opened Common
  import opened Strings
  import opened Calendar
  import opened Tables

  const CodeColumn := "Код проекта RU00.000.00.01SVZ24"
  const StartColumn := "Дата старта"
  const FinishColumn := "Дата финиша с продлением"
  const FieldFlagColumn := "Полевой"

  /** Names under which step 2 looks for the project code column. */
  const CodeCandidates := [CodeColumn, "Код", "Project Code", "КодПроекта"]

  /** Names under which step 3 looks for the project name column. */
  const NameCandidates := ["Проекты в  https://ru.checker-soft.com", "Название проекта", "Проект", "Project Name"]

  function AsList(o: Option<string>): seq<string>
  {
    if o.Some? then [o.value] else []
  }

  /** Step 1 key fields: code, start date and finish date, those of them the
      sheet has, in that order. */
  function DedupFields(columns: seq<string>): (fields: seq<string>)
    ensures forall f :: f in fields <==> f in columns && (f == CodeColumn || f == StartColumn || f == FinishColumn)
  {
    AsList(FindColumn(columns, [CodeColumn]))
    + AsList(FindColumn(columns, [StartColumn]))
    + AsList(FindColumn(columns, [FinishColumn]))
  }

  /** The duplicate key of a row: its cells under `fields`. Two missing
      values compare equal here, as they do in `drop_duplicates`. */
  function KeyOf(fields: seq<string>, r: Row): seq<Cell>
  {
    seq(|fields|, k requires 0 <= k < |fields| => CellAt(r, fields[k]))
  }

  /** Step 1: drop later rows that repeat the key of an earlier row; with no
      key field present the sheet is left as it is. */
  function RemoveDuplicateProjects(t: Table): (r: Table)
    ensures r.columns == t.columns && |r.rows| <= |t.rows|
    ensures |DedupFields(t.columns)| == 0 ==> r == t
    ensures |DedupFields(t.columns)| > 0 ==>
              var key := (row: Row) => KeyOf(DedupFields(t.columns), row);
              && IsSubsequence(r.rows, t.rows)
              && (forall k, l :: 0 <= k < l < |r.rows| ==> key(r.rows[k]) != key(r.rows[l]))
              && Keys(r.rows, key) == Keys(t.rows, key)
              && (forall i :: 0 <= i < |t.rows| && IsFirstOccurrence(t.rows, i, key) ==> t.rows[i] in r.rows)
  {
    var fields := DedupFields(t.columns);
    if |fields| == 0 then t
    else
      var key := (row: Row) => KeyOf(fields, row);
      KeepFirstProperties(t.rows, key);
      SubsequenceNotLonger(KeepFirst(t.rows, key, {}), t.rows);
      t.(rows := KeepFirst(t.rows, key, {}))
  }

  /** Step 2 on one cell: `astype(str).str.strip()`. */
  function StrippedCode(c: Cell): Cell
  {
    Text(Strip(Render(c)))
  }

  /** Step 2: the code column, when found, becomes stripped text in every row. */
  function StripCodes(t: Table): (r: Table)
    ensures r.columns == t.columns && |r.rows| == |t.rows|
    ensures FindColumn(t.columns, CodeCandidates).None? ==> r == t
    ensures FindColumn(t.columns, CodeCandidates).Some? ==>
              var c := FindColumn(t.columns, CodeCandidates).value;
              forall i :: 0 <= i < |t.rows| ==>
                && CellAt(r.rows[i], c).Text?
                && Strip(CellAt(r.rows[i], c).s) == CellAt(r.rows[i], c).s
                && CellAt(r.rows[i], c).s == Strip(Render(CellAt(t.rows[i], c)))
                && (forall c' :: c' != c ==> CellAt(r.rows[i], c') == CellAt(t.rows[i], c'))
  {
    match FindColumn(t.columns, CodeCandidates)
    case None => t
    case Some(c) =>
      var r := t.(rows := MapRows(t.rows, row => SetCell(row, c, StrippedCode(CellAt(row, c)))));
      assert forall i :: 0 <= i < |t.rows| ==> Strip(CellAt(r.rows[i], c).s) == CellAt(r.rows[i], c).s by {
        forall i | 0 <= i < |t.rows| ensures Strip(CellAt(r.rows[i], c).s) == CellAt(r.rows[i], c).s {
          StripIdempotent(Render(CellAt(t.rows[i], c)));
        }
      }
      r
  }

  /** Step 3 test: a code that is missing, or whose text is empty, "nan" or
      "None" after stripping. */
  predicate IsEmptyCode(c: Cell)
  {
    c.Blank? || Strip(Render(c)) in {"", "nan", "None"}
  }

  /** Step 3: an empty code is replaced by the row's project name. */
  function FillEmptyCodes(t: Table): (r: Table)
    ensures r.columns == t.columns && |r.rows| == |t.rows|
    ensures FindColumn(t.columns, CodeCandidates).None? || FindColumn(t.columns, NameCandidates).None? ==> r == t
    ensures FindColumn(t.columns, CodeCandidates).Some? && FindColumn(t.columns, NameCandidates).Some? ==>
              var c := FindColumn(t.columns, CodeCandidates).value;
              var n := FindColumn(t.columns, NameCandidates).value;
              forall i :: 0 <= i < |t.rows| ==>
                && (IsEmptyCode(CellAt(t.rows[i], c)) ==> CellAt(r.rows[i], c) == CellAt(t.rows[i], n))
                && (!IsEmptyCode(CellAt(t.rows[i], c)) ==> r.rows[i] == t.rows[i])
                && (forall c' :: c' != c ==> CellAt(r.rows[i], c') == CellAt(t.rows[i], c'))
  {
    match FindColumn(t.columns, CodeCandidates)
    case None => t
    case Some(c) =>
      match FindColumn(t.columns, NameCandidates)
      case None => t
      case Some(n) =>
        t.(rows := MapRows(t.rows, row => if IsEmptyCode(CellAt(row, c)) then SetCell(row, c, CellAt(row, n)) else row))
  }

  /** Step 3 never leaves an empty code behind where the name is a real name. */
  lemma FilledCodesAreNames(t: Table, i: int)
    requires FindColumn(t.columns, CodeCandidates).Some? && FindColumn(t.columns, NameCandidates).Some?
    requires 0 <= i < |t.rows|
    requires !IsEmptyCode(CellAt(t.rows[i], FindColumn(t.columns, NameCandidates).value))
    ensures !IsEmptyCode(CellAt(FillEmptyCodes(t).rows[i], FindColumn(t.columns, CodeCandidates).value))
  {
  }

  /** Unicode case mapping, a parameter of the model: `str.lower` and
      `str.capitalize`. */
  datatype CaseMap = CaseMap(lower: string -> string, capitalize: string -> string)

  /** The words step 4 looks for in a lower-cased code. */
  const FormatTargets := ["пилот", "семпл", "мультикод"]

  /** Names under which step 4 looks for its column when step 2 found none. */
  const FormatCandidates := [CodeColumn, "Код проекта", "Код"]

  /** Step 4's column: the code column of step 2, or else the first of its own candidates. */
  function FormatColumn(columns: seq<string>): (r: Option<string>)
    ensures FindColumn(columns, CodeCandidates).Some? ==> r == FindColumn(columns, CodeCandidates)
    ensures FindColumn(columns, CodeCandidates).None? ==> r == FindColumn(columns, FormatCandidates)
  {
    if FindColumn(columns, CodeCandidates).Some? then FindColumn(columns, CodeCandidates) else FindColumn(columns, FormatCandidates)
  }

  /** Step 4 test: the lower-cased text holds one of the target words. */
  predicate HasTarget(cases: CaseMap, s: string)
  {
    exists w :: w in FormatTargets && IsInfix(w, cases.lower(s))
  }

  /** Step 4 on one cell: a present value whose stripped, lower-cased text
      holds one of the target words is replaced by its capitalised stripped
      text, when that differs; anything else is kept. */
  function FormatCode(c: Cell, cases: CaseMap): (r: Cell)
    ensures c.Blank? || !HasTarget(cases, Strip(Render(c))) ==> r == c
    ensures !c.Blank? && HasTarget(cases, Strip(Render(c))) ==>
              r == c || (r == Text(cases.capitalize(Strip(Render(c)))) && r.s != Strip(Render(c)))
    ensures !c.Blank? && HasTarget(cases, Strip(Render(c))) ==>
              Render(r) == cases.capitalize(Strip(Render(c))) || cases.capitalize(Strip(Render(c))) == Strip(Render(c))
  {
    if c.Blank? then c
    else
      var s := Strip(Render(c));
      if HasTarget(cases, s) && cases.capitalize(s) != s then Text(cases.capitalize(s)) else c
  }

  /** Step 4: the cells of step 4's column are formatted; nothing else changes. */
  function FormatCodes(t: Table, cases: CaseMap): (r: Table)
    ensures r.columns == t.columns && |r.rows| == |t.rows|
    ensures FormatColumn(t.columns).None? ==> r == t
    ensures FormatColumn(t.columns).Some? ==>
              var c := FormatColumn(t.columns).value;
              forall i :: 0 <= i < |t.rows| ==>
                && CellAt(r.rows[i], c) == FormatCode(CellAt(t.rows[i], c), cases)
                && (forall c' :: c' != c ==> CellAt(r.rows[i], c') == CellAt(t.rows[i], c'))
  {
    match FormatColumn(t.columns)
    case None => t
    case Some(c) => t.(rows := MapRows(t.rows, row => SetCell(row, c, FormatCode(CellAt(row, c), cases))))
  }

  /** The columns whose names hold a date keyword, split by the keyword
      tests of steps 5 and 6: a start word wins first (`starts`); otherwise a
      finish word (`finishes`, both steps); otherwise the word for "closing",
      which step 5 counts as an end and step 6 ignores (`closings`); the
      remaining date columns are `others`. The lists come from the sheet's
      own columns by an `if`/`elif` chain, so a column the code sees is in
      at most one list and at most once: `WellFormed`. */
  datatype DateColumns = DateColumns(starts: seq<string>, finishes: seq<string>, closings: seq<string>, others: seq<string>)

  /** No column is both a start and a finish column, and no finish column is listed twice. */
  predicate WellFormed(dc: DateColumns)
  {
    && (forall c :: c in dc.starts ==> c !in dc.finishes)
    && (forall a, b :: 0 <= a < b < |dc.finishes| ==> dc.finishes[a] != dc.finishes[b])
  }

  predicate IsListed(dc: DateColumns, c: string)
  {
    c in dc.starts || c in dc.finishes || c in dc.closings || c in dc.others
  }

  /** Step 5 fill value of a column: the first day of the month for a start
      column, the last day for an end column, otherwise today. */
  function DateFill(c: string, dc: DateColumns, today: Date): (d: Date)
    requires IsValid(today)
    ensures c in dc.starts ==> d == FirstDayOfMonth(today)
    ensures c !in dc.starts && (c in dc.finishes || c in dc.closings) ==> d == LastDayOfMonth(today)
    ensures c !in dc.starts && c !in dc.finishes && c !in dc.closings ==> d == today
    ensures IsValid(d) && d.year == today.year && d.month == today.month
  {
    if c in dc.starts then FirstDayOfMonth(today)
    else if c in dc.finishes || c in dc.closings then LastDayOfMonth(today)
    else today
  }

  /** Step 5 on one cell: the coerced date, or `fill` where coercion gives NaT. */
  function FilledDate(c: Cell, fill: Date, parse: Cell -> Option<Date>): (r: Cell)
    ensures r.Day?
    ensures ToDatetime(c, parse).Some? ==> r == Day(ToDatetime(c, parse).value)
    ensures ToDatetime(c, parse).None? ==> r == Day(fill)
    ensures c.Blank? ==> r == Day(fill)
    ensures c.Day? && IsTimestampDay(c.date) ==> r == c
  {
    match ToDatetime(c, parse)
    case Some(d) => Day(d)
    case None => Day(fill)
  }

  function FillDatesRow(row: Row, columns: seq<string>, dc: DateColumns, today: Date, parse: Cell -> Option<Date>): Row
    requires IsValid(today)
  {
    map c | c in row.Keys + (set c' | c' in columns && IsListed(dc, c')) ::
      if c in columns && IsListed(dc, c) then FilledDate(CellAt(row, c), DateFill(c, dc, today), parse) else row[c]
  }

  /** Step 5: every date column of the sheet is coerced to dates, and each
      NaT it holds afterwards gets the column's fill value; so every date
      column holds a date in every row. Other columns are untouched. */
  function FillEmptyDates(t: Table, dc: DateColumns, today: Date, parse: Cell -> Option<Date>): (r: Table)
    requires IsValid(today)
    ensures r.columns == t.columns && |r.rows| == |t.rows|
    ensures forall i, c :: 0 <= i < |t.rows| && c in t.columns && IsListed(dc, c) ==>
              CellAt(r.rows[i], c) == FilledDate(CellAt(t.rows[i], c), DateFill(c, dc, today), parse)
    ensures forall i, c :: 0 <= i < |t.rows| && !(c in t.columns && IsListed(dc, c)) ==>
              CellAt(r.rows[i], c) == CellAt(t.rows[i], c)
  {
    t.(rows := MapRows(t.rows, row => FillDatesRow(row, t.columns, dc, today, parse)))
  }

  /** After step 5 every date column of the sheet is a date column, with no
      missing value: the year check of step 6 is never skipped for it. */
  lemma FilledColumnsAreDateColumns(t: Table, dc: DateColumns, today: Date, parse: Cell -> Option<Date>, c: string)
    requires IsValid(today) && c in t.columns && IsListed(dc, c)
    ensures IsDateColumn(FillEmptyDates(t, dc, today, parse).rows, c)
    ensures forall i :: 0 <= i < |t.rows| ==> !CellAt(FillEmptyDates(t, dc, today, parse).rows[i], c).Blank?
  {
  }

  /** Filling a filled sheet changes nothing: a coerced date coerces to
      itself, and a fill value coerces to itself or is filled in again. */
  lemma FillEmptyDatesIdempotent(t: Table, dc: DateColumns, today: Date, parse: Cell -> Option<Date>)
    requires IsValid(today)
    ensures FillEmptyDates(FillEmptyDates(t, dc, today, parse), dc, today, parse) == FillEmptyDates(t, dc, today, parse)
  {
    var r := FillEmptyDates(t, dc, today, parse);
    var r2 := FillEmptyDates(r, dc, today, parse);
    forall i | 0 <= i < |r.rows| ensures r2.rows[i] == r.rows[i] {
      assert r2.rows[i].Keys == r.rows[i].Keys;
      forall c | c in r.rows[i] ensures r2.rows[i][c] == r.rows[i][c] {
        assert CellAt(r2.rows[i], c) == CellAt(r.rows[i], c);
      }
    }
  }

  /** Step 6, start columns: a date before the first day of the current month becomes that day. */
  function ClampStart(c: Cell, first: Date): (r: Cell)
    ensures c.Day? && DayNumber(c.date) < DayNumber(first) ==> r == Day(first)
    ensures !(c.Day? && DayNumber(c.date) < DayNumber(first)) ==> r == c
    ensures r.Day? ==> DayNumber(r.date) >= DayNumber(first)
  {
    if c.Day? && DayNumber(c.date) < DayNumber(first) then Day(first) else c
  }

  /** Step 6, finish columns: a date after the last day of the current month becomes that day. */
  function ClampFinish(c: Cell, last: Date): (r: Cell)
    ensures c.Day? && DayNumber(c.date) > DayNumber(last) ==> r == Day(last)
    ensures !(c.Day? && DayNumber(c.date) > DayNumber(last)) ==> r == c
    ensures r.Day? ==> DayNumber(r.date) <= DayNumber(last)
  {
    if c.Day? && DayNumber(c.date) > DayNumber(last) then Day(last) else c
  }


  function ClampRow(row: Row, columns: seq<string>, dc: DateColumns, first: Date, last: Date): Row
  {
    map c | c in row :: if c in columns && c in dc.starts then ClampStart(row[c], first)
                        else if c in columns && c in dc.finishes then ClampFinish(row[c], last)
                        else row[c]
  }

  /** Step 6 date rules against the month of `today`. */
  function ClampDates(t: Table, dc: DateColumns, today: Date): (r: Table)
    requires IsValid(today)
    ensures r.columns == t.columns && |r.rows| == |t.rows|
    ensures forall i, c :: 0 <= i < |t.rows| && c in t.columns && c in dc.starts ==>
              CellAt(r.rows[i], c) == ClampStart(CellAt(t.rows[i], c), FirstDayOfMonth(today))
    ensures forall i, c :: 0 <= i < |t.rows| && c in t.columns && c !in dc.starts && c in dc.finishes ==>
              CellAt(r.rows[i], c) == ClampFinish(CellAt(t.rows[i], c), LastDayOfMonth(today))
    ensures forall i, c :: 0 <= i < |t.rows| && (c !in t.columns || (c !in dc.starts && c !in dc.finishes)) ==>
              CellAt(r.rows[i], c) == CellAt(t.rows[i], c)
  {
    var first := FirstDayOfMonth(today);
    var last := LastDayOfMonth(today);
    t.(rows := MapRows(t.rows, row => ClampRow(row, t.columns, dc, first, last)))
  }

  /** Clamping twice is clamping once: after step 6 no start date lies before
      the month and no finish date after it. */
  lemma ClampDatesIdempotent(t: Table, dc: DateColumns, today: Date)
    requires IsValid(today)
    ensures ClampDates(ClampDates(t, dc, today), dc, today) == ClampDates(t, dc, today)
  {
    var r := ClampDates(t, dc, today);
    var r2 := ClampDates(r, dc, today);
    forall i | 0 <= i < |r.rows| ensures r2.rows[i] == r.rows[i] {
      ClampRowIdempotent(t.rows[i], t.columns, dc, FirstDayOfMonth(today), LastDayOfMonth(today));
    }
  }

  lemma ClampRowIdempotent(row: Row, columns: seq<string>, dc: DateColumns, first: Date, last: Date)
    ensures ClampRow(ClampRow(row, columns, dc, first, last), columns, dc, first, last) == ClampRow(row, columns, dc, first, last)
  {
    var once := ClampRow(row, columns, dc, first, last);
    var twice := ClampRow(once, columns, dc, first, last);
    assert twice.Keys == once.Keys;
    forall c | c in once ensures twice[c] == once[c] {
    }
  }

  /** What the year check decides for one row. */
  datatype YearFix = Keep | Replace(end: Date) | Raise

  /** Year check of one (start, finish) pair: a finish 1 to 365 days before the
      start gets the start's year; `Timestamp.replace` raises when that makes an
      invalid date (29 February in a common year). */
  function YearFixOf(start: Cell, finish: Cell): (f: YearFix)
    ensures f != Keep <==>
              start.Day? && finish.Day? && 1 <= DayNumber(start.date) - DayNumber(finish.date) <= 365
    ensures f.Replace? ==> f.end == Date(start.date.year, finish.date.month, finish.date.day) && IsValid(f.end)
    ensures f.Raise? ==> !IsValid(Date(start.date.year, finish.date.month, finish.date.day))
  {
    if start.Day? && finish.Day? && DayNumber(finish.date) < DayNumber(start.date)
       && 1 <= DayNumber(start.date) - DayNumber(finish.date) <= 365
    then
      var fixed := Date(start.date.year, finish.date.month, finish.date.day);
      if IsValid(fixed) then Replace(fixed) else Raise
    else Keep
  }

  function FixRow(row: Row, sc: string, ec: string): Row
  {
    match YearFixOf(CellAt(row, sc), CellAt(row, ec))
    case Replace(d) => SetCell(row, ec, Day(d))
    case _ => row
  }

  /** Some row up to row `i` raises. */
  predicate RaisedBy(rows: seq<Row>, raises: Row -> bool, i: int)
  {
    exists j :: 0 <= j <= i && j < |rows| && raises(rows[j])
  }

  /** A pass that fixes row after row until the first row that raises: that
      row and every later one are left as they are. */
  function PassUntilRaise(rows: seq<Row>, raises: Row -> bool, fix: Row -> Row): (r: seq<Row>)
    ensures |r| == |rows|
    ensures forall i :: 0 <= i < |rows| ==> r[i] == (if RaisedBy(rows, raises, i) then rows[i] else fix(rows[i]))
  {
    if |rows| == 0 then []
    else if raises(rows[0]) then rows
    else
      var rest := PassUntilRaise(rows[1..], raises, fix);
      RaiseBeforeShifts(rows, raises);
      [fix(rows[0])] + rest
  }

  /** When the first row does not raise, a raise up to row `i` is a raise up
      to row `i - 1` of the remaining rows. */
  lemma RaiseBeforeShifts(rows: seq<Row>, raises: Row -> bool)
    requires |rows| > 0 && !raises(rows[0])
    ensures forall i :: 1 <= i < |rows| ==> rows[1..][i - 1] == rows[i]
    ensures forall i :: 1 <= i < |rows| ==> (RaisedBy(rows, raises, i) <==> RaisedBy(rows[1..], raises, i - 1))
  {
    forall i | 1 <= i < |rows| ensures RaisedBy(rows, raises, i) <==> RaisedBy(rows[1..], raises, i - 1) {
      if RaisedBy(rows, raises, i) {
        var j :| 0 <= j <= i && j < |rows| && raises(rows[j]);
        assert rows[1..][j - 1] == rows[j];
      }
      if RaisedBy(rows[1..], raises, i - 1) {
        var j :| 0 <= j <= i - 1 && j < |rows| - 1 && raises(rows[1..][j]);
        assert rows[j + 1] == rows[1..][j];
      }
    }
  }

  /** The rows of the pair whose year check raises. */
  function RaisesIn(sc: string, ec: string): Row -> bool
  {
    row => YearFixOf(CellAt(row, sc), CellAt(row, ec)).Raise?
  }

  /** The year check over one start/finish column pair as written: the first
      raising row ends the pass (the exception leaves the per-pair `try`), so
      that row and every later one keep their finish date. */
  function FixYearPairAsWritten(rows: seq<Row>, sc: string, ec: string): (r: seq<Row>)
    ensures |r| == |rows|
    ensures forall i :: 0 <= i < |rows| ==>
              r[i] == (if exists j :: 0 <= j <= i && RaisesIn(sc, ec)(rows[j]) then rows[i] else FixRow(rows[i], sc, ec))
  {
    PassUntilRaise(rows, RaisesIn(sc, ec), row => FixRow(row, sc, ec))
  }

  /** The year check over one column pair with a raising row skipped instead
      of ending the pass: every row is judged on its own. */
  function FixYearPair(rows: seq<Row>, sc: string, ec: string): (r: seq<Row>)
    ensures |r| == |rows|
    ensures forall i :: 0 <= i < |rows| ==>
              var f := YearFixOf(CellAt(rows[i], sc), CellAt(rows[i], ec));
              && (f.Replace? ==> r[i] == SetCell(rows[i], ec, Day(f.end)))
              && (!f.Replace? ==> r[i] == rows[i])
  {
    MapRows(rows, row => FixRow(row, sc, ec))
  }

  /** The corrected pass changes a row only by moving its finish date into the
      start's year, and only when the finish is 1 to 365 days before the start. */
  lemma FixYearPairChangesOnlyFinishYear(rows: seq<Row>, sc: string, ec: string, i: int)
    requires 0 <= i < |rows|
    requires FixYearPair(rows, sc, ec)[i] != rows[i]
    ensures var s, e := CellAt(rows[i], sc), CellAt(rows[i], ec);
            && s.Day? && e.Day?
            && 1 <= DayNumber(s.date) - DayNumber(e.date) <= 365
            && CellAt(FixYearPair(rows, sc, ec)[i], ec) == Day(Date(s.date.year, e.date.month, e.date.day))
            && forall c :: c != ec ==> CellAt(FixYearPair(rows, sc, ec)[i], c) == CellAt(rows[i], c)
  {
  }

  /** Where the written pass completes (no row raises), the two passes agree. */
  lemma FixYearPassesAgreeWithoutRaise(rows: seq<Row>, sc: string, ec: string)
    requires forall j :: 0 <= j < |rows| ==> !YearFixOf(CellAt(rows[j], sc), CellAt(rows[j], ec)).Raise?
    ensures FixYearPairAsWritten(rows, sc, ec) == FixYearPair(rows, sc, ec)
  {
  }

  /** A 29 February finish in front of a start in a common year stops the
      written pass: the second row below is a plain year slip (finish
      2024-12-31, start 2025-02-10) that the written pass leaves unfixed. */
  lemma LeapDayFinishStopsYearFix()
    ensures var rows := [
              map[StartColumn := Day(Date(2025, 1, 15)), FinishColumn := Day(Date(2024, 2, 29))],
              map[StartColumn := Day(Date(2025, 2, 10)), FinishColumn := Day(Date(2024, 12, 31))]];
            && FixYearPairAsWritten(rows, StartColumn, FinishColumn)[1] == rows[1]
            && CellAt(FixYearPair(rows, StartColumn, FinishColumn)[1], FinishColumn) == Day(Date(2025, 12, 31))
  {
    var r0 := map[StartColumn := Day(Date(2025, 1, 15)), FinishColumn := Day(Date(2024, 2, 29))];
    var r1 := map[StartColumn := Day(Date(2025, 2, 10)), FinishColumn := Day(Date(2024, 12, 31))];
    var rows := [r0, r1];
    LeapDayRaises(r0);
    assert FixYearPairAsWritten(rows, StartColumn, FinishColumn) == rows;
    YearSlipIsFixed(r1);
    assert FixYearPair(rows, StartColumn, FinishColumn)[1] == FixRow(r1, StartColumn, FinishColumn);
  }

  lemma LeapDayRaises(r0: Row)
    requires r0 == map[StartColumn := Day(Date(2025, 1, 15)), FinishColumn := Day(Date(2024, 2, 29))]
    ensures YearFixOf(CellAt(r0, StartColumn), CellAt(r0, FinishColumn)).Raise?
  {
    assert CellAt(r0, StartColumn) == Day(Date(2025, 1, 15));
    assert CellAt(r0, FinishColumn) == Day(Date(2024, 2, 29));
    assert DayNumber(Date(2025, 1, 15)) == 20103;
    assert DayNumber(Date(2024, 2, 29)) == 19782;
  }

  lemma YearSlipIsFixed(r1: Row)
    requires r1 == map[StartColumn := Day(Date(2025, 2, 10)), FinishColumn := Day(Date(2024, 12, 31))]
    ensures CellAt(FixRow(r1, StartColumn, FinishColumn), FinishColumn) == Day(Date(2025, 12, 31))
  {
    assert CellAt(r1, StartColumn) == Day(Date(2025, 2, 10));
    assert CellAt(r1, FinishColumn) == Day(Date(2024, 12, 31));
    assert DayNumber(Date(2025, 2, 10)) == 20129;
    assert DayNumber(Date(2024, 12, 31)) == 20088;
    assert YearFixOf(CellAt(r1, StartColumn), CellAt(r1, FinishColumn)) == Replace(Date(2025, 12, 31));
  }

  /** `dtype == 'datetime64[ns]'`: every cell of the column is a date or missing. */
  predicate IsDateColumn(rows: seq<Row>, c: string)
  {
    forall i :: 0 <= i < |rows| ==> CellAt(rows[i], c).Day? || CellAt(rows[i], c).Blank?
  }

  /** Which year check runs: the pass as written, or the corrected pass. */
  datatype YearPass = AsWritten | Corrected

  /** The year check of one column pair, run only when both columns are date columns. */
  function FixPair(rows: seq<Row>, sc: string, ec: string, pass: YearPass): (r: seq<Row>)
    ensures |r| == |rows|
    ensures forall i :: 0 <= i < |rows| ==> r[i] == rows[i] || r[i] == FixRow(rows[i], sc, ec)
    ensures !(IsDateColumn(rows, sc) && IsDateColumn(rows, ec)) ==> r == rows
    ensures IsDateColumn(rows, sc) && IsDateColumn(rows, ec) && pass == Corrected ==>
              forall i :: 0 <= i < |rows| ==>
                var f := YearFixOf(CellAt(rows[i], sc), CellAt(rows[i], ec));
                r[i] == if f.Replace? then SetCell(rows[i], ec, Day(f.end)) else rows[i]
    ensures IsDateColumn(rows, sc) && IsDateColumn(rows, ec) && pass == AsWritten ==>
              forall i :: 0 <= i < |rows| ==>
                r[i] == if RaisedBy(rows, RaisesIn(sc, ec), i) then rows[i] else FixRow(rows[i], sc, ec)
  {
    if !(IsDateColumn(rows, sc) && IsDateColumn(rows, ec)) then rows
    else if pass == AsWritten then FixYearPairAsWritten(rows, sc, ec)
    else FixYearPair(rows, sc, ec)
  }

  function FixYearsForStart(rows: seq<Row>, sc: string, finishes: seq<string>, pass: YearPass): (r: seq<Row>)
    ensures |r| == |rows|
    decreases |finishes|
  {
    if |finishes| == 0 then rows else FixYearsForStart(FixPair(rows, sc, finishes[0], pass), sc, finishes[1..], pass)
  }

  /** The year check over every (start column, finish column) pair, in order. */
  function FixYears(rows: seq<Row>, dc: DateColumns, pass: YearPass): (r: seq<Row>)
    ensures |r| == |rows|
    decreases |dc.starts|
  {
    if |dc.starts| == 0 then rows
    else FixYears(FixYearsForStart(rows, dc.starts[0], dc.finishes, pass), dc.(starts := dc.starts[1..]), pass)
  }

  /** The year check touches only finish columns. */
  lemma {:induction false} FixYearsKeepsOtherColumns(rows: seq<Row>, dc: DateColumns, pass: YearPass, c: string, i: int)
    requires 0 <= i < |rows| && c !in dc.finishes
    ensures CellAt(FixYears(rows, dc, pass)[i], c) == CellAt(rows[i], c)
    decreases |dc.starts|
  {
    if |dc.starts| > 0 {
      var mid := FixYearsForStart(rows, dc.starts[0], dc.finishes, pass);
      ForStartKeepsOtherColumns(rows, dc.starts[0], dc.finishes, pass, c, i);
      FixYearsKeepsOtherColumns(mid, dc.(starts := dc.starts[1..]), pass, c, i);
    }
  }

  lemma {:induction false} ForStartKeepsOtherColumns(rows: seq<Row>, sc: string, finishes: seq<string>, pass: YearPass, c: string, i: int)
    requires 0 <= i < |rows| && c !in finishes
    ensures CellAt(FixYearsForStart(rows, sc, finishes, pass)[i], c) == CellAt(rows[i], c)
    decreases |finishes|
  {
    if |finishes| > 0 {
      var mid := FixPair(rows, sc, finishes[0], pass);
      assert CellAt(mid[i], c) == CellAt(rows[i], c);
      ForStartKeepsOtherColumns(mid, sc, finishes[1..], pass, c, i);
    }
  }

  /** The year check only ever changes the year of a date: a date cell stays
      a date with the same month and day. */
  lemma {:induction false} FixYearsKeepsMonthAndDay(rows: seq<Row>, dc: DateColumns, pass: YearPass, c: string, i: int)
    requires 0 <= i < |rows| && CellAt(rows[i], c).Day?
    ensures var after := CellAt(FixYears(rows, dc, pass)[i], c);
            after.Day? && after.date.month == CellAt(rows[i], c).date.month && after.date.day == CellAt(rows[i], c).date.day
    decreases |dc.starts|
  {
    if |dc.starts| > 0 {
      var mid := FixYearsForStart(rows, dc.starts[0], dc.finishes, pass);
      ForStartKeepsMonthAndDay(rows, dc.starts[0], dc.finishes, pass, c, i);
      FixYearsKeepsMonthAndDay(mid, dc.(starts := dc.starts[1..]), pass, c, i);
    }
  }

  lemma {:induction false} ForStartKeepsMonthAndDay(rows: seq<Row>, sc: string, finishes: seq<string>, pass: YearPass, c: string, i: int)
    requires 0 <= i < |rows| && CellAt(rows[i], c).Day?
    ensures var after := CellAt(FixYearsForStart(rows, sc, finishes, pass)[i], c);
            after.Day? && after.date.month == CellAt(rows[i], c).date.month && after.date.day == CellAt(rows[i], c).date.day
    decreases |finishes|
  {
    if |finishes| > 0 {
      var mid := FixPair(rows, sc, finishes[0], pass);
      FixRowKeepsMonthAndDay(rows[i], sc, finishes[0], c);
      ForStartKeepsMonthAndDay(mid, sc, finishes[1..], pass, c, i);
    }
  }

  lemma FixRowKeepsMonthAndDay(row: Row, sc: string, ec: string, c: string)
    requires CellAt(row, c).Day?
    ensures var after := CellAt(FixRow(row, sc, ec), c);
            after.Day? && after.date.month == CellAt(row, c).date.month && after.date.day == CellAt(row, c).date.day
  {
  }

  /** Step 7: the field flag column exists afterwards and no row leaves it
      missing; a flag that was already set stays as it was. */
  function AddFieldFlag(t: Table): (r: Table)
    ensures FieldFlagColumn in r.columns && |r.rows| == |t.rows|
    ensures FieldFlagColumn in t.columns ==> r.columns == t.columns
    ensures FieldFlagColumn !in t.columns ==> r.columns == t.columns + [FieldFlagColumn]
    ensures forall i :: 0 <= i < |t.rows| ==>
              && !CellAt(r.rows[i], FieldFlagColumn).Blank?
              && (FieldFlagColumn !in t.columns || CellAt(t.rows[i], FieldFlagColumn).Blank? ==>
                    CellAt(r.rows[i], FieldFlagColumn) == Number(1))
              && (FieldFlagColumn in t.columns && !CellAt(t.rows[i], FieldFlagColumn).Blank? ==>
                    CellAt(r.rows[i], FieldFlagColumn) == CellAt(t.rows[i], FieldFlagColumn))
              && (forall c :: c != FieldFlagColumn ==> CellAt(r.rows[i], c) == CellAt(t.rows[i], c))
  {
    if FieldFlagColumn !in t.columns then
      Table(t.columns + [FieldFlagColumn], MapRows(t.rows, row => SetCell(row, FieldFlagColumn, Number(1))))
    else
      t.(rows := MapRows(t.rows, row => if CellAt(row, FieldFlagColumn).Blank? then SetCell(row, FieldFlagColumn, Number(1)) else row))
  }

  /** Steps 2-6 on a sheet whose duplicates are gone, the year check by
      `pass`, then step 7. */
  function CleanedFrom(d: Table, dc: DateColumns, today: Date, parse: Cell -> Option<Date>, cases: CaseMap, pass: YearPass): Table
    requires IsValid(today)
  {
    var clamped := ClampDates(FillEmptyDates(FormatCodes(FillEmptyCodes(StripCodes(d)), cases), dc, today, parse), dc, today);
    AddFieldFlag(clamped.(rows := FixYears(clamped.rows, dc, pass)))
  }

  /** `clean_google`: an empty sheet gives no result; otherwise each row
      kept by step 1 comes out in its place with the field flag set; a
      column that is neither step 4's column nor a date column nor the flag
      keeps its cells; the code column holds the formatted stripped code, or
      the formatted project name where that code is empty; a start
      column holds the filled date clamped to the month; a finish column
      holds the filled and clamped date with at most its year changed; other
      date columns hold the filled date. `pass` chooses the year check: the
      code as written runs `AsWritten`. */
  function CleanGoogle(t: Table, dc: DateColumns, today: Date, parse: Cell -> Option<Date>, cases: CaseMap, pass: YearPass): (r: Option<Table>)
    requires IsValid(today)
    ensures r.None? <==> IsEmpty(t)
    ensures r.Some? ==> r.value.columns == (if FieldFlagColumn in t.columns then t.columns else t.columns + [FieldFlagColumn])
    ensures r.Some? ==> |r.value.rows| == |RemoveDuplicateProjects(t).rows| <= |t.rows|
    ensures r.Some? ==> forall i :: 0 <= i < |r.value.rows| ==> !CellAt(r.value.rows[i], FieldFlagColumn).Blank?
    ensures r.Some? ==> forall i, c :: 0 <= i < |r.value.rows| && c != FieldFlagColumn && !IsListed(dc, c)
                                        && FormatColumn(t.columns) != Some(c) ==>
              CellAt(r.value.rows[i], c) == CellAt(RemoveDuplicateProjects(t).rows[i], c)
    ensures r.Some? && FindColumn(t.columns, CodeCandidates).Some? && !IsListed(dc, FindColumn(t.columns, CodeCandidates).value) ==>
              var code := FindColumn(t.columns, CodeCandidates).value;
              var name := FindColumn(t.columns, NameCandidates);
              forall i :: 0 <= i < |r.value.rows| ==>
                var stripped := StrippedCode(CellAt(RemoveDuplicateProjects(t).rows[i], code));
                && (!IsEmptyCode(stripped) || name.None? ==> CellAt(r.value.rows[i], code) == FormatCode(stripped, cases))
                && (IsEmptyCode(stripped) && name.Some? ==>
                      CellAt(r.value.rows[i], code) == FormatCode(CellAt(RemoveDuplicateProjects(t).rows[i], name.value), cases))
    ensures r.Some? && FindColumn(t.columns, CodeCandidates).None? && FormatColumn(t.columns).Some? && !IsListed(dc, FormatColumn(t.columns).value) ==>
              var f := FormatColumn(t.columns).value;
              forall i :: 0 <= i < |r.value.rows| ==>
                CellAt(r.value.rows[i], f) == FormatCode(CellAt(RemoveDuplicateProjects(t).rows[i], f), cases)
    ensures r.Some? ==> forall i, c :: 0 <= i < |r.value.rows| && c in t.columns && c in dc.starts && c !in dc.finishes
                                        && c != FieldFlagColumn && FormatColumn(t.columns) != Some(c) ==>
              var first := FirstDayOfMonth(today);
              var cell := CellAt(r.value.rows[i], c);
              && cell == ClampStart(FilledDate(CellAt(RemoveDuplicateProjects(t).rows[i], c), first, parse), first)
              && cell.Day? && DayNumber(cell.date) >= DayNumber(first)
    ensures r.Some? ==> forall i, c :: 0 <= i < |r.value.rows| && c in t.columns && c !in dc.starts && c in dc.finishes
                                        && c != FieldFlagColumn && FormatColumn(t.columns) != Some(c) ==>
              var last := LastDayOfMonth(today);
              var clamped := ClampFinish(FilledDate(CellAt(RemoveDuplicateProjects(t).rows[i], c), last, parse), last);
              var cell := CellAt(r.value.rows[i], c);
              && clamped.Day? && DayNumber(clamped.date) <= DayNumber(last)
              && cell.Day? && cell.date.month == clamped.date.month && cell.date.day == clamped.date.day
    ensures r.Some? ==> forall i, c :: 0 <= i < |r.value.rows| && c in t.columns && IsListed(dc, c) && c !in dc.starts && c !in dc.finishes
                                        && c != FieldFlagColumn && FormatColumn(t.columns) != Some(c) ==>
              CellAt(r.value.rows[i], c) == FilledDate(CellAt(RemoveDuplicateProjects(t).rows[i], c), DateFill(c, dc, today), parse)
  {
    if IsEmpty(t) then None
    else
      var d := RemoveDuplicateProjects(t);
      CleanedKeepsColumns(d, dc, today, parse, cases, pass);
      CleanedCodes(d, dc, today, parse, cases, pass);
      CleanedStarts(d, dc, today, parse, cases, pass);
      CleanedFinishes(d, dc, today, parse, cases, pass);
      CleanedOtherDates(d, dc, today, parse, cases, pass);
      Some(CleanedFrom(d, dc, today, parse, cases, pass))
  }

  /** The two year checks give the same sheet outside the finish columns. */
  lemma YearPassesDifferOnlyInFinishes(t: Table, dc: DateColumns, today: Date, parse: Cell -> Option<Date>, cases: CaseMap, i: int, c: string)
    requires IsValid(today) && !IsEmpty(t) && 0 <= i < |RemoveDuplicateProjects(t).rows| && c !in dc.finishes
    ensures CellAt(CleanGoogle(t, dc, today, parse, cases, AsWritten).value.rows[i], c)
            == CellAt(CleanGoogle(t, dc, today, parse, cases, Corrected).value.rows[i], c)
  {
    var d := RemoveDuplicateProjects(t);
    assert CleanGoogle(t, dc, today, parse, cases, AsWritten).value == CleanedFrom(d, dc, today, parse, cases, AsWritten);
    assert CleanGoogle(t, dc, today, parse, cases, Corrected).value == CleanedFrom(d, dc, today, parse, cases, Corrected);
    CleanedPassesAgree(d, dc, today, parse, cases, i, c);
  }

  lemma CleanedPassesAgree(d: Table, dc: DateColumns, today: Date, parse: Cell -> Option<Date>, cases: CaseMap, i: int, c: string)
    requires IsValid(today) && 0 <= i < |d.rows| && c !in dc.finishes
    ensures CellAt(CleanedFrom(d, dc, today, parse, cases, AsWritten).rows[i], c)
            == CellAt(CleanedFrom(d, dc, today, parse, cases, Corrected).rows[i], c)
  {
    var clamped := ClampDates(FillEmptyDates(FormatCodes(FillEmptyCodes(StripCodes(d)), cases), dc, today, parse), dc, today);
    FixYearsKeepsOtherColumns(clamped.rows, dc, AsWritten, c, i);
    FixYearsKeepsOtherColumns(clamped.rows, dc, Corrected, c, i);
    FlagCellAgrees(clamped.(rows := FixYears(clamped.rows, dc, AsWritten)), clamped.(rows := FixYears(clamped.rows, dc, Corrected)), i, c);
  }

  /** Step 7 maps equal cells to equal cells. */
  lemma FlagCellAgrees(x: Table, y: Table, i: int, c: string)
    requires x.columns == y.columns && |x.rows| == |y.rows| && 0 <= i < |x.rows|
    requires CellAt(x.rows[i], c) == CellAt(y.rows[i], c)
    ensures CellAt(AddFieldFlag(x).rows[i], c) == CellAt(AddFieldFlag(y).rows[i], c)
  {
  }

  /** Neither the code column, step 4's column nor the name column is the
      field flag, and the code and name columns differ. */
  lemma FoundColumnsDiffer(columns: seq<string>)
    ensures FindColumn(columns, CodeCandidates).Some? ==> FindColumn(columns, CodeCandidates).value != FieldFlagColumn
    ensures FindColumn(columns, NameCandidates).Some? ==> FindColumn(columns, NameCandidates).value != FieldFlagColumn
    ensures FormatColumn(columns).Some? ==> FormatColumn(columns).value != FieldFlagColumn
    ensures FindColumn(columns, CodeCandidates).Some? && FindColumn(columns, NameCandidates).Some? ==>
              FindColumn(columns, CodeCandidates).value != FindColumn(columns, NameCandidates).value
  {
  }

  /** A column that is neither the code column, a date column nor the flag
      comes through steps 2-7 unchanged. */
  lemma CleanedKeepsColumns(d: Table, dc: DateColumns, today: Date, parse: Cell -> Option<Date>, cases: CaseMap, pass: YearPass)
    requires IsValid(today)
    ensures var out := CleanedFrom(d, dc, today, parse, cases, pass);
            forall i, c :: 0 <= i < |out.rows| && c != FieldFlagColumn && !IsListed(dc, c)
                           && FormatColumn(d.columns) != Some(c) ==>
              CellAt(out.rows[i], c) == CellAt(d.rows[i], c)
  {
    forall i, c | 0 <= i < |d.rows| && c != FieldFlagColumn && !IsListed(dc, c) && FormatColumn(d.columns) != Some(c)
      ensures CellAt(CleanedFrom(d, dc, today, parse, cases, pass).rows[i], c) == CellAt(d.rows[i], c)
    {
      CleanedKeepsColumn(d, dc, today, parse, cases, pass, i, c);
    }
  }

  /** Steps 2-7 leave in the code column the formatted stripped code, or the
      formatted project name where the stripped code is empty; without a code
      column, step 4's own column holds its formatted cells. */
  lemma CleanedCodes(d: Table, dc: DateColumns, today: Date, parse: Cell -> Option<Date>, cases: CaseMap, pass: YearPass)
    requires IsValid(today)
    ensures FindColumn(d.columns, CodeCandidates).Some? && !IsListed(dc, FindColumn(d.columns, CodeCandidates).value) ==>
              var out := CleanedFrom(d, dc, today, parse, cases, pass);
              var code := FindColumn(d.columns, CodeCandidates).value;
              var name := FindColumn(d.columns, NameCandidates);
              forall i :: 0 <= i < |out.rows| ==>
                var stripped := StrippedCode(CellAt(d.rows[i], code));
                && (!IsEmptyCode(stripped) || name.None? ==> CellAt(out.rows[i], code) == FormatCode(stripped, cases))
                && (IsEmptyCode(stripped) && name.Some? ==> CellAt(out.rows[i], code) == FormatCode(CellAt(d.rows[i], name.value), cases))
    ensures FindColumn(d.columns, CodeCandidates).None? && FormatColumn(d.columns).Some? && !IsListed(dc, FormatColumn(d.columns).value) ==>
              var out := CleanedFrom(d, dc, today, parse, cases, pass);
              var f := FormatColumn(d.columns).value;
              forall i :: 0 <= i < |out.rows| ==> CellAt(out.rows[i], f) == FormatCode(CellAt(d.rows[i], f), cases)
  {
    if FindColumn(d.columns, CodeCandidates).Some? && !IsListed(dc, FindColumn(d.columns, CodeCandidates).value) {
      forall i | 0 <= i < |d.rows| {
        CleanedCode(d, dc, today, parse, cases, pass, i);
      }
    }
    if FindColumn(d.columns, CodeCandidates).None? && FormatColumn(d.columns).Some? && !IsListed(dc, FormatColumn(d.columns).value) {
      forall i | 0 <= i < |d.rows| {
        CleanedFormatted(d, dc, today, parse, cases, pass, i);
      }
    }
  }

  /** Steps 2-7 leave in a start column the filled date clamped to the month. */
  lemma CleanedStarts(d: Table, dc: DateColumns, today: Date, parse: Cell -> Option<Date>, cases: CaseMap, pass: YearPass)
    requires IsValid(today)
    ensures var out := CleanedFrom(d, dc, today, parse, cases, pass);
            forall i, c :: 0 <= i < |out.rows| && c in d.columns && c in dc.starts && c !in dc.finishes
                           && c != FieldFlagColumn && FormatColumn(d.columns) != Some(c) ==>
              var first := FirstDayOfMonth(today);
              var cell := CellAt(out.rows[i], c);
              && cell == ClampStart(FilledDate(CellAt(d.rows[i], c), first, parse), first)
              && cell.Day? && DayNumber(cell.date) >= DayNumber(first)
  {
    forall i, c | 0 <= i < |d.rows| && c in d.columns && c in dc.starts && c !in dc.finishes
                  && c != FieldFlagColumn && FormatColumn(d.columns) != Some(c)
      ensures CellAt(CleanedFrom(d, dc, today, parse, cases, pass).rows[i], c)
              == ClampStart(FilledDate(CellAt(d.rows[i], c), FirstDayOfMonth(today), parse), FirstDayOfMonth(today))
    {
      CleanedStart(d, dc, today, parse, cases, pass, i, c);
    }
  }

  /** Steps 2-7 leave in a finish column a date with the month and day of the
      filled date clamped to the month. */
  lemma CleanedFinishes(d: Table, dc: DateColumns, today: Date, parse: Cell -> Option<Date>, cases: CaseMap, pass: YearPass)
    requires IsValid(today)
    ensures var out := CleanedFrom(d, dc, today, parse, cases, pass);
            forall i, c :: 0 <= i < |out.rows| && c in d.columns && c !in dc.starts && c in dc.finishes
                           && c != FieldFlagColumn && FormatColumn(d.columns) != Some(c) ==>
              var last := LastDayOfMonth(today);
              var clamped := ClampFinish(FilledDate(CellAt(d.rows[i], c), last, parse), last);
              var cell := CellAt(out.rows[i], c);
              && clamped.Day? && DayNumber(clamped.date) <= DayNumber(last)
              && cell.Day? && cell.date.month == clamped.date.month && cell.date.day == clamped.date.day
  {
    forall i, c | 0 <= i < |d.rows| && c in d.columns && c !in dc.starts && c in dc.finishes
                  && c != FieldFlagColumn && FormatColumn(d.columns) != Some(c) {
      CleanedFinish(d, dc, today, parse, cases, pass, i, c);
    }
  }

  /** Steps 2-7 leave in any other date column the filled date. */
  lemma CleanedOtherDates(d: Table, dc: DateColumns, today: Date, parse: Cell -> Option<Date>, cases: CaseMap, pass: YearPass)
    requires IsValid(today)
    ensures var out := CleanedFrom(d, dc, today, parse, cases, pass);
            forall i, c :: 0 <= i < |out.rows| && c in d.columns && IsListed(dc, c) && c !in dc.starts && c !in dc.finishes
                           && c != FieldFlagColumn && FormatColumn(d.columns) != Some(c) ==>
              CellAt(out.rows[i], c) == FilledDate(CellAt(d.rows[i], c), DateFill(c, dc, today), parse)
  {
    forall i, c | 0 <= i < |d.rows| && c in d.columns && IsListed(dc, c) && c !in dc.starts && c !in dc.finishes
                  && c != FieldFlagColumn && FormatColumn(d.columns) != Some(c)
      ensures CellAt(CleanedFrom(d, dc, today, parse, cases, pass).rows[i], c) == FilledDate(CellAt(d.rows[i], c), DateFill(c, dc, today), parse)
    {
      CleanedOtherDate(d, dc, today, parse, cases, pass, i, c);
    }
  }

  /** Steps 2-4 leave every column other than step 4's alone. */
  lemma CodeStepsKeep(d: Table, cases: CaseMap, i: int, c: string)
    requires 0 <= i < |d.rows| && FormatColumn(d.columns) != Some(c)
    ensures CellAt(FormatCodes(FillEmptyCodes(StripCodes(d)), cases).rows[i], c) == CellAt(d.rows[i], c)
  {
    var stripped := StripCodes(d);
    var filled := FillEmptyCodes(stripped);
    assert CellAt(stripped.rows[i], c) == CellAt(d.rows[i], c);
    assert CellAt(filled.rows[i], c) == CellAt(stripped.rows[i], c);
  }

  /** Step 7 and the year check leave a column that is neither a finish
      column nor the flag as step 6 left it. */
  lemma LastStepsKeep(clamped: Table, dc: DateColumns, pass: YearPass, i: int, c: string)
    requires 0 <= i < |clamped.rows| && c !in dc.finishes && c != FieldFlagColumn
    ensures CellAt(AddFieldFlag(clamped.(rows := FixYears(clamped.rows, dc, pass))).rows[i], c) == CellAt(clamped.rows[i], c)
  {
    FixYearsKeepsOtherColumns(clamped.rows, dc, pass, c, i);
  }

  lemma CleanedKeepsColumn(d: Table, dc: DateColumns, today: Date, parse: Cell -> Option<Date>, cases: CaseMap, pass: YearPass, i: int, c: string)
    requires IsValid(today) && 0 <= i < |d.rows|
    requires c != FieldFlagColumn && !IsListed(dc, c) && FormatColumn(d.columns) != Some(c)
    ensures CellAt(CleanedFrom(d, dc, today, parse, cases, pass).rows[i], c) == CellAt(d.rows[i], c)
  {
    var coded := FormatCodes(FillEmptyCodes(StripCodes(d)), cases);
    var dated := FillEmptyDates(coded, dc, today, parse);
    var clamped := ClampDates(dated, dc, today);
    CodeStepsKeep(d, cases, i, c);
    LastStepsKeep(clamped, dc, pass, i, c);
    assert CellAt(clamped.rows[i], c) == CellAt(dated.rows[i], c);
    assert CellAt(dated.rows[i], c) == CellAt(coded.rows[i], c);
  }

  lemma CleanedCode(d: Table, dc: DateColumns, today: Date, parse: Cell -> Option<Date>, cases: CaseMap, pass: YearPass, i: int)
    requires IsValid(today) && 0 <= i < |d.rows|
    requires FindColumn(d.columns, CodeCandidates).Some? && !IsListed(dc, FindColumn(d.columns, CodeCandidates).value)
    ensures var code := FindColumn(d.columns, CodeCandidates).value;
            var name := FindColumn(d.columns, NameCandidates);
            var stripped := StrippedCode(CellAt(d.rows[i], code));
            var cell := CellAt(CleanedFrom(d, dc, today, parse, cases, pass).rows[i], code);
            && (!IsEmptyCode(stripped) || name.None? ==> cell == FormatCode(stripped, cases))
            && (IsEmptyCode(stripped) && name.Some? ==> cell == FormatCode(CellAt(d.rows[i], name.value), cases))
  {
    var code := FindColumn(d.columns, CodeCandidates).value;
    var stripped := StripCodes(d);
    var filled := FillEmptyCodes(stripped);
    var coded := FormatCodes(filled, cases);
    var dated := FillEmptyDates(coded, dc, today, parse);
    var clamped := ClampDates(dated, dc, today);
    FoundColumnsDiffer(d.columns);
    FixYearsKeepsOtherColumns(clamped.rows, dc, pass, code, i);
    assert CellAt(CleanedFrom(d, dc, today, parse, cases, pass).rows[i], code) == CellAt(coded.rows[i], code);
    assert CellAt(coded.rows[i], code) == FormatCode(CellAt(filled.rows[i], code), cases);
    assert CellAt(stripped.rows[i], code) == StrippedCode(CellAt(d.rows[i], code));
    var name := FindColumn(d.columns, NameCandidates);
    if name.Some? {
      assert CellAt(stripped.rows[i], name.value) == CellAt(d.rows[i], name.value);
    }
  }

  lemma CleanedFormatted(d: Table, dc: DateColumns, today: Date, parse: Cell -> Option<Date>, cases: CaseMap, pass: YearPass, i: int)
    requires IsValid(today) && 0 <= i < |d.rows|
    requires FindColumn(d.columns, CodeCandidates).None? && FormatColumn(d.columns).Some? && !IsListed(dc, FormatColumn(d.columns).value)
    ensures var f := FormatColumn(d.columns).value;
            CellAt(CleanedFrom(d, dc, today, parse, cases, pass).rows[i], f) == FormatCode(CellAt(d.rows[i], f), cases)
  {
    var f := FormatColumn(d.columns).value;
    var coded := FormatCodes(FillEmptyCodes(StripCodes(d)), cases);
    var dated := FillEmptyDates(coded, dc, today, parse);
    var clamped := ClampDates(dated, dc, today);
    FoundColumnsDiffer(d.columns);
    FixYearsKeepsOtherColumns(clamped.rows, dc, pass, f, i);
    assert CellAt(CleanedFrom(d, dc, today, parse, cases, pass).rows[i], f) == CellAt(coded.rows[i], f);
  }

  lemma CleanedStart(d: Table, dc: DateColumns, today: Date, parse: Cell -> Option<Date>, cases: CaseMap, pass: YearPass, i: int, c: string)
    requires IsValid(today) && 0 <= i < |d.rows|
    requires c in d.columns && c in dc.starts && c !in dc.finishes
    requires c != FieldFlagColumn && FormatColumn(d.columns) != Some(c)
    ensures CellAt(CleanedFrom(d, dc, today, parse, cases, pass).rows[i], c)
            == ClampStart(FilledDate(CellAt(d.rows[i], c), FirstDayOfMonth(today), parse), FirstDayOfMonth(today))
  {
    var coded := FormatCodes(FillEmptyCodes(StripCodes(d)), cases);
    var dated := FillEmptyDates(coded, dc, today, parse);
    var clamped := ClampDates(dated, dc, today);
    var first := FirstDayOfMonth(today);
    CodeStepsKeep(d, cases, i, c);
    LastStepsKeep(clamped, dc, pass, i, c);
    assert CellAt(dated.rows[i], c) == FilledDate(CellAt(coded.rows[i], c), first, parse);
    assert CellAt(clamped.rows[i], c) == ClampStart(CellAt(dated.rows[i], c), first);
  }

  lemma CleanedFinish(d: Table, dc: DateColumns, today: Date, parse: Cell -> Option<Date>, cases: CaseMap, pass: YearPass, i: int, c: string)
    requires IsValid(today) && 0 <= i < |d.rows|
    requires c in d.columns && c !in dc.starts && c in dc.finishes
    requires c != FieldFlagColumn && FormatColumn(d.columns) != Some(c)
    ensures var last := LastDayOfMonth(today);
            var clamped := ClampFinish(FilledDate(CellAt(d.rows[i], c), last, parse), last);
            var cell := CellAt(CleanedFrom(d, dc, today, parse, cases, pass).rows[i], c);
            && clamped.Day? && DayNumber(clamped.date) <= DayNumber(last)
            && cell.Day? && cell.date.month == clamped.date.month && cell.date.day == clamped.date.day
  {
    var coded := FormatCodes(FillEmptyCodes(StripCodes(d)), cases);
    var dated := FillEmptyDates(coded, dc, today, parse);
    var clamped := ClampDates(dated, dc, today);
    var last := LastDayOfMonth(today);
    CodeStepsKeep(d, cases, i, c);
    assert CellAt(dated.rows[i], c) == FilledDate(CellAt(coded.rows[i], c), last, parse);
    assert CellAt(clamped.rows[i], c) == ClampFinish(CellAt(dated.rows[i], c), last);
    FixYearsKeepsMonthAndDay(clamped.rows, dc, pass, c, i);
  }

  lemma CleanedOtherDate(d: Table, dc: DateColumns, today: Date, parse: Cell -> Option<Date>, cases: CaseMap, pass: YearPass, i: int, c: string)
    requires IsValid(today) && 0 <= i < |d.rows|
    requires c in d.columns && IsListed(dc, c) && c !in dc.starts && c !in dc.finishes
    requires c != FieldFlagColumn && FormatColumn(d.columns) != Some(c)
    ensures CellAt(CleanedFrom(d, dc, today, parse, cases, pass).rows[i], c) == FilledDate(CellAt(d.rows[i], c), DateFill(c, dc, today), parse)
  {
    var coded := FormatCodes(FillEmptyCodes(StripCodes(d)), cases);
    var dated := FillEmptyDates(coded, dc, today, parse);
    var clamped := ClampDates(dated, dc, today);
    CodeStepsKeep(d, cases, i, c);
    LastStepsKeep(clamped, dc, pass, i, c);
    assert CellAt(clamped.rows[i], c) == CellAt(dated.rows[i], c);
  }

  /** A start column after steps 5 and 6: each cell filled, then clamped to the month. */
  function ClampedStarts(d: Table, c: string, today: Date, parse: Cell -> Option<Date>): (r: seq<Cell>)
    requires IsValid(today)
    ensures |r| == |d.rows| && forall j :: 0 <= j < |r| ==> r[j].Day?
  {
    seq(|d.rows|, j requires 0 <= j < |d.rows| =>
      ClampStart(FilledDate(CellAt(d.rows[j], c), FirstDayOfMonth(today), parse), FirstDayOfMonth(today)))
  }

  /** A finish column after steps 5 and 6: each cell filled, then clamped to the month. */
  function ClampedFinishes(d: Table, c: string, today: Date, parse: Cell -> Option<Date>): (r: seq<Cell>)
    requires IsValid(today)
    ensures |r| == |d.rows| && forall j :: 0 <= j < |r| ==> r[j].Day?
  {
    seq(|d.rows|, j requires 0 <= j < |d.rows| =>
      ClampFinish(FilledDate(CellAt(d.rows[j], c), LastDayOfMonth(today), parse), LastDayOfMonth(today)))
  }

  /** The year check reaches the cleaned sheet. With one start column `s`
      and a finish column `e`, row `i`'s finish is the clamped finish with
      the year fix of its (start, finish) pair applied; the corrected pass
      applies it always, the pass as written only while no row up to `i`
      raises. */
  lemma CleanGoogleYearCheck(t: Table, dc: DateColumns, today: Date, parse: Cell -> Option<Date>, cases: CaseMap, pass: YearPass,
                             s: string, e: string, i: int)
    requires IsValid(today) && !IsEmpty(t) && WellFormed(dc)
    requires dc.starts == [s] && e in dc.finishes
    requires s in t.columns && e in t.columns && s != FieldFlagColumn && e != FieldFlagColumn
    requires FormatColumn(t.columns) != Some(s) && FormatColumn(t.columns) != Some(e)
    requires 0 <= i < |RemoveDuplicateProjects(t).rows|
    ensures var S := ClampedStarts(RemoveDuplicateProjects(t), s, today, parse);
            var E := ClampedFinishes(RemoveDuplicateProjects(t), e, today, parse);
            var f := YearFixOf(S[i], E[i]);
            var fixed := if f.Replace? then Day(f.end) else E[i];
            var cell := CellAt(CleanGoogle(t, dc, today, parse, cases, pass).value.rows[i], e);
            && (pass == Corrected ==> cell == fixed)
            && (pass == AsWritten ==> cell == if exists j :: 0 <= j <= i && YearFixOf(S[j], E[j]).Raise? then E[i] else fixed)
  {
    var d := RemoveDuplicateProjects(t);
    assert CleanGoogle(t, dc, today, parse, cases, pass).value == CleanedFrom(d, dc, today, parse, cases, pass);
    CleanedYearCheck(d, dc, today, parse, cases, pass, s, e, i);
  }

  lemma CleanedYearCheck(d: Table, dc: DateColumns, today: Date, parse: Cell -> Option<Date>, cases: CaseMap, pass: YearPass,
                         s: string, e: string, i: int)
    requires IsValid(today) && WellFormed(dc)
    requires dc.starts == [s] && e in dc.finishes
    requires s in d.columns && e in d.columns && e != FieldFlagColumn
    requires FormatColumn(d.columns) != Some(s) && FormatColumn(d.columns) != Some(e)
    requires 0 <= i < |d.rows|
    ensures var S := ClampedStarts(d, s, today, parse);
            var E := ClampedFinishes(d, e, today, parse);
            var f := YearFixOf(S[i], E[i]);
            var fixed := if f.Replace? then Day(f.end) else E[i];
            var cell := CellAt(CleanedFrom(d, dc, today, parse, cases, pass).rows[i], e);
            && (pass == Corrected ==> cell == fixed)
            && (pass == AsWritten ==> cell == if exists j :: 0 <= j <= i && YearFixOf(S[j], E[j]).Raise? then E[i] else fixed)
  {
    var clamped := ClampDates(FillEmptyDates(FormatCodes(FillEmptyCodes(StripCodes(d)), cases), dc, today, parse), dc, today);
    var S := ClampedStarts(d, s, today, parse);
    var E := ClampedFinishes(d, e, today, parse);
    forall j | 0 <= j < |d.rows|
      ensures CellAt(clamped.rows[j], s) == S[j] && CellAt(clamped.rows[j], e) == E[j]
    {
      ClampedPair(d, dc, today, parse, cases, s, e, j);
    }
    FixYearsCell(clamped.rows, dc, pass, s, e, i, S, E);
    var fixedRows := FixYears(clamped.rows, dc, pass);
    assert CellAt(CleanedFrom(d, dc, today, parse, cases, pass).rows[i], e) == CellAt(fixedRows[i], e);
  }

  /** Steps 2-6 give the start and finish cells their clamped values. */
  lemma ClampedPair(d: Table, dc: DateColumns, today: Date, parse: Cell -> Option<Date>, cases: CaseMap, s: string, e: string, j: int)
    requires IsValid(today) && WellFormed(dc) && dc.starts == [s] && e in dc.finishes
    requires s in d.columns && e in d.columns
    requires FormatColumn(d.columns) != Some(s) && FormatColumn(d.columns) != Some(e)
    requires 0 <= j < |d.rows|
    ensures var clamped := ClampDates(FillEmptyDates(FormatCodes(FillEmptyCodes(StripCodes(d)), cases), dc, today, parse), dc, today);
            && CellAt(clamped.rows[j], s) == ClampedStarts(d, s, today, parse)[j]
            && CellAt(clamped.rows[j], e) == ClampedFinishes(d, e, today, parse)[j]
  {
    var coded := FormatCodes(FillEmptyCodes(StripCodes(d)), cases);
    var dated := FillEmptyDates(coded, dc, today, parse);
    CodeStepsKeep(d, cases, j, s);
    CodeStepsKeep(d, cases, j, e);
    assert e !in dc.starts;
    assert CellAt(dated.rows[j], s) == FilledDate(CellAt(coded.rows[j], s), FirstDayOfMonth(today), parse);
    assert CellAt(dated.rows[j], e) == FilledDate(CellAt(coded.rows[j], e), LastDayOfMonth(today), parse);
  }

  /** The year check over rows whose start column `s` holds the dates `S`
      and whose finish column `e` holds the dates `E`. */
  lemma FixYearsCell(rows: seq<Row>, dc: DateColumns, pass: YearPass, s: string, e: string, i: int, S: seq<Cell>, E: seq<Cell>)
    requires WellFormed(dc) && dc.starts == [s] && e in dc.finishes && 0 <= i < |rows|
    requires |S| == |rows| && |E| == |rows|
    requires forall j :: 0 <= j < |rows| ==> CellAt(rows[j], s) == S[j] && CellAt(rows[j], e) == E[j] && S[j].Day? && E[j].Day?
    ensures var f := YearFixOf(S[i], E[i]);
            var fixed := if f.Replace? then Day(f.end) else E[i];
            var cell := CellAt(FixYears(rows, dc, pass)[i], e);
            && (pass == Corrected ==> cell == fixed)
            && (pass == AsWritten ==> cell == if exists j :: 0 <= j <= i && YearFixOf(S[j], E[j]).Raise? then E[i] else fixed)
  {
    assert FixYears(rows, dc, pass) == FixYearsForStart(rows, s, dc.finishes, pass);
    ForStartFinishCell(rows, s, dc.finishes, pass, e, i);
    assert IsDateColumn(rows, s) && IsDateColumn(rows, e);
    if pass == AsWritten {
      RaisedByCells(rows, s, e, i, S, E);
    }
  }

  /** The pass as written stops at row `i` exactly when some pair of dates up to `i` raises. */
  lemma RaisedByCells(rows: seq<Row>, s: string, e: string, i: int, S: seq<Cell>, E: seq<Cell>)
    requires |S| == |rows| && |E| == |rows| && 0 <= i < |rows|
    requires forall j :: 0 <= j < |rows| ==> CellAt(rows[j], s) == S[j] && CellAt(rows[j], e) == E[j]
    ensures RaisedBy(rows, RaisesIn(s, e), i) <==> exists j :: 0 <= j <= i && YearFixOf(S[j], E[j]).Raise?
  {
    if RaisedBy(rows, RaisesIn(s, e), i) {
      var j :| 0 <= j <= i && j < |rows| && RaisesIn(s, e)(rows[j]);
      assert YearFixOf(S[j], E[j]).Raise?;
    }
    if exists j :: 0 <= j <= i && YearFixOf(S[j], E[j]).Raise? {
      var j :| 0 <= j <= i && YearFixOf(S[j], E[j]).Raise?;
      assert RaisesIn(s, e)(rows[j]);
    }
  }

  /** Over one start column, a finish column listed once ends up as the
      year check of its own pair leaves it: the other pairs never touch it. */
  lemma {:induction false} ForStartFinishCell(rows: seq<Row>, sc: string, finishes: seq<string>, pass: YearPass, e: string, i: int)
    requires 0 <= i < |rows| && e in finishes && sc !in finishes
    requires forall a, b :: 0 <= a < b < |finishes| ==> finishes[a] != finishes[b]
    ensures CellAt(FixYearsForStart(rows, sc, finishes, pass)[i], e) == CellAt(FixPair(rows, sc, e, pass)[i], e)
    decreases |finishes|
  {
    var mid := FixPair(rows, sc, finishes[0], pass);
    if finishes[0] == e {
      assert e !in finishes[1..];
      ForStartKeepsOtherColumns(mid, sc, finishes[1..], pass, e, i);
    } else {
      assert e in finishes[1..];
      ForStartFinishCell(mid, sc, finishes[1..], pass, e, i);
      forall j | 0 <= j < |rows|
        ensures CellAt(mid[j], sc) == CellAt(rows[j], sc) && CellAt(mid[j], e) == CellAt(rows[j], e)
      {
        assert mid[j] == rows[j] || mid[j] == FixRow(rows[j], sc, finishes[0]);
      }
      FixPairCellAgrees(mid, rows, sc, e, pass, i);
    }
  }

  /** The year check of a pair writes into its finish column a value that
      depends on nothing but the pair's two columns. */
  lemma FixPairCellAgrees(rows: seq<Row>, rows': seq<Row>, sc: string, ec: string, pass: YearPass, i: int)
    requires |rows| == |rows'| && 0 <= i < |rows|
    requires forall j :: 0 <= j < |rows| ==> CellAt(rows[j], sc) == CellAt(rows'[j], sc) && CellAt(rows[j], ec) == CellAt(rows'[j], ec)
    ensures CellAt(FixPair(rows, sc, ec, pass)[i], ec) == CellAt(FixPair(rows', sc, ec, pass)[i], ec)
  {
    assert IsDateColumn(rows, sc) == IsDateColumn(rows', sc);
    assert IsDateColumn(rows, ec) == IsDateColumn(rows', ec);
    var f := YearFixOf(CellAt(rows[i], sc), CellAt(rows[i], ec));
    assert f == YearFixOf(CellAt(rows'[i], sc), CellAt(rows'[i], ec));
    if IsDateColumn(rows, sc) && IsDateColumn(rows, ec) && pass == AsWritten {
      var S := seq(|rows|, j requires 0 <= j < |rows| => CellAt(rows[j], sc));
      var E := seq(|rows|, j requires 0 <= j < |rows| => CellAt(rows[j], ec));
      RaisedByCells(rows, sc, ec, i, S, E);
      RaisedByCells(rows', sc, ec, i, S, E);
    }
  }

  lemma {:induction false} SubsequenceNotLonger<T>(xs: seq<T>, ys: seq<T>)
    requires IsSubsequence(xs, ys)
    ensures |xs| <= |ys|
    decreases |xs| + |ys|
  {
    if |xs| > 0 {
      if xs[0] == ys[0] && IsSubsequence(xs[1..], ys[1..]) {
        SubsequenceNotLonger(xs[1..], ys[1..]);
      } else {
        SubsequenceNotLonger(xs, ys[1..]);
      }
    }
  }
}
