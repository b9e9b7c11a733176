/** `DataCleaner.clean_array`: unparseable visit-sheet dates become the
    surrogate date, and "not available" markers become empty text. */
module ArrayCleaning {
  import opened Common
  import opened Strings
  import opened Calendar
  import opened Tables

  /** The visit-sheet columns that hold dates. */
  const DateColumns := [
    "Дата визита",
    "Дата создания проверки",
    "Дата назначения опроса за тайным покупателем",
    "Дата подтверждения опроса тайным покупателем",
    "Время окончания",
    "Время завершения ожидания статуса утверждения (Дата проведения опроса?)",
    "Время утверждения"]

  /** The spellings of "not available" replaced by empty text. */
  const NaTokens := ["Н/Д", "н/д", "N/A", "n/a", "#Н/Д", "#н/д", "NA", "na", "-", "—", "–"]

  /** The words that, in any letter case, also stand for a missing value. */
  const NullWords := ["nan", "none", "null"]

  /** Step 1 on one cell, with `dayfirst=True` parsing: the parsed date, or
      the surrogate date where there is none. */
  function DateOrSurrogate(c: Cell, parse: Cell -> Option<Date>): (r: Cell)
    ensures r.Day? && IsTimestampDay(r.date)
    ensures c.Day? && IsTimestampDay(c.date) ==> r == c
    ensures c.Day? && !IsTimestampDay(c.date) ==> r == Day(SurrogateDate)
    ensures c.Blank? ==> r == Day(SurrogateDate)
    ensures ToDatetime(c, parse).None? <==> r == Day(SurrogateDate) && ToDatetime(c, parse) != Some(SurrogateDate)
  {
    SurrogateDayIsDayNumber();
    match ToDatetime(c, parse)
    case Some(d) => Day(d)
    case None => Day(SurrogateDate)
  }

  function ReplaceDatesInRow(row: Row, columns: seq<string>, parse: Cell -> Option<Date>): Row
  {
    map c | c in row.Keys + (set c' | c' in columns && c' in DateColumns) ::
      if c in columns && c in DateColumns then DateOrSurrogate(CellAt(row, c), parse) else row[c]
  }

  /** Step 1: every date column the sheet has ends up holding a date in every
      row; other columns are untouched. */
  function ReplaceUnparsedDates(t: Table, parse: Cell -> Option<Date>): (r: Table)
    ensures r.columns == t.columns && |r.rows| == |t.rows|
    ensures forall i, c :: 0 <= i < |t.rows| && c in t.columns && c in DateColumns ==>
              CellAt(r.rows[i], c) == DateOrSurrogate(CellAt(t.rows[i], c), parse)
    ensures forall i, c :: 0 <= i < |t.rows| && !(c in t.columns && c in DateColumns) ==>
              CellAt(r.rows[i], c) == CellAt(t.rows[i], c)
  {
    t.(rows := MapRows(t.rows, row => ReplaceDatesInRow(row, t.columns, parse)))
  }

  /** Step 2 test, as the two masks apply it: the stripped text of the cell
      is one of the markers, or is "nan", "none" or "null" in any case. */
  predicate IsNaMarker(c: Cell)
  {
    var s := Strip(Render(c));
    s in NaTokens || LowerAscii(s) in NullWords
  }

  /** Step 2 on one cell. Applying the eleven marker masks and then the word
      mask one after another gives the same as this single test, because a
      cell once emptied matches none of the later masks. */
  function NormaliseCell(c: Cell): (r: Cell)
    ensures !IsNaMarker(r)
    ensures r != c ==> IsNaMarker(c) && r == Text("")
    ensures IsNaMarker(c) ==> r == Text("")
  {
    if IsNaMarker(c) then EmptyTextIsNotMarker(); Text("") else c
  }

  lemma EmptyTextIsNotMarker()
    ensures !IsNaMarker(Text(""))
  {
    assert Render(Text("")) == "";
    assert Strip("") == "";
    assert LowerAscii("") == "";
    assert forall w :: w in NaTokens + NullWords ==> |w| > 0;
  }

  /** No marker and no null word contains a digit. */
  lemma MarkersHoldNoDigit(d: char)
    requires IsDigit(d)
    ensures forall w :: w in NaTokens + NullWords ==> d !in w
  {
  }

  /** A word holding a digit is neither a marker nor a null word. */
  lemma WordWithDigitIsNoMarker(s: string, d: char)
    requires IsDigit(d) && d in s
    ensures s !in NaTokens && s !in NullWords
  {
    MarkersHoldNoDigit(d);
  }

  /** Text holding a digit is never taken for a marker, stripped or lower-cased. */
  lemma TextWithDigitIsNotMarker(txt: string, d: char)
    requires IsDigit(d) && d in txt
    ensures Strip(txt) !in NaTokens && LowerAscii(Strip(txt)) !in NullWords
  {
    var s := Strip(txt);
    StripKeeps(txt, d);
    WordWithDigitIsNoMarker(s, d);
    var i :| 0 <= i < |s| && s[i] == d;
    var l := LowerAscii(s);
    assert l[i] == d;
    WordWithDigitIsNoMarker(l, d);
  }

  /** A date or a number is never taken for a marker: its text ends in a digit,
      and neither a marker nor a null word holds a digit. */
  lemma DatesAndNumbersAreNotMarkers(c: Cell)
    requires c.Day? || c.Number?
    ensures !IsNaMarker(c)
    ensures NormaliseCell(c) == c
  {
    var txt := Render(c);
    RenderEndsInDigit(c);
    TextWithDigitIsNotMarker(txt, txt[|txt| - 1]);
  }

  function NormaliseRow(row: Row, columns: seq<string>): Row
  {
    map c | c in row.Keys + (set c' | c' in columns) :: if c in columns then NormaliseCell(CellAt(row, c)) else row[c]
  }

  /** Step 2 over every column of the sheet. */
  function NormaliseNa(t: Table): (r: Table)
    ensures r.columns == t.columns && |r.rows| == |t.rows|
    ensures forall i, c :: 0 <= i < |t.rows| && c in t.columns ==>
              CellAt(r.rows[i], c) == NormaliseCell(CellAt(t.rows[i], c))
    ensures forall i, c :: 0 <= i < |t.rows| && c !in t.columns ==> CellAt(r.rows[i], c) == CellAt(t.rows[i], c)
  {
    t.(rows := MapRows(t.rows, row => NormaliseRow(row, t.columns)))
  }

  /** Normalising a normalised sheet changes nothing. */
  lemma NormaliseNaIdempotent(t: Table)
    ensures NormaliseNa(NormaliseNa(t)) == NormaliseNa(t)
  {
    var r := NormaliseNa(t);
    var r2 := NormaliseNa(r);
    forall i | 0 <= i < |r.rows| ensures r2.rows[i] == r.rows[i] {
      NormaliseRowIdempotent(t.rows[i], t.columns);
    }
  }

  lemma NormaliseRowIdempotent(row: Row, columns: seq<string>)
    ensures NormaliseRow(NormaliseRow(row, columns), columns) == NormaliseRow(row, columns)
  {
    var n := NormaliseRow(row, columns);
    var n2 := NormaliseRow(n, columns);
    assert n2.Keys == n.Keys;
    forall c | c in n ensures n2[c] == n[c] {
      if c in columns {
        assert CellAt(n, c) == n[c];
      }
    }
  }

  /** `clean_array`: nothing for an empty sheet; otherwise every date column
      holds a date in every row, every other column of the sheet has its
      markers emptied and its other cells kept, and no cell of any column is
      a marker. */
  function CleanArray(t: Table, parse: Cell -> Option<Date>): (r: Option<Table>)
    ensures r.None? <==> IsEmpty(t)
    ensures r.Some? ==> r.value.columns == t.columns && |r.value.rows| == |t.rows|
    ensures r.Some? ==> forall i, c :: 0 <= i < |t.rows| && c in t.columns && c in DateColumns ==>
              CellAt(r.value.rows[i], c) == DateOrSurrogate(CellAt(t.rows[i], c), parse)
    ensures r.Some? ==> forall i, c :: 0 <= i < |t.rows| && c in t.columns && c !in DateColumns ==>
              CellAt(r.value.rows[i], c) == NormaliseCell(CellAt(t.rows[i], c))
    ensures r.Some? ==> forall i, c :: 0 <= i < |t.rows| && c in t.columns && c !in DateColumns ==>
              (IsNaMarker(CellAt(t.rows[i], c)) ==> CellAt(r.value.rows[i], c) == Text(""))
              && (!IsNaMarker(CellAt(t.rows[i], c)) ==> CellAt(r.value.rows[i], c) == CellAt(t.rows[i], c))
    ensures r.Some? ==> forall i, c :: 0 <= i < |t.rows| && c !in t.columns ==> CellAt(r.value.rows[i], c) == CellAt(t.rows[i], c)
    ensures r.Some? ==> forall i, c :: 0 <= i < |t.rows| && c in t.columns ==> !IsNaMarker(CellAt(r.value.rows[i], c))
  {
    if IsEmpty(t) then None
    else
      var dated := ReplaceUnparsedDates(t, parse);
      var r := NormaliseNa(dated);
      assert forall i, c :: 0 <= i < |t.rows| && c in t.columns && c in DateColumns ==>
               CellAt(r.rows[i], c) == CellAt(dated.rows[i], c) by {
        forall i, c | 0 <= i < |t.rows| && c in t.columns && c in DateColumns
          ensures CellAt(r.rows[i], c) == CellAt(dated.rows[i], c)
        {
          DatesAndNumbersAreNotMarkers(CellAt(dated.rows[i], c));
        }
      }
      Some(r)
  }
}
