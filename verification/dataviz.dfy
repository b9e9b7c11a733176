/** `DataVisualizer`: the per-row percentages of the plan/fact tab, the
    KPI ratio above it and the totals row under it. A row is a map from
    column name to number; a column the frame has but the row lacks holds
    NaN, which a sum skips. */
module Dataviz {
  import opened Common

  /** The numeric cells of one row; an absent column is NaN. */
  type Values = map<string, real>

  datatype Frame = Frame(columns: seq<string>, rows: seq<Values>)

  /** Columns read by the per-row percentages, spelt without the trailing space. */
  const PlanOnDateColumn := "План на дату, шт."
  const ProjectPlanColumn := "План проекта, шт."
  const ForecastColumn := "Прогноз на месяц, шт."
  const DeltaColumn := "△План/Факт на дату, шт."

  /** The percentage columns. */
  const DeltaPercentColumn := "△План/Факт,%"
  const ForecastPercentColumn := "Прогноз месяц (свод),%"
  const AssignedPercentColumn := "Доля Поручено, %"

  /** Displayed columns, spelt with the trailing space. */
  const PlanOnDateShown := "План на дату, шт. "
  const FactOnDateShown := "Факт на дату, шт. "
  const ProjectPlanShown := "План проекта, шт. "
  const ForecastShown := "Прогноз на месяц, шт. "
  const VisitsNeededShown := "Кол-во визитов до 100% плана, шт. "
  const AssignedColumn := "Поручено"

  /** The columns the totals row sums. */
  const SumColumns := [PlanOnDateShown, FactOnDateShown, DeltaColumn, ProjectPlanShown, ForecastShown, VisitsNeededShown, AssignedColumn]

  /** The heading columns the totals row overwrites last. */
  const CodeColumn := "Код проекта"
  const ClientColumn := "Имя клиента"
  const NameColumn := "Название проекта"

  /** `num / den * 100`, or 0 for a zero denominator. */
  function Percent(num: real, den: real): (r: real)
    ensures den == 0.0 ==> r == 0.0
    ensures den != 0.0 ==> r * den == num * 100.0
  {
    if den == 0.0 then 0.0 else num / den * 100.0
  }

  /** The KPI ratio: fact over plan in percent, or 0 unless the plan is positive. */
  function KpiPercent(plan: real, fact: real): (r: real)
    ensures plan <= 0.0 ==> r == 0.0
    ensures plan > 0.0 ==> r * plan == fact * 100.0
  {
    if plan > 0.0 then fact / plan * 100.0 else 0.0
  }

  /** The KPI and the totals percentage agree except for a negative plan,
      where the KPI shows 0 and the totals row the signed ratio. */
  lemma KpiIsGuardedPercent(plan: real, fact: real)
    ensures plan >= 0.0 ==> KpiPercent(plan, fact) == Percent(fact, plan)
    ensures plan < 0.0 && fact != 0.0 ==> KpiPercent(plan, fact) != Percent(fact, plan)
  {
  }

  /** Sum of `g` over the rows, from the back. */
  function SumBy(rows: seq<Values>, g: Values -> real): real
  {
    if |rows| == 0 then 0.0 else SumBy(rows[..|rows| - 1], g) + g(rows[|rows| - 1])
  }

  /** A row's value in column `c`, NaN counting as nothing. */
  function ValueIn(c: string): Values -> real
  {
    (row: Values) => if c in row then row[c] else 0.0
  }

  /** `df[c].sum()`, which skips NaN. */
  function ColumnSum(rows: seq<Values>, c: string): real
  {
    SumBy(rows, ValueIn(c))
  }

  /** A constant factor comes out of a sum: when `h` is `k` times `g` on
      every row, the sum of `h` is `k` times the sum of `g`. */
  lemma {:induction false} SumByScales(rows: seq<Values>, g: Values -> real, h: Values -> real, k: real)
    requires forall i :: 0 <= i < |rows| ==> h(rows[i]) == k * g(rows[i])
    ensures SumBy(rows, h) == k * SumBy(rows, g)
    decreases |rows|
  {
    if |rows| > 0 {
      var init := rows[..|rows| - 1];
      assert forall i :: 0 <= i < |init| ==> init[i] == rows[i];
      SumByScales(init, g, h, k);
      assert k * (SumBy(init, g) + g(rows[|rows| - 1])) == k * SumBy(init, g) + k * g(rows[|rows| - 1]);
    }
  }

  /** One row's percentage `num / den * 100` as the lambda computes it: a
      `KeyError` naming the first missing column it reads, 0 for a zero
      denominator (the numerator is then not read), NaN (`None`) when a value
      it divides is NaN. */
  function RowPercent(columns: seq<string>, row: Values, num: string, den: string): (r: Result<Option<real>, string>)
    ensures den !in columns ==> r == Failure(den)
    ensures den in columns && den in row && row[den] == 0.0 ==> r == Success(Some(0.0))
    ensures den in columns && num in columns && den in row && num in row && row[den] != 0.0 ==>
              r == Success(Some(Percent(row[num], row[den])))
    ensures r.Success? && r.value.Some? && r.value.value != 0.0 ==>
              den in row && num in row && r.value.value * row[den] == row[num] * 100.0
    ensures r.Failure? <==> den !in columns || (!(den in row && row[den] == 0.0) && num !in columns)
    ensures r.Success? && r.value.None? <==> den in columns && num in columns && (den !in row || (row[den] != 0.0 && num !in row))
  {
    if den !in columns then Failure(den)
    else if den in row && row[den] == 0.0 then Success(Some(0.0))
    else if num !in columns then Failure(num)
    else if den !in row || num !in row then Success(None)
    else Success(Some(Percent(row[num], row[den])))
  }

  /** The value a row holds in column `c`, `None` for NaN. */
  function Stored(row: Values, c: string): Option<real>
  {
    if c in row then Some(row[c]) else None
  }

  /** A row with the percentage `value` stored in column `c` (NaN leaves it out). */
  function WithValue(row: Values, c: string, value: Option<real>): (r: Values)
    ensures value.Some? ==> c in r && r[c] == value.value
    ensures value.None? ==> c !in r
    ensures forall c' :: c' != c ==> (c' in r <==> c' in row) && (c' in row ==> r[c'] == row[c'])
  {
    match value
    case Some(x) => row[c := x]
    case None => row - {c}
  }

  /** `df[c] = df.apply(lambda x: ..., axis=1)`: the percentage in every row,
      or the `KeyError` of the first row that raises. */
  method AddPercentColumn(f: Frame, c: string, num: string, den: string) returns (r: Result<Frame, string>)
    ensures r.Failure? <==> exists i :: 0 <= i < |f.rows| && RowPercent(f.columns, f.rows[i], num, den).Failure?
    ensures r.Failure? ==> exists i :: 0 <= i < |f.rows| && RowPercent(f.columns, f.rows[i], num, den) == Failure(r.error)
    ensures r.Success? ==> r.value.columns == if c in f.columns then f.columns else f.columns + [c]
    ensures r.Success? ==> |r.value.rows| == |f.rows|
    ensures r.Success? ==> forall i :: 0 <= i < |f.rows| ==>
              r.value.rows[i] == WithValue(f.rows[i], c, RowPercent(f.columns, f.rows[i], num, den).value)
  {
    var rows: seq<Values> := [];
    for i := 0 to |f.rows|
      invariant |rows| == i
      invariant forall j :: 0 <= j < i ==> RowPercent(f.columns, f.rows[j], num, den).Success?
      invariant forall j :: 0 <= j < i ==> rows[j] == WithValue(f.rows[j], c, RowPercent(f.columns, f.rows[j], num, den).value)
    {
      var p := RowPercent(f.columns, f.rows[i], num, den);
      if p.Failure? {
        return Failure(p.error);
      }
      rows := rows + [WithValue(f.rows[i], c, p.value)];
    }
    r := Success(Frame(if c in f.columns then f.columns else f.columns + [c], rows));
  }

  /** Step 1 of `create_planfact_tab`: the plan/fact percentage of each row,
      then the forecast percentage of each row. It succeeds exactly when both
      lambdas succeed on every row, and each row then holds the two values
      the lambdas give for it. */
  method AddRowPercents(f: Frame) returns (r: Result<Frame, string>)
    ensures r.Success? <==> forall i :: 0 <= i < |f.rows| ==>
              && RowPercent(f.columns, f.rows[i], DeltaColumn, PlanOnDateColumn).Success?
              && RowPercent(f.columns, f.rows[i], ForecastColumn, ProjectPlanColumn).Success?
    ensures r.Success? ==> |r.value.rows| == |f.rows|
    ensures r.Success? ==> DeltaPercentColumn in r.value.columns && ForecastPercentColumn in r.value.columns
    ensures r.Success? ==> forall i :: 0 <= i < |f.rows| ==>
              && Stored(r.value.rows[i], DeltaPercentColumn) == RowPercent(f.columns, f.rows[i], DeltaColumn, PlanOnDateColumn).value
              && Stored(r.value.rows[i], ForecastPercentColumn) == RowPercent(f.columns, f.rows[i], ForecastColumn, ProjectPlanColumn).value
    ensures r.Success? ==> forall i :: 0 <= i < |f.rows| && PlanOnDateColumn in f.rows[i] && f.rows[i][PlanOnDateColumn] == 0.0 ==>
              DeltaPercentColumn in r.value.rows[i] && r.value.rows[i][DeltaPercentColumn] == 0.0
    ensures r.Success? ==> forall i :: 0 <= i < |f.rows| && ProjectPlanColumn in f.rows[i] && f.rows[i][ProjectPlanColumn] == 0.0 ==>
              ForecastPercentColumn in r.value.rows[i] && r.value.rows[i][ForecastPercentColumn] == 0.0
    ensures r.Success? ==> forall i :: 0 <= i < |f.rows| && DeltaPercentColumn in r.value.rows[i] && r.value.rows[i][DeltaPercentColumn] != 0.0 ==>
              PlanOnDateColumn in f.rows[i] && DeltaColumn in f.rows[i]
              && r.value.rows[i][DeltaPercentColumn] * f.rows[i][PlanOnDateColumn] == f.rows[i][DeltaColumn] * 100.0
    ensures r.Success? ==> forall i :: 0 <= i < |f.rows| && ForecastPercentColumn in r.value.rows[i] && r.value.rows[i][ForecastPercentColumn] != 0.0 ==>
              ProjectPlanColumn in f.rows[i] && ForecastColumn in f.rows[i]
              && r.value.rows[i][ForecastPercentColumn] * f.rows[i][ProjectPlanColumn] == f.rows[i][ForecastColumn] * 100.0
    ensures PlanOnDateColumn !in f.columns && |f.rows| > 0 ==> r == Failure(PlanOnDateColumn)
  {
    var withDelta := AddPercentColumn(f, DeltaPercentColumn, DeltaColumn, PlanOnDateColumn);
    if PlanOnDateColumn !in f.columns && |f.rows| > 0 {
      assert RowPercent(f.columns, f.rows[0], DeltaColumn, PlanOnDateColumn).Failure?;
    }
    if withDelta.Failure? {
      return withDelta;
    }
    var g := withDelta.value;
    forall i | 0 <= i < |f.rows|
      ensures RowPercent(g.columns, g.rows[i], ForecastColumn, ProjectPlanColumn) == RowPercent(f.columns, f.rows[i], ForecastColumn, ProjectPlanColumn)
    {
      assert Stored(g.rows[i], ProjectPlanColumn) == Stored(f.rows[i], ProjectPlanColumn);
      assert Stored(g.rows[i], ForecastColumn) == Stored(f.rows[i], ForecastColumn);
    }
    r := AddPercentColumn(g, ForecastPercentColumn, ForecastColumn, ProjectPlanColumn);
    if r.Success? {
      forall i | 0 <= i < |f.rows|
        ensures Stored(r.value.rows[i], DeltaPercentColumn) == Stored(g.rows[i], DeltaPercentColumn)
      {
      }
    }
  }

  /** A cell of the totals row. */
  datatype TotalCell = Label(text: string) | Amount(amount: real)

  /** The summed-ratio percentage of the totals row: the denominator column
      is read first, then the numerator; a missing one raises `KeyError`. */
  function RatioTotal(f: Frame, num: string, den: string): (r: Result<TotalCell, string>)
    ensures r.Failure? <==> den !in f.columns || num !in f.columns
    ensures r.Failure? ==> r.error == if den !in f.columns then den else num
    ensures r.Success? ==> r.value.Amount?
    ensures r.Success? && ColumnSum(f.rows, den) == 0.0 ==> r.value.amount == 0.0
    ensures r.Success? && ColumnSum(f.rows, den) != 0.0 ==>
              r.value.amount * ColumnSum(f.rows, den) == ColumnSum(f.rows, num) * 100.0
  {
    if den !in f.columns then Failure(den)
    else if num !in f.columns then Failure(num)
    else Success(Amount(Percent(ColumnSum(f.rows, num), ColumnSum(f.rows, den))))
  }

  /** The totals-row cell of column `c`, before the heading cells are set. */
  function TotalFor(f: Frame, c: string): (r: Result<TotalCell, string>)
    ensures c in SumColumns ==> r == Success(Amount(ColumnSum(f.rows, c)))
    ensures c == DeltaPercentColumn ==> r == RatioTotal(f, DeltaColumn, PlanOnDateShown)
    ensures c == ForecastPercentColumn ==> r == RatioTotal(f, ForecastShown, ProjectPlanShown)
    ensures c == AssignedPercentColumn ==> r == RatioTotal(f, AssignedColumn, VisitsNeededShown)
    ensures c !in SumColumns && c !in [DeltaPercentColumn, ForecastPercentColumn, AssignedPercentColumn] ==> r == Success(Label(""))
  {
    if c in SumColumns then Success(Amount(ColumnSum(f.rows, c)))
    else if c == DeltaPercentColumn then RatioTotal(f, DeltaColumn, PlanOnDateShown)
    else if c == ForecastPercentColumn then RatioTotal(f, ForecastShown, ProjectPlanShown)
    else if c == AssignedPercentColumn then RatioTotal(f, AssignedColumn, VisitsNeededShown)
    else Success(Label(""))
  }

  /** `_calculate_totals`: one cell per column of the frame, in column order,
      then the heading cells `Итого`, `''`, `''`; or the `KeyError` of the
      first column whose percentage reads a missing column. */
  method CalculateTotals(f: Frame) returns (r: Result<map<string, TotalCell>, string>)
    ensures r.Failure? <==> exists i :: 0 <= i < |f.columns| && TotalFor(f, f.columns[i]).Failure?
    ensures r.Failure? ==> exists i :: 0 <= i < |f.columns| && TotalFor(f, f.columns[i]) == Failure(r.error)
                             && forall j :: 0 <= j < i ==> TotalFor(f, f.columns[j]).Success?
    ensures r.Success? ==> forall c :: c in r.value <==> c in f.columns || c in [CodeColumn, ClientColumn, NameColumn]
    ensures r.Success? ==> r.value[CodeColumn] == Label("Итого") && r.value[ClientColumn] == Label("") && r.value[NameColumn] == Label("")
    ensures r.Success? ==> forall c :: c in f.columns && c !in [CodeColumn, ClientColumn, NameColumn] ==> r.value[c] == TotalFor(f, c).value
  {
    var total: map<string, TotalCell> := map[];
    for i := 0 to |f.columns|
      invariant forall j :: 0 <= j < i ==> TotalFor(f, f.columns[j]).Success?
      invariant forall c :: c in total <==> c in f.columns[..i]
      invariant forall c :: c in total ==> total[c] == TotalFor(f, c).value
    {
      var c := f.columns[i];
      var cell := TotalFor(f, c);
      if cell.Failure? {
        return Failure(cell.error);
      }
      assert f.columns[..i + 1] == f.columns[..i] + [c];
      total := total[c := cell.value];
    }
    assert f.columns[..|f.columns|] == f.columns;
    r := Success(WithHeadings(total));
  }

  /** The totals row with its three heading cells set: `Итого` as the code
      and '' for client and project name; every other cell is kept. */
  function WithHeadings(total: map<string, TotalCell>): (r: map<string, TotalCell>)
    ensures forall c :: c in r <==> c in total || c == CodeColumn || c == ClientColumn || c == NameColumn
    ensures r[CodeColumn] == Label("Итого") && r[ClientColumn] == Label("") && r[NameColumn] == Label("")
    ensures forall c :: c in total && c != CodeColumn && c != ClientColumn && c != NameColumn ==> r[c] == total[c]
  {
    total[CodeColumn := Label("Итого")][ClientColumn := Label("")][NameColumn := Label("")]
  }

  /** The KPI over the displayed rows: a missing plan or fact column counts 0. */
  function PlanFactKpi(f: Frame): (r: real)
    ensures PlanOnDateShown !in f.columns || FactOnDateShown !in f.columns ==> r == 0.0
    ensures PlanOnDateShown in f.columns && FactOnDateShown in f.columns ==>
              r == KpiPercent(ColumnSum(f.rows, PlanOnDateShown), ColumnSum(f.rows, FactOnDateShown))
  {
    var plan := if PlanOnDateShown in f.columns then ColumnSum(f.rows, PlanOnDateShown) else 0.0;
    var fact := if FactOnDateShown in f.columns then ColumnSum(f.rows, FactOnDateShown) else 0.0;
    KpiPercent(plan, fact)
  }

  /** Plan over the row, times the row's percentage: the row's own delta
      scaled by 100 once the plan is not zero. */
  function WeightedPercent(num: string, den: string): Values -> real
  {
    (row: Values) => ValueIn(den)(row) * Percent(ValueIn(num)(row), ValueIn(den)(row))
  }

  /** The totals percentage is the mean of the row percentages weighted by
      each row's denominator, not their plain mean: whenever no row has a
      zero denominator, the summed ratio times the summed denominator is the
      denominator-weighted sum of the row percentages. */
  lemma TotalIsWeightedMean(rows: seq<Values>, num: string, den: string)
    requires forall i :: 0 <= i < |rows| ==> ValueIn(den)(rows[i]) != 0.0
    requires ColumnSum(rows, den) != 0.0
    ensures Percent(ColumnSum(rows, num), ColumnSum(rows, den)) * ColumnSum(rows, den) == SumBy(rows, WeightedPercent(num, den))
  {
    forall i | 0 <= i < |rows| ensures WeightedPercent(num, den)(rows[i]) == 100.0 * ValueIn(num)(rows[i]) {
      WeightedRow(rows[i], num, den);
    }
    SumByScales(rows, ValueIn(num), WeightedPercent(num, den), 100.0);
  }

  /** On a row with a nonzero denominator the weighted percentage is a hundred times the numerator. */
  lemma WeightedRow(row: Values, num: string, den: string)
    requires ValueIn(den)(row) != 0.0
    ensures WeightedPercent(num, den)(row) == 100.0 * ValueIn(num)(row)
  {
    var n, d := ValueIn(num)(row), ValueIn(den)(row);
    assert Percent(n, d) * d == n * 100.0;
  }

  /** A concrete pair of rows where the two means differ: percentages 100
      and 0 over plans 1 and 3 give 25 for the totals, not 50. */
  lemma TotalIsNotPlainMean()
    ensures var rows: seq<Values> := [map[DeltaColumn := 1.0, PlanOnDateShown := 1.0], map[DeltaColumn := 0.0, PlanOnDateShown := 3.0]];
            Percent(ColumnSum(rows, DeltaColumn), ColumnSum(rows, PlanOnDateShown)) == 25.0
            && (Percent(1.0, 1.0) + Percent(0.0, 3.0)) / 2.0 == 50.0
  {
    var rows: seq<Values> := [map[DeltaColumn := 1.0, PlanOnDateShown := 1.0], map[DeltaColumn := 0.0, PlanOnDateShown := 3.0]];
    assert rows[..1][..0] == [];
    assert rows[..1] == [rows[0]];
    assert SumBy(rows[..1][..0], ValueIn(DeltaColumn)) == 0.0;
    assert SumBy(rows[..1][..0], ValueIn(PlanOnDateShown)) == 0.0;
    assert ValueIn(DeltaColumn)(rows[0]) == 1.0 && ValueIn(DeltaColumn)(rows[1]) == 0.0;
    assert ValueIn(PlanOnDateShown)(rows[0]) == 1.0 && ValueIn(PlanOnDateShown)(rows[1]) == 3.0;
    assert ColumnSum(rows[..1], DeltaColumn) == 1.0;
    assert ColumnSum(rows[..1], PlanOnDateShown) == 1.0;
    assert ColumnSum(rows, DeltaColumn) == 1.0;
    assert ColumnSum(rows, PlanOnDateShown) == 4.0;
  }
}
