/** `VisitCalculator`: the base list of field projects, and for each of them
    the plan on date and the fact on date over the reporting period. */
module VisitCalculator {
  import opened Common
  import opened Calendar
  import opened Tables
  import opened Stages

  /** The field-project columns the base list copies, in its order. */
  const BaseColumns := ["Код проекта", "Имя клиента", "Название проекта", "ЗОД", "АСС", "ЭМ", "Регион short", "Регион"]

  /** One row of the base list. */
  datatype Project = Project(code: Cell, client: Cell, name: Cell, zod: Cell, ass: Cell, em: Cell, regionShort: Cell, region: Cell)

  function ProjectOf(row: Row): Project
  {
    Project(CellAt(row, "Код проекта"), CellAt(row, "Имя клиента"), CellAt(row, "Название проекта"), CellAt(row, "ЗОД"),
            CellAt(row, "АСС"), CellAt(row, "ЭМ"), CellAt(row, "Регион short"), CellAt(row, "Регион"))
  }

  /** The key `drop_duplicates` looks at: project name, then project code. */
  function NameAndCode(p: Project): (Cell, Cell)
  {
    (p.name, p.code)
  }

  predicate HasBaseColumns(t: Table)
  {
    forall c :: c in BaseColumns ==> c in t.columns
  }

  function ProjectsOf(t: Table): (ps: seq<Project>)
    ensures |ps| == |t.rows|
    ensures forall i :: 0 <= i < |t.rows| ==> ps[i] == ProjectOf(t.rows[i])
  {
    seq(|t.rows|, i requires 0 <= i < |t.rows| => ProjectOf(t.rows[i]))
  }

  /** `extract_base_data`: nothing for an empty sheet or one lacking any of
      the eight columns (the `KeyError` is reported and an empty frame
      returned); otherwise the field projects with one row per name and
      code, the first one met. */
  function ExtractBaseData(t: Table): (r: seq<Project>)
    ensures r == [] <==> IsEmpty(t) || !HasBaseColumns(t)
    ensures IsSubsequence(r, ProjectsOf(t))
    ensures forall k, l :: 0 <= k < l < |r| ==> NameAndCode(r[k]) != NameAndCode(r[l])
    ensures r != [] ==> Keys(r, NameAndCode) == Keys(ProjectsOf(t), NameAndCode)
    ensures r != [] ==> forall i :: 0 <= i < |t.rows| && IsFirstOccurrence(ProjectsOf(t), i, NameAndCode) ==> ProjectOf(t.rows[i]) in r
  {
    if IsEmpty(t) || !HasBaseColumns(t) then []
    else
      var ps := ProjectsOf(t);
      KeepFirstProperties(ps, NameAndCode);
      var r := KeepFirst(ps, NameAndCode, {});
      assert NameAndCode(ps[0]) in Keys(ps, NameAndCode);
      r
  }

  /** A row of the visit sheet as the calculator reads it: form code,
      project name and visit date (a date in every row once the sheet is
      cleaned, the surrogate one where none could be read). */
  datatype Visit = Visit(code: Cell, name: Cell, date: Date)

  /** A row of the project sheet as the calculator reads it: project code,
      wave name, start date and finish date with extension. */
  datatype GoogleRow = GoogleRow(code: Cell, wave: Cell, start: Date, finish: Date)

  /** The reporting period and the stage coefficients. */
  datatype CalcParams = CalcParams(startDate: Date, endDate: Date, coefficients: seq<real>)

  /** Element-wise `==` of two columns: a missing value equals nothing, not even itself. */
  predicate Same(a: Cell, b: Cell)
  {
    a == b && !a.Blank?
  }

  /** The visit-sheet rows of project `p`: form code and project name match. */
  function OfProject(p: Project): Visit -> bool
  {
    (v: Visit) => Same(v.code, p.code) && Same(v.name, p.name)
  }

  /** The project's visits that carry a real visit date. */
  function FactVisit(p: Project): Visit -> bool
  {
    (v: Visit) => OfProject(p)(v) && DayNumber(v.date) != SurrogateDay
  }

  /** The project-sheet rows of project `p`: project code and wave name match. */
  predicate GoogleMatches(g: GoogleRow, p: Project)
  {
    Same(g.code, p.code) && Same(g.wave, p.name)
  }

  /** `google_df.loc[google_mask, ...].iloc[0]`: the first matching project-sheet row. */
  function GoogleFrom(google: seq<GoogleRow>, p: Project, k: nat): (r: Option<nat>)
    requires k <= |google|
    ensures r.None? <==> forall j :: k <= j < |google| ==> !GoogleMatches(google[j], p)
    ensures r.Some? ==> k <= r.value < |google| && GoogleMatches(google[r.value], p)
    ensures r.Some? ==> forall j :: k <= j < r.value ==> !GoogleMatches(google[j], p)
    decreases |google| - k
  {
    if k == |google| then None
    else if GoogleMatches(google[k], p) then Some(k)
    else GoogleFrom(google, p, k + 1)
  }

  function GoogleMatch(google: seq<GoogleRow>, p: Project): (r: Option<GoogleRow>)
    ensures r.None? <==> forall j :: 0 <= j < |google| ==> !GoogleMatches(google[j], p)
    ensures r.Some? ==> exists k :: 0 <= k < |google| && google[k] == r.value && GoogleMatches(google[k], p)
                          && forall j :: 0 <= j < k ==> !GoogleMatches(google[j], p)
  {
    match GoogleFrom(google, p, 0)
    case None => None
    case Some(k) => Some(google[k])
  }

  /** `plan_total`: the project's rows in the visit sheet, surrogate dates included. */
  function PlanTotal(p: Project, visits: seq<Visit>): nat
  {
    Count(visits, OfProject(p))
  }

  /** `Факт проекта, шт.`: the project's visits with a real visit date. */
  function FactTotal(p: Project, visits: seq<Visit>): nat
  {
    Count(visits, FactVisit(p))
  }

  /** A project of one to three days, or one ending up to three days before
      it starts: some stage has no days. */
  predicate ShortProject(g: GoogleRow)
  {
    -3 <= DayNumber(g.finish) - DayNumber(g.start) + 1 <= 3
  }

  /** `План на дату, шт.` of one project before rounding: nothing without a
      row in the project sheet, otherwise the staged plan over the
      reporting period, which raises for a missing coefficient or a project
      of one to three days. */
  function PlanOnDate(p: Project, google: seq<GoogleRow>, visits: seq<Visit>, params: CalcParams): (r: Result<real, CalcError>)
    ensures GoogleMatch(google, p).None? ==> r == Success(0.0)
    ensures r.Failure? <==> (GoogleMatch(google, p).Some? && (|params.coefficients| < 3 || ShortProject(GoogleMatch(google, p).value)))
  {
    match GoogleMatch(google, p)
    case None => Success(0.0)
    case Some(g) =>
      PlanInWindow(PlanTotal(p, visits), params.coefficients, DayNumber(g.start), DayNumber(g.finish),
                   DayNumber(params.startDate), DayNumber(params.endDate))
  }

  /** The plan with an empty stage contributing nothing. */
  function PlanOnDateGuarded(p: Project, google: seq<GoogleRow>, visits: seq<Visit>, params: CalcParams): (r: Result<real, CalcError>)
    ensures r.Failure? <==> GoogleMatch(google, p).Some? && |params.coefficients| < 3
  {
    match GoogleMatch(google, p)
    case None => Success(0.0)
    case Some(g) =>
      PlanInWindowGuarded(PlanTotal(p, visits), params.coefficients, DayNumber(g.start), DayNumber(g.finish),
                          DayNumber(params.startDate), DayNumber(params.endDate))
  }

  /** Where the source's plan succeeds the guarded plan agrees with it. */
  lemma PlanGuardedAgrees(p: Project, google: seq<GoogleRow>, visits: seq<Visit>, params: CalcParams)
    ensures PlanOnDate(p, google, visits, params).Success? ==>
              PlanOnDateGuarded(p, google, visits, params) == PlanOnDate(p, google, visits, params)
  {
    match GoogleMatch(google, p)
    case None =>
    case Some(g) =>
      GuardedPlanAgrees(PlanTotal(p, visits), params.coefficients, DayNumber(g.start), DayNumber(g.finish),
                        DayNumber(params.startDate), DayNumber(params.endDate));
  }

  /** A reporting period holding all of a project of four days or more
      gets the project's whole plan, the number of its visit-sheet rows. */
  lemma PlanOverWholeProject(p: Project, google: seq<GoogleRow>, visits: seq<Visit>, params: CalcParams)
    requires GoogleMatch(google, p).Some? && |params.coefficients| >= 3
    requires var g := GoogleMatch(google, p).value;
             DayNumber(g.finish) - DayNumber(g.start) + 1 >= 4
             && DayNumber(params.startDate) <= DayNumber(g.start) && DayNumber(g.finish) <= DayNumber(params.endDate)
    ensures PlanOnDate(p, google, visits, params) == Success(PlanTotal(p, visits) as real)
  {
    var g := GoogleMatch(google, p).value;
    WholeWindowGetsTotal(PlanTotal(p, visits), params.coefficients, DayNumber(g.start), DayNumber(g.finish),
                         DayNumber(params.startDate), DayNumber(params.endDate));
  }

  /** A reporting period that misses the project's dates gets no plan. */
  lemma PlanOutsideProject(p: Project, google: seq<GoogleRow>, visits: seq<Visit>, params: CalcParams)
    requires GoogleMatch(google, p).Some? && |params.coefficients| >= 3 && !ShortProject(GoogleMatch(google, p).value)
    requires var g := GoogleMatch(google, p).value;
             DayNumber(params.endDate) < DayNumber(g.start) || DayNumber(g.finish) < DayNumber(params.startDate)
             || DayNumber(params.endDate) < DayNumber(params.startDate)
    ensures PlanOnDate(p, google, visits, params) == Success(0.0)
  {
    var g := GoogleMatch(google, p).value;
    DisjointWindowGetsZero(PlanTotal(p, visits), params.coefficients, DayNumber(g.start), DayNumber(g.finish),
                           DayNumber(params.startDate), DayNumber(params.endDate));
  }

  /** The visits of project `p`, with a real date, inside the project's
      dates and the reporting period. */
  function FactInWindow(p: Project, g: GoogleRow, params: CalcParams): Visit -> bool
  {
    (v: Visit) => FactVisit(p)(v) && InProjectWindow(DayNumber(g.start), DayNumber(g.finish), DayNumber(params.startDate), DayNumber(params.endDate))(DayNumber(v.date))
  }

  /** `Факт на дату, шт.` of one project: counted only when the project has
      visits with a real date and a row in the project sheet. */
  function FactOnDate(p: Project, google: seq<GoogleRow>, visits: seq<Visit>, params: CalcParams): (n: nat)
    ensures GoogleMatch(google, p).None? ==> n == 0
    ensures n <= FactTotal(p, visits)
  {
    if FactTotal(p, visits) > 0 && GoogleMatch(google, p).Some? then
      var g := GoogleMatch(google, p).value;
      CountMonotone(visits, FactInWindow(p, g, params), FactVisit(p));
      Count(visits, FactInWindow(p, g, params))
    else 0
  }

  /** The `fact_total > 0` guard changes nothing: with a project-sheet row,
      the fact on date is the count of the project's dated visits inside
      its dates and the period. */
  lemma FactGuardIsRedundant(p: Project, google: seq<GoogleRow>, visits: seq<Visit>, params: CalcParams)
    requires GoogleMatch(google, p).Some?
    ensures FactOnDate(p, google, visits, params) == Count(visits, FactInWindow(p, GoogleMatch(google, p).value, params))
  {
    var g := GoogleMatch(google, p).value;
    if FactTotal(p, visits) == 0 {
      CountMonotone(visits, FactInWindow(p, g, params), FactVisit(p));
    }
  }

  /** Every visit counted as fact is a row of the project counted in its plan. */
  lemma FactWithinPlan(p: Project, visits: seq<Visit>)
    ensures FactTotal(p, visits) <= PlanTotal(p, visits)
  {
    CountMonotone(visits, FactVisit(p), OfProject(p));
  }

  /** A period holding all of the project's dates counts every dated visit
      inside those dates. */
  lemma FactOverWholeProject(p: Project, google: seq<GoogleRow>, visits: seq<Visit>, params: CalcParams)
    requires GoogleMatch(google, p).Some?
    requires var g := GoogleMatch(google, p).value;
             DayNumber(params.startDate) <= DayNumber(g.start) && DayNumber(g.finish) <= DayNumber(params.endDate)
    ensures var g := GoogleMatch(google, p).value;
            FactOnDate(p, google, visits, params) == Count(visits, (v: Visit) => FactVisit(p)(v) && DayNumber(g.start) <= DayNumber(v.date) <= DayNumber(g.finish))
  {
    var g := GoogleMatch(google, p).value;
    FactGuardIsRedundant(p, google, visits, params);
    CountCongruent(visits, FactInWindow(p, g, params), (v: Visit) => FactVisit(p)(v) && DayNumber(g.start) <= DayNumber(v.date) <= DayNumber(g.finish));
  }

  /** The visit days of some visits, in order. */
  function VisitDays(vs: seq<Visit>): (ds: seq<int>)
    ensures |ds| == |vs|
    ensures forall i :: 0 <= i < |vs| ==> ds[i] == DayNumber(vs[i].date)
  {
    seq(|vs|, i requires 0 <= i < |vs| => DayNumber(vs[i].date))
  }

  /** Counting the days of the filtered visits counts the visits that pass
      both the filter and the test on their day. */
  lemma {:induction false} CountFilteredDays(vs: seq<Visit>, p: Visit -> bool, q: int -> bool)
    ensures Count(VisitDays(Filter(vs, p)), q) == Count(vs, (v: Visit) => p(v) && q(DayNumber(v.date)))
    decreases |vs|
  {
    if |vs| > 0 {
      var init, last := vs[..|vs| - 1], vs[|vs| - 1];
      assert vs == init + [last];
      CountFilteredDays(init, p, q);
      if p(last) {
        assert VisitDays(Filter(vs, p)) == VisitDays(Filter(init, p)) + [DayNumber(last.date)];
        CountSnoc(VisitDays(Filter(init, p)), DayNumber(last.date), q);
      } else {
        assert Filter(vs, p) == Filter(init, p);
      }
    }
  }

  /** One row of the plan result: the base row and its plan on date. */
  datatype PlanRow = PlanRow(project: Project, planOnDate: real)

  /** One row of the fact result: the base row, its fact and its fact on date. */
  datatype FactRow = FactRow(project: Project, factTotal: nat, factOnDate: nat)

  /** The plan loop body for one project row. */
  method PlanForProject(p: Project, google: seq<GoogleRow>, visits: seq<Visit>, params: CalcParams) returns (r: Result<real, CalcError>)
    ensures r == PlanOnDate(p, google, visits, params)
  {
    var planTotal := CountWhere(visits, OfProject(p));
    var g := GoogleMatch(google, p);
    if g.None? {
      return Success(0.0);
    }
    r := PlanOnDateByDays(planTotal, params.coefficients, DayNumber(g.value.start), DayNumber(g.value.finish),
                          DayNumber(params.startDate), DayNumber(params.endDate));
  }

  /** `calculate_plan_on_date_full`: a plan for every base row, or the error
      of the first row whose plan raises, which aborts the whole calculation. */
  method CalculatePlanOnDate(base: seq<Project>, google: seq<GoogleRow>, visits: seq<Visit>, params: CalcParams)
    returns (r: Result<seq<PlanRow>, CalcError>)
    ensures r.Success? <==> forall i :: 0 <= i < |base| ==> PlanOnDate(base[i], google, visits, params).Success?
    ensures r.Success? ==> |r.value| == |base|
    ensures r.Success? ==> forall i :: 0 <= i < |base| ==>
              r.value[i] == PlanRow(base[i], PlanOnDate(base[i], google, visits, params).value)
    ensures r.Failure? ==> exists i :: 0 <= i < |base| && PlanOnDate(base[i], google, visits, params) == Failure(r.error)
                              && forall j :: 0 <= j < i ==> PlanOnDate(base[j], google, visits, params).Success?
  {
    var rows: seq<PlanRow> := [];
    for i := 0 to |base|
      invariant |rows| == i
      invariant forall j :: 0 <= j < i ==> PlanOnDate(base[j], google, visits, params).Success?
      invariant forall j :: 0 <= j < i ==> rows[j] == PlanRow(base[j], PlanOnDate(base[j], google, visits, params).value)
    {
      var plan := PlanForProject(base[i], google, visits, params);
      if plan.Failure? {
        return Failure(plan.error);
      }
      rows := rows + [PlanRow(base[i], plan.value)];
    }
    r := Success(rows);
  }

  /** The fact loop body for one project row. */
  method FactForProject(p: Project, google: seq<GoogleRow>, visits: seq<Visit>, params: CalcParams) returns (row: FactRow)
    ensures row.project == p
    ensures row.factTotal == FactTotal(p, visits)
    ensures row.factOnDate == FactOnDate(p, google, visits, params)
  {
    var projectVisits := Filter(visits, FactVisit(p));
    FilterCount(visits, FactVisit(p));
    var factTotal := |projectVisits|;
    var factOnDate := 0;
    if factTotal > 0 {
      var g := GoogleMatch(google, p);
      if g.Some? {
        var lo, hi := DayNumber(params.startDate), DayNumber(params.endDate);
        factOnDate := FactOnDateByStages(VisitDays(projectVisits), DayNumber(g.value.start), DayNumber(g.value.finish), lo, hi);
        CountFilteredDays(visits, FactVisit(p), InProjectWindow(DayNumber(g.value.start), DayNumber(g.value.finish), lo, hi));
        CountCongruent(visits, (v: Visit) => FactVisit(p)(v) && InProjectWindow(DayNumber(g.value.start), DayNumber(g.value.finish), lo, hi)(DayNumber(v.date)),
                       FactInWindow(p, g.value, params));
      }
    }
    row := FactRow(p, factTotal, factOnDate);
  }

  /** `calculate_fact_on_date_full`: for every base row, its fact and its fact on date. */
  method CalculateFactOnDate(base: seq<Project>, google: seq<GoogleRow>, visits: seq<Visit>, params: CalcParams)
    returns (rows: seq<FactRow>)
    ensures |rows| == |base|
    ensures forall i :: 0 <= i < |base| ==> rows[i].project == base[i]
    ensures forall i :: 0 <= i < |base| ==> rows[i].factTotal == FactTotal(base[i], visits)
    ensures forall i :: 0 <= i < |base| ==> rows[i].factOnDate == FactOnDate(base[i], google, visits, params)
    ensures forall i :: 0 <= i < |base| ==> rows[i].factOnDate <= rows[i].factTotal <= PlanTotal(base[i], visits)
  {
    rows := [];
    for i := 0 to |base|
      invariant |rows| == i
      invariant forall j :: 0 <= j < i ==> rows[j].project == base[j]
      invariant forall j :: 0 <= j < i ==> rows[j].factTotal == FactTotal(base[j], visits)
      invariant forall j :: 0 <= j < i ==> rows[j].factOnDate == FactOnDate(base[j], google, visits, params)
      invariant forall j :: 0 <= j < i ==> rows[j].factTotal <= PlanTotal(base[j], visits)
    {
      var row := FactForProject(base[i], google, visits, params);
      FactWithinPlan(base[i], visits);
      rows := rows + [row];
    }
  }
}
