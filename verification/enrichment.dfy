/** `DataCleaner.enrich_array_with_project_codes`: visits whose form code is
    empty get the code of the project whose client and wave match the visit's
    client and project name. */
module Enrichment {
  import opened Common
  import opened Strings
  import opened Tables

  /** Visit-sheet columns. */
  const FormCodeColumn := "Код анкеты"
  const ClientColumn := "Имя клиента"
  const ProjectNameColumn := "Название проекта"

  /** Project-sheet columns. */
  const ProjectClientColumn := "Проекты в  https://ru.checker-soft.com"
  const WaveColumn := "Название волны на Чекере/ином ПО"
  const ProjectCodeColumn := "Код проекта RU00.000.00.01SVZ24"

  /** A visit needs a code when its form code is missing or blank after stripping. */
  predicate NeedsCode(row: Row)
  {
    var c := CellAt(row, FormCodeColumn);
    c.Blank? || Strip(Render(c)) == ""
  }

  /** The visit side of the comparison: missing is the empty string. */
  function VisitKey(c: Cell): string
  {
    if c.Blank? then "" else Strip(Render(c))
  }

  /** The project side of the comparison: `astype(str).str.strip()`, so a
      missing value is the text "nan". */
  function ProjectKey(c: Cell): string
  {
    Strip(Render(c))
  }

  predicate Matches(project: Row, visit: Row)
  {
    && ProjectKey(CellAt(project, ProjectClientColumn)) == VisitKey(CellAt(visit, ClientColumn))
    && ProjectKey(CellAt(project, WaveColumn)) == VisitKey(CellAt(visit, ProjectNameColumn))
  }

  /** The projects a visit matches. */
  function MatchesVisit(visit: Row): Row -> bool
  {
    project => Matches(project, visit)
  }

  /** Index of the first project matching the visit (`matched_rows.iloc[0]`). */
  function FirstMatch(projects: seq<Row>, visit: Row): (r: Option<nat>)
    ensures r.None? <==> forall k :: 0 <= k < |projects| ==> !Matches(projects[k], visit)
    ensures r.Some? ==> r.value < |projects| && Matches(projects[r.value], visit)
                        && forall k :: 0 <= k < r.value ==> !Matches(projects[k], visit)
  {
    var k := FirstFrom(projects, MatchesVisit(visit), 0);
    if k < |projects| then Some(k) else None
  }

  /** What happens to one visit. `Crash` is the `KeyError` raised when a
      match is found but the project sheet has no code column. */
  datatype Outcome = NotNeeded | Filled(code: string) | CodeEmpty | NoMatch | Crash

  function OutcomeOf(projects: Table, visit: Row): (o: Outcome)
    ensures o.NotNeeded? <==> !NeedsCode(visit)
    ensures o.NoMatch? <==> NeedsCode(visit) && FirstMatch(projects.rows, visit).None?
    ensures o.Crash? <==> NeedsCode(visit) && FirstMatch(projects.rows, visit).Some? && ProjectCodeColumn !in projects.columns
    ensures NeedsCode(visit) && FirstMatch(projects.rows, visit).Some? && ProjectCodeColumn in projects.columns ==>
              var pc := CellAt(projects.rows[FirstMatch(projects.rows, visit).value], ProjectCodeColumn);
              && (o.Filled? <==> !pc.Blank? && Strip(Render(pc)) != "")
              && (o.CodeEmpty? <==> pc.Blank? || Strip(Render(pc)) == "")
              && (o.Filled? ==> o.code == Strip(Render(pc)))
    ensures o.Filled? ==> Strip(o.code) == o.code && o.code != ""
  {
    if !NeedsCode(visit) then NotNeeded
    else match FirstMatch(projects.rows, visit)
      case None => NoMatch
      case Some(k) =>
        if ProjectCodeColumn !in projects.columns then Crash
        else
          var pc := CellAt(projects.rows[k], ProjectCodeColumn);
          if !pc.Blank? && Strip(Render(pc)) != "" then
            StripIdempotent(Render(pc));
            Filled(Strip(Render(pc)))
          else CodeEmpty
  }

  /** One visit after enrichment: a found code is written as text. */
  function EnrichRow(projects: Table, visit: Row): (r: Row)
    ensures OutcomeOf(projects, visit).Filled? ==>
              CellAt(r, FormCodeColumn) == Text(OutcomeOf(projects, visit).code) && !NeedsCode(r)
    ensures forall c :: c != FormCodeColumn ==> CellAt(r, c) == CellAt(visit, c)
    ensures !OutcomeOf(projects, visit).Filled? ==> r == visit
  {
    match OutcomeOf(projects, visit)
    case Filled(code) => SetCell(visit, FormCodeColumn, Text(code))
    case _ => visit
  }

  /** Enriching an enriched visit changes nothing: a filled visit no longer
      needs a code, and any other visit was left as it was. */
  lemma EnrichRowIdempotent(projects: Table, visit: Row)
    ensures EnrichRow(projects, EnrichRow(projects, visit)) == EnrichRow(projects, visit)
  {
  }

  /** The outcome and the enrichment of each visit against one project sheet. */
  function OutcomeFn(projects: Table): Row -> Outcome { row => OutcomeOf(projects, row) }
  function EnrichFn(projects: Table): Row -> Row { row => EnrichRow(projects, row) }

  function FilledP(f: Row -> Outcome): Row -> bool { row => f(row).Filled? }
  function CodeEmptyP(f: Row -> Outcome): Row -> bool { row => f(row).CodeEmpty? }
  function NoMatchP(f: Row -> Outcome): Row -> bool { row => f(row).NoMatch? }
  function CrashP(f: Row -> Outcome): Row -> bool { row => f(row).Crash? }
  function DiscrepancyP(f: Row -> Outcome): Row -> bool { row => f(row).CodeEmpty? || f(row).NoMatch? }
  function NeedsP(): Row -> bool { row => NeedsCode(row) }

  /** The visits still without a code after a match was tried, in order. */
  function Discrepancies(projects: Table, rows: seq<Row>): seq<Row>
  {
    Filter(rows, DiscrepancyP(OutcomeFn(projects)))
  }

  /** Every visit that needs a code ends filled, as a discrepancy or in a crash. */
  lemma OutcomeCounts(projects: Table, rows: seq<Row>)
    ensures Count(rows, NeedsP()) == Count(rows, FilledP(OutcomeFn(projects))) + Count(rows, DiscrepancyP(OutcomeFn(projects))) + Count(rows, CrashP(OutcomeFn(projects)))
    ensures Count(rows, DiscrepancyP(OutcomeFn(projects))) == Count(rows, CodeEmptyP(OutcomeFn(projects))) + Count(rows, NoMatchP(OutcomeFn(projects)))
  {
    var notCrash := (row: Row) => NeedsCode(row) && !OutcomeOf(projects, row).Crash?;
    CountDisjointUnion(rows, NeedsP(), notCrash, CrashP(OutcomeFn(projects)));
    CountDisjointUnion(rows, notCrash, FilledP(OutcomeFn(projects)), DiscrepancyP(OutcomeFn(projects)));
    CountDisjointUnion(rows, DiscrepancyP(OutcomeFn(projects)), CodeEmptyP(OutcomeFn(projects)), NoMatchP(OutcomeFn(projects)));
  }

  /** Without a crashing visit, the visits needing a code are the filled ones
      plus the discrepancies. */
  lemma StatsAddUp(projects: Table, rows: seq<Row>)
    requires Count(rows, CrashP(OutcomeFn(projects))) == 0
    ensures Count(rows, NeedsP()) == Count(rows, FilledP(OutcomeFn(projects))) + |Discrepancies(projects, rows)|
  {
    OutcomeCounts(projects, rows);
    FilterCount(rows, DiscrepancyP(OutcomeFn(projects)));
  }

  datatype MatchStats = MatchStats(clientMatch: nat, waveMatch: nat, bothMatch: nat, codeEmpty: nat, noMatch: nat)

  /** The `match_stats` the pass reports: no client-only or wave-only
      matches are counted, "both" counts every visit that found a project,
      and the two discrepancy kinds are counted apart. */
  function MatchStatsOf(projects: Table, rows: seq<Row>): MatchStats
  {
    var f := OutcomeFn(projects);
    MatchStats(0, 0, Count(rows, FilledP(f)) + Count(rows, CodeEmptyP(f)), Count(rows, CodeEmptyP(f)), Count(rows, NoMatchP(f)))
  }

  /** The statistics dictionary; the short form without `match_stats` is
      returned when no visit needs a code. */
  datatype Stats = Stats(processed: nat, filled: nat, discrepancies: nat, matchStats: Option<MatchStats>)

  datatype Enriched = Enriched(visits: Table, discrepancies: seq<Row>, stats: Stats)

  function KeyError(column: string): string
  {
    "KeyError: " + column
  }

  predicate ColumnsPresent(visits: Table, projects: Table)
  {
    && ClientColumn in visits.columns && ProjectNameColumn in visits.columns
    && ProjectClientColumn in projects.columns && WaveColumn in projects.columns
  }

  /** Enrichment of the visit sheet against the project sheet. A missing
      column ends it with a `KeyError`: the form-code column always, the
      matching columns only when some visit needs a code, and the project
      code column only when such a visit finds a match. */
  method Enrich(visits: Table, projects: Table) returns (r: Result<Enriched, string>)
    ensures FormCodeColumn !in visits.columns ==> r.Failure?
    ensures FormCodeColumn in visits.columns && Count(visits.rows, NeedsP()) == 0 ==>
              r == Success(Enriched(visits, [], Stats(0, 0, 0, None)))
    ensures FormCodeColumn in visits.columns && Count(visits.rows, NeedsP()) > 0 ==>
              (r.Failure? <==> !ColumnsPresent(visits, projects) || Count(visits.rows, CrashP(OutcomeFn(projects))) > 0)
    ensures r.Success? && Count(visits.rows, NeedsP()) > 0 ==> r.value.visits.columns == visits.columns && |r.value.visits.rows| == |visits.rows|
    ensures r.Success? && Count(visits.rows, NeedsP()) > 0 ==> forall i :: 0 <= i < |visits.rows| ==> r.value.visits.rows[i] == EnrichRow(projects, visits.rows[i])
    ensures r.Success? && Count(visits.rows, NeedsP()) > 0 ==> r.value.discrepancies == Discrepancies(projects, visits.rows)
    ensures r.Success? && Count(visits.rows, NeedsP()) > 0 ==> r.value.stats.processed == Count(visits.rows, NeedsP())
    ensures r.Success? && Count(visits.rows, NeedsP()) > 0 ==> r.value.stats.filled == Count(visits.rows, FilledP(OutcomeFn(projects)))
    ensures r.Success? && Count(visits.rows, NeedsP()) > 0 ==> r.value.stats.discrepancies == |r.value.discrepancies|
    ensures r.Success? && Count(visits.rows, NeedsP()) > 0 ==> r.value.stats.processed == r.value.stats.filled + r.value.stats.discrepancies
    ensures r.Success? && Count(visits.rows, NeedsP()) > 0 ==> r.value.stats.matchStats == Some(MatchStatsOf(projects, visits.rows))
  {
    if FormCodeColumn !in visits.columns {
      return Failure(KeyError(FormCodeColumn));
    }
    var needed := CountWhere(visits.rows, NeedsP());
    if needed == 0 {
      return Success(Enriched(visits, [], Stats(0, 0, 0, None)));
    }
    if ProjectClientColumn !in projects.columns {
      return Failure(KeyError(ProjectClientColumn));
    }
    if WaveColumn !in projects.columns {
      return Failure(KeyError(WaveColumn));
    }
    if ClientColumn !in visits.columns {
      return Failure(KeyError(ClientColumn));
    }
    if ProjectNameColumn !in visits.columns {
      return Failure(KeyError(ProjectNameColumn));
    }
    r := MatchAll(visits, projects, needed);
  }

  /** The matching pass proper, once some visit needs a code and every
      matching column is present. */
  method MatchAll(visits: Table, projects: Table, needed: nat) returns (r: Result<Enriched, string>)
    requires needed == Count(visits.rows, NeedsP())
    ensures r.Failure? <==> Count(visits.rows, CrashP(OutcomeFn(projects))) > 0
    ensures r.Success? ==> r.value.visits.columns == visits.columns && |r.value.visits.rows| == |visits.rows|
    ensures r.Success? ==> forall i :: 0 <= i < |visits.rows| ==> r.value.visits.rows[i] == EnrichRow(projects, visits.rows[i])
    ensures r.Success? ==> r.value.discrepancies == Discrepancies(projects, visits.rows)
    ensures r.Success? ==> r.value.stats.processed == Count(visits.rows, NeedsP())
    ensures r.Success? ==> r.value.stats.filled == Count(visits.rows, FilledP(OutcomeFn(projects)))
    ensures r.Success? ==> r.value.stats.discrepancies == |r.value.discrepancies|
    ensures r.Success? ==> r.value.stats.processed == r.value.stats.filled + r.value.stats.discrepancies
    ensures r.Success? ==> r.value.stats.matchStats == Some(MatchStatsOf(projects, visits.rows))
  {
    var out, disc, filled, codeEmpty, noMatch, crashed := Tally(visits.rows, OutcomeFn(projects), EnrichFn(projects));
    if crashed {
      return Failure(KeyError(ProjectCodeColumn));
    }
    StatsAddUp(projects, visits.rows);
    var ms := MatchStats(0, 0, filled + codeEmpty, codeEmpty, noMatch);
    assert ms == MatchStatsOf(projects, visits.rows);
    var stats := Stats(needed, filled, |disc|, Some(ms));
    var e := Enriched(visits.(rows := out), disc, stats);
    return Success(e);
  }

  /** The matching loop over the visits, for any outcome and enrichment of
      a single visit: the enriched visits, the discrepancies and the
      counters, or `crashed` at the first crashing visit. */
  method Tally(rows: seq<Row>, outcome: Row -> Outcome, enrich: Row -> Row)
    returns (out: seq<Row>, disc: seq<Row>, filled: nat, codeEmpty: nat, noMatch: nat, crashed: bool)
    ensures crashed <==> Count(rows, CrashP(outcome)) > 0
    ensures !crashed ==>
              && |out| == |rows|
              && (forall k :: 0 <= k < |rows| ==> out[k] == enrich(rows[k]))
              && disc == Filter(rows, DiscrepancyP(outcome))
              && filled == Count(rows, FilledP(outcome))
              && codeEmpty == Count(rows, CodeEmptyP(outcome))
              && noMatch == Count(rows, NoMatchP(outcome))
  {
    out, disc, filled, codeEmpty, noMatch, crashed := [], [], 0, 0, 0, false;
    var i := 0;
    while i < |rows|
      invariant 0 <= i <= |rows|
      invariant |out| == i
      invariant forall k :: 0 <= k < i ==> out[k] == enrich(rows[k])
      invariant disc == Filter(rows[..i], DiscrepancyP(outcome))
      invariant filled == Count(rows[..i], FilledP(outcome))
      invariant codeEmpty == Count(rows[..i], CodeEmptyP(outcome))
      invariant noMatch == Count(rows[..i], NoMatchP(outcome))
      invariant Count(rows[..i], CrashP(outcome)) == 0
    {
      var row := rows[i];
      var o := outcome(row);
      if o.Crash? {
        CountPositive(rows, i, CrashP(outcome));
        crashed := true;
        return;
      }
      assert rows[..i + 1] == rows[..i] + [row];
      CountSnoc(rows[..i], row, FilledP(outcome));
      CountSnoc(rows[..i], row, CodeEmptyP(outcome));
      CountSnoc(rows[..i], row, NoMatchP(outcome));
      CountSnoc(rows[..i], row, CrashP(outcome));
      FilterSnoc(rows[..i], row, DiscrepancyP(outcome));
      if o.Filled? {
        filled := filled + 1;
      } else if o.CodeEmpty? {
        codeEmpty := codeEmpty + 1;
        disc := disc + [row];
      } else if o.NoMatch? {
        noMatch := noMatch + 1;
        disc := disc + [row];
      }
      out := out + [enrich(row)];
      i := i + 1;
    }
    assert rows[..i] == rows;
  }
}
