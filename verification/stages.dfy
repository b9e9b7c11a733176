/** The four-stage schedule behind the plan and fact figures of
    `VisitCalculator`: a project's days are cut into four consecutive stages,
    the plan is spread over them by coefficients, and visits are counted
    stage by stage. Days are day numbers; the reporting window is `[lo, hi]`. */
module Stages {
  import opened Common

  /** A stage: its first day and its number of days. The number of days is
      what the floor division gives and can be zero or negative for a project
      shorter than four days or one that ends before it starts. */
  datatype Stage = Stage(first: int, days: int)
  {
    /** `stage_end`, the last day of the stage. */
    function Last(): int { first + days - 1 }

    predicate Contains(d: int) { first <= d <= first + days - 1 }
  }

  /** Days in stage `i` of a project of `duration` days: the quotient by four,
      plus one for each of the first `duration % 4` stages (Python's `//` and
      `%`, which agree with Dafny's for the divisor 4). */
  function StageLength(duration: int, i: int): int
  {
    duration / 4 + (if i < duration % 4 then 1 else 0)
  }

  /** The four stage lengths add up to the duration, whatever its sign. */
  lemma StageLengthsSum(duration: int)
    ensures StageLength(duration, 0) + StageLength(duration, 1) + StageLength(duration, 2) + StageLength(duration, 3) == duration
  {
    var m := duration % 4;
    assert m == 0 || m == 1 || m == 2 || m == 3;
  }

  /** Stages are front-loaded: an earlier stage is never shorter than a later
      one, and is longer by exactly one day precisely when the remainder
      reaches it but not the later one. */
  lemma StageLengthsBalanced(duration: int, i: int, j: int)
    requires 0 <= i < j < 4
    ensures StageLength(duration, j) <= StageLength(duration, i) <= StageLength(duration, j) + 1
    ensures StageLength(duration, i) != StageLength(duration, j) <==> i < duration % 4 <= j
  {
  }

  /** Some stage is empty exactly for durations from -3 to 3. */
  lemma EmptyStageIff(duration: int)
    ensures (exists i :: 0 <= i < 4 && StageLength(duration, i) == 0) <==> -3 <= duration <= 3
  {
    if -3 <= duration <= 3 {
      if duration >= 0 {
        assert StageLength(duration, 3) == 0;
      } else {
        assert StageLength(duration, 0) == 0;
      }
    }
  }

  /** The sign of every stage length follows the sign of the duration. */
  lemma StageLengthSign(duration: int, i: int)
    requires 0 <= i < 4
    ensures duration >= 0 ==> StageLength(duration, i) >= 0
    ensures duration <= 0 ==> StageLength(duration, i) <= 0
    ensures duration >= 4 ==> StageLength(duration, i) >= 1
  {
  }

  /** First day of stage `i`: `day_pointer` after `i` stages, each moving it
      to the day after the previous stage's end. */
  function StageStart(start: int, duration: int, i: nat): int
    decreases i
  {
    if i == 0 then start else StageStart(start, duration, i - 1) + StageLength(duration, i - 1)
  }

  /** The four stages of a project running from `start` to `finish` (both inclusive). */
  function Schedule(start: int, finish: int): (s: seq<Stage>)
    ensures |s| == 4
    ensures s[0].first == start
    ensures s[1].first == s[0].first + s[0].days
    ensures s[2].first == s[1].first + s[1].days
    ensures s[3].first == s[2].first + s[2].days
    ensures s[3].first + s[3].days == finish + 1
    ensures forall i :: 0 <= i < 4 ==> s[i].days == StageLength(finish - start + 1, i)
  {
    var d := finish - start + 1;
    StageLengthsSum(d);
    seq(4, i requires 0 <= i < 4 => Stage(StageStart(start, d, i), StageLength(d, i)))
  }

  /** For a project that does not end before it starts, the stages tile its
      days: each lies inside `[start, finish]`, and every project day is in
      exactly one stage. */
  lemma ScheduleTilesProject(start: int, finish: int, d: int)
    requires start <= finish + 1
    ensures forall i :: 0 <= i < 4 ==> start <= Schedule(start, finish)[i].first && Schedule(start, finish)[i].Last() <= finish
    ensures start <= d <= finish <==> exists i :: 0 <= i < 4 && Schedule(start, finish)[i].Contains(d)
    ensures forall i, j :: 0 <= i < j < 4 && Schedule(start, finish)[i].Contains(d) ==> !Schedule(start, finish)[j].Contains(d)
  {
    var s := Schedule(start, finish);
    var dur := finish - start + 1;
    StageLengthSign(dur, 0);
    StageLengthSign(dur, 1);
    StageLengthSign(dur, 2);
    StageLengthSign(dur, 3);
    if start <= d <= finish {
      if d < s[1].first {
        assert s[0].Contains(d);
      } else if d < s[2].first {
        assert s[1].Contains(d);
      } else if d < s[3].first {
        assert s[2].Contains(d);
      } else {
        assert s[3].Contains(d);
      }
    }
  }

  /** Why a plan computation stops. `MissingCoefficient(i)` is the
      `IndexError` of `coeffs[i]`; `EmptyStage(i)` is the `ZeroDivisionError`
      of dividing stage `i`'s plan by its zero days. */
  datatype CalcError = MissingCoefficient(stage: nat) | EmptyStage(stage: nat)

  /** The error stage `i` raises, in the order the loop meets them: the
      coefficient is read before the division. */
  function StageError(coeffs: seq<real>, s: seq<Stage>, i: nat): Option<CalcError>
    requires |s| == 4 && i < 4
  {
    if i < 3 && i >= |coeffs| then Some(MissingCoefficient(i))
    else if s[i].days == 0 then Some(EmptyStage(i))
    else None
  }

  /** The first error from stage `i` on. */
  function FirstStageError(coeffs: seq<real>, s: seq<Stage>, i: nat): (r: Option<CalcError>)
    requires |s| == 4 && i <= 4
    ensures r.None? <==> forall j :: i <= j < 4 ==> StageError(coeffs, s, j).None?
    ensures r.Some? ==> exists j :: i <= j < 4 && StageError(coeffs, s, j) == r
    decreases 4 - i
  {
    if i == 4 then None
    else if StageError(coeffs, s, i).Some? then StageError(coeffs, s, i)
    else FirstStageError(coeffs, s, i + 1)
  }

  /** The plan of stage `i`: the stage's share by its coefficient for the
      first three stages, and what is left of the total for the last. The
      coefficients are not normalised, so the last plan may be negative. */
  function StagePlan(total: int, coeffs: seq<real>, i: nat): real
    requires i < 4 && (i < 3 ==> i < |coeffs|) && (i == 3 ==> |coeffs| >= 3)
  {
    if i < 3 then total as real * coeffs[i]
    else total as real - (total as real * coeffs[0] + total as real * coeffs[1] + total as real * coeffs[2])
  }

  /** The four stage plans add up to the project plan. */
  lemma StagePlansSum(total: int, coeffs: seq<real>)
    requires |coeffs| >= 3
    ensures StagePlan(total, coeffs, 0) + StagePlan(total, coeffs, 1) + StagePlan(total, coeffs, 2) + StagePlan(total, coeffs, 3) == total as real
  {
  }

  /** Coefficients adding up to more than one leave the last stage a negative plan. */
  lemma OverfullCoefficientsMakeLastPlanNegative(total: int, coeffs: seq<real>)
    requires |coeffs| >= 3 && total > 0 && coeffs[0] + coeffs[1] + coeffs[2] > 1.0
    ensures StagePlan(total, coeffs, 3) < 0.0
  {
    var t := total as real;
    var sum := coeffs[0] + coeffs[1] + coeffs[2];
    assert t * coeffs[0] + t * coeffs[1] + t * coeffs[2] == t * sum;
    PositiveProduct(t, sum - 1.0);
    assert t * sum - t == t * (sum - 1.0);
    assert StagePlan(total, coeffs, 3) == t - t * sum;
  }

  lemma PositiveProduct(a: real, b: real)
    requires a > 0.0 && b > 0.0
    ensures a * b > 0.0
  {
  }

  /** Days of the stage inside the window `[lo, hi]`. */
  function Overlap(st: Stage, lo: int, hi: int): (n: nat)
    ensures n <= (if st.days > 0 then st.days else 0)
    ensures n > 0 ==> st.days > 0 && lo <= hi
  {
    var a := if st.first < lo then lo else st.first;
    var b := if st.Last() > hi then hi else st.Last();
    if a <= b then b - a + 1 else 0
  }

  /** The day loop of the source: of the days `first + k` for `k` in
      `range(n)`, those inside the window. */
  function DaysInWindow(first: int, n: int, lo: int, hi: int): nat
    decreases n
  {
    if n <= 0 then 0 else DaysInWindow(first, n - 1, lo, hi) + (if lo <= first + n - 1 <= hi then 1 else 0)
  }

  /** The closed form counts exactly the days the loop visits. */
  lemma {:induction false} OverlapCountsDays(st: Stage, lo: int, hi: int)
    ensures Overlap(st, lo, hi) == DaysInWindow(st.first, st.days, lo, hi)
    decreases st.days
  {
    if st.days > 0 {
      OverlapCountsDays(Stage(st.first, st.days - 1), lo, hi);
    }
  }

  /** Splitting the window splits the overlap. */
  lemma OverlapSplits(st: Stage, lo: int, m: int, hi: int)
    requires lo <= m + 1 <= hi + 1
    ensures Overlap(st, lo, hi) == Overlap(st, lo, m) + Overlap(st, m + 1, hi)
  {
  }

  /** What stage `i` adds to the plan on date: its daily plan times its days in the window. */
  function Contribution(total: int, coeffs: seq<real>, s: seq<Stage>, i: nat, lo: int, hi: int): real
    requires |s| == 4 && i < 4 && (i < 3 ==> i < |coeffs|) && (i == 3 ==> |coeffs| >= 3) && s[i].days != 0
  {
    StagePlan(total, coeffs, i) / s[i].days as real * Overlap(s[i], lo, hi) as real
  }

  /** The plan accumulated over the first `n` stages, none of which raises. */
  function PartialPlan(total: int, coeffs: seq<real>, s: seq<Stage>, n: nat, lo: int, hi: int): real
    requires |s| == 4 && n <= 4
    requires forall j :: 0 <= j < n ==> StageError(coeffs, s, j).None?
    decreases n
  {
    if n == 0 then 0.0
    else
      assert StageError(coeffs, s, n - 1).None?;
      assert n - 1 == 3 ==> StageError(coeffs, s, 2).None?;
      PartialPlan(total, coeffs, s, n - 1, lo, hi) + Contribution(total, coeffs, s, n - 1, lo, hi)
  }

  /** The plan on date for one project row, `План на дату` before rounding: the
      sum over the four stages of the daily plan times the stage's days in the
      window, or the first error a stage raises. */
  function PlanInWindow(total: int, coeffs: seq<real>, start: int, finish: int, lo: int, hi: int): (r: Result<real, CalcError>)
    ensures r.Failure? <==> |coeffs| < 3 || -3 <= finish - start + 1 <= 3
  {
    var s := Schedule(start, finish);
    EmptyStageIff(finish - start + 1);
    match FirstStageError(coeffs, s, 0)
    case Some(e) =>
      Failure(e)
    case None =>
      assert StageError(coeffs, s, 2).None? && StageError(coeffs, s, 3).None?;
      Success(PartialPlan(total, coeffs, s, 4, lo, hi))
  }

  /** A window holding the whole project gets the whole project plan. */
  lemma WholeWindowGetsTotal(total: int, coeffs: seq<real>, start: int, finish: int, lo: int, hi: int)
    requires |coeffs| >= 3 && finish - start + 1 >= 4
    requires lo <= start && finish <= hi
    ensures PlanInWindow(total, coeffs, start, finish, lo, hi) == Success(total as real)
  {
    var s := Schedule(start, finish);
    WindowCoversStages(start, finish, lo, hi);
    forall i | 0 <= i < 4 ensures Contribution(total, coeffs, s, i, lo, hi) == StagePlan(total, coeffs, i) {
      WholeStageContribution(total, coeffs, s, i, lo, hi);
    }
    StagePlansSum(total, coeffs);
  }

  /** Every stage of a project of four days or more lies wholly inside a
      window that holds the project. */
  lemma WindowCoversStages(start: int, finish: int, lo: int, hi: int)
    requires finish - start + 1 >= 4
    requires lo <= start && finish <= hi
    ensures forall i :: 0 <= i < 4 ==> Schedule(start, finish)[i].days >= 1
    ensures forall i :: 0 <= i < 4 ==> Overlap(Schedule(start, finish)[i], lo, hi) == Schedule(start, finish)[i].days
  {
    var s := Schedule(start, finish);
    ScheduleTilesProject(start, finish, start);
    forall i | 0 <= i < 4 ensures Overlap(s[i], lo, hi) == s[i].days && s[i].days >= 1 {
      StageLengthSign(finish - start + 1, i);
    }
  }

  /** A stage wholly inside the window contributes its whole stage plan. */
  lemma WholeStageContribution(total: int, coeffs: seq<real>, s: seq<Stage>, i: nat, lo: int, hi: int)
    requires |s| == 4 && i < 4 && (i < 3 ==> i < |coeffs|) && (i == 3 ==> |coeffs| >= 3)
    requires s[i].days >= 1 && Overlap(s[i], lo, hi) == s[i].days
    ensures Contribution(total, coeffs, s, i, lo, hi) == StagePlan(total, coeffs, i)
  {
    var p := StagePlan(total, coeffs, i);
    var n := s[i].days as real;
    assert p / n * n == p;
  }

  /** A window that misses the project, or is empty, gets nothing. */
  lemma DisjointWindowGetsZero(total: int, coeffs: seq<real>, start: int, finish: int, lo: int, hi: int)
    requires |coeffs| >= 3 && !(-3 <= finish - start + 1 <= 3)
    requires hi < start || finish < lo || hi < lo
    ensures PlanInWindow(total, coeffs, start, finish, lo, hi) == Success(0.0)
  {
    var s := Schedule(start, finish);
    var d := finish - start + 1;
    EmptyStageIff(d);
    forall i | 0 <= i < 4 ensures Overlap(s[i], lo, hi) == 0 && s[i].days != 0 {
      StageLengthSign(d, i);
      if d >= 0 {
        ScheduleTilesProject(start, finish, start);
      }
    }
    assert forall j :: 0 <= j < 4 ==> StageError(coeffs, s, j).None?;
    forall i | 0 <= i < 4 ensures Contribution(total, coeffs, s, i, lo, hi) == 0.0 {
    }
    assert PartialPlan(total, coeffs, s, 1, lo, hi) == 0.0;
    assert PartialPlan(total, coeffs, s, 2, lo, hi) == 0.0;
    assert PartialPlan(total, coeffs, s, 3, lo, hi) == 0.0;
  }

  /** A stage's contribution splits like its overlap does. */
  lemma ContributionSplits(total: int, coeffs: seq<real>, s: seq<Stage>, i: nat, lo: int, m: int, hi: int)
    requires |s| == 4 && i < 4 && (i < 3 ==> i < |coeffs|) && (i == 3 ==> |coeffs| >= 3) && s[i].days != 0
    requires lo <= m + 1 <= hi + 1
    ensures Contribution(total, coeffs, s, i, lo, hi) == Contribution(total, coeffs, s, i, lo, m) + Contribution(total, coeffs, s, i, m + 1, hi)
  {
    OverlapSplits(s[i], lo, m, hi);
    var rate := StagePlan(total, coeffs, i) / s[i].days as real;
    var a, b := Overlap(s[i], lo, m) as real, Overlap(s[i], m + 1, hi) as real;
    assert Overlap(s[i], lo, hi) as real == a + b;
    assert rate * (a + b) == rate * a + rate * b;
  }

  /** Sums of contributions split like the overlaps do. */
  lemma {:induction false} PartialPlanSplits(total: int, coeffs: seq<real>, s: seq<Stage>, n: nat, lo: int, m: int, hi: int)
    requires |s| == 4 && n <= 4 && lo <= m + 1 <= hi + 1
    requires forall j :: 0 <= j < n ==> StageError(coeffs, s, j).None?
    ensures PartialPlan(total, coeffs, s, n, lo, hi) == PartialPlan(total, coeffs, s, n, lo, m) + PartialPlan(total, coeffs, s, n, m + 1, hi)
    decreases n
  {
    if n > 0 {
      var i := n - 1;
      assert StageError(coeffs, s, i).None?;
      assert i == 3 ==> StageError(coeffs, s, 2).None?;
      PartialPlanSplits(total, coeffs, s, i, lo, m, hi);
      ContributionSplits(total, coeffs, s, i, lo, m, hi);
    }
  }

  /** The plan over a period is the plan over its first part plus the plan
      over the rest. */
  lemma PlanSplitsOverWindows(total: int, coeffs: seq<real>, start: int, finish: int, lo: int, m: int, hi: int)
    requires lo <= m + 1 <= hi + 1
    requires PlanInWindow(total, coeffs, start, finish, lo, hi).Success?
    ensures PlanInWindow(total, coeffs, start, finish, lo, m).Success?
    ensures PlanInWindow(total, coeffs, start, finish, m + 1, hi).Success?
    ensures PlanInWindow(total, coeffs, start, finish, lo, hi).value
            == PlanInWindow(total, coeffs, start, finish, lo, m).value + PlanInWindow(total, coeffs, start, finish, m + 1, hi).value
  {
    var s := Schedule(start, finish);
    PartialPlanSplits(total, coeffs, s, 4, lo, m, hi);
  }

  /** `calculate_plan_on_date_full`'s stage loop for one project row, as the
      source runs it: stage by stage, and within a stage day by day, adding
      the daily plan for each day in the window. */
  method PlanOnDateByDays(total: int, coeffs: seq<real>, start: int, finish: int, lo: int, hi: int)
    returns (r: Result<real, CalcError>)
    ensures r == PlanInWindow(total, coeffs, start, finish, lo, hi)
  {
    var s := Schedule(start, finish);
    var duration := finish - start + 1;
    var stageDays := duration / 4;
    var extraDays := duration % 4;
    var stages: seq<real> := [];
    var dayPointer := start;
    var acc := 0.0;
    for i := 0 to 4
      invariant |stages| == i
      invariant i < 4 ==> dayPointer == s[i].first
      invariant forall j :: 0 <= j < i ==> StageError(coeffs, s, j).None?
      invariant forall j :: 0 <= j < i && j < 3 ==> j < |coeffs| && stages[j] == StagePlan(total, coeffs, j)
      invariant acc == PartialPlan(total, coeffs, s, i, lo, hi)
    {
      var daysInStage := stageDays + (if i < extraDays then 1 else 0);
      assert i == 3 ==> 2 < |coeffs|;
      var err, stagePlan, added := RunStage(total, coeffs, s, stages, dayPointer, daysInStage, lo, hi);
      if err.Some? {
        PlanStopsAt(total, coeffs, start, finish, lo, hi, i);
        return Failure(err.value);
      }
      stages := stages + [stagePlan];
      acc := acc + added;
      dayPointer := dayPointer + daysInStage;
    }
    PlanRunsThrough(total, coeffs, start, finish, lo, hi);
    r := Success(acc);
  }

  /** One pass of the stage loop: read the coefficient, work out the stage's
      plan, divide it by the stage's days and add the daily plan for each day
      in the window; or the error the stage raises. */
  method RunStage(total: int, coeffs: seq<real>, s: seq<Stage>, stages: seq<real>, dayPointer: int, daysInStage: int, lo: int, hi: int)
    returns (err: Option<CalcError>, stagePlan: real, added: real)
    requires |s| == 4 && |stages| < 4
    requires dayPointer == s[|stages|].first && daysInStage == s[|stages|].days
    requires forall j :: 0 <= j < |stages| && j < 3 ==> j < |coeffs| && stages[j] == StagePlan(total, coeffs, j)
    requires |stages| == 3 ==> |coeffs| >= 3
    ensures err == StageError(coeffs, s, |stages|)
    ensures err.None? ==> stagePlan == StagePlan(total, coeffs, |stages|)
    ensures err.None? ==> added == Contribution(total, coeffs, s, |stages|, lo, hi)
  {
    var i := |stages|;
    if i < 3 && i >= |coeffs| {
      return Some(MissingCoefficient(i)), 0.0, 0.0;
    }
    stagePlan := NextStagePlan(total, coeffs, stages);
    if daysInStage == 0 {
      return Some(EmptyStage(i)), stagePlan, 0.0;
    }
    var dailyPlan := stagePlan / daysInStage as real;
    added := AddDailyPlan(dayPointer, daysInStage, dailyPlan, lo, hi);
    OverlapCountsDays(s[i], lo, hi);
    err := None;
  }

  /** The plan stops with the error of the first stage that raises. */
  lemma PlanStopsAt(total: int, coeffs: seq<real>, start: int, finish: int, lo: int, hi: int, i: nat)
    requires i < 4
    requires forall j :: 0 <= j < i ==> StageError(coeffs, Schedule(start, finish), j).None?
    requires StageError(coeffs, Schedule(start, finish), i).Some?
    ensures PlanInWindow(total, coeffs, start, finish, lo, hi) == Failure(StageError(coeffs, Schedule(start, finish), i).value)
  {
    NoEarlierError(coeffs, Schedule(start, finish), i);
  }

  /** Without a raising stage the plan is the sum over all four stages. */
  lemma PlanRunsThrough(total: int, coeffs: seq<real>, start: int, finish: int, lo: int, hi: int)
    requires forall j :: 0 <= j < 4 ==> StageError(coeffs, Schedule(start, finish), j).None?
    ensures PlanInWindow(total, coeffs, start, finish, lo, hi) == Success(PartialPlan(total, coeffs, Schedule(start, finish), 4, lo, hi))
  {
  }

  /** `stage_plan` for the next stage, from the plans of the stages before it. */
  method NextStagePlan(total: int, coeffs: seq<real>, stages: seq<real>) returns (p: real)
    requires |stages| < 4 && (|stages| < 3 ==> |stages| < |coeffs|) && (|stages| == 3 ==> |coeffs| >= 3)
    requires forall j :: 0 <= j < |stages| && j < 3 ==> stages[j] == StagePlan(total, coeffs, j)
    ensures p == StagePlan(total, coeffs, |stages|)
  {
    if |stages| < 3 {
      p := total as real * coeffs[|stages|];
    } else {
      p := total as real - (stages[0] + stages[1] + stages[2]);
    }
  }

  /** The day loop of one stage: the daily plan added once for each of the
      stage's days that lies in the window. */
  method AddDailyPlan(first: int, days: int, dailyPlan: real, lo: int, hi: int) returns (sum: real)
    ensures sum == dailyPlan * DaysInWindow(first, days, lo, hi) as real
  {
    sum := 0.0;
    var offset := 0;
    while offset < days
      invariant 0 <= offset <= (if days > 0 then days else 0)
      invariant sum == dailyPlan * DaysInWindow(first, offset, lo, hi) as real
    {
      var currentDay := first + offset;
      if lo <= currentDay <= hi {
        sum := sum + dailyPlan;
      }
      offset := offset + 1;
    }
  }

  /** When stage `i` is the first to raise, `FirstStageError` from 0 reports it. */
  lemma {:induction false} NoEarlierError(coeffs: seq<real>, s: seq<Stage>, i: nat)
    requires |s| == 4 && i < 4
    requires forall j :: 0 <= j < i ==> StageError(coeffs, s, j).None?
    ensures FirstStageError(coeffs, s, 0) == FirstStageError(coeffs, s, i)
  {
    FirstErrorSkips(coeffs, s, 0, i);
  }

  lemma {:induction false} FirstErrorSkips(coeffs: seq<real>, s: seq<Stage>, k: nat, i: nat)
    requires |s| == 4 && k <= i < 4
    requires forall j :: k <= j < i ==> StageError(coeffs, s, j).None?
    ensures FirstStageError(coeffs, s, k) == FirstStageError(coeffs, s, i)
    decreases i - k
  {
    if k < i {
      FirstErrorSkips(coeffs, s, k + 1, i);
    }
  }

  /** The plan with an empty stage contributing nothing instead of raising:
      only a missing coefficient still stops it. */
  function GuardedContribution(total: int, coeffs: seq<real>, s: seq<Stage>, i: nat, lo: int, hi: int): real
    requires |s| == 4 && i < 4 && |coeffs| >= 3
  {
    if s[i].days == 0 then 0.0 else Contribution(total, coeffs, s, i, lo, hi)
  }

  function PlanInWindowGuarded(total: int, coeffs: seq<real>, start: int, finish: int, lo: int, hi: int): (r: Result<real, CalcError>)
    ensures r.Failure? <==> |coeffs| < 3
    ensures r.Failure? ==> r.error == MissingCoefficient(|coeffs|)
  {
    if |coeffs| < 3 then Failure(MissingCoefficient(|coeffs|))
    else
      var s := Schedule(start, finish);
      Success(GuardedContribution(total, coeffs, s, 0, lo, hi) + GuardedContribution(total, coeffs, s, 1, lo, hi)
              + GuardedContribution(total, coeffs, s, 2, lo, hi) + GuardedContribution(total, coeffs, s, 3, lo, hi))
  }

  /** Where the source's plan succeeds, the guarded plan gives the same value,
      and the guarded plan fails only for a missing coefficient, with the
      same error as the source then reports when no stage before it is empty. */
  lemma GuardedPlanAgrees(total: int, coeffs: seq<real>, start: int, finish: int, lo: int, hi: int)
    ensures PlanInWindow(total, coeffs, start, finish, lo, hi).Success? ==>
              PlanInWindowGuarded(total, coeffs, start, finish, lo, hi) == PlanInWindow(total, coeffs, start, finish, lo, hi)
  {
    if PlanInWindow(total, coeffs, start, finish, lo, hi).Success? {
      var s := Schedule(start, finish);
      assert forall j :: 0 <= j < 4 ==> StageError(coeffs, s, j).None?;
    }
  }

  /** A one-day project makes the source's plan raise (stages two to four
      have no days) while the guarded plan gives that day the first stage's share. */
  lemma OneDayProjectCrashes(total: int, coeffs: seq<real>, day: int)
    requires |coeffs| >= 3
    ensures PlanInWindow(total, coeffs, day, day, day, day) == Failure(EmptyStage(1))
    ensures PlanInWindowGuarded(total, coeffs, day, day, day, day) == Success(total as real * coeffs[0])
  {
    var s := Schedule(day, day);
    assert s[0].days == 1 && s[1].days == 0;
    assert StageError(coeffs, s, 0).None?;
    assert FirstStageError(coeffs, s, 0) == FirstStageError(coeffs, s, 1);
    assert Overlap(s[0], day, day) == 1;
    var p := total as real * coeffs[0];
    assert GuardedContribution(total, coeffs, s, 0, day, day) == p / 1.0 * 1.0 == p;
    assert s[2].days == 0 && s[3].days == 0;
  }

  /** Visit days in stage `st` and in the window. */
  function InStageWindow(st: Stage, lo: int, hi: int): int -> bool
  {
    v => st.Contains(v) && lo <= v <= hi
  }

  /** Visit days in the project's dates and in the window. */
  function InProjectWindow(start: int, finish: int, lo: int, hi: int): int -> bool
  {
    v => start <= v <= finish && lo <= v <= hi
  }

  /** Visit days from `from` up to, not including, `upTo`, in the window. */
  function InDays(from: int, upTo: int, lo: int, hi: int): int -> bool
  {
    v => from <= v < upTo && lo <= v <= hi
  }

  /** Counting the visits stage by stage counts each visit of the project's
      dates in the window once, for every duration, including the negative
      ones, where every stage is empty and so are the project's dates. */
  lemma StageCountsAddUp(visits: seq<int>, start: int, finish: int, lo: int, hi: int)
    ensures var s := Schedule(start, finish);
            Count(visits, InStageWindow(s[0], lo, hi)) + Count(visits, InStageWindow(s[1], lo, hi))
            + Count(visits, InStageWindow(s[2], lo, hi)) + Count(visits, InStageWindow(s[3], lo, hi))
            == Count(visits, InProjectWindow(start, finish, lo, hi))
  {
    var s := Schedule(start, finish);
    var d := finish - start + 1;
    if d <= 0 {
      forall i | 0 <= i < 4 ensures Count(visits, InStageWindow(s[i], lo, hi)) == 0 {
        StageLengthSign(d, i);
        CountNone(visits, InStageWindow(s[i], lo, hi));
      }
      CountNone(visits, InProjectWindow(start, finish, lo, hi));
    } else {
      forall i | 0 <= i < 4 ensures s[i].days >= 0 {
        StageLengthSign(d, i);
      }
      assert start <= s[1].first <= s[2].first <= s[3].first;
      CountNone(visits, InDays(start, s[0].first, lo, hi));
      CountDisjointUnion(visits, InDays(start, s[1].first, lo, hi), InDays(start, s[0].first, lo, hi), InStageWindow(s[0], lo, hi));
      CountDisjointUnion(visits, InDays(start, s[2].first, lo, hi), InDays(start, s[1].first, lo, hi), InStageWindow(s[1], lo, hi));
      CountDisjointUnion(visits, InDays(start, s[3].first, lo, hi), InDays(start, s[2].first, lo, hi), InStageWindow(s[2], lo, hi));
      CountDisjointUnion(visits, InDays(start, finish + 1, lo, hi), InDays(start, s[3].first, lo, hi), InStageWindow(s[3], lo, hi));
      CountCongruent(visits, InDays(start, finish + 1, lo, hi), InProjectWindow(start, finish, lo, hi));
    }
  }

  /** `calculate_fact_on_date_full`'s stage loop for one project row: for
      each stage, the visits between `day_pointer` and `stage_end` that fall
      in the window. The count is the number of the project's visits inside
      both its dates and the window. */
  method FactOnDateByStages(visits: seq<int>, start: int, finish: int, lo: int, hi: int) returns (n: nat)
    ensures n == Count(visits, InProjectWindow(start, finish, lo, hi))
  {
    var s := Schedule(start, finish);
    var duration := finish - start + 1;
    var stageDays := duration / 4;
    var extraDays := duration % 4;
    var dayPointer := start;
    n := 0;
    for stage := 0 to 4
      invariant stage < 4 ==> dayPointer == s[stage].first
      invariant n == StagesCounted(visits, s, stage, lo, hi)
    {
      var daysInStage := stageDays + (if stage < extraDays then 1 else 0);
      var stageEnd := dayPointer + daysInStage - 1;
      assert Stage(dayPointer, daysInStage) == s[stage];
      var k := 0;
      var before := n;
      while k < |visits|
        invariant 0 <= k <= |visits|
        invariant n == before + Count(visits[..k], InStageWindow(s[stage], lo, hi))
      {
        assert visits[..k + 1] == visits[..k] + [visits[k]];
        CountSnoc(visits[..k], visits[k], InStageWindow(s[stage], lo, hi));
        var v := visits[k];
        if dayPointer <= v <= stageEnd && lo <= v <= hi {
          n := n + 1;
        }
        k := k + 1;
      }
      assert visits[..k] == visits;
      dayPointer := stageEnd + 1;
    }
    assert StagesCounted(visits, s, 1, lo, hi) == Count(visits, InStageWindow(s[0], lo, hi));
    assert StagesCounted(visits, s, 2, lo, hi) == StagesCounted(visits, s, 1, lo, hi) + Count(visits, InStageWindow(s[1], lo, hi));
    assert StagesCounted(visits, s, 3, lo, hi) == StagesCounted(visits, s, 2, lo, hi) + Count(visits, InStageWindow(s[2], lo, hi));
    assert StagesCounted(visits, s, 4, lo, hi) == StagesCounted(visits, s, 3, lo, hi) + Count(visits, InStageWindow(s[3], lo, hi));
    StageCountsAddUp(visits, start, finish, lo, hi);
  }

  /** Visits counted over the first `k` stages. */
  function StagesCounted(visits: seq<int>, s: seq<Stage>, k: nat, lo: int, hi: int): nat
    requires |s| == 4 && k <= 4
  {
    if k == 0 then 0 else StagesCounted(visits, s, k - 1, lo, hi) + Count(visits, InStageWindow(s[k - 1], lo, hi))
  }
}
