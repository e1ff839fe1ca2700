/**
 * Worked cases of the three generators: the strict occupancy threshold, a
 * crowded department, a week of rising admissions, two unevenly loaded
 * departments, a month in deficit, the best-department score and empty
 * tables.
 */
module Scenarios {
  import opened Tables
  import opened Seqs
  import opened Numbers
  import opened DailyWindow
  import opened Alerts
  import Recommendations
  import Summary

  /** The occupancy comparison is strict: 90% raises nothing, 90.1% raises the alert. */
  lemma OccupancyBoundary(d: DepartmentRow)
    ensures d.occupancy == 0.9 ==> DepartmentAlerts(d).Success? ==>
      forall i | 0 <= i < |DepartmentAlerts(d).value| :: !DepartmentAlerts(d).value[i].message.OccupancyMessage?
    ensures d.occupancy == 0.901 && DepartmentAlerts(d).Success? ==>
      DepartmentAlerts(d).value[0] == OccupancyAlertOf(d)
  {
    if DepartmentAlerts(d).Success? {
      DepartmentAlertsPresence(d);
      DepartmentAlertsParts(d);
    }
  }

  /**
   * 46 patients in 50 beds, 95% recovery and 10 doctors: an occupancy of 92%
   * and exactly one alert, the critical occupancy alert.
   */
  lemma CrowdedDepartment(name: string)
    ensures var d := DepartmentRow(name, 46, 50, 46.0 / 50.0, 0.95, 10);
      && d.occupancy == 0.92
      && DepartmentAlerts(d) == Success([OccupancyAlertOf(d)])
      && OccupancyAlertOf(d).severity == Critique
  {
    var d := DepartmentRow(name, 46, 50, 46.0 / 50.0, 0.95, 10);
    assert DoctorRatio(d) == 10.0 / 46.0;
    RatioBelow(10.0, 46.0, DoctorRatioLimit);
    assert StaffingRule(d) == Success([]);
    assert OccupancyRule(d) == [OccupancyAlertOf(d)] && RecoveryRule(d) == [];
    assert [OccupancyAlertOf(d)] + [] + [] == [OccupancyAlertOf(d)];
  }

  /**
   * A latest week of 140 admissions raises the imbalance warning against 100
   * discharges (140 > 130) and not against 110 (140 <= 143).
   */
  lemma RisingAdmissions(daily: seq<DailyRow>)
    requires |daily| >= WeekDays && SortedByDate(daily)
    ensures var week := daily[|daily| - WeekDays..];
      Admissions(week) == 140 && Discharges(week) == 100 ==> ImbalanceRule(daily) == [ImbalanceAlertOf(140, 100)]
    ensures var week := daily[|daily| - WeekDays..];
      Admissions(week) == 140 && Discharges(week) == 110 ==> ImbalanceRule(daily) == []
  {
    LatestOfSorted(daily, WeekDays);
  }

  /** A patient of every department with patients. */
  lemma SomePatient(patients: seq<PatientRow>, dept: string)
    requires Recommendations.PatientCount(patients, dept) > 0
    ensures dept in Recommendations.PatientDepartments(patients)
  {
    var inDept := (p: PatientRow) => p.department == dept;
    if forall x | x in patients :: !inDept(x) {
      CountNone(patients, inDept);
    }
    var x :| x in patients && inDept(x);
    var i :| 0 <= i < |patients| && patients[i] == x;
    Recommendations.DepartmentsPresent(patients);
  }

  /** With every patient in one of two departments, no other name is among the distinct names. */
  lemma NamesAmongTwo(patients: seq<PatientRow>, busy: string, quiet: string)
    requires forall i | 0 <= i < |patients| :: patients[i].department == busy || patients[i].department == quiet
    ensures forall x | x in Recommendations.PatientDepartments(patients) :: x == busy || x == quiet
  {
    Recommendations.DepartmentsPresent(patients);
  }

  /** With patients in exactly two departments, there are exactly two distinct names. */
  lemma TwoDepartments(patients: seq<PatientRow>, busy: string, quiet: string)
    requires forall i | 0 <= i < |patients| :: patients[i].department == busy || patients[i].department == quiet
    requires Recommendations.PatientCount(patients, busy) > Recommendations.PatientCount(patients, quiet) > 0
    ensures var names := Recommendations.PatientDepartments(patients);
      && busy in names && quiet in names && |names| > 1
      && forall x | x in names :: x == busy || x == quiet
  {
    var names := Recommendations.PatientDepartments(patients);
    SomePatient(patients, busy);
    SomePatient(patients, quiet);
    NamesAmongTwo(patients, busy, quiet);
    var i :| 0 <= i < |names| && names[i] == busy;
    var j :| 0 <= j < |names| && names[j] == quiet;
    assert i != j;
  }

  /** Of names drawn from two departments, the one with more patients is the busiest. */
  lemma BusiestOfTwo(names: seq<string>, patients: seq<PatientRow>, busy: string, quiet: string)
    requires busy in names && forall x | x in names :: x == busy || x == quiet
    requires Recommendations.PatientCount(patients, busy) > Recommendations.PatientCount(patients, quiet)
    ensures names[Recommendations.Busiest(names, patients)] == busy
  {
    var b := Recommendations.Busiest(names, patients);
    var jb :| 0 <= jb < |names| && names[jb] == busy;
    assert names[b] in names;
    assert Recommendations.PatientCount(patients, names[jb]) <= Recommendations.PatientCount(patients, names[b]);
  }

  /** Of names drawn from two departments, the one with fewer patients is the quietest. */
  lemma QuietestOfTwo(names: seq<string>, patients: seq<PatientRow>, busy: string, quiet: string)
    requires quiet in names && forall x | x in names :: x == busy || x == quiet
    requires Recommendations.PatientCount(patients, busy) > Recommendations.PatientCount(patients, quiet)
    ensures names[Recommendations.Quietest(names, patients)] == quiet
  {
    var q := Recommendations.Quietest(names, patients);
    var jq :| 0 <= jq < |names| && names[jq] == quiet;
    assert names[q] in names;
    assert Recommendations.PatientCount(patients, names[q]) <= Recommendations.PatientCount(patients, names[jq]);
  }

  /**
   * Forty patients in one department and ten in the only other: the
   * rebalancing advice names the first as the busiest and the second as the
   * quietest (40 > 3 * 10).
   */
  lemma UnevenDepartments(patients: seq<PatientRow>, busy: string, quiet: string)
    requires forall i | 0 <= i < |patients| :: patients[i].department == busy || patients[i].department == quiet
    requires Recommendations.PatientCount(patients, busy) == 40
    requires Recommendations.PatientCount(patients, quiet) == 10
    ensures Recommendations.RebalanceRule(patients)
         == [Recommendations.Recommendation(Recommendations.RebalancePlan, Recommendations.Rebalance(busy, quiet))]
  {
    TwoDepartments(patients, busy, quiet);
    var names := Recommendations.PatientDepartments(patients);
    BusiestOfTwo(names, patients, busy, quiet);
    QuietestOfTwo(names, patients, busy, quiet);
  }

  /**
   * A latest month of 3,000,000 revenue against 3,500,000 expenses: a deficit
   * alert of 500,000 and a financial summary reporting a loss of 500,000.
   */
  lemma MonthInDeficit(daily: seq<DailyRow>)
    requires |daily| >= MonthDays && SortedByDate(daily)
    requires Revenue(daily[|daily| - MonthDays..]) == 3000000
    requires Expenses(daily[|daily| - MonthDays..]) == 3500000
    ensures DeficitRule(daily) == [DeficitAlertOf(3000000, 3500000)]
    ensures DeficitAlertOf(3000000, 3500000).message.deficit == 500000
    ensures Summary.FinanceSection(daily) == [Summary.Financial(3000000, 3500000, false, 500000)]
  {
    LatestOfSorted(daily, MonthDays);
  }

  /**
   * Recovery/occupancy of (0.9, 0.5) against (0.95, 0.9): scores 0.74 and
   * 0.61, so the first department is the best.
   */
  lemma BestOfTwo(first: DepartmentRow, second: DepartmentRow)
    requires first.recovery == 0.9 && first.occupancy == 0.5
    requires second.recovery == 0.95 && second.occupancy == 0.9
    ensures Summary.Score(first) == 0.74 && Summary.Score(second) == 0.61
    ensures Summary.BestOf([first, second]) == [Summary.BestDepartment(first.name, 0.9, 0.5)]
  {
  }

  /** Empty tables raise no alert, no recommendation and only the overview. */
  lemma EmptyTables()
    ensures AlertsOf([], []) == Success([])
    ensures Recommendations.RecommendationsOf([], []) == []
    ensures Summary.SummaryOf([], [], [], []) == [Summary.Overview(0, 0, None, None)]
  {
  }
}
