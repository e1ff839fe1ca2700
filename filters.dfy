/**
 * The dashboard's filter stage: the sidebar selection narrows the daily
 * table to a date range, the patient, staff and department tables to one
 * department, and the patients further to chosen treatments and outcomes.
 * Each filter is a row mask applied to the result of the previous one.
 */
module Filters {
  import opened Tables
  import opened Seqs

  /** An inclusive range of calendar days, as picked in the date widget. */
  datatype DateRange = DateRange(start: int, end: int)

  /**
   * The sidebar selection. `dates` is `None` while the widget holds fewer
   * than two dates; an empty treatment or outcome list selects nothing.
   */
  datatype Selection = Selection(
    dates: Option<DateRange>,
    department: string,
    treatments: seq<string>,
    outcomes: seq<string>
  )

  /** The tables after filtering. */
  datatype Views = Views(
    daily: seq<DailyRow>,
    patients: seq<PatientRow>,
    staff: seq<StaffRow>,
    departments: seq<DepartmentRow>
  )

  /** The label of "every department" in the French and the English interface. */
  const AllLabelFrench: string := "Tous"
  const AllLabelEnglish: string := "All"

  // ---------------------------------------------------------------------------
  // The date filter
  // ---------------------------------------------------------------------------

  /**
   * The comparison as the dashboard writes it: the row's timestamp against
   * midnight at the start of each end day.
   */
  predicate InRangeAsWritten(r: DailyRow, range: DateRange)
  {
    Midnight(range.start) <= r.date <= Midnight(range.end)
  }

  /** The comparison the date widget means: the row's calendar day lies in the range. */
  predicate InRange(r: DailyRow, range: DateRange)
  {
    range.start <= DayOf(r.date) <= range.end
  }

  /** A row stamped at noon on the last selected day is dropped by the comparison as written. */
  lemma AsWrittenDropsLastDay(end: int)
    ensures var row := DailyRow(Midnight(end) + SecondsPerDay / 2, 0, 0, 0, 0);
      InRange(row, DateRange(end, end)) && !InRangeAsWritten(row, DateRange(end, end))
  {
    var t := Midnight(end) + SecondsPerDay / 2;
    assert DayOf(t) == end by {
      assert t == end * SecondsPerDay + 43200;
    }
  }

  /**
   * As written, a row of the last selected day is kept only when it is
   * stamped exactly at midnight; every row the comparison as written keeps
   * is kept by the calendar-day comparison.
   */
  lemma AsWrittenOnLastDay(r: DailyRow, range: DateRange)
    ensures DayOf(r.date) == range.end && range.start < range.end ==>
      (InRangeAsWritten(r, range) <==> r.date == Midnight(range.end))
    ensures InRangeAsWritten(r, range) ==> InRange(r, range)
  {
    MidnightOfDay(r.date);
    if Midnight(range.start) <= r.date {
      DayMonotone(Midnight(range.start), r.date);
      DayOfMidnight(range.start);
    }
    if r.date <= Midnight(range.end) {
      DayMonotone(r.date, Midnight(range.end));
      DayOfMidnight(range.end);
    }
  }

  /** A row of the range's last day stamped after its midnight. */
  predicate LateOnLastDay(r: DailyRow, range: DateRange)
  {
    DayOf(r.date) == range.end && r.date != Midnight(range.end)
  }

  /**
   * The comparison as written is the calendar-day comparison minus the rows
   * of the last day stamped after its midnight.
   */
  lemma AsWrittenIsInRangeButLate(r: DailyRow, range: DateRange)
    ensures InRangeAsWritten(r, range) <==> InRange(r, range) && !LateOnLastDay(r, range)
  {
    MidnightOfDay(r.date);
    DayOfMidnight(range.start);
    DayOfMidnight(range.end);
    if Midnight(range.start) <= r.date {
      DayMonotone(Midnight(range.start), r.date);
    }
    if r.date <= Midnight(range.end) {
      DayMonotone(r.date, Midnight(range.end));
    }
  }

  lemma DayMonotone(s: int, t: int)
    requires s <= t
    ensures DayOf(s) <= DayOf(t)
  {
  }

  lemma DayOfMidnight(day: int)
    ensures DayOf(Midnight(day)) == day
  {
  }

  /** The rows of the daily table the date selection keeps. */
  function DailyView(dates: Option<DateRange>, daily: seq<DailyRow>): seq<DailyRow>
  {
    match dates
    case None => daily
    case Some(range) => Filter(daily, (r: DailyRow) => InRange(r, range))
  }

  /** The rows of the daily table the dashboard's timestamp comparison keeps. */
  function DailyViewAsWritten(dates: Option<DateRange>, daily: seq<DailyRow>): seq<DailyRow>
  {
    match dates
    case None => daily
    case Some(range) => Filter(daily, (r: DailyRow) => InRangeAsWritten(r, range))
  }

  /**
   * The daily table the dashboard produces is the calendar-day view with
   * the last day's rows stamped after midnight taken out, in row order.
   */
  lemma AsWrittenDropsLateRows(dates: Option<DateRange>, daily: seq<DailyRow>)
    ensures dates.None? ==> DailyViewAsWritten(dates, daily) == DailyView(dates, daily)
    ensures dates.Some? ==>
      DailyViewAsWritten(dates, daily) == Filter(DailyView(dates, daily), (r: DailyRow) => !LateOnLastDay(r, dates.value))
  {
    if dates.Some? {
      var range := dates.value;
      forall x | x in daily
        ensures InRangeAsWritten(x, range) == (InRange(x, range) && !LateOnLastDay(x, range))
      {
        AsWrittenIsInRangeButLate(x, range);
      }
      FilterFilter(daily, (r: DailyRow) => InRange(r, range), (r: DailyRow) => !LateOnLastDay(r, range),
                   (r: DailyRow) => InRangeAsWritten(r, range));
    }
  }

  /** The widget's default, first to last day of the table, keeps every row. */
  lemma FullRangeKeepsAll(daily: seq<DailyRow>, range: DateRange)
    requires forall i | 0 <= i < |daily| :: range.start <= DayOf(daily[i].date) <= range.end
    ensures DailyView(Some(range), daily) == daily
  {
    assert forall r | r in daily :: InRange(r, range);
    FilterAll(daily, (r: DailyRow) => InRange(r, range));
  }

  // ---------------------------------------------------------------------------
  // The department, treatment and outcome filters
  // ---------------------------------------------------------------------------

  /** The department mask, which lets every row through when "all" is selected. */
  predicate DepartmentMatches(sel: Selection, allLabel: string, department: string)
  {
    sel.department != allLabel ==> department == sel.department
  }

  predicate TreatmentMatches(sel: Selection, p: PatientRow)
  {
    sel.treatments != [] ==> p.treatment in sel.treatments
  }

  predicate OutcomeMatches(sel: Selection, p: PatientRow)
  {
    sel.outcomes != [] ==> p.outcome in sel.outcomes
  }

  /** Every condition the filter stage puts on a patient row. */
  predicate PatientKept(sel: Selection, allLabel: string, p: PatientRow)
  {
    DepartmentMatches(sel, allLabel, p.department) && TreatmentMatches(sel, p) && OutcomeMatches(sel, p)
  }

  /** The patients after the three successive filters. */
  function PatientView(sel: Selection, allLabel: string, patients: seq<PatientRow>): seq<PatientRow>
  {
    var byDepartment :=
      if sel.department != allLabel then Filter(patients, (p: PatientRow) => p.department == sel.department)
      else patients;
    var byTreatment :=
      if sel.treatments != [] then Filter(byDepartment, (p: PatientRow) => p.treatment in sel.treatments)
      else byDepartment;
    if sel.outcomes != [] then Filter(byTreatment, (p: PatientRow) => p.outcome in sel.outcomes)
    else byTreatment
  }

  function StaffView(sel: Selection, allLabel: string, staff: seq<StaffRow>): seq<StaffRow>
  {
    if sel.department != allLabel then Filter(staff, (s: StaffRow) => s.department == sel.department) else staff
  }

  function DepartmentView(sel: Selection, allLabel: string, ds: seq<DepartmentRow>): seq<DepartmentRow>
  {
    if sel.department != allLabel then Filter(ds, (d: DepartmentRow) => d.name == sel.department) else ds
  }

  function ViewsOf(sel: Selection, allLabel: string, daily: seq<DailyRow>, patients: seq<PatientRow>,
                   staff: seq<StaffRow>, ds: seq<DepartmentRow>): Views
  {
    Views(DailyViewAsWritten(sel.dates, daily), PatientView(sel, allLabel, patients),
          StaffView(sel, allLabel, staff), DepartmentView(sel, allLabel, ds))
  }

  // ---------------------------------------------------------------------------
  // The filter stage
  // ---------------------------------------------------------------------------

  /**
   * Health_dash.py's filter block: each table is reassigned in turn, as
   * `quotidien_filtre`, `patients_filtre`, `personnel_filtre` and
   * `departements_filtre`. The date comparison is the dashboard's own,
   * timestamps against midnight of each end day.
   */
  method ApplyFilters(sel: Selection, allLabel: string, quotidien: seq<DailyRow>, patients: seq<PatientRow>,
                      personnel: seq<StaffRow>, departements: seq<DepartmentRow>)
    returns (v: Views)
    ensures v == ViewsOf(sel, allLabel, quotidien, patients, personnel, departements)
  {
    var quotidienFiltre := quotidien;
    if sel.dates.Some? {
      var range := sel.dates.value;
      quotidienFiltre := Filter(quotidien, (r: DailyRow) => InRangeAsWritten(r, range));
    }

    var patientsFiltre := patients;
    var personnelFiltre := personnel;
    var departementsFiltre := departements;
    if sel.department != allLabel {
      patientsFiltre := Filter(patients, (p: PatientRow) => p.department == sel.department);
      personnelFiltre := Filter(personnel, (s: StaffRow) => s.department == sel.department);
      departementsFiltre := Filter(departements, (d: DepartmentRow) => d.name == sel.department);
    }

    if sel.treatments != [] {
      patientsFiltre := Filter(patientsFiltre, (p: PatientRow) => p.treatment in sel.treatments);
    }

    if sel.outcomes != [] {
      patientsFiltre := Filter(patientsFiltre, (p: PatientRow) => p.outcome in sel.outcomes);
    }

    v := Views(quotidienFiltre, patientsFiltre, personnelFiltre, departementsFiltre);
  }

  // ---------------------------------------------------------------------------
  // Properties
  // ---------------------------------------------------------------------------

  /** A filter whose condition is switched off keeps the table as it is. */
  lemma GuardOff<T>(s: seq<T>, p: T -> bool)
    requires forall i | 0 <= i < |s| :: p(s[i])
    ensures Filter(s, p) == s
  {
    assert forall x | x in s :: p(x);
    FilterAll(s, p);
  }

  /**
   * The department stage, whether applied or skipped, is one filter with
   * the department mask.
   */
  lemma DepartmentStage(sel: Selection, allLabel: string, patients: seq<PatientRow>)
    ensures (if sel.department != allLabel then Filter(patients, (p: PatientRow) => p.department == sel.department)
             else patients)
         == Filter(patients, (p: PatientRow) => DepartmentMatches(sel, allLabel, p.department))
  {
    var mask := (p: PatientRow) => DepartmentMatches(sel, allLabel, p.department);
    if sel.department != allLabel {
      FilterSame(patients, (p: PatientRow) => p.department == sel.department, mask);
    } else {
      GuardOff(patients, mask);
    }
  }

  lemma TreatmentStage(sel: Selection, rows: seq<PatientRow>)
    ensures (if sel.treatments != [] then Filter(rows, (p: PatientRow) => p.treatment in sel.treatments) else rows)
         == Filter(rows, (p: PatientRow) => TreatmentMatches(sel, p))
  {
    var mask := (p: PatientRow) => TreatmentMatches(sel, p);
    if sel.treatments != [] {
      FilterSame(rows, (p: PatientRow) => p.treatment in sel.treatments, mask);
    } else {
      GuardOff(rows, mask);
    }
  }

  lemma OutcomeStage(sel: Selection, rows: seq<PatientRow>)
    ensures (if sel.outcomes != [] then Filter(rows, (p: PatientRow) => p.outcome in sel.outcomes) else rows)
         == Filter(rows, (p: PatientRow) => OutcomeMatches(sel, p))
  {
    var mask := (p: PatientRow) => OutcomeMatches(sel, p);
    if sel.outcomes != [] {
      FilterSame(rows, (p: PatientRow) => p.outcome in sel.outcomes, mask);
    } else {
      GuardOff(rows, mask);
    }
  }

  /** Two conditions that agree on every row filter alike. */
  lemma {:induction false} FilterSame<T>(s: seq<T>, p: T -> bool, q: T -> bool)
    requires forall i | 0 <= i < |s| :: p(s[i]) == q(s[i])
    ensures Filter(s, p) == Filter(s, q)
  {
    if s != [] {
      assert forall i | 0 <= i < |s[1..]| :: s[1..][i] == s[i + 1];
      FilterSame(s[1..], p, q);
    }
  }

  /**
   * The chain of patient filters is one filter, in row order, by the
   * conjunction of the three conditions.
   */
  lemma PatientViewIsOneFilter(sel: Selection, allLabel: string, patients: seq<PatientRow>)
    ensures PatientView(sel, allLabel, patients) == Filter(patients, (p: PatientRow) => PatientKept(sel, allLabel, p))
  {
    var dept := (p: PatientRow) => DepartmentMatches(sel, allLabel, p.department);
    var treat := (p: PatientRow) => TreatmentMatches(sel, p);
    var outcome := (p: PatientRow) => OutcomeMatches(sel, p);
    var deptTreat := (p: PatientRow) => DepartmentMatches(sel, allLabel, p.department) && TreatmentMatches(sel, p);
    var all := (p: PatientRow) => PatientKept(sel, allLabel, p);
    DepartmentStage(sel, allLabel, patients);
    var byDepartment := Filter(patients, dept);
    TreatmentStage(sel, byDepartment);
    FilterFilter(patients, dept, treat, deptTreat);
    var byTreatment := Filter(patients, deptTreat);
    OutcomeStage(sel, byTreatment);
    FilterFilter(patients, deptTreat, outcome, all);
  }

  /**
   * A patient is in the filtered table exactly when it is in the table and
   * meets every selected condition.
   */
  lemma PatientViewMembers(sel: Selection, allLabel: string, patients: seq<PatientRow>)
    ensures forall i | 0 <= i < |PatientView(sel, allLabel, patients)| ::
      var p := PatientView(sel, allLabel, patients)[i];
      p in patients && (sel.department != allLabel ==> p.department == sel.department) &&
      (sel.treatments != [] ==> p.treatment in sel.treatments) && (sel.outcomes != [] ==> p.outcome in sel.outcomes)
    ensures forall i | 0 <= i < |patients| && PatientKept(sel, allLabel, patients[i]) ::
      patients[i] in PatientView(sel, allLabel, patients)
  {
    PatientViewIsOneFilter(sel, allLabel, patients);
  }

  /** With nothing selected the filter stage leaves the patients table as it is. */
  lemma NothingSelectedKeepsPatients(sel: Selection, allLabel: string, patients: seq<PatientRow>)
    requires sel.department == allLabel && sel.treatments == [] && sel.outcomes == []
    ensures PatientView(sel, allLabel, patients) == patients
  {
  }

  /**
   * Each row the calendar-day filter keeps lies in the range, and every row
   * in the range is kept. The dashboard's comparison keeps a row exactly
   * when it lies in the range and is not a row of the last day stamped
   * after midnight. A range the widget has not completed keeps every row.
   */
  lemma DailyViewMembers(dates: Option<DateRange>, daily: seq<DailyRow>)
    ensures dates.None? ==> DailyView(dates, daily) == daily && DailyViewAsWritten(dates, daily) == daily
    ensures dates.Some? ==>
      && (forall i | 0 <= i < |DailyView(dates, daily)| ::
            DailyView(dates, daily)[i] in daily &&
            dates.value.start <= DayOf(DailyView(dates, daily)[i].date) <= dates.value.end)
      && (forall i | 0 <= i < |daily| && dates.value.start <= DayOf(daily[i].date) <= dates.value.end ::
            daily[i] in DailyView(dates, daily))
    ensures dates.Some? ==>
      && (forall i | 0 <= i < |DailyViewAsWritten(dates, daily)| ::
            var r := DailyViewAsWritten(dates, daily)[i];
            r in daily && dates.value.start <= DayOf(r.date) <= dates.value.end &&
            (DayOf(r.date) == dates.value.end ==> r.date == Midnight(dates.value.end)))
      && (forall i | 0 <= i < |daily| && dates.value.start <= DayOf(daily[i].date) <= dates.value.end &&
                     (DayOf(daily[i].date) == dates.value.end ==> daily[i].date == Midnight(dates.value.end)) ::
            daily[i] in DailyViewAsWritten(dates, daily))
  {
    if dates.Some? {
      var range := dates.value;
      forall x: DailyRow
        ensures InRangeAsWritten(x, range) <==> InRange(x, range) && !LateOnLastDay(x, range)
      {
        AsWrittenIsInRangeButLate(x, range);
      }
    }
  }

  /**
   * With a department selected, every staff and department row kept belongs
   * to it and every row of it is kept; with "all" selected both tables are
   * unchanged.
   */
  lemma DepartmentViewsMembers(sel: Selection, allLabel: string, staff: seq<StaffRow>, ds: seq<DepartmentRow>)
    ensures sel.department == allLabel ==> StaffView(sel, allLabel, staff) == staff && DepartmentView(sel, allLabel, ds) == ds
    ensures sel.department != allLabel ==>
      && (forall i | 0 <= i < |StaffView(sel, allLabel, staff)| ::
            StaffView(sel, allLabel, staff)[i] in staff && StaffView(sel, allLabel, staff)[i].department == sel.department)
      && (forall i | 0 <= i < |staff| && staff[i].department == sel.department :: staff[i] in StaffView(sel, allLabel, staff))
      && (forall i | 0 <= i < |DepartmentView(sel, allLabel, ds)| ::
            DepartmentView(sel, allLabel, ds)[i] in ds && DepartmentView(sel, allLabel, ds)[i].name == sel.department)
      && (forall i | 0 <= i < |ds| && ds[i].name == sel.department :: ds[i] in DepartmentView(sel, allLabel, ds))
  {
  }
}
