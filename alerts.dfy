/**
 * The alert generator `generer_alertes` and the critical-first display order.
 *
 * Three rules run on every department row, each adding at most one
 * `critique` alert: high occupancy, low recovery and too few doctors. Two
 * rules then run once over the daily table, each adding at most one
 * `avertissement` alert for all departments ("Tous"): an admissions/discharges
 * imbalance over the last 7 days and a financial deficit over the last 30.
 *
 * Message text is abstracted to its numeric payload; titles are kept
 * literally, because the recommendation rules search them for keywords.
 */
module Alerts {
  import opened Tables
  import opened Seqs
  import opened DailyWindow
  import opened Numbers

  datatype Severity = Critique | Avertissement

  /** The figures each message embeds. */
  datatype AlertMessage =
    | OccupancyMessage(occupancy: real, currentPatients: nat, bedsAvailable: nat)
    | RecoveryMessage(recovery: real)
    | StaffingMessage(patientsPerDoctor: int)
    | ImbalanceMessage(admissions: int, discharges: int)
    | DeficitMessage(expenses: int, revenue: int, deficit: int)

  datatype Alert = Alert(title: string, message: AlertMessage, department: string, severity: Severity)

  /**
   * `int(1/ratio_medecins)` with a zero ratio: a department without doctors
   * always trips the staffing rule and the report of its ratio then fails,
   * which aborts the whole generator.
   */
  datatype AlertError = NoDoctors(department: string)

  const OccupancyTitle: string := "Taux d'occupation critique en "
  const RecoveryTitle: string := "Taux de rétablissement faible en "
  const StaffingTitle: string := "Manque de médecins en "
  const ImbalanceTitle: string := "Déséquilibre admissions/sorties"
  const DeficitTitle: string := "Déficit financier"
  const AllDepartments: string := "Tous"

  const OccupancyLimit: real := 0.9
  const RecoveryTarget: real := 0.7
  const DoctorRatioLimit: real := 0.1
  const ImbalanceFactor: real := 1.3
  const WeekDays: nat := 7
  const MonthDays: nat := 30

  // ---------------------------------------------------------------------------
  // The alert records, one builder per rule
  // ---------------------------------------------------------------------------

  function OccupancyAlertOf(d: DepartmentRow): Alert
  {
    Alert(OccupancyTitle + d.name, OccupancyMessage(d.occupancy, d.currentPatients, d.bedsAvailable),
          d.name, Critique)
  }

  function RecoveryAlertOf(d: DepartmentRow): Alert
  {
    Alert(RecoveryTitle + d.name, RecoveryMessage(d.recovery), d.name, Critique)
  }

  /** `max(1, patientsActuels)`: the divisor of the doctor ratio. */
  function PatientBase(d: DepartmentRow): nat
  {
    if d.currentPatients > 1 then d.currentPatients else 1
  }

  /** `nombreMedecins / max(1, patientsActuels)`. */
  function DoctorRatio(d: DepartmentRow): real
  {
    d.doctors as real / PatientBase(d) as real
  }

  /** The alert reports `1 : int(1/ratio)`, that is `max(1, p) / doctors` rounded down. */
  function StaffingAlertOf(d: DepartmentRow): Alert
    requires d.doctors > 0
  {
    Alert(StaffingTitle + d.name, StaffingMessage(PatientBase(d) / d.doctors), d.name, Critique)
  }

  function ImbalanceAlertOf(admissions: int, discharges: int): Alert
  {
    Alert(ImbalanceTitle, ImbalanceMessage(admissions, discharges), AllDepartments, Avertissement)
  }

  function DeficitAlertOf(revenue: int, expenses: int): Alert
  {
    Alert(DeficitTitle, DeficitMessage(expenses, revenue, expenses - revenue), AllDepartments, Avertissement)
  }

  // ---------------------------------------------------------------------------
  // The rules as functions of the tables
  // ---------------------------------------------------------------------------

  function OccupancyRule(d: DepartmentRow): seq<Alert>
  {
    if d.occupancy > OccupancyLimit then [OccupancyAlertOf(d)] else []
  }

  function RecoveryRule(d: DepartmentRow): seq<Alert>
  {
    if d.recovery < RecoveryTarget then [RecoveryAlertOf(d)] else []
  }

  function StaffingRule(d: DepartmentRow): Result<seq<Alert>, AlertError>
  {
    if DoctorRatio(d) < DoctorRatioLimit then
      if d.doctors == 0 then Failure(NoDoctors(d.name)) else Success([StaffingAlertOf(d)])
    else Success([])
  }

  /** The alerts of one department row, in the order the rules run. */
  function DepartmentAlerts(d: DepartmentRow): Result<seq<Alert>, AlertError>
  {
    match StaffingRule(d)
    case Failure(e) => Failure(e)
    case Success(staffing) => Success(OccupancyRule(d) + RecoveryRule(d) + staffing)
  }

  /** The alerts of all department rows, row after row. */
  function DepartmentSection(ds: seq<DepartmentRow>): Result<seq<Alert>, AlertError>
    decreases |ds|
  {
    if ds == [] then Success([])
    else
      match DepartmentSection(ds[..|ds| - 1])
      case Failure(e) => Failure(e)
      case Success(earlier) =>
        match DepartmentAlerts(ds[|ds| - 1])
        case Failure(e) => Failure(e)
        case Success(last) => Success(earlier + last)
  }

  function ImbalanceRule(daily: seq<DailyRow>): seq<Alert>
  {
    if |daily| >= WeekDays then
      var week := Latest(daily, WeekDays);
      var admissions := Admissions(week);
      var discharges := Discharges(week);
      if admissions as real > discharges as real * ImbalanceFactor
      then [ImbalanceAlertOf(admissions, discharges)] else []
    else []
  }

  function DeficitRule(daily: seq<DailyRow>): seq<Alert>
  {
    if |daily| >= MonthDays then
      var month := Latest(daily, MonthDays);
      var revenue := Revenue(month);
      var expenses := Expenses(month);
      if expenses > revenue then [DeficitAlertOf(revenue, expenses)] else []
    else []
  }

  /** `generer_alertes` as a function of its inputs. */
  function AlertsOf(ds: seq<DepartmentRow>, daily: seq<DailyRow>): Result<seq<Alert>, AlertError>
  {
    match DepartmentSection(ds)
    case Failure(e) => Failure(e)
    case Success(section) => Success(section + ImbalanceRule(daily) + DeficitRule(daily))
  }

  // ---------------------------------------------------------------------------
  // The generator
  // ---------------------------------------------------------------------------

  /**
   * `generer_alertes(departements, patients, quotidien)`. The patients table
   * is a parameter of the source function that it never reads, so it is
   * left out here.
   */
  method GenerateAlerts(departements: seq<DepartmentRow>, quotidien: seq<DailyRow>)
    returns (r: Result<seq<Alert>, AlertError>)
    ensures r == AlertsOf(departements, quotidien)
  {
    var section := DepartmentStage(departements);
    if section.Failure? {
      return Failure(section.error);
    }
    var cross := CrossDepartmentStage(quotidien);
    AlertsOfParts(departements, quotidien);
    r := Success(section.value + cross);
  }

  /** The loop over the department rows of `generer_alertes`. */
  method DepartmentStage(departements: seq<DepartmentRow>) returns (r: Result<seq<Alert>, AlertError>)
    ensures r == DepartmentSection(departements)
  {
    var alertes: seq<Alert> := [];
    for i := 0 to |departements|
      invariant DepartmentSection(departements[..i]) == Success(alertes)
    {
      var dept := departements[i];
      ghost var before := alertes;
      if dept.occupancy > OccupancyLimit {
        alertes := alertes + [OccupancyAlertOf(dept)];
      }
      assert alertes == before + OccupancyRule(dept);
      if dept.recovery < RecoveryTarget {
        alertes := alertes + [RecoveryAlertOf(dept)];
      }
      assert alertes == before + OccupancyRule(dept) + RecoveryRule(dept);
      var ratioMedecins := dept.doctors as real / PatientBase(dept) as real;
      if ratioMedecins < DoctorRatioLimit {
        if dept.doctors == 0 {
          SectionStepFailure(departements, i);
          SectionFailureExtends(departements, i + 1);
          return Failure(NoDoctors(dept.name));
        }
        alertes := alertes + [StaffingAlertOf(dept)];
      }
      assert StaffingRule(dept).Success?;
      assert alertes == before + (OccupancyRule(dept) + RecoveryRule(dept) + StaffingRule(dept).value);
      SectionStep(departements, i, before);
    }
    assert departements[..|departements|] == departements;
    r := Success(alertes);
  }

  /** The two checks of `generer_alertes` on the latest daily rows. */
  method CrossDepartmentStage(quotidien: seq<DailyRow>) returns (alertes: seq<Alert>)
    ensures alertes == ImbalanceRule(quotidien) + DeficitRule(quotidien)
  {
    alertes := [];
    if |quotidien| >= WeekDays {
      var derniereSemaine := Latest(quotidien, WeekDays);
      var admissions := Admissions(derniereSemaine);
      var sorties := Discharges(derniereSemaine);
      if admissions as real > sorties as real * ImbalanceFactor {
        alertes := alertes + [ImbalanceAlertOf(admissions, sorties)];
      }
    }
    assert alertes == ImbalanceRule(quotidien);
    ghost var imbalance := alertes;
    if |quotidien| >= MonthDays {
      var dernierMois := Latest(quotidien, MonthDays);
      var revenus := Revenue(dernierMois);
      var depenses := Expenses(dernierMois);
      if depenses > revenus {
        alertes := alertes + [DeficitAlertOf(revenus, depenses)];
      }
    }
    AppendEmpty(imbalance);
    assert alertes == imbalance + DeficitRule(quotidien);
  }

  /** Extending the rows by one appends that row's alerts. */
  lemma SectionStep(ds: seq<DepartmentRow>, i: nat, before: seq<Alert>)
    requires i < |ds| && DepartmentSection(ds[..i]) == Success(before)
    requires DepartmentAlerts(ds[i]).Success?
    ensures DepartmentSection(ds[..i + 1]) == Success(before + DepartmentAlerts(ds[i]).value)
  {
    assert ds[..i + 1][..i] == ds[..i];
  }

  lemma SectionStepFailure(ds: seq<DepartmentRow>, i: nat)
    requires i < |ds| && DepartmentSection(ds[..i]).Success?
    requires DepartmentAlerts(ds[i]).Failure?
    ensures DepartmentSection(ds[..i + 1]) == DepartmentAlerts(ds[i])
  {
    assert ds[..i + 1][..i] == ds[..i];
  }

  /** Once the rows up to `n` have failed, later rows cannot undo it. */
  lemma {:induction false} SectionFailureExtends(ds: seq<DepartmentRow>, n: nat)
    requires n <= |ds| && DepartmentSection(ds[..n]).Failure?
    ensures DepartmentSection(ds) == DepartmentSection(ds[..n])
    decreases |ds|
  {
    if n < |ds| {
      var front := ds[..|ds| - 1];
      assert front[..n] == ds[..n];
      SectionFailureExtends(front, n);
    } else {
      assert ds[..n] == ds;
    }
  }

  // ---------------------------------------------------------------------------
  // Properties of the rules
  // ---------------------------------------------------------------------------

  /**
   * With `tauxOccupation = patientsActuels / litsDisponibles`, the occupancy
   * alert fires exactly when `10 * patients > 9 * beds`: an occupancy of
   * exactly 90% raises no alert.
   */
  lemma OccupancyThreshold(d: DepartmentRow)
    requires OccupancyDerived(d)
    ensures |OccupancyRule(d)| == if 10 * d.currentPatients > 9 * d.bedsAvailable then 1 else 0
  {
    RatioAbove(d.currentPatients as real, d.bedsAvailable as real, OccupancyLimit);
  }

  /**
   * The staffing alert fires exactly when fewer than one doctor per ten
   * patients is on duty (`10 * doctors < max(1, patients)`); the patients per
   * doctor it reports is then at least 10 and is the quotient of the two.
   */
  lemma StaffingThreshold(d: DepartmentRow)
    requires d.doctors > 0
    ensures StaffingRule(d).Success?
    ensures |StaffingRule(d).value| == if 10 * d.doctors < PatientBase(d) then 1 else 0
    ensures StaffingRule(d).value != [] ==>
      var figure := StaffingRule(d).value[0].message.patientsPerDoctor;
      figure >= 10 && figure * d.doctors <= PatientBase(d) < (figure + 1) * d.doctors
  {
    RatioBelow(d.doctors as real, PatientBase(d) as real, DoctorRatioLimit);
    QuotientBounds(PatientBase(d), d.doctors);
    if 10 * d.doctors < PatientBase(d) {
      QuotientAtLeast(PatientBase(d), d.doctors, 10);
    }
  }

  /** A department with no current patient and at least one doctor never lacks doctors. */
  lemma NoPatientsNoStaffingAlert(d: DepartmentRow)
    requires d.currentPatients == 0 && d.doctors > 0
    ensures StaffingRule(d) == Success([])
  {
  }

  /** The generator fails on a department exactly when it has no doctor. */
  lemma StaffingFailsIffNoDoctors(d: DepartmentRow)
    ensures DepartmentAlerts(d).Failure? <==> d.doctors == 0
    ensures DepartmentAlerts(d).Failure? ==> DepartmentAlerts(d).error == NoDoctors(d.name)
  {
    if d.doctors == 0 {
      assert DoctorRatio(d) == 0.0;
    }
  }

  /** Rank of the rule that produced a message: the order the rules run in. */
  function RuleRank(m: AlertMessage): nat
  {
    match m
    case OccupancyMessage(_, _, _) => 0
    case RecoveryMessage(_) => 1
    case StaffingMessage(_) => 2
    case ImbalanceMessage(_, _) => 3
    case DeficitMessage(_, _, _) => 4
  }

  /**
   * One department yields at most three alerts, all critical and all about
   * itself, in the fixed order occupancy, recovery, staffing; each is present
   * exactly when its threshold is crossed.
   */
  lemma DepartmentAlertsShape(d: DepartmentRow)
    requires DepartmentAlerts(d).Success?
    ensures var a := DepartmentAlerts(d).value;
      && |a| <= 3
      && (forall i | 0 <= i < |a| :: a[i].severity == Critique && a[i].department == d.name)
      && (forall i, j | 0 <= i < j < |a| :: RuleRank(a[i].message) < RuleRank(a[j].message))
      && ((exists i | 0 <= i < |a| :: a[i].message.OccupancyMessage?) <==> d.occupancy > OccupancyLimit)
      && ((exists i | 0 <= i < |a| :: a[i].message.RecoveryMessage?) <==> d.recovery < RecoveryTarget)
      && ((exists i | 0 <= i < |a| :: a[i].message.StaffingMessage?) <==> DoctorRatio(d) < DoctorRatioLimit)
  {
    DepartmentAlertsOrder(d);
    DepartmentAlertsPresence(d);
  }

  /** Where each part of a department's alerts sits in the whole. */
  lemma DepartmentAlertsParts(d: DepartmentRow)
    requires DepartmentAlerts(d).Success?
    ensures var a := DepartmentAlerts(d).value;
      var o, r, s := OccupancyRule(d), RecoveryRule(d), StaffingRule(d).value;
      && |a| == |o| + |r| + |s| && |o| <= 1 && |r| <= 1 && |s| <= 1
      && (forall i | 0 <= i < |o| :: a[i] == o[i])
      && (forall i | 0 <= i < |r| :: a[|o| + i] == r[i])
      && (forall i | 0 <= i < |s| :: a[|o| + |r| + i] == s[i])
  {
  }

  lemma DepartmentAlertsOrder(d: DepartmentRow)
    requires DepartmentAlerts(d).Success?
    ensures var a := DepartmentAlerts(d).value;
      && |a| <= 3
      && (forall i | 0 <= i < |a| :: a[i].severity == Critique && a[i].department == d.name)
      && (forall i, j | 0 <= i < j < |a| :: RuleRank(a[i].message) < RuleRank(a[j].message))
  {
    var a := DepartmentAlerts(d).value;
    var o, r, s := OccupancyRule(d), RecoveryRule(d), StaffingRule(d).value;
    DepartmentAlertsParts(d);
    assert forall i | 0 <= i < |a| ::
      && a[i].severity == Critique && a[i].department == d.name
      && RuleRank(a[i].message) == (if i < |o| then 0 else if i < |o| + |r| then 1 else 2)
    by {
      forall i | 0 <= i < |a|
        ensures && a[i].severity == Critique && a[i].department == d.name
                && RuleRank(a[i].message) == (if i < |o| then 0 else if i < |o| + |r| then 1 else 2)
      {
        if i < |o| {
          assert a[i] == o[0];
        } else if i < |o| + |r| {
          assert a[i] == r[0];
        } else {
          assert a[i] == s[0];
        }
      }
    }
  }

  lemma DepartmentAlertsPresence(d: DepartmentRow)
    requires DepartmentAlerts(d).Success?
    ensures var a := DepartmentAlerts(d).value;
      && ((exists i | 0 <= i < |a| :: a[i].message.OccupancyMessage?) <==> d.occupancy > OccupancyLimit)
      && ((exists i | 0 <= i < |a| :: a[i].message.RecoveryMessage?) <==> d.recovery < RecoveryTarget)
      && ((exists i | 0 <= i < |a| :: a[i].message.StaffingMessage?) <==> DoctorRatio(d) < DoctorRatioLimit)
  {
    var a := DepartmentAlerts(d).value;
    var o, r, s := OccupancyRule(d), RecoveryRule(d), StaffingRule(d).value;
    DepartmentAlertsParts(d);
    assert forall i | 0 <= i < |a| ::
      && (a[i].message.OccupancyMessage? <==> i < |o|)
      && (a[i].message.RecoveryMessage? <==> |o| <= i < |o| + |r|)
      && (a[i].message.StaffingMessage? <==> |o| + |r| <= i)
    by {
      forall i | 0 <= i < |a|
        ensures && (a[i].message.OccupancyMessage? <==> i < |o|)
                && (a[i].message.RecoveryMessage? <==> |o| <= i < |o| + |r|)
                && (a[i].message.StaffingMessage? <==> |o| + |r| <= i)
      {
        if i < |o| {
          assert a[i] == o[0];
        } else if i < |o| + |r| {
          assert a[i] == r[0];
        } else {
          assert a[i] == s[0];
        }
      }
    }
    if d.occupancy > OccupancyLimit {
      assert a[0].message.OccupancyMessage?;
    }
    if d.recovery < RecoveryTarget {
      assert a[|o|].message.RecoveryMessage?;
    }
    if DoctorRatio(d) < DoctorRatioLimit {
      assert a[|o| + |r|].message.StaffingMessage?;
    }
  }

  /**
   * The alerts of the first `n` department rows come first, ahead of every
   * alert of a later row: departments appear in input row order.
   */
  lemma {:induction false} SectionPrefix(ds: seq<DepartmentRow>, n: nat)
    requires n <= |ds| && DepartmentSection(ds).Success?
    ensures DepartmentSection(ds[..n]).Success?
    ensures DepartmentSection(ds[..n]).value <= DepartmentSection(ds).value
    decreases |ds|
  {
    if n < |ds| {
      var front := ds[..|ds| - 1];
      assert front[..n] == ds[..n];
      SectionPrefix(front, n);
    } else {
      assert ds[..n] == ds;
    }
  }

  /** The per-department section: at most three critical alerts per row. */
  lemma {:induction false} SectionShape(ds: seq<DepartmentRow>)
    requires DepartmentSection(ds).Success?
    ensures |DepartmentSection(ds).value| <= 3 * |ds|
    ensures forall i | 0 <= i < |DepartmentSection(ds).value| ::
      DepartmentSection(ds).value[i].severity == Critique
    decreases |ds|
  {
    if ds != [] {
      SectionShape(ds[..|ds| - 1]);
      DepartmentAlertsOrder(ds[|ds| - 1]);
    }
  }

  /** The section fails exactly when some row has no doctor, naming the first such row. */
  lemma {:induction false} SectionFailure(ds: seq<DepartmentRow>)
    ensures DepartmentSection(ds).Failure? <==> exists i | 0 <= i < |ds| :: ds[i].doctors == 0
    ensures DepartmentSection(ds).Failure? ==>
      exists i | 0 <= i < |ds| :: ds[i].doctors == 0 && DepartmentSection(ds).error == NoDoctors(ds[i].name) &&
        forall j | 0 <= j < i :: ds[j].doctors > 0
    decreases |ds|
  {
    if ds != [] {
      var front := ds[..|ds| - 1];
      var last := ds[|ds| - 1];
      SectionFailure(front);
      StaffingFailsIffNoDoctors(last);
      assert forall i | 0 <= i < |front| :: front[i] == ds[i];
      if DepartmentSection(front).Failure? {
        var i :| 0 <= i < |front| && front[i].doctors == 0 && DepartmentSection(front).error == NoDoctors(front[i].name) &&
          forall j | 0 <= j < i :: front[j].doctors > 0;
        assert ds[i].doctors == 0;
      } else if last.doctors == 0 {
        assert forall j | 0 <= j < |ds| - 1 :: ds[j].doctors > 0;
      }
    }
  }

  /**
   * The imbalance warning is only considered with a week of data, and over
   * the latest 7 rows it fires exactly when `10 * admissions > 13 * discharges`.
   */
  lemma ImbalanceThreshold(daily: seq<DailyRow>)
    ensures |ImbalanceRule(daily)| <= 1
    ensures |daily| < WeekDays ==> ImbalanceRule(daily) == []
    ensures |daily| >= WeekDays ==>
      var week := Latest(daily, WeekDays);
      (ImbalanceRule(daily) != [] <==> 10 * Admissions(week) > 13 * Discharges(week))
    ensures forall i | 0 <= i < |ImbalanceRule(daily)| ::
      ImbalanceRule(daily)[i].severity == Avertissement && ImbalanceRule(daily)[i].department == AllDepartments
  {
    if |daily| >= WeekDays {
      var week := Latest(daily, WeekDays);
      var a, d := Admissions(week) as real, Discharges(week) as real;
      assert (a > d * ImbalanceFactor) <==> (10.0 * a > 13.0 * d);
    }
  }

  /**
   * The deficit warning is only considered with a month of data; over the
   * latest 30 rows it fires exactly when expenses exceed revenue, so the
   * deficit it reports is positive and is expenses minus revenue.
   */
  lemma DeficitThreshold(daily: seq<DailyRow>)
    ensures |DeficitRule(daily)| <= 1
    ensures |daily| < MonthDays ==> DeficitRule(daily) == []
    ensures |daily| >= MonthDays ==>
      var month := Latest(daily, MonthDays);
      (DeficitRule(daily) != [] <==> Expenses(month) > Revenue(month))
    ensures forall i | 0 <= i < |DeficitRule(daily)| ::
      var a := DeficitRule(daily)[i];
      a.severity == Avertissement && a.department == AllDepartments &&
      a.message.deficit > 0 && a.message.deficit == a.message.expenses - a.message.revenue
  {
  }

  /**
   * The whole alert list: it fails exactly when a department has no doctor;
   * otherwise it holds at most `3 * |departments| + 2` alerts, the critical
   * ones (per department) before the warnings, and at most two warnings.
   */
  lemma AlertsLayout(ds: seq<DepartmentRow>, daily: seq<DailyRow>)
    ensures AlertsOf(ds, daily).Failure? <==> exists i | 0 <= i < |ds| :: ds[i].doctors == 0
    ensures AlertsOf(ds, daily).Success? ==>
      var a := AlertsOf(ds, daily).value;
      && |a| <= 3 * |ds| + 2
      && (forall i, j | 0 <= i < j < |a| :: a[i].severity == Avertissement ==> a[j].severity == Avertissement)
      && Count(a, IsWarning) <= 2
  {
    SectionFailure(ds);
    if DepartmentSection(ds).Success? {
      SectionShape(ds);
      CrossAreWarnings(daily);
      AlertsOfParts(ds, daily);
      CriticalThenWarnings(DepartmentSection(ds).value, ImbalanceRule(daily) + DeficitRule(daily));
    }
  }

  /** The alert list is the department section followed by the two cross-department rules. */
  lemma AlertsOfParts(ds: seq<DepartmentRow>, daily: seq<DailyRow>)
    requires DepartmentSection(ds).Success?
    ensures AlertsOf(ds, daily).Success?
    ensures AlertsOf(ds, daily).value == DepartmentSection(ds).value + (ImbalanceRule(daily) + DeficitRule(daily))
  {
  }

  /** Critical alerts followed by at most two warnings. */
  lemma CriticalThenWarnings(section: seq<Alert>, cross: seq<Alert>)
    requires forall i | 0 <= i < |section| :: section[i].severity == Critique
    requires |cross| <= 2 && forall i | 0 <= i < |cross| :: cross[i].severity == Avertissement
    ensures var a := section + cross;
      && (forall i, j | 0 <= i < j < |a| :: a[i].severity == Avertissement ==> a[j].severity == Avertissement)
      && Count(a, IsWarning) <= 2
      && CriticalFirst(a) == a
  {
    var a := section + cross;
    assert forall i | |section| <= i < |a| :: a[i] == cross[i - |section|];
    SeparatedFilters(section, cross);
  }

  lemma SeparatedFilters(section: seq<Alert>, cross: seq<Alert>)
    requires forall i | 0 <= i < |section| :: section[i].severity == Critique
    requires forall i | 0 <= i < |cross| :: cross[i].severity == Avertissement
    ensures Filter(section + cross, IsCritical) == section
    ensures Filter(section + cross, IsWarning) == cross
  {
    FilterAll(section, IsCritical);
    FilterNone(section, IsWarning);
    FilterAll(cross, IsWarning);
    FilterNone(cross, IsCritical);
    FilterAppend(section, cross, IsCritical);
    FilterAppend(section, cross, IsWarning);
    AppendEmpty(section);
  }

  predicate IsCritical(a: Alert) { a.severity == Critique }
  predicate IsWarning(a: Alert) { a.severity == Avertissement }

  lemma {:induction false} FilterNone(s: seq<Alert>, p: Alert -> bool)
    requires forall i | 0 <= i < |s| :: !p(s[i])
    ensures Filter(s, p) == []
  {
    if s != [] {
      FilterNone(s[1..], p);
    }
  }

  // ---------------------------------------------------------------------------
  // Display order
  // ---------------------------------------------------------------------------

  /**
   * `sorted(alertes, key=lambda x: 0 if x['type'] == 'critique' else 1)`:
   * Python's sort is stable, so the result is the critical alerts in their
   * order followed by the others in theirs.
   */
  function CriticalFirst(alerts: seq<Alert>): seq<Alert>
  {
    Filter(alerts, IsCritical) + Filter(alerts, IsWarning)
  }

  /** Splitting a list into its critical alerts and its warnings loses no alert. */
  lemma SplitBySeverity(alerts: seq<Alert>)
    ensures multiset(Filter(alerts, IsCritical)) + multiset(Filter(alerts, IsWarning)) == multiset(alerts)
  {
    FilterPartition(alerts, IsCritical, IsWarning);
  }

  lemma CriticalFirstIsSortByKey(alerts: seq<Alert>)
    ensures multiset(CriticalFirst(alerts)) == multiset(alerts)
    ensures var r := CriticalFirst(alerts);
      forall i, j | 0 <= i < j < |r| :: r[i].severity == Avertissement ==> r[j].severity == Avertissement
  {
    SplitBySeverity(alerts);
    CriticalBeforeWarnings(Filter(alerts, IsCritical), Filter(alerts, IsWarning));
  }

  lemma CriticalBeforeWarnings(crit: seq<Alert>, warn: seq<Alert>)
    requires forall i | 0 <= i < |crit| :: IsCritical(crit[i])
    requires forall i | 0 <= i < |warn| :: IsWarning(warn[i])
    ensures var r := crit + warn;
      forall i, j | 0 <= i < j < |r| :: r[i].severity == Avertissement ==> r[j].severity == Avertissement
  {
    var r := crit + warn;
    assert forall i | 0 <= i < |crit| :: r[i] == crit[i];
    assert forall i | |crit| <= i < |r| :: r[i] == warn[i - |crit|];
  }

  /** The generator already lists critical alerts first, so the display keeps its order. */
  lemma DisplayKeepsGeneratedOrder(ds: seq<DepartmentRow>, daily: seq<DailyRow>)
    requires AlertsOf(ds, daily).Success?
    ensures CriticalFirst(AlertsOf(ds, daily).value) == AlertsOf(ds, daily).value
  {
    SectionShape(ds);
    CrossAreWarnings(daily);
    AlertsOfParts(ds, daily);
    CriticalThenWarnings(DepartmentSection(ds).value, ImbalanceRule(daily) + DeficitRule(daily));
  }

  lemma CrossAreWarnings(daily: seq<DailyRow>)
    ensures var cross := ImbalanceRule(daily) + DeficitRule(daily);
      |cross| <= 2 && forall i | 0 <= i < |cross| :: cross[i].severity == Avertissement
  {
    ImbalanceThreshold(daily);
    DeficitThreshold(daily);
  }
}
