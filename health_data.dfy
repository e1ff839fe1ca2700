/**
 * The record-building rules of the sample-data generator
 * (`generate_patient_data` and `generate_staff_data`).
 *
 * Every random draw of the generator is an input here: one `PatientDraw`
 * per patient and one `StaffDraw` per staff member, and `ValidPatientDraw` /
 * `ValidStaffDraw` state the ranges the draws come from. Timestamps are
 * whole seconds; `now` is the generator's `datetime.now()`.
 */
module HealthData {
  import opened Tables
  import opened Numbers

  datatype Department = Cardiology | Neurology | Oncology | Pediatrics | Emergency | Surgery | Administration
  datatype Treatment = Medication | Surgery | Therapy | Observation | IntensiveCare
  datatype Outcome = Recovered | Improved | Stable | Deteriorated | Deceased | InTreatment
  datatype Role = Doctor | Nurse | Technician | Administrative | Support
  datatype Gender = Male | Female

  /** The six clinical departments, in the generator's order. */
  const ClinicalDepartments: seq<Department> :=
    [Cardiology, Neurology, Oncology, Pediatrics, Emergency, Department.Surgery]

  /** The outcomes a discharged patient can be drawn with. */
  const DischargeOutcomes: seq<Outcome> := [Recovered, Improved, Stable, Deteriorated, Deceased]

  const PatientTotal: nat := 1000
  const StaffTotal: nat := 200
  const FirstId: nat := 1000

  // ---------------------------------------------------------------------------
  // Patients
  // ---------------------------------------------------------------------------

  /**
   * The draws behind one patient: the admission time as an offset into the
   * `days`-long window ending at `now`, the drawn stay in days, the choices,
   * and the two `random.random()` factors of the cost and the insurance.
   */
  datatype PatientDraw = PatientDraw(
    admissionOffset: int,
    stay: int,
    department: Department,
    treatment: Treatment,
    outcome: Outcome,
    costFactor: real,
    insuranceFactor: real,
    age: int,
    gender: Gender
  )

  predicate ValidPatientDraw(d: PatientDraw, days: int)
  {
    && 0 <= d.admissionOffset < days * SecondsPerDay
    && 1 <= d.stay <= 30
    && d.department in ClinicalDepartments
    && d.outcome in DischargeOutcomes
    && 0.0 <= d.costFactor < 1.0
    && 0.0 <= d.insuranceFactor < 1.0
    && 1 <= d.age <= 95
  }

  /**
   * One patient record; `id` stands for the `patientId` string `"P<id>"`,
   * and the two dates are calendar days (`format_date` keeps only the day).
   */
  datatype PatientRecord = PatientRecord(
    id: nat,
    age: int,
    gender: Gender,
    department: Department,
    admissionDate: int,
    dischargeDate: Option<int>,
    stayDuration: int,
    treatment: Treatment,
    outcome: Outcome,
    treatmentCost: int,
    insuranceCovered: int,
    isAdmitted: bool
  )

  /** The department's base cost per day (`.get(department, 1200)`). */
  function DepartmentBaseCost(d: Department): int
  {
    match d
    case Cardiology => 1500
    case Neurology => 1800
    case Oncology => 2200
    case Pediatrics => 1000
    case Emergency => 2000
    case Surgery => 3000
    case Administration => 1200
  }

  /** The base cost with the surgery and intensive-care surcharges. */
  function BaseCost(d: Department, t: Treatment): int
  {
    var base := DepartmentBaseCost(d);
    var withSurgery := if t == Treatment.Surgery then base + 5000 else base;
    if t == IntensiveCare then withSurgery + 3000 else withSurgery
  }

  /** `base_cost * (0.8 + random() * 0.4) * stay_duration`, before rounding. */
  function RawCost(base: int, stay: int, f: real): real
  {
    base as real * (0.8 + f * 0.4) * stay as real
  }

  /** `treatment_cost * (0.7 + random() * 0.25)`, before rounding. */
  function RawInsurance(cost: real, f: real): real
  {
    cost * (0.7 + f * 0.25)
  }

  /** `random_date(now - timedelta(days=days), now)`: the admission timestamp. */
  function AdmissionTime(now: int, days: int, d: PatientDraw): int
  {
    now - days * SecondsPerDay + d.admissionOffset
  }

  /** `admission_date + timedelta(days=stay_duration)`: the discharge timestamp. */
  function DischargeTime(now: int, days: int, d: PatientDraw): int
  {
    AdmissionTime(now, days, d) + d.stay * SecondsPerDay
  }

  /** The `i`-th patient the generator builds from its draws. */
  function PatientOf(now: int, days: int, i: nat, d: PatientDraw): PatientRecord
  {
    var admission := AdmissionTime(now, days, d);
    var discharge := DischargeTime(now, days, d);
    var isAdmitted := discharge > now;
    PatientRecord(
      FirstId + i, d.age, d.gender, d.department, DayOf(admission),
      if isAdmitted then None else Some(DayOf(discharge)),
      if isAdmitted then (now - admission) / SecondsPerDay else d.stay,
      d.treatment,
      if isAdmitted then InTreatment else d.outcome,
      Round(RawCost(BaseCost(d.department, d.treatment), d.stay, d.costFactor)),
      Round(RawInsurance(RawCost(BaseCost(d.department, d.treatment), d.stay, d.costFactor), d.insuranceFactor)),
      isAdmitted)
  }

  function PatientsOf(now: int, days: int, draws: seq<PatientDraw>): (ps: seq<PatientRecord>)
    ensures |ps| == |draws|
  {
    seq(|draws|, i requires 0 <= i < |draws| => PatientOf(now, days, i, draws[i]))
  }

  /** `generate_patient_data(days)`: one record per iteration of `for i in range(1000)`. */
  method GeneratePatients(now: int, days: int, draws: seq<PatientDraw>) returns (patients: seq<PatientRecord>)
    requires |draws| == PatientTotal
    ensures patients == PatientsOf(now, days, draws)
  {
    patients := [];
    for i := 0 to PatientTotal
      invariant |patients| == i
      invariant forall j | 0 <= j < i :: patients[j] == PatientOf(now, days, j, draws[j])
    {
      patients := patients + [PatientOf(now, days, i, draws[i])];
    }
  }

  /** Moving a timestamp by whole days moves its calendar day by as many. */
  lemma DayAfter(t: int, k: int)
    ensures DayOf(t + k * SecondsPerDay) == DayOf(t) + k
  {
    MidnightOfDay(t);
    var q := DayOf(t);
    assert Midnight(q + k) <= t + k * SecondsPerDay < Midnight(q + k + 1);
    QuotientBounds(t + k * SecondsPerDay, SecondsPerDay);
  }

  /**
   * A patient is still admitted exactly when the drawn stay reaches past
   * `now`; then the outcome is "In Treatment", there is no discharge date and
   * the recorded stay is the whole days so far, shorter than the drawn stay.
   * Otherwise the discharge date lies `stay` days after the admission date
   * and the recorded stay is the drawn one. Admissions fall in the
   * `days`-long window before `now`.
   */
  lemma AdmissionRules(now: int, days: int, i: nat, d: PatientDraw)
    requires ValidPatientDraw(d, days)
    ensures var p := PatientOf(now, days, i, d);
      && (p.isAdmitted <==> d.admissionOffset + d.stay * SecondsPerDay > days * SecondsPerDay)
      && (p.outcome == InTreatment <==> p.isAdmitted)
      && (p.dischargeDate.None? <==> p.isAdmitted)
      && (p.isAdmitted ==> 0 <= p.stayDuration < d.stay)
      && (!p.isAdmitted ==> p.stayDuration == d.stay && p.dischargeDate == Some(p.admissionDate + d.stay))
      && now - days * SecondsPerDay <= AdmissionTime(now, days, d) < now
  {
    var p := PatientOf(now, days, i, d);
    if p.isAdmitted {
      var elapsed := now - AdmissionTime(now, days, d);
      assert 0 < elapsed < d.stay * SecondsPerDay;
      QuotientBounds(elapsed, SecondsPerDay);
    } else {
      DayAfter(AdmissionTime(now, days, d), d.stay);
    }
  }

  /**
   * Before rounding, the cost lies between 0.8 and 1.2 times the base cost
   * times the stay; every department's base cost is at least 1000 a day.
   */
  lemma CostBounds(base: int, stay: int, f: real)
    requires base >= 1000 && stay >= 1 && 0.0 <= f < 1.0
    ensures base as real * stay as real * 0.8 <= RawCost(base, stay, f) <= base as real * stay as real * 1.2
    ensures RawCost(base, stay, f) >= 800.0
  {
    var n := base as real * stay as real;
    ScaleMonotone(base as real, 1.0, stay as real);
    assert RawCost(base, stay, f) == n * (0.8 + f * 0.4);
    DrawnFactor(n, f, 0.8, 0.4, 1.2);
  }

  /** The recorded cost is a positive whole amount of at least 800. */
  lemma CostRounded(base: int, stay: int, f: real)
    requires base >= 1000 && stay >= 1 && 0.0 <= f < 1.0
    ensures Round(RawCost(base, stay, f)) >= 800
  {
    CostBounds(base, stay, f);
    RoundMonotone(800.0, RawCost(base, stay, f));
    RoundOfInteger(800);
  }

  /** The insurer covers between 70% and 95% of the cost. */
  lemma InsuranceBounds(cost: real, f: real)
    requires cost > 0.0 && 0.0 <= f < 1.0
    ensures cost * 0.7 <= RawInsurance(cost, f) <= cost * 0.95
  {
    DrawnFactor(cost, f, 0.7, 0.25, 0.95);
  }

  /** After rounding, the insured amount never exceeds the cost. */
  lemma InsuranceRounded(cost: real, f: real)
    requires cost > 0.0 && 0.0 <= f < 1.0
    ensures Round(RawInsurance(cost, f)) <= Round(cost)
  {
    InsuranceBounds(cost, f);
    RoundMonotone(RawInsurance(cost, f), cost);
  }

  /** Every department's base cost is at least 1000, surcharges included. */
  lemma BaseCostAtLeast(d: Department, t: Treatment)
    ensures BaseCost(d, t) >= 1000
  {
  }

  /** The generated patients carry the identifiers 1000, 1001, ... in order, so no two share one. */
  lemma PatientIdsDistinct(now: int, days: int, draws: seq<PatientDraw>)
    ensures var ps := PatientsOf(now, days, draws);
      forall i, j | 0 <= i < |ps| && 0 <= j < |ps| :: ps[i].id == ps[j].id <==> i == j
  {
  }

  /** No generated patient belongs to Administration, and every rule above holds for each. */
  lemma GeneratedPatientsValid(now: int, days: int, draws: seq<PatientDraw>)
    requires forall i | 0 <= i < |draws| :: ValidPatientDraw(draws[i], days)
    ensures var ps := PatientsOf(now, days, draws);
      forall i | 0 <= i < |ps| ::
        && ps[i].department in ClinicalDepartments
        && (ps[i].outcome == InTreatment <==> ps[i].isAdmitted)
        && (ps[i].dischargeDate.None? <==> ps[i].isAdmitted)
        && 800 <= ps[i].treatmentCost
        && ps[i].insuranceCovered <= ps[i].treatmentCost
  {
    var ps := PatientsOf(now, days, draws);
    forall i | 0 <= i < |ps|
      ensures && ps[i].department in ClinicalDepartments
              && (ps[i].outcome == InTreatment <==> ps[i].isAdmitted)
              && (ps[i].dischargeDate.None? <==> ps[i].isAdmitted)
              && 800 <= ps[i].treatmentCost
              && ps[i].insuranceCovered <= ps[i].treatmentCost
    {
      var d := draws[i];
      AdmissionRules(now, days, i, d);
      BaseCostAtLeast(d.department, d.treatment);
      var base := BaseCost(d.department, d.treatment);
      CostBounds(base, d.stay, d.costFactor);
      CostRounded(base, d.stay, d.costFactor);
      InsuranceRounded(RawCost(base, d.stay, d.costFactor), d.insuranceFactor);
    }
  }

  /** Every generated patient's recorded stay lies between 0 and 30 days. */
  lemma GeneratedStays(now: int, days: int, draws: seq<PatientDraw>)
    requires forall i | 0 <= i < |draws| :: ValidPatientDraw(draws[i], days)
    ensures forall p | p in PatientsOf(now, days, draws) :: 0 <= p.stayDuration <= 30
  {
    var ps := PatientsOf(now, days, draws);
    forall p | p in ps
      ensures 0 <= p.stayDuration <= 30
    {
      var i :| 0 <= i < |ps| && ps[i] == p;
      AdmissionRules(now, days, i, draws[i]);
    }
  }

  // ---------------------------------------------------------------------------
  // Staff
  // ---------------------------------------------------------------------------

  /** The draws behind one staff member. */
  datatype StaffDraw = StaffDraw(department: Department, role: Role, years: int, handled: int)

  predicate ValidStaffDraw(d: StaffDraw)
  {
    0 <= d.years <= 30 && 10 <= d.handled <= 100
  }

  /** One staff record; `id` stands for the `staffId` string `"S<id>"`. */
  datatype StaffRecord = StaffRecord(
    id: nat,
    department: Department,
    role: Role,
    yearsOfService: int,
    salary: int,
    patientsHandled: int
  )

  /** The base salary by role (`.get(role, 45000)`). */
  function RoleSalary(r: Role): int
  {
    match r
    case Doctor => 120000
    case Nurse => 70000
    case Technician => 60000
    case Administrative => 50000
    case Support => 40000
  }

  /** The base salary, raised by a fifth in Surgery and Cardiology. */
  function BaseSalary(dept: Department, r: Role): (s: real)
    ensures s >= 40000.0
  {
    if dept == Department.Surgery || dept == Cardiology then RoleSalary(r) as real * 1.2 else RoleSalary(r) as real
  }

  /** `base_salary * (1 + years_of_service * 0.02)`, before rounding. */
  function RawSalary(dept: Department, r: Role, years: int): real
  {
    BaseSalary(dept, r) * (1.0 + years as real * 0.02)
  }

  function Salary(dept: Department, r: Role, years: int): int
  {
    Round(RawSalary(dept, r, years))
  }

  function StaffOf(i: nat, d: StaffDraw): StaffRecord
  {
    StaffRecord(FirstId + i, d.department, d.role, d.years, Salary(d.department, d.role, d.years),
                if d.role == Doctor || d.role == Nurse then d.handled else 0)
  }

  function StaffListOf(draws: seq<StaffDraw>): (s: seq<StaffRecord>)
    ensures |s| == |draws|
  {
    seq(|draws|, i requires 0 <= i < |draws| => StaffOf(i, draws[i]))
  }

  /** `generate_staff_data()`: one record per iteration of `for i in range(200)`. */
  method GenerateStaff(draws: seq<StaffDraw>) returns (staff: seq<StaffRecord>)
    requires |draws| == StaffTotal
    ensures staff == StaffListOf(draws)
  {
    staff := [];
    for i := 0 to StaffTotal
      invariant |staff| == i
      invariant forall j | 0 <= j < i :: staff[j] == StaffOf(j, draws[j])
    {
      staff := staff + [StaffOf(i, draws[i])];
    }
  }

  /** Within a role and department, a longer service never earns less. */
  lemma SalaryMonotone(dept: Department, r: Role, y1: int, y2: int)
    requires 0 <= y1 <= y2
    ensures Salary(dept, r, y1) <= Salary(dept, r, y2)
  {
    ScaleMonotone(BaseSalary(dept, r), 1.0 + y1 as real * 0.02, 1.0 + y2 as real * 0.02);
    RoundMonotone(RawSalary(dept, r, y1), RawSalary(dept, r, y2));
  }

  /** A newcomer earns the base salary of the role, with the department raise. */
  lemma StartingSalary(dept: Department, r: Role)
    ensures Salary(dept, r, 0) ==
      if dept == Department.Surgery || dept == Cardiology then RoleSalary(r) * 6 / 5 else RoleSalary(r)
  {
    var base := BaseSalary(dept, r);
    assert RawSalary(dept, r, 0) == base;
    if dept == Department.Surgery || dept == Cardiology {
      assert base == (RoleSalary(r) * 6 / 5) as real;
      RoundOfInteger(RoleSalary(r) * 6 / 5);
    } else {
      RoundOfInteger(RoleSalary(r));
    }
  }

  /** Only doctors and nurses handle patients, between 10 and 100 of them. */
  lemma HandledRule(i: nat, d: StaffDraw)
    requires ValidStaffDraw(d)
    ensures var s := StaffOf(i, d);
      (s.role == Doctor || s.role == Nurse <==> s.patientsHandled > 0) &&
      (s.patientsHandled > 0 ==> 10 <= s.patientsHandled <= 100)
  {
  }
}
