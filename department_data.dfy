/**
 * The per-department aggregates of the sample-data generator
 * (`generate_department_data`): one record for each of the six clinical
 * departments, computed from the generated patients and staff. The
 * `random.randint(50000, 200000)` surcharge of each department's operating
 * cost is an input.
 */
module DepartmentData {
  import opened Tables
  import opened Seqs
  import opened HealthData
  import opened Numbers

  /** One row of the department table. */
  datatype DepartmentRecord = DepartmentRecord(
    department: Department,
    totalPatients: nat,
    avgStay: real,
    totalRevenue: int,
    totalSalaries: int,
    operatingCost: int,
    recoveryRate: real,
    bedsAvailable: nat,
    currentlyAdmitted: nat,
    bedUtilization: real,
    staffCount: nat,
    doctorCount: nat,
    nurseCount: nat
  )

  const ExtraCostMin: int := 50000
  const ExtraCostMax: int := 200000

  /** The bed count of a clinical department; Administration has no entry. */
  function Beds(d: Department): (b: nat)
    requires d != Administration
    ensures b >= 30
  {
    match d
    case Cardiology => 50
    case Neurology => 40
    case Oncology => 60
    case Pediatrics => 45
    case Emergency => 30
    case Surgery => 35
  }

  function PatientDepartment(p: PatientRecord): Department { p.department }
  function StaffDepartment(s: StaffRecord): Department { s.department }
  function StayOf(p: PatientRecord): int { p.stayDuration }
  function CostOf(p: PatientRecord): int { p.treatmentCost }
  function SalaryOf(s: StaffRecord): int { s.salary }
  predicate Admitted(p: PatientRecord) { p.isAdmitted }
  predicate Discharged(p: PatientRecord) { !p.isAdmitted }
  /** The outcomes counted as a recovery (`['Recovered', 'Improved']`). */
  predicate Recovering(p: PatientRecord) { p.outcome == Recovered || p.outcome == Improved }
  predicate Everyone(p: PatientRecord) { true }
  predicate IsDoctor(s: StaffRecord) { s.role == Doctor }
  predicate IsNurse(s: StaffRecord) { s.role == Nurse }

  /** `dept_patients` */
  function PatientsIn(dept: Department, patients: seq<PatientRecord>): seq<PatientRecord>
  {
    Filter(patients, HasKey(PatientDepartment, dept))
  }

  /** `dept_staff` */
  function StaffIn(dept: Department, staff: seq<StaffRecord>): seq<StaffRecord>
  {
    Filter(staff, HasKey(StaffDepartment, dept))
  }

  /** The mean stay of a department's patients, 0 when it has none. */
  function AverageStay(ps: seq<PatientRecord>): real
  {
    if |ps| > 0 then Sum(ps, StayOf) as real / |ps| as real else 0.0
  }

  /** Recovered or improved among the discharged, 0 when nobody was discharged. */
  function RecoveryRate(ps: seq<PatientRecord>): real
  {
    var discharged := Filter(ps, Discharged);
    if |discharged| > 0 then Count(discharged, Recovering) as real / |discharged| as real else 0.0
  }

  /** The record of one department. */
  function DepartmentRecordOf(dept: Department, patients: seq<PatientRecord>, staff: seq<StaffRecord>,
                              extraCost: int): DepartmentRecord
    requires dept != Administration
  {
    var ps := PatientsIn(dept, patients);
    var ss := StaffIn(dept, staff);
    var salaries := Sum(ss, SalaryOf);
    var admitted := Count(ps, Admitted);
    DepartmentRecord(
      dept, |ps|, AverageStay(ps), Sum(ps, CostOf), salaries, salaries + extraCost,
      RecoveryRate(ps), Beds(dept), admitted, admitted as real / Beds(dept) as real,
      |ss|, Count(ss, IsDoctor), Count(ss, IsNurse))
  }

  /** The table, one record per clinical department in the generator's order. */
  function DepartmentsOf(patients: seq<PatientRecord>, staff: seq<StaffRecord>, extraCosts: seq<int>)
    : (rs: seq<DepartmentRecord>)
    requires |extraCosts| == |ClinicalDepartments|
    ensures |rs| == |ClinicalDepartments|
    ensures forall k | 0 <= k < |rs| :: rs[k].department == ClinicalDepartments[k] && rs[k].department != Administration
  {
    seq(|ClinicalDepartments|, k requires 0 <= k < |ClinicalDepartments| =>
      DepartmentRecordOf(ClinicalDepartments[k], patients, staff, extraCosts[k]))
  }

  /** `generate_department_data(patient_data, staff_data)`: `for dept in departments`. */
  method GenerateDepartments(patients: seq<PatientRecord>, staff: seq<StaffRecord>, extraCosts: seq<int>)
    returns (records: seq<DepartmentRecord>)
    requires |extraCosts| == |ClinicalDepartments|
    ensures records == DepartmentsOf(patients, staff, extraCosts)
  {
    ghost var table := DepartmentsOf(patients, staff, extraCosts);
    ClinicalDepartmentsDistinct();
    records := [];
    for k := 0 to |ClinicalDepartments|
      invariant records == table[..k]
    {
      var record := DepartmentRecordOf(ClinicalDepartments[k], patients, staff, extraCosts[k]);
      TableEntry(patients, staff, extraCosts, k);
      records := records + [record];
      assert table[..k + 1] == table[..k] + [table[k]];
    }
    assert table[..|table|] == table;
  }

  /** Entry `k` of the table is the record of the `k`-th clinical department. */
  lemma TableEntry(patients: seq<PatientRecord>, staff: seq<StaffRecord>, extraCosts: seq<int>, k: nat)
    requires |extraCosts| == |ClinicalDepartments| && k < |ClinicalDepartments|
    ensures ClinicalDepartments[k] != Administration
    ensures DepartmentsOf(patients, staff, extraCosts)[k]
         == DepartmentRecordOf(ClinicalDepartments[k], patients, staff, extraCosts[k])
  {
    ClinicalDepartmentsDistinct();
  }

  // ---------------------------------------------------------------------------
  // Properties of one record
  // ---------------------------------------------------------------------------

  /**
   * The recovery rate is a proportion: the share of recovered or improved
   * patients among the discharged ones, or 0 when none was discharged.
   */
  lemma RecoveryRateIsProportion(ps: seq<PatientRecord>)
    ensures 0.0 <= RecoveryRate(ps) <= 1.0
    ensures Count(ps, Discharged) == 0 ==> RecoveryRate(ps) == 0.0
  {
    var discharged := Filter(ps, Discharged);
    if |discharged| > 0 {
      CountMonotone(discharged, Recovering, Everyone);
      FilterAll(discharged, Everyone);
      var c := Count(discharged, Recovering) as real;
      var n := |discharged| as real;
      Proportion(c, n);
      assert RecoveryRate(ps) == c / n;
    }
  }

  /** Every patient of a department is either still admitted or discharged. */
  lemma AdmittedAndDischarged(ps: seq<PatientRecord>)
    ensures Count(ps, Admitted) + Count(ps, Discharged) == |ps|
  {
    CountComplement(ps, Admitted, Discharged);
  }

  /** The mean stay times the patient count is the total stay. */
  lemma AverageStayMeaning(ps: seq<PatientRecord>)
    ensures |ps| > 0 ==> AverageStay(ps) * |ps| as real == Sum(ps, StayOf) as real
    ensures |ps| == 0 ==> AverageStay(ps) == 0.0
  {
  }

  /** `dept_patients` holds exactly the patients of the department, in their order. */
  lemma PatientsInMembers(dept: Department, patients: seq<PatientRecord>)
    ensures forall p | p in patients && p.department == dept :: p in PatientsIn(dept, patients)
    ensures forall p | p in PatientsIn(dept, patients) :: p in patients && p.department == dept
  {
    var ps := PatientsIn(dept, patients);
    forall p | p in patients && p.department == dept
      ensures p in ps
    {
      var i :| 0 <= i < |patients| && patients[i] == p;
      HasKeyMeans(PatientDepartment, dept, p);
    }
    forall p | p in ps
      ensures p in patients && p.department == dept
    {
      var i :| 0 <= i < |ps| && ps[i] == p;
      HasKeyMeans(PatientDepartment, dept, p);
    }
  }

  /** The counts of a record never exceed the rows they are taken from. */
  lemma RecordCounts(dept: Department, patients: seq<PatientRecord>, staff: seq<StaffRecord>, extraCost: int)
    requires dept != Administration
    ensures var r := DepartmentRecordOf(dept, patients, staff, extraCost);
      && r.department == dept
      && r.currentlyAdmitted <= r.totalPatients
      && r.doctorCount + r.nurseCount <= r.staffCount
      && 0.0 <= r.recoveryRate <= 1.0
  {
    var ps := PatientsIn(dept, patients);
    AdmittedAndDischarged(ps);
    CountDisjoint(StaffIn(dept, staff), IsDoctor, IsNurse);
    RecoveryRateIsProportion(ps);
  }

  /**
   * The operating cost is the salaries plus a surcharge between 50000 and
   * 200000, and the bed utilisation is the admitted count over the beds.
   */
  lemma RecordCosts(dept: Department, patients: seq<PatientRecord>, staff: seq<StaffRecord>, extraCost: int)
    requires dept != Administration
    requires ExtraCostMin <= extraCost <= ExtraCostMax
    ensures var r := DepartmentRecordOf(dept, patients, staff, extraCost);
      && r.totalSalaries + ExtraCostMin <= r.operatingCost <= r.totalSalaries + ExtraCostMax
      && r.bedsAvailable > 0
      && r.bedUtilization * r.bedsAvailable as real == r.currentlyAdmitted as real
  {
    var r := DepartmentRecordOf(dept, patients, staff, extraCost);
    DivideBack(r.currentlyAdmitted as real, r.bedsAvailable as real);
  }

  // ---------------------------------------------------------------------------
  // Properties of the whole table
  // ---------------------------------------------------------------------------

  lemma ClinicalDepartmentsDistinct()
    ensures forall i, j | 0 <= i < j < |ClinicalDepartments| :: ClinicalDepartments[i] != ClinicalDepartments[j]
    ensures Administration !in ClinicalDepartments
  {
  }

  /** The `k`-th record counts the patients and the staff of the `k`-th department. */
  lemma RecordOfKey(patients: seq<PatientRecord>, staff: seq<StaffRecord>, extraCosts: seq<int>, k: nat)
    requires |extraCosts| == |ClinicalDepartments| && k < |ClinicalDepartments|
    ensures var r := DepartmentsOf(patients, staff, extraCosts)[k];
      && TotalPatientsOf(r) == CountByKey(patients, PatientDepartment)(ClinicalDepartments[k])
      && StaffCountOf(r) == CountByKey(staff, StaffDepartment)(ClinicalDepartments[k])
  {
  }

  /** The six records together count every patient of a clinical department once. */
  lemma TableCoversPatients(patients: seq<PatientRecord>, staff: seq<StaffRecord>, extraCosts: seq<int>)
    requires |extraCosts| == |ClinicalDepartments|
    ensures Sum(DepartmentsOf(patients, staff, extraCosts), TotalPatientsOf)
         == Count(patients, KeyAmong(PatientDepartment, ClinicalDepartments))
  {
    var rs := DepartmentsOf(patients, staff, extraCosts);
    forall k | 0 <= k < |rs|
      ensures TotalPatientsOf(rs[k]) == CountByKey(patients, PatientDepartment)(ClinicalDepartments[k])
    {
      RecordOfKey(patients, staff, extraCosts, k);
    }
    SumPointwise(rs, TotalPatientsOf, ClinicalDepartments, CountByKey(patients, PatientDepartment));
    ClinicalDepartmentsDistinct();
    GroupCounts(ClinicalDepartments, patients, PatientDepartment);
  }

  /** The six records together count every staff member outside Administration once. */
  lemma TableCoversStaff(patients: seq<PatientRecord>, staff: seq<StaffRecord>, extraCosts: seq<int>)
    requires |extraCosts| == |ClinicalDepartments|
    ensures Sum(DepartmentsOf(patients, staff, extraCosts), StaffCountOf)
          + Count(staff, HasKey(StaffDepartment, Administration)) == |staff|
  {
    var rs := DepartmentsOf(patients, staff, extraCosts);
    forall k | 0 <= k < |rs|
      ensures StaffCountOf(rs[k]) == CountByKey(staff, StaffDepartment)(ClinicalDepartments[k])
    {
      RecordOfKey(patients, staff, extraCosts, k);
    }
    SumPointwise(rs, StaffCountOf, ClinicalDepartments, CountByKey(staff, StaffDepartment));
    ClinicalDepartmentsDistinct();
    GroupCounts(ClinicalDepartments, staff, StaffDepartment);
    AdministrationComplement(staff);
  }

  lemma ClinicalUnlessAdministration(d: Department)
    ensures d in ClinicalDepartments <==> d != Administration
  {
  }

  /** Staff outside the clinical departments are exactly the Administration staff. */
  lemma AdministrationComplement(staff: seq<StaffRecord>)
    ensures Count(staff, KeyAmong(StaffDepartment, ClinicalDepartments))
          + Count(staff, HasKey(StaffDepartment, Administration)) == |staff|
  {
    forall s | s in staff
      ensures HasKey(StaffDepartment, Administration)(s) == !KeyAmong(StaffDepartment, ClinicalDepartments)(s)
    {
      HasKeyMeans(StaffDepartment, Administration, s);
      KeyAmongMeans(StaffDepartment, ClinicalDepartments, s);
      ClinicalUnlessAdministration(s.department);
    }
    CountComplement(staff, KeyAmong(StaffDepartment, ClinicalDepartments), HasKey(StaffDepartment, Administration));
  }

  function TotalPatientsOf(r: DepartmentRecord): int { r.totalPatients }
  function StaffCountOf(r: DepartmentRecord): int { r.staffCount }

  /** On the generated patients, who all belong to a clinical department, the table counts each of them. */
  lemma GeneratedTableCountsAllPatients(now: int, days: int, draws: seq<PatientDraw>,
                                        staff: seq<StaffRecord>, extraCosts: seq<int>)
    requires forall i | 0 <= i < |draws| :: ValidPatientDraw(draws[i], days)
    requires |extraCosts| == |ClinicalDepartments|
    ensures var patients := PatientsOf(now, days, draws);
      Sum(DepartmentsOf(patients, staff, extraCosts), TotalPatientsOf) == |patients|
  {
    var patients := PatientsOf(now, days, draws);
    GeneratedPatientsValid(now, days, draws);
    TableCoversPatients(patients, staff, extraCosts);
    forall p | p in patients
      ensures KeyAmong(PatientDepartment, ClinicalDepartments)(p)
    {
      var i :| 0 <= i < |patients| && patients[i] == p;
      KeyAmongMeans(PatientDepartment, ClinicalDepartments, p);
    }
    FilterAll(patients, KeyAmong(PatientDepartment, ClinicalDepartments));
  }

  /** Stays of 0 to 30 days have a mean of 0 to 30 days. */
  lemma AverageStayWithin(ps: seq<PatientRecord>)
    requires forall p | p in ps :: 0 <= p.stayDuration <= 30
    ensures 0.0 <= AverageStay(ps) <= 30.0
  {
    StaysBounded(ps);
    if |ps| > 0 {
      MeanWithin(Sum(ps, StayOf) as real, |ps| as real, 30.0);
    }
  }

  /** Every department's mean stay over the generated patients is between 0 and 30 days. */
  lemma GeneratedAverageStay(now: int, days: int, draws: seq<PatientDraw>, dept: Department)
    requires forall i | 0 <= i < |draws| :: ValidPatientDraw(draws[i], days)
    ensures 0.0 <= AverageStay(PatientsIn(dept, PatientsOf(now, days, draws))) <= 30.0
  {
    var patients := PatientsOf(now, days, draws);
    GeneratedStays(now, days, draws);
    PatientsInMembers(dept, patients);
    AverageStayWithin(PatientsIn(dept, patients));
  }

  lemma {:induction false} StaysBounded(ps: seq<PatientRecord>)
    requires forall p | p in ps :: 0 <= p.stayDuration <= 30
    ensures 0 <= Sum(ps, StayOf) <= 30 * |ps|
  {
    if ps != [] {
      StaysBounded(ps[1..]);
    }
  }
}
