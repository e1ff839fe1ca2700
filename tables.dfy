/**
 * The four tables the dashboard hands to the insight engine, reduced to the
 * columns the engine and the filter stage read. Column names of the
 * dashboard are given beside each field.
 *
 * Timestamps (`date` of a daily row) are whole seconds since an epoch that
 * starts at midnight; calendar days are whole days since that epoch.
 */
module Tables {

  datatype Option<T> = None | Some(value: T)

  datatype Result<T, E> = Success(value: T) | Failure(error: E)

  /** One row of `departements_df`. */
  datatype DepartmentRow = DepartmentRow(
    name: string,           // departement
    currentPatients: nat,   // patientsActuels
    bedsAvailable: nat,     // litsDisponibles
    occupancy: real,        // tauxOccupation
    recovery: real,         // tauxRetablissement
    doctors: nat            // nombreMedecins
  )

  /** One row of `patients_df`. */
  datatype PatientRow = PatientRow(
    department: string,     // departement
    treatment: string,      // traitement
    outcome: string,        // resultat
    stay: nat,              // dureeHospitalisation, in days
    hospitalised: bool      // estHospitalise
  )

  /** One row of `personnel_df`; the filter stage reads only the department. */
  datatype StaffRow = StaffRow(
    department: string      // departement
  )

  /** One row of `quotidien_df`. */
  datatype DailyRow = DailyRow(
    date: int,              // date, a timestamp in seconds
    admissions: nat,        // nouvellesAdmissions
    discharges: nat,        // sorties
    revenue: nat,           // revenus
    expenses: nat           // depenses
  )

  /** The dashboard's own derivation of `tauxOccupation` from the two counts. */
  predicate OccupancyDerived(d: DepartmentRow)
  {
    d.bedsAvailable > 0 && d.occupancy == d.currentPatients as real / d.bedsAvailable as real
  }

  const SecondsPerDay: int := 86400

  /** The calendar day a timestamp falls on (`Timestamp.date()`). */
  function DayOf(t: int): int
  {
    t / SecondsPerDay
  }

  /** Midnight at the start of a calendar day (`pd.Timestamp(date)`). */
  function Midnight(day: int): int
  {
    day * SecondsPerDay
  }

  lemma MidnightOfDay(t: int)
    ensures Midnight(DayOf(t)) <= t < Midnight(DayOf(t) + 1)
  {
  }
}
