/** The role-guarded read-only handlers: `admin_dashboard`, `patient_dashboard`,
    `view_history` and `doctor_dashboard`. Each refuses a caller of the wrong
    role and otherwise lists rows selected by `filter_by`. */
module Views {
  import opened Query
  import opened Models

  /** A page the caller may see, or the access-denied redirect. A shown view
      carries rows, which `Models.Outcome` has no place for, so the views keep
      their own answer type; `AccessDenied` is the same answer as `Outcome.Denied`. */
  datatype Guarded<T> = Shown(view: T) | AccessDenied

  datatype AdminView = AdminView(doctors: seq<User>, patients: seq<User>)
  datatype PatientView = PatientView(doctors: seq<User>, appointments: seq<Appointment>)
  datatype HistoryView = HistoryView(appointments: seq<Appointment>, prescriptions: seq<Prescription>)

  /** The row filters of the dashboard queries. */
  function WithRole(role: Role): User -> bool
  {
    (u: User) => u.role == role
  }

  function OfPatient(patientId: nat): Appointment -> bool
  {
    (a: Appointment) => a.patientId == patientId
  }

  function OfDoctor(doctorId: int): Appointment -> bool
  {
    (a: Appointment) => a.doctorId == doctorId
  }

  /** `User.query.filter_by(role=...).all()`. */
  function UsersWithRole(users: seq<User>, role: Role): (r: seq<User>)
    ensures forall u :: u in r <==> u in users && u.role == role
  {
    Filter(users, WithRole(role))
  }

  /** `Appointment.query.filter_by(patient_id=...).all()`. */
  function AppointmentsOfPatient(appointments: seq<Appointment>, patientId: nat): (r: seq<Appointment>)
    ensures forall a :: a in r <==> a in appointments && a.patientId == patientId
  {
    Filter(appointments, OfPatient(patientId))
  }

  /** `Appointment.query.filter_by(doctor_id=...).all()`. */
  function AppointmentsOfDoctor(appointments: seq<Appointment>, doctorId: int): (r: seq<Appointment>)
    ensures forall a :: a in r <==> a in appointments && a.doctorId == doctorId
  {
    Filter(appointments, OfDoctor(doctorId))
  }

  /** `admin_dashboard`: all doctors and all patients, for an admin only. */
  function AdminDashboardView(db: Db, caller: User): (r: Guarded<AdminView>)
    ensures r.Shown? <==> caller.role == Admin
    ensures r.Shown? ==> forall u :: u in r.view.doctors <==> u in db.users && u.role == Doctor
    ensures r.Shown? ==> forall u :: u in r.view.patients <==> u in db.users && u.role == Patient
  {
    if caller.role != Admin then AccessDenied
    else Shown(AdminView(UsersWithRole(db.users, Doctor), UsersWithRole(db.users, Patient)))
  }

  /** `patient_dashboard`: all doctors and the caller's own appointments, for a patient only. */
  function PatientDashboardView(db: Db, caller: User): (r: Guarded<PatientView>)
    ensures r.Shown? <==> caller.role == Patient
    ensures r.Shown? ==> forall u :: u in r.view.doctors <==> u in db.users && u.role == Doctor
    ensures r.Shown? ==> forall a :: a in r.view.appointments <==> a in db.appointments && a.patientId == caller.id
  {
    if caller.role != Patient then AccessDenied
    else Shown(PatientView(UsersWithRole(db.users, Doctor), AppointmentsOfPatient(db.appointments, caller.id)))
  }

  /** `view_history`: the caller's own appointments and every prescription in
      the system, whoever's appointment it belongs to, for a patient only. */
  function HistoryViewOf(db: Db, caller: User): (r: Guarded<HistoryView>)
    ensures r.Shown? <==> caller.role == Patient
    ensures r.Shown? ==> forall a :: a in r.view.appointments <==> a in db.appointments && a.patientId == caller.id
    ensures r.Shown? ==> r.view.prescriptions == db.prescriptions
  {
    if caller.role != Patient then AccessDenied
    else Shown(HistoryView(AppointmentsOfPatient(db.appointments, caller.id), db.prescriptions))
  }

  /** `doctor_dashboard`: the appointments whose doctor is the caller, for a doctor only. */
  function DoctorDashboardView(db: Db, caller: User): (r: Guarded<seq<Appointment>>)
    ensures r.Shown? <==> caller.role == Doctor
    ensures r.Shown? ==> forall a :: a in r.view <==> a in db.appointments && a.doctorId == caller.id
  {
    if caller.role != Doctor then AccessDenied
    else Shown(AppointmentsOfDoctor(db.appointments, caller.id))
  }
}
