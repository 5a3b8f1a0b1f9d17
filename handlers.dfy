/** The state-changing handlers as functions from the database before a request
    to the database after it and the answer: the start-up admin seed, `register`,
    `add_doctor`, `book_appointment`, `update_appointment` and `upload_prescription`.
    The caller, which the application reads from the session, is a parameter. */
module Handlers {
  import opened Query
  import opened Models
  import Auth
  import Views
  import FileNames

  const AdminUsername: string := "admin"
  const AdminPassword: string := "admin123"

  /** `User.query.filter_by(role='admin').first()` finds a row. */
  predicate HasAdmin(users: seq<User>)
    ensures HasAdmin(users) <==> exists u :: u in users && u.role == Admin
  {
    First(users, Views.WithRole(Admin)).Some?
  }

  predicate UsernameTaken(users: seq<User>, username: string)
  {
    exists u :: u in users && u.username == username
  }

  /** `after` is `before` with one user row appended (the next id, the name, a
      hash that accepts exactly `password`, the role) and nothing else changed. */
  predicate AddsUser(before: Db, after: Db, username: string, password: string, role: Role)
  {
    && after.appointments == before.appointments
    && after.prescriptions == before.prescriptions
    && |after.users| == |before.users| + 1
    && after.users[..|before.users|] == before.users
    && after.users[|before.users|] == User(|before.users| + 1, username, HashPassword(password), role)
  }

  /** Adding a `User` row and committing: the unique index on `username` makes
      the commit fail, and nothing is stored, when the name is already taken. */
  function AddUser(db: Db, username: string, password: string, role: Role): (r: Option<Db>)
    ensures r.None? <==> UsernameTaken(db.users, username)
    ensures r.Some? ==> AddsUser(db, r.value, username, password, role)
    ensures r.Some? && Valid(db) ==> Valid(r.value)
  {
    if Auth.FindUser(db.users, username).Some? then None
    else Some(db.(users := db.users + [User(|db.users| + 1, username, HashPassword(password), role)]))
  }

  /** The start-up block: adds the default admin when no admin row exists. None
      means its insert failed (the name is held by a non-admin) and the
      application does not start. */
  function SeedAdmin(db: Db): (r: Option<Db>)
    ensures HasAdmin(db.users) ==> r == Some(db)
    ensures !HasAdmin(db.users) ==> (r.None? <==> UsernameTaken(db.users, AdminUsername))
    ensures !HasAdmin(db.users) && r.Some? ==> AddsUser(db, r.value, AdminUsername, AdminPassword, Admin)
    ensures r.Some? ==> HasAdmin(r.value.users)
    ensures r.Some? && Valid(db) ==> Valid(r.value)
  {
    if HasAdmin(db.users) then Some(db)
    else
      var r := AddUser(db, AdminUsername, AdminPassword, Admin);
      assert r.Some? ==> r.value.users[|db.users|] in r.value.users;
      r
  }

  /** Starting the application again after a successful start changes nothing. */
  lemma SeedIdempotent(db: Db)
    requires SeedAdmin(db).Some?
    ensures SeedAdmin(SeedAdmin(db).value) == SeedAdmin(db)
  {
  }

  /** On an empty database the first start leaves exactly one user, the admin. */
  lemma SeedEmpty()
    ensures SeedAdmin(EmptyDb).Some?
    ensures SeedAdmin(EmptyDb).value.users == [User(1, "admin", HashPassword("admin123"), Admin)]
    ensures Views.UsersWithRole(SeedAdmin(EmptyDb).value.users, Admin) == SeedAdmin(EmptyDb).value.users
  {
  }

  /** `register`: always creates a patient; fails with nothing stored when the
      name is taken. */
  function Register(db: Db, username: string, password: string): (r: Response)
    ensures r.outcome == Redirect(LoginForm) || r.outcome == IntegrityError
    ensures r.outcome == IntegrityError <==> UsernameTaken(db.users, username)
    ensures r.outcome == IntegrityError ==> r.db == db
    ensures r.outcome == Redirect(LoginForm) ==> AddsUser(db, r.db, username, password, Patient)
    ensures Valid(db) ==> Valid(r.db)
  {
    match AddUser(db, username, password, Patient)
    case None => Response(db, IntegrityError)
    case Some(d) => Response(d, Redirect(LoginForm))
  }

  /** After registering, logging in with the same credentials opens a session for
      the new patient and lands on the patient dashboard. */
  lemma RegisterThenLogin(db: Db, username: string, password: string)
    requires Valid(db)
    requires !UsernameTaken(db.users, username)
    ensures var d := Register(db, username, password).db;
            Auth.Login(d.users, username, password) == SignedIn(d.users[|db.users|], PatientDashboard)
  {
  }

  /** `add_doctor`: a non-admin caller is refused with nothing changed; an admin
      adds one doctor, unless the name is taken. */
  function AddDoctor(db: Db, caller: User, username: string, password: string): (r: Response)
    ensures caller.role != Admin ==> r == Response(db, Denied)
    ensures caller.role == Admin ==> r.outcome == Redirect(AdminDashboard) || r.outcome == IntegrityError
    ensures caller.role == Admin ==> (r.outcome == IntegrityError <==> UsernameTaken(db.users, username))
    ensures r.outcome != Redirect(AdminDashboard) ==> r.db == db
    ensures r.outcome == Redirect(AdminDashboard) ==> AddsUser(db, r.db, username, password, Doctor)
    ensures Valid(db) ==> Valid(r.db)
  {
    if caller.role != Admin then Response(db, Denied)
    else match AddUser(db, username, password, Doctor)
      case None => Response(db, IntegrityError)
      case Some(d) => Response(d, Redirect(AdminDashboard))
  }

  /** `book_appointment`: appends one pending appointment for the caller with the
      chosen doctor id and time. There is no role check and no check that the
      doctor id names a doctor. */
  function BookAppointment(db: Db, caller: User, doctorId: int, time: string): (r: Response)
    ensures r.outcome == Redirect(PatientDashboard)
    ensures r.db.users == db.users && r.db.prescriptions == db.prescriptions
    ensures |r.db.appointments| == |db.appointments| + 1
    ensures r.db.appointments[..|db.appointments|] == db.appointments
    ensures var a := r.db.appointments[|db.appointments|];
            a.patientId == caller.id && a.doctorId == doctorId && a.time == time && a.status == Pending
    ensures Valid(db) ==> Valid(r.db)
    ensures Valid(db) ==> forall a :: a in db.appointments ==> a.id != r.db.appointments[|db.appointments|].id
  {
    var a := Appointment(|db.appointments| + 1, caller.id, doctorId, time, Pending);
    Response(db.(appointments := db.appointments + [a]), Redirect(PatientDashboard))
  }

  /** A booking appears at the end of the caller's list and of the chosen doctor's
      list; no other patient's list changes. */
  lemma BookingListed(db: Db, caller: User, doctorId: int, time: string)
    ensures var after := BookAppointment(db, caller, doctorId, time).db.appointments;
            var a := after[|db.appointments|];
            && Views.AppointmentsOfPatient(after, caller.id) == Views.AppointmentsOfPatient(db.appointments, caller.id) + [a]
            && Views.AppointmentsOfDoctor(after, doctorId) == Views.AppointmentsOfDoctor(db.appointments, doctorId) + [a]
            && forall p: nat :: p != caller.id ==>
                 Views.AppointmentsOfPatient(after, p) == Views.AppointmentsOfPatient(db.appointments, p)
  {
    var after := BookAppointment(db, caller, doctorId, time).db.appointments;
    var a := after[|db.appointments|];
    assert after == db.appointments + [a];
    Query.FilterAppend(db.appointments, a, Views.OfPatient(caller.id));
    Query.FilterAppend(db.appointments, a, Views.OfDoctor(doctorId));
    forall p: nat | p != caller.id
      ensures Views.AppointmentsOfPatient(after, p) == Views.AppointmentsOfPatient(db.appointments, p)
    {
      Query.FilterAppend(db.appointments, a, Views.OfPatient(p));
    }
  }

  function HasId(id: nat): Appointment -> bool
  {
    (a: Appointment) => a.id == id
  }

  /** `Appointment.query.get_or_404(id)`: the position of the row with that id. */
  function FindAppointment(appointments: seq<Appointment>, id: nat): (r: Option<nat>)
    ensures r.Some? ==> r.value < |appointments| && appointments[r.value].id == id
    ensures r.None? <==> forall a :: a in appointments ==> a.id != id
    ensures (forall i :: 0 <= i < |appointments| ==> appointments[i].id == i + 1)
            ==> (r.Some? <==> 1 <= id <= |appointments|) && (r.Some? ==> r.value == id - 1)
  {
    var r := FirstIndex(appointments, HasId(id));
    assert (forall i :: 0 <= i < |appointments| ==> appointments[i].id == i + 1) && 1 <= id <= |appointments|
           ==> HasId(id)(appointments[id - 1]);
    r
  }

  /** The guard of `update_appointment` and `upload_prescription`: the caller is
      a doctor and is the appointment's doctor. */
  predicate OwnsAppointment(caller: User, a: Appointment)
  {
    caller.role == Doctor && a.doctorId == caller.id
  }

  /** The status an action leaves: `accept` and `reject` overwrite whatever the
      status was; any other action keeps it. */
  function NextStatus(status: Status, action: string): (s: Status)
    ensures s == Accepted <==> action == "accept" || (action != "reject" && status == Accepted)
    ensures s == Rejected <==> action == "reject" || (action != "accept" && status == Rejected)
  {
    if action == "accept" then Accepted
    else if action == "reject" then Rejected
    else status
  }

  /** `update_appointment`: an id SQLite cannot hold, not found, refused, or the
      status of exactly the targeted appointment set by the action. */
  function UpdateAppointment(db: Db, caller: User, id: nat, action: string): (r: Response)
    ensures r.outcome in {IdOutOfRange, NotFound, Denied, Redirect(DoctorDashboard)}
    ensures r.outcome == IdOutOfRange <==> id > MaxRowId
    ensures r.outcome == NotFound <==> id <= MaxRowId && forall a :: a in db.appointments ==> a.id != id
    ensures r.outcome != Redirect(DoctorDashboard) ==> r.db == db
    ensures r.db.users == db.users && r.db.prescriptions == db.prescriptions
    ensures |r.db.appointments| == |db.appointments|
    ensures var f := FindAppointment(db.appointments, id);
            id <= MaxRowId && f.Some? ==> (r.outcome == Denied <==> !OwnsAppointment(caller, db.appointments[f.value]))
    ensures var f := FindAppointment(db.appointments, id);
            r.outcome == Redirect(DoctorDashboard) ==>
              && f.Some?
              && (forall j :: 0 <= j < |db.appointments| && j != f.value ==> r.db.appointments[j] == db.appointments[j])
              && r.db.appointments[f.value]
                 == db.appointments[f.value].(status := NextStatus(db.appointments[f.value].status, action))
    ensures Valid(db) ==> Valid(r.db)
  {
    if id > MaxRowId then Response(db, IdOutOfRange)
    else match FindAppointment(db.appointments, id)
    case None => Response(db, NotFound)
    case Some(k) =>
      var a := db.appointments[k];
      if !OwnsAppointment(caller, a) then Response(db, Denied)
      else
        var updated := a.(status := NextStatus(a.status, action));
        Response(db.(appointments := db.appointments[k := updated]), Redirect(DoctorDashboard))
  }

  /** Nothing restricts a decision to pending appointments: once the owning doctor
      has accepted an appointment, the same doctor can reject it. */
  lemma RejectAfterAccept(db: Db, caller: User, id: nat)
    requires UpdateAppointment(db, caller, id, "accept").outcome == Redirect(DoctorDashboard)
    ensures FindAppointment(db.appointments, id).Some?
    ensures var k := FindAppointment(db.appointments, id).value;
            var accepted := UpdateAppointment(db, caller, id, "accept").db;
            var rejected := UpdateAppointment(accepted, caller, id, "reject");
            && accepted.appointments[k].status == Accepted
            && rejected.outcome == Redirect(DoctorDashboard)
            && rejected.db.appointments[k].status == Rejected
  {
  }

  /** The method of an `upload_prescription` request: a GET shows the form; a
      POST carries the chosen file's name (empty when no file was chosen). */
  datatype UploadRequest = Get | Post(filename: string)

  /** `upload_prescription`: an id SQLite cannot hold, not found, refused, the
      form shown again, or one prescription recorded under the stored name of the
      uploaded file. */
  function UploadPrescription(db: Db, caller: User, appointmentId: nat, request: UploadRequest): (r: Response)
    ensures r.outcome == IdOutOfRange <==> appointmentId > MaxRowId
    ensures r.outcome == NotFound <==> appointmentId <= MaxRowId && forall a :: a in db.appointments ==> a.id != appointmentId
    ensures !r.outcome.Redirect? ==> r.db == db
    ensures r.db.users == db.users && r.db.appointments == db.appointments
    ensures var f := FindAppointment(db.appointments, appointmentId);
            appointmentId <= MaxRowId && f.Some? ==> (r.outcome == Denied <==> !OwnsAppointment(caller, db.appointments[f.value]))
    ensures var f := FindAppointment(db.appointments, appointmentId);
            appointmentId <= MaxRowId && f.Some? && OwnsAppointment(caller, db.appointments[f.value]) ==>
              if request.Post? && request.filename != "" then r.outcome == Redirect(DoctorDashboard)
              else r.outcome == UploadForm(db.appointments[f.value])
    ensures r.outcome.Redirect? ==>
              && request.Post?
              && |r.db.prescriptions| == |db.prescriptions| + 1
              && r.db.prescriptions[..|db.prescriptions|] == db.prescriptions
              && r.db.prescriptions[|db.prescriptions|].id == |db.prescriptions| + 1
              && r.db.prescriptions[|db.prescriptions|].appointmentId == appointmentId
              && r.db.prescriptions[|db.prescriptions|].fileUrl == FileNames.StoredName(appointmentId, request.filename)
              && FileNames.SplitStoredName(r.db.prescriptions[|db.prescriptions|].fileUrl)
                 == Some((appointmentId, request.filename))
    ensures Valid(db) ==> Valid(r.db)
  {
    if appointmentId > MaxRowId then Response(db, IdOutOfRange)
    else match FindAppointment(db.appointments, appointmentId)
    case None => Response(db, NotFound)
    case Some(k) =>
      var a := db.appointments[k];
      if !OwnsAppointment(caller, a) then Response(db, Denied)
      else if request.Get? || request.filename == "" then Response(db, UploadForm(a))
      else
        var p := Prescription(|db.prescriptions| + 1, a.id, FileNames.StoredName(appointmentId, request.filename));
        Response(db.(prescriptions := db.prescriptions + [p]), Redirect(DoctorDashboard))
  }
}
