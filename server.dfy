/** The running application's database: three tables that the handlers append
    rows to or update in place. Each method does what its route handler does to
    the tables, step by step, and is proved to agree with the handler's
    specification in module Handlers. */
module Server {
  import opened Models
  import Auth
  import Handlers
  import FileNames

  class Store {
    var users: seq<User>
    var appointments: seq<Appointment>
    var prescriptions: seq<Prescription>

    function Tables(): Db
      reads this
    {
      Db(users, appointments, prescriptions)
    }

    ghost predicate Valid()
      reads this
    {
      Models.Valid(Tables())
    }

    /** `db.create_all()` on a new database file. */
    constructor ()
      ensures Valid() && Tables() == EmptyDb
    {
      users, appointments, prescriptions := [], [], [];
    }

    /** `db.session.add(User(...))` and `commit`; `ok` is false when the unique
        index on `username` rejects the commit, and then nothing is stored. */
    method InsertUser(username: string, password: string, role: Role) returns (ok: bool)
      requires Valid()
      modifies this
      ensures Valid()
      ensures ok == Handlers.AddUser(old(Tables()), username, password, role).Some?
      ensures Tables() == if ok then Handlers.AddUser(old(Tables()), username, password, role).value else old(Tables())
    {
      var hashed := HashPassword(password);
      if Auth.FindUser(users, username).Some? {
        return false;
      }
      users := users + [User(|users| + 1, username, hashed, role)];
      ok := true;
    }

    /** The start-up block; `started` is false when the insert of the default
        admin fails, which stops the application. */
    method SeedAdmin() returns (started: bool)
      requires Valid()
      modifies this
      ensures Valid()
      ensures started == Handlers.SeedAdmin(old(Tables())).Some?
      ensures Tables() == if started then Handlers.SeedAdmin(old(Tables())).value else old(Tables())
    {
      if Handlers.HasAdmin(users) {
        return true;
      }
      started := InsertUser(Handlers.AdminUsername, Handlers.AdminPassword, Admin);
    }

    method Register(username: string, password: string) returns (outcome: Outcome)
      requires Valid()
      modifies this
      ensures Valid()
      ensures Tables() == Handlers.Register(old(Tables()), username, password).db
      ensures outcome == Handlers.Register(old(Tables()), username, password).outcome
    {
      var ok := InsertUser(username, password, Patient);
      outcome := if ok then Redirect(LoginForm) else IntegrityError;
    }

    method AddDoctor(caller: User, username: string, password: string) returns (outcome: Outcome)
      requires Valid()
      modifies this
      ensures Valid()
      ensures Tables() == Handlers.AddDoctor(old(Tables()), caller, username, password).db
      ensures outcome == Handlers.AddDoctor(old(Tables()), caller, username, password).outcome
    {
      if caller.role != Admin {
        return Denied;
      }
      var ok := InsertUser(username, password, Doctor);
      outcome := if ok then Redirect(AdminDashboard) else IntegrityError;
    }

    method BookAppointment(caller: User, doctorId: int, time: string) returns (outcome: Outcome)
      requires Valid()
      modifies this
      ensures Valid()
      ensures Tables() == Handlers.BookAppointment(old(Tables()), caller, doctorId, time).db
      ensures outcome == Handlers.BookAppointment(old(Tables()), caller, doctorId, time).outcome
    {
      appointments := appointments + [Appointment(|appointments| + 1, caller.id, doctorId, time, Pending)];
      outcome := Redirect(PatientDashboard);
    }

    /** Sets the status of the appointment in place, then commits. */
    method UpdateAppointment(caller: User, id: nat, action: string) returns (outcome: Outcome)
      requires Valid()
      modifies this
      ensures Valid()
      ensures Tables() == Handlers.UpdateAppointment(old(Tables()), caller, id, action).db
      ensures outcome == Handlers.UpdateAppointment(old(Tables()), caller, id, action).outcome
    {
      if id > MaxRowId {
        return IdOutOfRange;
      }
      var found := Handlers.FindAppointment(appointments, id);
      if found.None? {
        return NotFound;
      }
      var k := found.value;
      var appointment := appointments[k];
      if !Handlers.OwnsAppointment(caller, appointment) {
        return Denied;
      }
      if action == "accept" {
        appointments := appointments[k := appointment.(status := Accepted)];
      } else if action == "reject" {
        appointments := appointments[k := appointment.(status := Rejected)];
      }
      outcome := Redirect(DoctorDashboard);
    }

    method UploadPrescription(caller: User, appointmentId: nat, request: Handlers.UploadRequest) returns (outcome: Outcome)
      requires Valid()
      modifies this
      ensures Valid()
      ensures Tables() == Handlers.UploadPrescription(old(Tables()), caller, appointmentId, request).db
      ensures outcome == Handlers.UploadPrescription(old(Tables()), caller, appointmentId, request).outcome
    {
      if appointmentId > MaxRowId {
        return IdOutOfRange;
      }
      var found := Handlers.FindAppointment(appointments, appointmentId);
      if found.None? {
        return NotFound;
      }
      var appointment := appointments[found.value];
      if !Handlers.OwnsAppointment(caller, appointment) {
        return Denied;
      }
      if request.Post? && request.filename != "" {
        var filename := FileNames.StoredName(appointmentId, request.filename);
        prescriptions := prescriptions + [Prescription(|prescriptions| + 1, appointment.id, filename)];
        return Redirect(DoctorDashboard);
      }
      outcome := UploadForm(appointment);
    }
  }
}
