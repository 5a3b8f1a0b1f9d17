/** The three tables of the application (users, appointments, prescriptions),
    the handler outcomes, and the password-hash abstraction. */
module Models {

  /** The role column; the code only ever stores one of these three values. */
  datatype Role = Patient | Doctor | Admin

  /** The appointment status column; a new row defaults to `Pending`. */
  datatype Status = Pending | Accepted | Rejected

  /** A stored password hash. The key derivation itself is not modelled: a hash
      remembers the password it was made from, so that checking a candidate
      against it succeeds exactly for that password. */
  datatype PasswordHash = Pbkdf2Sha256(secret: string)

  /** `generate_password_hash`: the only password its check accepts is the one hashed. */
  function HashPassword(password: string): (h: PasswordHash)
    ensures forall candidate :: CheckPassword(h, candidate) <==> candidate == password
  {
    Pbkdf2Sha256(password)
  }

  /** `check_password_hash`: the candidate passes exactly when deriving a hash
      from it gives the stored one. */
  predicate CheckPassword(h: PasswordHash, candidate: string)
    ensures CheckPassword(h, candidate) <==> h == Pbkdf2Sha256(candidate)
  {
    h.secret == candidate
  }

  /** The two halves of the hash/check pair: a stored hash accepts a candidate
      exactly when it is the hash made from that candidate. */
  lemma CheckPasswordMatchesHash(h: PasswordHash, candidate: string)
    ensures CheckPassword(h, candidate) <==> h == HashPassword(candidate)
    ensures CheckPassword(HashPassword(candidate), candidate)
  {
  }

  datatype User = User(id: nat, username: string, password: PasswordHash, role: Role)

  /** `doctorId` is whatever the booking form sent; nothing ties it to a user row. */
  datatype Appointment = Appointment(id: nat, patientId: nat, doctorId: int, time: string, status: Status)

  datatype Prescription = Prescription(id: nat, appointmentId: nat, fileUrl: string)

  /** The whole database. Rows are kept in insertion order. */
  datatype Db = Db(users: seq<User>, appointments: seq<Appointment>, prescriptions: seq<Prescription>)

  const EmptyDb := Db([], [], [])

  /** The largest value of SQLite's signed 64-bit INTEGER. The route converter
      `<int:...>` accepts any digit string; a larger id cannot be bound as a query
      parameter, and the request ends in an uncaught `OverflowError`. */
  const MaxRowId: nat := 0x7FFF_FFFF_FFFF_FFFF

  /** The unique constraint on `user.username`: a name determines the row. */
  predicate UniqueUsernames(users: seq<User>)
    ensures UniqueUsernames(users) ==>
              forall u, v :: u in users && v in users && u.username == v.username ==> u == v
  {
    forall i, j :: 0 <= i < j < |users| ==> users[i].username != users[j].username
  }

  /** Rows are never deleted, so the integer primary key of the row at position i
      is i + 1; in particular no two rows of a table share a key. */
  predicate Valid(db: Db)
    ensures Valid(db) ==> forall u, v :: u in db.users && v in db.users && u.id == v.id ==> u == v
    ensures Valid(db) ==> forall a, b :: a in db.appointments && b in db.appointments && a.id == b.id ==> a == b
    ensures Valid(db) ==> forall p, q :: p in db.prescriptions && q in db.prescriptions && p.id == q.id ==> p == q
  {
    && (forall i :: 0 <= i < |db.users| ==> db.users[i].id == i + 1)
    && (forall i :: 0 <= i < |db.appointments| ==> db.appointments[i].id == i + 1)
    && (forall i :: 0 <= i < |db.prescriptions| ==> db.prescriptions[i].id == i + 1)
    && UniqueUsernames(db.users)
  }

  /** The pages a handler can redirect to. */
  datatype Page = Index | LoginForm | AdminDashboard | PatientDashboard | DoctorDashboard

  /** What a state-changing handler answers. */
  datatype Outcome =
    | Redirect(to: Page)                    // the write succeeded; redirect
    | SignedIn(user: User, to: Page)        // session opened for `user`; redirect
    | Denied                                // 'Access denied' notice; redirect to the landing page
    | NotFound                              // `get_or_404` on an unknown id
    | IdOutOfRange                          // id past `MaxRowId`; uncaught server error
    | InvalidCredentials                    // notice; login form shown again
    | IntegrityError                        // unique constraint failed on commit; uncaught server error
    | UploadForm(appointment: Appointment)  // the upload form for the appointment is shown

  /** A handler's effect: the database after the request and the answer. */
  datatype Response = Response(db: Db, outcome: Outcome)
}
