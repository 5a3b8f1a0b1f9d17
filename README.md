# Hospital appointment booking — Dafny model

A model of the appointment-booking web application in `app.py`. Patients register and
book appointments with doctors. Doctors accept or reject those appointments and upload
prescriptions for them. An admin, seeded at start-up, adds doctor accounts. Login sends each
user to the dashboard of their role.

The model keeps the three tables (users, appointments, prescriptions) in memory as
sequences of rows in insertion order. Rows are never deleted, so the row at position `i`
has the integer primary key `i + 1` (`Models.Valid`, together with the unique index on
`username`).

- `Models` holds the rows, the roles and statuses, the handler outcomes and the password
  hash abstraction.
- `Query` holds `filter_by(...).first()` and `filter_by(...).all()` as `First` and `Filter`
  over a table.
- `Auth` holds `login` and `admin_login`: look up by name, check the password, then redirect
  by role.
- `Views` holds the four read-only dashboards, each guarded by the caller's role.
- `FileNames` holds the stored name of an uploaded prescription, `<id>_<filename>`, and its
  inverse.
- `Handlers` holds each state-changing handler as a function from the database before the
  request to the database after it and the answer (`Response`). The lemmas that relate
  several requests are here too.
- `Server.Store` is the database the running application changes. It is a class with the
  three tables as fields. Its methods append rows and assign statuses in place, as the route
  handlers do, and each method is proved to agree with its function in `Handlers`.

The caller, which the application takes from the login session, is an explicit `User`
parameter of every handler that uses it. Outcomes stand for what the handler answers.
`Redirect(page)` is a redirect after success. `Denied` is the "Access denied" notice with a
redirect to the landing page. `NotFound` is a 404 from `get_or_404`. `IntegrityError` is the
uncaught unique-constraint failure of a commit, after which nothing is stored. `IdOutOfRange`
is the uncaught `OverflowError` when a URL id is larger than SQLite's signed 64-bit INTEGER
(`Models.MaxRowId`, 2^63 - 1) and cannot be passed to the query; it is a server error, not a
404, and nothing is stored.

## Behaviour of the code worth knowing

The model follows the code as written in each case.

- The intended appointment life cycle is pending to accepted, or pending to rejected, with
  both final. The code does not enforce it: `update_appointment` (app.py:184-187)
  overwrites any status. `Handlers.RejectAfterAccept` proves that the owning doctor can
  reject an appointment they have already accepted.
- `view_history` (app.py:164) lists every prescription in the system, not only those for
  the caller's appointments. `Views.HistoryViewOf` states exactly that.
- `book_appointment` (app.py:146-155) has no role check, so any signed-in user can book.
  It also does not check that the doctor id names a doctor.
- A duplicate username is not checked by the handlers. The unique index rejects the
  commit, and the request ends in a server error (`IntegrityError`).

## Model

| member | source | states |
|---|---|---|
| `Models.UniqueUsernames` | app.py:21 | the unique constraint on the username: two rows with the same name are the same row |
| `Models.Valid` | app.py:20-34 | the primary key of each table's row at position i is i + 1, so no two rows of a table share a key; usernames are unique |
| `Models.CheckPassword` | app.py:79 | the password check accepts a candidate exactly when deriving a hash from it gives the stored hash |
| `Models.HashPassword` | app.py:65 | the stored hash accepts exactly the password it was made from and no other candidate |
| `Models.CheckPasswordMatchesHash` | app.py:65-79 | the check and the hash form a pair: a stored hash accepts a candidate exactly when it is the hash made from that candidate |
| `Query.First` | app.py:78 | `.first()` returns a matching row of the table, and none only when no row matches |
| `Query.Filter` | app.py:174 | `.all()` returns exactly the rows that satisfy the filter and is no longer than the table |
| `Query.FilterAppend` | app.py:152 | appending a row to a table appends it to a query's result exactly when it matches the filter |
| `FileNames.DecimalString` | app.py:202 | the id is rendered as decimal digits with no leading zero; it has one digit exactly when the id is below 10 |
| `FileNames.ParseDecimalString` | app.py:202 | reading the decimal rendering back gives the id |
| `FileNames.StoredName` | app.py:202 | the stored name is the decimal rendering of the appointment id, an underscore, then the original filename; it splits at its first underscore back into the id and the filename |
| `FileNames.DecimalStringOfParse` | app.py:202 | every digit string without a leading zero is the decimal rendering of the number it reads as |
| `FileNames.SplitStoredNameInverse` | app.py:202 | a name that splits is exactly the stored name rebuilt from its parts, so a zero-padded prefix never splits |
| `FileNames.StoredNameInjective` | app.py:202-204 | two uploads get the same stored name exactly when the appointment and the filename are both the same |
| `FileNames.StoredNameExample` | app.py:202 | `report.pdf` uploaded for appointment 5 is stored as `5_report.pdf`, and `05_report.pdf` is no upload's stored name |
| `Auth.FindUser` | app.py:78 | the user found has the requested name; none is found only when no user has it |
| `Auth.FindAdmin` | app.py:103 | the user found has the requested name and role admin; none is found only when no admin has that name |
| `Auth.DashboardFor` | app.py:81-86 | each role is sent to its own dashboard, never to the landing page or the login form |
| `Auth.Login` | app.py:73-89 | sign-in succeeds if and only if the user found by name exists and the password checks; the redirect is that user's role dashboard; otherwise invalid credentials |
| `Auth.AdminLogin` | app.py:98-109 | sign-in succeeds if and only if an admin with that name exists and the password checks; the redirect is the admin dashboard |
| `Auth.FindUserUnique` | app.py:21 | with unique usernames, the lookup by a user's name finds exactly that user |
| `Auth.LoginExactly` | app.py:78-86 | for a stored user, login succeeds exactly when the password checks, and lands on the dashboard of that user's role |
| `Auth.AdminLoginRefinesLogin` | app.py:103-106 | a successful admin login is the same sign-in as an ordinary login; a non-admin who can log in is refused by admin login |
| `Views.UsersWithRole` | app.py:117-118 | lists exactly the users with the role |
| `Views.AppointmentsOfPatient` | app.py:143 | lists exactly the appointments whose patient id is the given one |
| `Views.AppointmentsOfDoctor` | app.py:174 | lists exactly the appointments whose doctor id is the given one |
| `Views.AdminDashboardView` | app.py:111-119 | shown if and only if the caller is an admin, with exactly the doctors and exactly the patients |
| `Views.PatientDashboardView` | app.py:136-144 | shown if and only if the caller is a patient, with exactly the doctors and exactly the caller's appointments |
| `Views.HistoryViewOf` | app.py:157-165 | shown if and only if the caller is a patient, with exactly the caller's appointments and all prescriptions, unfiltered |
| `Views.DoctorDashboardView` | app.py:168-175 | shown if and only if the caller is a doctor, with exactly the appointments whose doctor is the caller |
| `Handlers.AddUser` | app.py:66-68 | fails exactly when the name is taken; otherwise appends one user with the next id and changes nothing else; keeps ids and unique names valid |
| `Handlers.HasAdmin` | app.py:45 | the existence test of the seed holds exactly when some user has role admin |
| `Handlers.SeedAdmin` | app.py:43-52 | with an admin present the database is unchanged; otherwise exactly one user `admin` with role admin and password `admin123` is added, or start-up fails if that name is taken; afterwards an admin exists; keeps the invariant |
| `Handlers.SeedIdempotent` | app.py:45 | seeding twice is the same as seeding once |
| `Handlers.SeedEmpty` | app.py:43-52 | on an empty database the first start leaves exactly one user, the admin, and it is the only admin |
| `Handlers.Register` | app.py:60-70 | adds exactly one user with role patient and the given name and password, or fails with nothing changed exactly when the name is taken; keeps the invariant |
| `Handlers.RegisterThenLogin` | app.py:60-86 | after a successful registration, login with the same credentials signs in the new patient and lands on the patient dashboard |
| `Handlers.AddDoctor` | app.py:121-133 | a non-admin caller is denied and nothing changes; an admin adds exactly one doctor, or fails with nothing changed exactly when the name is taken; keeps the invariant |
| `Handlers.BookAppointment` | app.py:146-155 | appends exactly one appointment, pending, for the caller, with the given doctor id and time and a fresh id; nothing else changes |
| `Handlers.BookingListed` | app.py:146-155 | the new booking is appended to the caller's appointment list and to the doctor's list; every other patient's list is unchanged |
| `Handlers.FindAppointment` | app.py:180 | finds the row with the requested id, or none when no row has it; with valid ids, it is found exactly when the id is in range, at position id - 1; the handlers call it only for ids up to 2^63 - 1 |
| `Handlers.OwnsAppointment` | app.py:181 | the guard of update and upload: the caller is a doctor and is the appointment's doctor |
| `Handlers.NextStatus` | app.py:184-187 | `accept` gives accepted and `reject` gives rejected whatever the prior status; any other action keeps the status |
| `Handlers.UpdateAppointment` | app.py:177-189 | a server error exactly when the id is past 2^63 - 1; otherwise not found exactly when no row has the id; denied exactly when the caller is not a doctor or not that appointment's doctor; any failure changes nothing; on success only the targeted row's status changes |
| `Handlers.RejectAfterAccept` | app.py:184-188 | an appointment accepted by its doctor can then be rejected by the same doctor |
| `Handlers.UploadPrescription` | app.py:192-210 | server error, not found and denied as for updates, with nothing changed; a request with no file shows the form; otherwise exactly one prescription is appended for the appointment, recorded under the stored name of the id and the filename, which splits back into both |
| `Server.Store.constructor` | app.py:44 | the tables start empty |
| `Server.Store.InsertUser` | app.py:66-68 | the tables become those of `Handlers.AddUser`, or are unchanged when the commit is rejected |
| `Server.Store.SeedAdmin` | app.py:43-52 | the tables become those of `Handlers.SeedAdmin`, and the invariant is kept |
| `Server.Store.Register` | app.py:60-70 | the tables and the outcome are those of `Handlers.Register` |
| `Server.Store.AddDoctor` | app.py:121-133 | the tables and the outcome are those of `Handlers.AddDoctor` |
| `Server.Store.BookAppointment` | app.py:146-155 | the tables and the outcome are those of `Handlers.BookAppointment` |
| `Server.Store.UpdateAppointment` | app.py:177-189 | the status is assigned in place; the tables and the outcome are those of `Handlers.UpdateAppointment` |
| `Server.Store.UploadPrescription` | app.py:192-210 | the tables and the outcome are those of `Handlers.UploadPrescription` |

## Left out

- HTTP routing, templates, flash messages and `url_for`: these are framework I/O. Handler
  answers are the `Outcome` values above. GET requests that only render a form are not
  modelled, except the upload form, which is shown after the same guards.
- The login session (`login_user`, `logout_user`, `current_user`, `load_user`,
  `login_required`): the caller is a parameter. Requests from a caller who is not signed in
  are not modelled. Logout and the landing page have no logic.
- Password hashing: the key derivation and its salt are not modelled. A hash is a value
  that accepts exactly the password it was made from.
- Database ids are positions plus one, because rows are never deleted.
- Query results are returned in table (insertion) order. This is a modelling assumption:
  the queries have no `ORDER BY`, so SQL promises no order at all, and table order is only
  what SQLite's full scan happens to return. `Query.Filter` and `Query.First` fix that
  order, and `Query.FilterAppend` and `Handlers.BookingListed` (the booking ends up last in
  the lists) hold only under it. Which rows are returned does not depend on it.
- Column types and lengths (`String(50)` and so on) are not enforced by SQLite and are not
  modelled. The booking form's `doctor_id` is taken as an integer. Coercion of a
  non-numeric form value is not modelled.
- `Handlers.BookAppointment`: a `doctor_id` form value outside SQLite's signed 64-bit range
  is stored by the column's INTEGER affinity as an approximate REAL; the model stores the
  exact integer, so for such a value its clause `a.doctorId == doctorId` promises more than
  the database keeps.
- Missing form fields, which make the framework answer 400, are not modelled.
- Saving the uploaded file, the upload directory, and serving files back from it are file
  system I/O. Only the recorded file name is modelled.
- Roles and statuses are closed enumerations. The code only ever stores the three literal
  role strings and the three status strings. So the case in `login` where a signed-in user
  has none of the three roles, and the login form is rendered again, cannot occur and is
  not modelled.
