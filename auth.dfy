/** The `login` and `admin_login` handlers: look the user up by name, check the
    password, and choose the dashboard to redirect to from the user's role. */
module Auth {
  import opened Query
  import opened Models

  /** `User.query.filter_by(username=...).first()`. */
  function FindUser(users: seq<User>, username: string): (r: Option<User>)
    ensures r.Some? ==> r.value in users && r.value.username == username
    ensures r.None? <==> forall u :: u in users ==> u.username != username
  {
    First(users, (u: User) => u.username == username)
  }

  /** `User.query.filter_by(username=..., role='admin').first()`. */
  function FindAdmin(users: seq<User>, username: string): (r: Option<User>)
    ensures r.Some? ==> r.value in users && r.value.username == username && r.value.role == Admin
    ensures r.None? <==> forall u :: u in users ==> u.username != username || u.role != Admin
  {
    First(users, (u: User) => u.username == username && u.role == Admin)
  }

  /** The dashboard of each role; every role has its own. */
  function DashboardFor(role: Role): (p: Page)
    ensures p != Index && p != LoginForm
    ensures p == AdminDashboard <==> role == Admin
    ensures p == DoctorDashboard <==> role == Doctor
    ensures p == PatientDashboard <==> role == Patient
  {
    match role
    case Patient => PatientDashboard
    case Doctor => DoctorDashboard
    case Admin => AdminDashboard
  }

  /** `login`: signs in the first user with that name if the password checks,
      redirecting to that user's dashboard. */
  function Login(users: seq<User>, username: string, password: string): (o: Outcome)
    ensures o.SignedIn? || o == InvalidCredentials
    ensures o.SignedIn? <==> FindUser(users, username).Some? && CheckPassword(FindUser(users, username).value.password, password)
    ensures o.SignedIn? ==> o.user in users && o.user.username == username
    ensures o.SignedIn? ==> CheckPassword(o.user.password, password) && o.to == DashboardFor(o.user.role)
  {
    match FindUser(users, username)
    case Some(u) =>
      if CheckPassword(u.password, password) then SignedIn(u, DashboardFor(u.role)) else InvalidCredentials
    case None => InvalidCredentials
  }

  /** `admin_login`: like `login`, but only a user with role admin is looked up,
      and the redirect is always to the admin dashboard. */
  function AdminLogin(users: seq<User>, username: string, password: string): (o: Outcome)
    ensures o.SignedIn? || o == InvalidCredentials
    ensures o.SignedIn? <==> FindAdmin(users, username).Some? && CheckPassword(FindAdmin(users, username).value.password, password)
    ensures o.SignedIn? ==> o.user in users && o.user.username == username && o.user.role == Admin
    ensures o.SignedIn? ==> CheckPassword(o.user.password, password) && o.to == AdminDashboard
  {
    match FindAdmin(users, username)
    case Some(u) =>
      if CheckPassword(u.password, password) then SignedIn(u, AdminDashboard) else InvalidCredentials
    case None => InvalidCredentials
  }

  /** With unique usernames the user found by name is the only one with that name. */
  lemma FindUserUnique(users: seq<User>, u: User)
    requires UniqueUsernames(users)
    requires u in users
    ensures FindUser(users, u.username) == Some(u)
  {
  }

  /** Login succeeds exactly for a stored user whose password checks, and lands
      on that user's dashboard. */
  lemma LoginExactly(users: seq<User>, u: User, password: string)
    requires UniqueUsernames(users)
    requires u in users
    ensures Login(users, u.username, password)
            == (if CheckPassword(u.password, password) then SignedIn(u, DashboardFor(u.role)) else InvalidCredentials)
  {
  }

  /** A successful admin login is also a successful ordinary login of the same
      user, with the same redirect; ordinary login of a non-admin never passes admin login. */
  lemma AdminLoginRefinesLogin(users: seq<User>, username: string, password: string)
    requires UniqueUsernames(users)
    ensures AdminLogin(users, username, password).SignedIn? ==> Login(users, username, password) == AdminLogin(users, username, password)
    ensures Login(users, username, password).SignedIn? && Login(users, username, password).user.role != Admin
            ==> AdminLogin(users, username, password) == InvalidCredentials
  {
  }
}
