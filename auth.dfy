/**
 * The login decision: which answer `POST /api/login` gives for a login id and
 * password, given what the user lookup returned. The bcrypt comparison is a
 * parameter (`matches(password, hash)`), and token signing is not modelled.
 */
module Auth {
  import opened Wrappers
  import opened Schema
  import opened Store

  /** The answers of the login endpoint, in the order they are tried. */
  datatype LoginReply =
    | MissingCredentials   // 400
    | LookupFailed         // 500
    | UserNotFound         // 404
    | AccountPending       // 403
    | AccountRejected      // 403
    | WrongPassword        // 401
    | LoggedIn(user: User) // 200, with a token for this user

  function StatusCode(r: LoginReply): (code: nat)
    ensures code == 200 <==> r.LoggedIn?
    ensures code == 403 <==> r.AccountPending? || r.AccountRejected?
  {
    match r
    case MissingCredentials => 400
    case LookupFailed => 500
    case UserNotFound => 404
    case AccountPending => 403
    case AccountRejected => 403
    case WrongPassword => 401
    case LoggedIn(_) => 200
  }

  /**
   * The decision ladder: missing fields, lookup error, unknown user, pending
   * account, rejected account, wrong password, and only then success. The
   * empty string stands for a missing field.
   */
  function Login(loginId: string, password: string, lookup: Result<Option<User>, DbError>,
                 matches: (string, string) -> bool): (r: LoginReply)
    ensures r.LoggedIn? <==>
      && loginId != "" && password != ""
      && lookup.Success? && lookup.value.Some?
      && lookup.value.value.status != "PENDING" && lookup.value.value.status != "REJECTED"
      && matches(password, lookup.value.value.password)
    ensures r.LoggedIn? ==> lookup == Success(Some(r.user))
    ensures r == MissingCredentials <==> loginId == "" || password == ""
    ensures r == LookupFailed <==> loginId != "" && password != "" && lookup.Failure?
    ensures r == UserNotFound <==> loginId != "" && password != "" && lookup == Success(None)
    ensures r == AccountPending <==>
      && loginId != "" && password != "" && lookup.Success? && lookup.value.Some?
      && lookup.value.value.status == "PENDING"
    ensures r == AccountRejected <==>
      && loginId != "" && password != "" && lookup.Success? && lookup.value.Some?
      && lookup.value.value.status == "REJECTED"
    ensures r == WrongPassword <==>
      && loginId != "" && password != "" && lookup.Success? && lookup.value.Some?
      && lookup.value.value.status != "PENDING" && lookup.value.value.status != "REJECTED"
      && !matches(password, lookup.value.value.password)
  {
    if loginId == "" || password == "" then MissingCredentials
    else
      match lookup
      case Failure(_) => LookupFailed
      case Success(None) => UserNotFound
      case Success(Some(user)) =>
        if user.status == "PENDING" then AccountPending
        else if user.status == "REJECTED" then AccountRejected
        else if !matches(password, user.password) then WrongPassword
        else LoggedIn(user)
  }

  /**
   * The account status is checked before the password: a pending or rejected
   * account gets its 403 whatever the password and whatever the comparison says.
   */
  lemma StatusBeforePassword(loginId: string, password: string, password': string, user: User,
                             matches: (string, string) -> bool, matches': (string, string) -> bool)
    requires loginId != "" && password != "" && password' != ""
    requires user.status == "PENDING" || user.status == "REJECTED"
    ensures Login(loginId, password, Success(Some(user)), matches) ==
            Login(loginId, password', Success(Some(user)), matches')
    ensures StatusCode(Login(loginId, password, Success(Some(user)), matches)) == 403
  {
  }

  /**
   * Against the store: a freshly signed-up account cannot log in until it is
   * approved, and an approved one logs in exactly when the password matches.
   */
  lemma LoginAgainstStore(db: Database, loginId: string, password: string, matches: (string, string) -> bool)
    requires loginId != "" && password != ""
    ensures var r := Login(loginId, password, Success(db.FindUser(loginId)), matches);
      && (r == UserNotFound <==> forall i :: 0 <= i < |db.users| ==> db.users[i].loginId != loginId)
      && (r.LoggedIn? ==> r.user in db.users && r.user.loginId == loginId && r.user.status != "PENDING")
      && (db.FindUser(loginId).Some? && db.FindUser(loginId).value.status == "APPROVED" ==>
            (r.LoggedIn? <==> matches(password, db.FindUser(loginId).value.password)))
  {
  }
}
