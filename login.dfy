/** The credential check of the login route: a read-only lookup of the
    account and a bcrypt comparison, with one uniform answer for both kinds
    of failure. bcrypt.compare is the parameter `verify`; `fault` says whether
    opening the connection or the SELECT fails. */
module Auth {
  import opened Ledger

  datatype Request = Request(accountNumber: string, password: string)

  datatype Outcome =
    | LoggedIn(accountNumber: AccountNo, fullName: string)
    | MissingCredentials    // 400 "Account number and password are required"
    | InvalidCredentials    // 401 "Invalid account number or password"
    | ServerError           // 500 "Internal server error"

  /** The text of the JSON answer; both kinds of bad credentials share one. */
  function Message(r: Outcome): (m: string)
    ensures m != ""
    ensures m == "Invalid account number or password" <==> r == InvalidCredentials
  {
    match r
    case LoggedIn(_, _) => "Login successful"
    case MissingCredentials => "Account number and password are required"
    case InvalidCredentials => "Invalid account number or password"
    case ServerError => "Internal server error"
  }

  /** The HTTP status of the answer. */
  function Status(r: Outcome): (code: int)
    ensures code == 200 <==> r.LoggedIn?
    ensures code == 400 <==> r == MissingCredentials
    ensures code == 401 <==> r == InvalidCredentials
    ensures code == 500 <==> r == ServerError
  {
    match r
    case LoggedIn(_, _) => 200
    case MissingCredentials => 400
    case InvalidCredentials => 401
    case ServerError => 500
  }

  /** The route reads the accounts table and writes nothing. It succeeds
      exactly when both fields are present, the database answers, the
      account exists and verify accepts the password against the stored
      hash; it then returns that account's number and name. */
  function Login(profiles: map<AccountNo, Profile>, req: Request, verify: (string, string) -> bool, fault: Fault): (r: Outcome)
    ensures r == MissingCredentials <==> req.accountNumber == "" || req.password == ""
    ensures r == ServerError <==> req.accountNumber != "" && req.password != "" && fault == ConnectFails
    ensures r.LoggedIn? <==>
      && req.accountNumber != "" && req.password != "" && fault != ConnectFails
      && req.accountNumber in profiles && verify(req.password, profiles[req.accountNumber].passwordHash)
    ensures r.LoggedIn? ==>
      r.accountNumber == req.accountNumber && r.accountNumber in profiles
      && r.fullName == profiles[r.accountNumber].fullName
    ensures r == InvalidCredentials <==>
      && req.accountNumber != "" && req.password != "" && fault != ConnectFails
      && (req.accountNumber !in profiles || !verify(req.password, profiles[req.accountNumber].passwordHash))
  {
    if req.accountNumber == "" || req.password == "" then MissingCredentials
    else if fault == ConnectFails then ServerError
    else if req.accountNumber !in profiles then InvalidCredentials
    else
      var account := profiles[req.accountNumber];
      if !verify(req.password, account.passwordHash) then InvalidCredentials
      else LoggedIn(req.accountNumber, account.fullName)
  }

  /** An unknown account and a wrong password are indistinguishable: the
      caller sees the same outcome, message and status for both. */
  lemma FailuresIndistinguishable(
    unknownIn: map<AccountNo, Profile>, wrongIn: map<AccountNo, Profile>,
    req: Request, verify: (string, string) -> bool, fault: Fault)
    requires req.accountNumber != "" && req.password != "" && fault != ConnectFails
    requires req.accountNumber !in unknownIn
    requires req.accountNumber in wrongIn && !verify(req.password, wrongIn[req.accountNumber].passwordHash)
    ensures Login(unknownIn, req, verify, fault) == Login(wrongIn, req, verify, fault) == InvalidCredentials
    ensures Status(Login(unknownIn, req, verify, fault)) == 401
    ensures Message(Login(wrongIn, req, verify, fault)) == "Invalid account number or password"
  {
  }

  /** The outcome depends on the stored data only through whether the
      account exists and what its hash and name are: two stores that agree on
      this account give the same answer. */
  lemma LoginDependsOnlyOnAccount(
    p: map<AccountNo, Profile>, q: map<AccountNo, Profile>, req: Request, verify: (string, string) -> bool, fault: Fault)
    requires (req.accountNumber in p) == (req.accountNumber in q)
    requires req.accountNumber in p ==> p[req.accountNumber].passwordHash == q[req.accountNumber].passwordHash
    requires req.accountNumber in p ==> p[req.accountNumber].fullName == q[req.accountNumber].fullName
    ensures Login(p, req, verify, fault) == Login(q, req, verify, fault)
  {
  }
}
