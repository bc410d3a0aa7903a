/** server/controllers/authController.js: `login` looks the e-mail up in the
    Resident, Manager and ServiceProvider collections in that order, derives the
    role from the collection that matched, checks the password, and answers with
    a token signed over `{ id, role }` and a user summary. */
module AuthController {
  import opened Common
  import opened Models
  import opened AuthMiddleware

  /** The document a lookup found, tagged with the collection it came from
      (the `instanceof` tests of lines 28-33). */
  datatype Account = ResidentAccount(r: Resident) | ManagerAccount(m: Manager) | ProviderAccount(p: ServiceProvider)

  /** Lines 14-20: the first collection holding the e-mail wins. */
  function FindAccount(residents: map<string, Resident>, managers: map<string, Manager>,
                       providers: map<string, ServiceProvider>, email: string): Option<Account>
  {
    if email in residents then Some(ResidentAccount(residents[email]))
    else if email in managers then Some(ManagerAccount(managers[email]))
    else if email in providers then Some(ProviderAccount(providers[email]))
    else None
  }

  function AccountId(a: Account): Id
  {
    match a
    case ResidentAccount(r) => r.id
    case ManagerAccount(m) => m.id
    case ProviderAccount(p) => p.id
  }

  function AccountPassword(a: Account): Digest
  {
    match a
    case ResidentAccount(r) => r.password
    case ManagerAccount(m) => m.password
    case ProviderAccount(p) => p.password
  }

  const ServiceProviderRole := "serviceProvider"
  const BadCredentialsMessage := "Your Email or Password is incorrect"
  const TokenLifetime := "1h"

  /** `jwt.sign(payload, secret, { expiresIn })`, kept as what was signed. */
  datatype Token = Token(claims: Claims, expiresIn: string)

  /** The `user` object of the answer. */
  datatype UserView = UserView(id: Id, name: string, email: string, role: string, phone: string, apartmentCode: string)

  datatype LoginOutcome = LoggedIn(token: Token, user: UserView) | LoginRefused(response: Response)

  /** The role string of lines 28-33. */
  function RoleOf(a: Account): string
  {
    match a
    case ResidentAccount(_) => ResidentRole
    case ManagerAccount(_) => ManagerRole
    case ProviderAccount(_) => ServiceProviderRole
  }

  /** Lines 49-58, with `phone || ''` and the apartmentCode rule of line 57. A
      Manager document has no apartmentCode path, so it reads as "". */
  function ViewOf(a: Account): UserView
  {
    match a
    case ResidentAccount(r) =>
      UserView(r.id, r.name, r.email, ResidentRole, if Present(r.phone) then r.phone.value else "",
               if Present(r.apartmentCode) then r.apartmentCode.value else "")
    case ManagerAccount(m) => UserView(m.id, m.name, m.email, ManagerRole, m.phone, "")
    case ProviderAccount(p) => UserView(p.id, p.name, p.email, ServiceProviderRole, p.phone, "")
  }

  /** `login`. `password` is None when the body has no password, in which case
      bcrypt.compare throws and the handler answers 500. */
  function Login(residents: map<string, Resident>, managers: map<string, Manager>,
                 providers: map<string, ServiceProvider>, email: string, password: Option<string>): (o: LoginOutcome)
    // an unknown e-mail is refused with the same answer as a wrong password
    ensures email !in residents && email !in managers && email !in providers ==>
              o == LoginRefused(Response(400, BadCredentialsMessage))
    ensures o.LoginRefused? ==> o.response in {Response(400, BadCredentialsMessage), Response(500, ServerErrorMessage)}
    // the role names the first collection, in the order Resident, Manager, ServiceProvider, that holds the e-mail
    ensures o.LoggedIn? ==>
              && (o.user.role == ResidentRole <==> email in residents)
              && (o.user.role == ManagerRole <==> email !in residents && email in managers)
              && (o.user.role == ServiceProviderRole <==> email !in residents && email !in managers && email in providers)
    // a token is issued only for a matching password
    ensures o.LoggedIn? <==> && FindAccount(residents, managers, providers, email).Some? && password.Some?
                             && Matches(password.value, AccountPassword(FindAccount(residents, managers, providers, email).value))
    // a wrong password answers like an unknown e-mail; a missing one makes bcrypt.compare throw
    ensures FindAccount(residents, managers, providers, email).Some? && password.None? ==>
              o == LoginRefused(Response(500, ServerErrorMessage))
    ensures FindAccount(residents, managers, providers, email).Some? && password.Some?
            && !Matches(password.value, AccountPassword(FindAccount(residents, managers, providers, email).value)) ==>
              o == LoginRefused(Response(400, BadCredentialsMessage))
    // the token carries exactly { id, role } for one hour
    ensures o.LoggedIn? ==> o.token == Token(Claims(o.user.id, Some(o.user.role)), TokenLifetime)
    // the summary of the matched document: phone defaults to ""; only a resident
    // has an apartmentCode path, which also defaults to ""
    ensures o.LoggedIn? && email in residents ==>
              && Matches(password.value, residents[email].password)
              && o.user == UserView(residents[email].id, residents[email].name, residents[email].email, ResidentRole,
                                    if Present(residents[email].phone) then residents[email].phone.value else "",
                                    if Present(residents[email].apartmentCode) then residents[email].apartmentCode.value else "")
    ensures o.LoggedIn? && email !in residents && email in managers ==>
              && Matches(password.value, managers[email].password)
              && o.user == UserView(managers[email].id, managers[email].name, managers[email].email, ManagerRole,
                                    managers[email].phone, "")
    ensures o.LoggedIn? && email !in residents && email !in managers ==>
              && email in providers && Matches(password.value, providers[email].password)
              && o.user == UserView(providers[email].id, providers[email].name, providers[email].email, ServiceProviderRole,
                                    providers[email].phone, "")
  {
    match FindAccount(residents, managers, providers, email)
    case None => LoginRefused(Response(400, BadCredentialsMessage))
    case Some(account) =>
      if password.None? then LoginRefused(Response(500, ServerErrorMessage))
      else if !Matches(password.value, AccountPassword(account)) then LoginRefused(Response(400, BadCredentialsMessage))
      else
        var role := RoleOf(account);
        LoggedIn(Token(Claims(AccountId(account), Some(role)), TokenLifetime), ViewOf(account))
  }

  /** A wrong password gets exactly the answer an unknown e-mail gets: the
      response does not tell the two apart. */
  lemma WrongPasswordLooksLikeUnknownEmail(
    residents: map<string, Resident>, managers: map<string, Manager>,
    providers: map<string, ServiceProvider>, email: string, password: string)
    requires FindAccount(residents, managers, providers, email).Some?
    requires !Matches(password, AccountPassword(FindAccount(residents, managers, providers, email).value))
    ensures Login(residents, managers, providers, email, Some(password))
         == Login(map[], map[], map[], email, Some(password))
  {
  }

  /** A resident or manager who logs in gets a token whose payload passes the
      matching role gate, once `authenticate` has verified it. */
  lemma LoginTokenPassesRoleGate(
    residents: map<string, Resident>, managers: map<string, Manager>,
    providers: map<string, ServiceProvider>, email: string, password: string,
    headers: map<string, string>, token: string, verify: string -> Option<Claims>)
    requires Login(residents, managers, providers, email, Some(password)).LoggedIn?
    requires token != "" && verify(token) == Some(Login(residents, managers, providers, email, Some(password)).token.claims)
    ensures var o := Login(residents, managers, providers, email, Some(password));
            var g := Authenticate(headers["authorization" := BearerPrefix + token], verify);
            && g == Next(o.token.claims)
            && (email in residents ==> IsResident(g.user) == Next(o.token.claims))
            && (email !in residents && email in managers ==> IsManager(g.user) == Next(o.token.claims))
            && (email !in residents && email !in managers ==> IsResident(g.user).Deny? && IsManager(g.user).Deny?)
  {
    var o := Login(residents, managers, providers, email, Some(password));
    BearerHeaderAuthenticates(headers, token, verify, o.token.claims);
  }
}
