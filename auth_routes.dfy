/** server/routes/authRoutes.js: the inline `POST /login` handler. It looks the
    e-mail up in the same order as the controller, but signs the role stored in
    the matched document instead of one derived from its collection. */
module AuthRoutes {
  import opened Common
  import opened Models
  import opened AuthMiddleware
  import AuthController

  /** The `user` object of the answer: exactly id, name, email and role. */
  datatype InlineUserView = InlineUserView(id: Id, name: string, email: string, role: Option<string>)

  datatype InlineLoginOutcome = InlineLoggedIn(token: AuthController.Token, user: InlineUserView)
                              | InlineLoginRefused(response: Response)

  /** `user.role` of the matched document. The Resident schema has no role
      path, so a resident's reads as undefined. */
  function StoredRole(a: AuthController.Account): Option<string>
  {
    match a
    case ResidentAccount(_) => None
    case ManagerAccount(m) => Some(m.role)
    case ProviderAccount(p) => Some(p.role)
  }

  function InlineViewOf(a: AuthController.Account): InlineUserView
  {
    match a
    case ResidentAccount(r) => InlineUserView(r.id, r.name, r.email, None)
    case ManagerAccount(m) => InlineUserView(m.id, m.name, m.email, Some(m.role))
    case ProviderAccount(p) => InlineUserView(p.id, p.name, p.email, Some(p.role))
  }

  /** The inline `POST /login` handler (lines 9-48). */
  function InlineLogin(residents: map<string, Resident>, managers: map<string, Manager>,
                       providers: map<string, ServiceProvider>, email: string, password: Option<string>): (o: InlineLoginOutcome)
    ensures o.InlineLoginRefused? ==>
              o.response in {Response(400, AuthController.BadCredentialsMessage), Response(500, ServerErrorMessage)}
    // not found and wrong password give the same 400
    ensures email !in residents && email !in managers && email !in providers ==>
              o == InlineLoginRefused(Response(400, AuthController.BadCredentialsMessage))
    ensures o.InlineLoggedIn? <==>
              && AuthController.FindAccount(residents, managers, providers, email).Some? && password.Some?
              && Matches(password.value, AuthController.AccountPassword(AuthController.FindAccount(residents, managers, providers, email).value))
    // a wrong password answers like an unknown e-mail; a missing one makes bcrypt.compare throw
    ensures AuthController.FindAccount(residents, managers, providers, email).Some? && password.None? ==>
              o == InlineLoginRefused(Response(500, ServerErrorMessage))
    ensures AuthController.FindAccount(residents, managers, providers, email).Some? && password.Some?
            && !Matches(password.value, AuthController.AccountPassword(AuthController.FindAccount(residents, managers, providers, email).value)) ==>
              o == InlineLoginRefused(Response(400, AuthController.BadCredentialsMessage))
    // the token signs the role stored in the document that matched first, and the
    // summary is exactly that document's id, name, email and role
    ensures o.InlineLoggedIn? ==> o.token == AuthController.Token(Claims(o.user.id, o.user.role), AuthController.TokenLifetime)
    ensures o.InlineLoggedIn? && email in residents ==>
              o.user == InlineUserView(residents[email].id, residents[email].name, residents[email].email, None)
    ensures o.InlineLoggedIn? && email !in residents && email in managers ==>
              o.user == InlineUserView(managers[email].id, managers[email].name, managers[email].email, Some(managers[email].role))
    ensures o.InlineLoggedIn? && email !in residents && email !in managers ==>
              && email in providers
              && o.user == InlineUserView(providers[email].id, providers[email].name, providers[email].email, Some(providers[email].role))
  {
    match AuthController.FindAccount(residents, managers, providers, email)
    case None => InlineLoginRefused(Response(400, AuthController.BadCredentialsMessage))
    case Some(account) =>
      if password.None? then InlineLoginRefused(Response(500, ServerErrorMessage))
      else if !Matches(password.value, AuthController.AccountPassword(account)) then
        InlineLoginRefused(Response(400, AuthController.BadCredentialsMessage))
      else
        var user := InlineViewOf(account);
        InlineLoggedIn(AuthController.Token(Claims(user.id, StoredRole(account)), AuthController.TokenLifetime), user)
  }

  /** As written, no one who logs in here can pass a role gate with the
      schemas' roles: a resident's token has no role, and a manager's carries
      the stored default "Manager", which `isManager` refuses. */
  lemma InlineTokensFailRoleGates(
    residents: map<string, Resident>, managers: map<string, Manager>,
    providers: map<string, ServiceProvider>, email: string, password: string)
    requires InlineLogin(residents, managers, providers, email, Some(password)).InlineLoggedIn?
    requires email in residents || (email in managers && managers[email].role == DefaultManagerRole)
    ensures var claims := InlineLogin(residents, managers, providers, email, Some(password)).token.claims;
            IsResident(claims).Deny? && IsManager(claims).Deny?
  {
  }

  /** For one concrete manager, registered with the schema's default role and
      logging in with the right password: the inline route's token is refused by
      `isManager`, while the controller's `login` issues one that passes it. */
  lemma InlineManagerRefusedControllerManagerPasses()
    ensures var m := Manager(1, "Ann", "N1", "ann@x.com", "0123", "Main St", "Lakeview", Hash("pw"), DefaultManagerRole);
            var managers := map["ann@x.com" := m];
            && IsManager(InlineLogin(map[], managers, map[], "ann@x.com", Some("pw")).token.claims).Deny?
            && IsManager(AuthController.Login(map[], managers, map[], "ann@x.com", Some("pw")).token.claims).Next?
  {
  }
}
