/** server/routes/residentRoutes.js: the inline `POST /register` handler. It
    stores only name, email, the password hash and phone; the unique index
    refuses a repeated e-mail when the record is saved. A resident registered
    here can then log in through `login`. */
module ResidentRoutes {
  import opened Common
  import opened Models
  import opened AuthMiddleware
  import AuthController
  import AuthRoutes

  const MissingFieldsMessage := "Please provide all required fields."
  /** The `catch` block's own spelling of the server-error message. */
  const CatchMessage := "server Error"
  const RegisteredMessage := "Resident registered successfully..!"

  /** The document the handler saves. */
  function RegisteredResident(id: Id, name: string, email: string, password: string, phone: Option<string>): (r: Resident)
    ensures r.email == email && r.password == Hash(password) && r.phone == phone
    ensures r.nic.None? && r.apartmentComplexName.None? && r.apartmentCode.None?
  {
    Resident(id, name, email, Hash(password), phone, None, None, None)
  }

  method Register(dir: Directory, name: Option<string>, email: Option<string>, password: Option<string>,
                  phone: Option<string>)
    returns (resp: Response)
    requires dir.Valid()
    modifies dir
    ensures dir.Valid()
    ensures dir.managers == old(dir.managers) && dir.serviceProviders == old(dir.serviceProviders)
    ensures !(Present(name) && Present(email) && Present(password)) ==>
              resp == Response(400, MissingFieldsMessage) && dir.residents == old(dir.residents)
    ensures Present(name) && Present(email) && Present(password) && email.value in old(dir.residents) ==>
              resp == Response(500, CatchMessage) && dir.residents == old(dir.residents)
    ensures Present(name) && Present(email) && Present(password) && email.value !in old(dir.residents) ==>
              && resp == Response(201, RegisteredMessage)
              && dir.residents == old(dir.residents)[email.value :=
                   RegisteredResident(old(dir.nextId), name.value, email.value, password.value, phone)]
  {
    if !(Present(name) && Present(email) && Present(password)) {
      return Response(400, MissingFieldsMessage);
    }
    if email.value in dir.residents {
      return Response(500, CatchMessage);
    }
    var id := dir.NewId();
    dir.residents := dir.residents[email.value := RegisteredResident(id, name.value, email.value, password.value, phone)];
    resp := Response(201, RegisteredMessage);
  }

  /** Registering and then logging in with the same password through `login`
      yields a resident token that `isResident` lets through, a summary with
      no apartment code, and the phone given at registration (or ""). The
      inline login route, by contrast, signs no role for the same resident. */
  lemma RegisteredResidentLogsIn(
    residents: map<string, Resident>, managers: map<string, Manager>, providers: map<string, ServiceProvider>,
    id: Id, name: string, email: string, password: string, phone: Option<string>)
    ensures var rs := residents[email := RegisteredResident(id, name, email, password, phone)];
            var o := AuthController.Login(rs, managers, providers, email, Some(password));
            && o.LoggedIn?
            && o.user.id == id && o.user.role == ResidentRole && o.user.apartmentCode == ""
            && o.user.phone == (if Present(phone) then phone.value else "")
            && IsResident(o.token.claims) == Next(o.token.claims)
            && IsResident(AuthRoutes.InlineLogin(rs, managers, providers, email, Some(password)).token.claims).Deny?
            && IsManager(AuthRoutes.InlineLogin(rs, managers, providers, email, Some(password)).token.claims).Deny?
  {
    var rs := residents[email := RegisteredResident(id, name, email, password, phone)];
    assert AuthController.FindAccount(rs, managers, providers, email) == Some(AuthController.ResidentAccount(rs[email]));
    AuthRoutes.InlineTokensFailRoleGates(rs, managers, providers, email, password);
  }
}
