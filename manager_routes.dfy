/** server/routes/managerRoutes.js: the inline `POST /register` handler. It
    checks only name, email and password; the Manager schema then requires nic,
    phone, address and apartmentName, and its unique index refuses a second
    manager with the same e-mail, when the record is saved. */
module ManagerRoutes {
  import opened Common
  import opened Models

  const MissingFieldsMessage := "Please provide all required fields."
  /** The `catch` block's own spelling of the server-error message. */
  const CatchMessage := "server Error"
  const RegisteredMessage := "Manager registered successfully..!"

  /** What `save` accepts: the schema's required paths are present and the
      e-mail is new to the collection. */
  predicate ManagerSavable(managers: map<string, Manager>, email: string, nic: Option<string>, phone: Option<string>,
                           address: Option<string>, apartmentName: Option<string>)
  {
    Present(nic) && Present(phone) && Present(address) && Present(apartmentName) && email !in managers
  }

  method Register(dir: Directory, name: Option<string>, nic: Option<string>, email: Option<string>,
                  password: Option<string>, phone: Option<string>, address: Option<string>,
                  apartmentName: Option<string>)
    returns (resp: Response)
    requires dir.Valid()
    modifies dir
    ensures dir.Valid()
    ensures dir.residents == old(dir.residents) && dir.serviceProviders == old(dir.serviceProviders)
    ensures !(Present(name) && Present(email) && Present(password)) ==>
              resp == Response(400, MissingFieldsMessage) && dir.managers == old(dir.managers)
    ensures Present(name) && Present(email) && Present(password)
            && !ManagerSavable(old(dir.managers), email.value, nic, phone, address, apartmentName) ==>
              resp == Response(500, CatchMessage) && dir.managers == old(dir.managers)
    ensures Present(name) && Present(email) && Present(password)
            && ManagerSavable(old(dir.managers), email.value, nic, phone, address, apartmentName) ==>
              && resp == Response(201, RegisteredMessage)
              && dir.managers == old(dir.managers)[email.value :=
                   Manager(old(dir.nextId), name.value, nic.value, email.value, phone.value, address.value,
                           apartmentName.value, Hash(password.value), DefaultManagerRole)]
  {
    if !(Present(name) && Present(email) && Present(password)) {
      return Response(400, MissingFieldsMessage);
    }
    if !ManagerSavable(dir.managers, email.value, nic, phone, address, apartmentName) {
      return Response(500, CatchMessage);
    }
    var id := dir.NewId();
    dir.managers := dir.managers[email.value :=
      Manager(id, name.value, nic.value, email.value, phone.value, address.value, apartmentName.value,
              Hash(password.value), DefaultManagerRole)];
    resp := Response(201, RegisteredMessage);
  }
}
