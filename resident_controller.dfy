/** server/controllers/residentController.js: `registerResident` checks name,
    email and password, and stores the resident with a hashed password and the
    other body fields as given. */
module ResidentController {
  import opened Common
  import opened Models

  const MissingFieldsMessage := "Please provide all required fields."
  const RegisteredMessage := "Resident registered successfully!"

  /** `registerResident`. The handler has no duplicate check of its own: a
      second resident with the same e-mail is refused by the unique index when
      it is saved, which answers 500. */
  method RegisterResident(dir: Directory, name: Option<string>, nic: Option<string>, email: Option<string>,
                          password: Option<string>, phone: Option<string>, apartmentComplexName: Option<string>,
                          apartmentCode: Option<string>)
    returns (resp: Response)
    requires dir.Valid()
    modifies dir
    ensures dir.Valid()
    ensures dir.managers == old(dir.managers) && dir.serviceProviders == old(dir.serviceProviders)
    ensures !(Present(name) && Present(email) && Present(password)) ==>
              resp == Response(400, MissingFieldsMessage) && dir.residents == old(dir.residents)
    ensures Present(name) && Present(email) && Present(password) && email.value in old(dir.residents) ==>
              resp == Response(500, ServerErrorMessage) && dir.residents == old(dir.residents)
    ensures Present(name) && Present(email) && Present(password) && email.value !in old(dir.residents) ==>
              && resp == Response(201, RegisteredMessage)
              && dir.residents == old(dir.residents)[email.value :=
                   Resident(old(dir.nextId), name.value, email.value, Hash(password.value), phone, nic,
                            apartmentComplexName, apartmentCode)]
  {
    if !(Present(name) && Present(email) && Present(password)) {
      return Response(400, MissingFieldsMessage);
    }
    if email.value in dir.residents {
      return Response(500, ServerErrorMessage);
    }
    var id := dir.NewId();
    dir.residents := dir.residents[email.value :=
      Resident(id, name.value, email.value, Hash(password.value), phone, nic, apartmentComplexName, apartmentCode)];
    resp := Response(201, RegisteredMessage);
  }
}
