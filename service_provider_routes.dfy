/** server/routes/serviceProviderRoutes.js: the inline `POST /register`
    handler, which writes to the ServiceProvider collection of the default
    connection. The schema requires serviceType and phone, and its unique index
    refuses a repeated e-mail, when the record is saved. */
module ServiceProviderRoutes {
  import opened Common
  import opened Models

  const MissingFieldsMessage := "Please provide all required fields."
  /** The `catch` block's own spelling of the server-error message. */
  const CatchMessage := "Server error"
  const RegisteredMessage := "Service Provider registerd successfully..!"

  predicate ProviderSavable(providers: map<string, ServiceProvider>, email: string,
                            serviceType: Option<string>, phone: Option<string>)
  {
    Present(serviceType) && Present(phone) && email !in providers
  }

  method Register(dir: Directory, name: Option<string>, email: Option<string>, serviceType: Option<string>,
                  phone: Option<string>, password: Option<string>)
    returns (resp: Response)
    requires dir.Valid()
    modifies dir
    ensures dir.Valid()
    ensures dir.residents == old(dir.residents) && dir.managers == old(dir.managers)
    ensures !(Present(name) && Present(email) && Present(password)) ==>
              resp == Response(400, MissingFieldsMessage) && dir.serviceProviders == old(dir.serviceProviders)
    ensures Present(name) && Present(email) && Present(password)
            && !ProviderSavable(old(dir.serviceProviders), email.value, serviceType, phone) ==>
              resp == Response(500, CatchMessage) && dir.serviceProviders == old(dir.serviceProviders)
    ensures Present(name) && Present(email) && Present(password)
            && ProviderSavable(old(dir.serviceProviders), email.value, serviceType, phone) ==>
              && resp == Response(201, RegisteredMessage)
              && dir.serviceProviders == old(dir.serviceProviders)[email.value :=
                   ServiceProvider(old(dir.nextId), name.value, email.value, serviceType.value, phone.value,
                                   Hash(password.value), DefaultServiceProviderRole)]
  {
    if !(Present(name) && Present(email) && Present(password)) {
      return Response(400, MissingFieldsMessage);
    }
    if !ProviderSavable(dir.serviceProviders, email.value, serviceType, phone) {
      return Response(500, CatchMessage);
    }
    var id := dir.NewId();
    dir.serviceProviders := dir.serviceProviders[email.value :=
      ServiceProvider(id, name.value, email.value, serviceType.value, phone.value, Hash(password.value),
                      DefaultServiceProviderRole)];
    resp := Response(201, RegisteredMessage);
  }
}
