/** server/controllers/serviceproviderController.js: `registerServiceProvider`
    writes to the ServiceProvider collection of the central database. */
module ServiceProviderController {
  import opened Common
  import opened Models

  const MissingFieldsMessage := "Please provide all required fields."
  const ExistsMessage := "Service provider already exists"
  /** The `catch` block's own spelling of the server-error message. */
  const CatchMessage := "Server error"
  const RegisteredMessage := "Service Provider registerd successfully. (Central db)"

  /** `registerServiceProvider`. The handler checks name, email and password;
      serviceType and phone are required by the schema when the record is saved. */
  method RegisterServiceProvider(central: CentralStore, name: Option<string>, email: Option<string>,
                                 serviceType: Option<string>, phone: Option<string>, password: Option<string>)
    returns (resp: Response)
    requires central.Valid()
    modifies central
    ensures central.Valid() && central.apartments == old(central.apartments)
    ensures !(Present(name) && Present(email) && Present(password)) ==>
              resp == Response(400, MissingFieldsMessage) && central.serviceProviders == old(central.serviceProviders)
    ensures Present(name) && Present(email) && Present(password) && email.value in old(central.serviceProviders) ==>
              resp == Response(400, ExistsMessage) && central.serviceProviders == old(central.serviceProviders)
    ensures Present(name) && Present(email) && Present(password) && email.value !in old(central.serviceProviders)
            && !(Present(serviceType) && Present(phone)) ==>
              resp == Response(500, CatchMessage) && central.serviceProviders == old(central.serviceProviders)
    ensures Present(name) && Present(email) && Present(password) && email.value !in old(central.serviceProviders)
            && Present(serviceType) && Present(phone) ==>
              && resp == Response(201, RegisteredMessage)
              && central.serviceProviders == old(central.serviceProviders)[email.value :=
                   ServiceProvider(old(central.nextId), name.value, email.value, serviceType.value, phone.value,
                                   Hash(password.value), DefaultServiceProviderRole)]
  {
    if !(Present(name) && Present(email) && Present(password)) {
      return Response(400, MissingFieldsMessage);
    }
    if email.value in central.serviceProviders {
      return Response(400, ExistsMessage);
    }
    if !(Present(serviceType) && Present(phone)) {
      return Response(500, CatchMessage);
    }
    var id := central.nextId;
    central.nextId := central.nextId + 1;
    central.serviceProviders := central.serviceProviders[email.value :=
      ServiceProvider(id, name.value, email.value, serviceType.value, phone.value, Hash(password.value), DefaultServiceProviderRole)];
    resp := Response(201, RegisteredMessage);
  }
}
