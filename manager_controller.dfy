/** server/controllers/managerController.js: `registerManager` validates seven
    fields, opens (or reuses) the connection of the tenant database named by
    `apartmentName`, refuses an e-mail that tenant already has, and stores the
    manager with a hashed password and the default role. */
module ManagerController {
  import opened Common
  import opened Models
  import opened Database

  const AllFieldsMessage := "All fields are required"
  const ExistsMessage := "Manager already exists"
  /** The `catch` block's own spelling of the server-error message. */
  const CatchMessage := "Server error"
  const RegisteredMessage := "Manager registered successfully!"

  /** The Manager collection of one tenant database; a tenant that has never
      been written to has an empty one. */
  function StoreOf(stores: map<string, map<string, Manager>>, tenant: string): (s: map<string, Manager>)
    ensures tenant in stores ==> s == stores[tenant]
    ensures tenant !in stores ==> s == map[]
  {
    if tenant in stores then stores[tenant] else map[]
  }

  /** Line 10: every one of the seven fields is truthy. */
  predicate AllPresent(name: Option<string>, nic: Option<string>, email: Option<string>, password: Option<string>,
                       phone: Option<string>, address: Option<string>, apartmentName: Option<string>)
  {
    Present(name) && Present(nic) && Present(email) && Present(password) && Present(phone) && Present(address)
    && Present(apartmentName)
  }

  /** The Manager collections of every tenant database, by database name. */
  class TenantManagers {
    var stores: map<string, map<string, Manager>>
    var nextId: Id

    /** Within a tenant each manager is stored under its own e-mail and names
        that tenant as its apartment. */
    ghost predicate Valid()
      reads this
    {
      forall t :: t in stores ==>
        forall e :: e in stores[t] ==> stores[t][e].email == e && stores[t][e].apartmentName == t && stores[t][e].id < nextId
    }

    constructor ()
      ensures Valid() && stores == map[]
    {
      stores := map[];
      nextId := 0;
    }
  }

  /** `registerManager`. `reachable` is the outcome of opening the tenant
      connection, should the cache not hold it yet. */
  method RegisterManager(cache: ConnectionCache, tenants: TenantManagers,
                         name: Option<string>, nic: Option<string>, email: Option<string>, password: Option<string>,
                         phone: Option<string>, address: Option<string>, apartmentName: Option<string>,
                         reachable: bool)
    returns (resp: Response)
    requires cache.Valid() && tenants.Valid()
    modifies cache, tenants
    ensures cache.Valid() && tenants.Valid()
    // a missing field is refused before any database is touched
    ensures !AllPresent(name, nic, email, password, phone, address, apartmentName) ==>
              && resp == Response(400, AllFieldsMessage)
              && cache.connections == old(cache.connections) && tenants.stores == old(tenants.stores)
    ensures AllPresent(name, nic, email, password, phone, address, apartmentName) ==>
              var tenant := apartmentName.value;
              var store := StoreOf(old(tenants.stores), tenant);
              // the tenant connection comes from the cache, or is opened and cached
              && (tenant in old(cache.connections) ==>
                    cache.connections == old(cache.connections) && cache.opens == old(cache.opens))
              && (tenant !in old(cache.connections) && reachable ==>
                    && tenant in cache.connections && cache.connections[tenant].dbName == tenant
                    && cache.connections == old(cache.connections)[tenant := cache.connections[tenant]]
                    && cache.opens == old(cache.opens) + 1)
              && (tenant !in old(cache.connections) && !reachable ==>
                    resp == Response(500, CatchMessage) && tenants.stores == old(tenants.stores)
                    && cache.connections == old(cache.connections) && cache.opens == old(cache.opens))
              && (tenant in old(cache.connections) || reachable ==>
                    && tenant in cache.connections
                    // an e-mail the tenant already has is refused
                    && (email.value in store ==>
                          resp == Response(400, ExistsMessage) && tenants.stores == old(tenants.stores))
                    // otherwise only that tenant's store gains the manager, with the hash and the default role
                    && (email.value !in store ==>
                          && resp == Response(201, RegisteredMessage)
                          && tenants.stores == old(tenants.stores)[tenant := store[email.value :=
                               Manager(old(tenants.nextId), name.value, nic.value, email.value, phone.value, address.value,
                                       tenant, Hash(password.value), DefaultManagerRole)]]))
    // other tenants are untouched
    ensures forall t :: t in old(tenants.stores) && Some(t) != apartmentName ==>
              t in tenants.stores && tenants.stores[t] == old(tenants.stores)[t]
  {
    if !AllPresent(name, nic, email, password, phone, address, apartmentName) {
      return Response(400, AllFieldsMessage);
    }
    var db := cache.ConnectDB(apartmentName.value, reachable);
    if db.Err? {
      return Response(500, CatchMessage);
    }
    // the model is bound to the handle's own database
    var tenant := db.value.dbName;
    assert tenant == apartmentName.value;
    var store := StoreOf(tenants.stores, tenant);
    if email.value in store {
      return Response(400, ExistsMessage);
    }
    var manager := Manager(tenants.nextId, name.value, nic.value, email.value, phone.value, address.value,
                           apartmentName.value, Hash(password.value), DefaultManagerRole);
    tenants.stores := tenants.stores[tenant := store[email.value := manager]];
    tenants.nextId := tenants.nextId + 1;
    resp := Response(201, RegisteredMessage);
  }
}
