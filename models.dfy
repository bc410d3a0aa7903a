/** The identity schemas of server/models (Resident.js, Manager.js,
    ServiceProvider.js, Apartment.js) and the stores that hold them: the
    collections of the default connection, and the central database. A store
    of users is keyed by e-mail, which every identity schema declares unique. */
module Models {
  import opened Common

  /** A Resident document. The schema declares name, email, password and phone;
      the other fields are the ones the resident controller passes in and the
      visitor, resource, complaint and maintenance controllers read back. */
  datatype Resident = Resident(
    id: Id,
    name: string,
    email: string,
    password: Digest,
    phone: Option<string>,
    nic: Option<string>,
    apartmentComplexName: Option<string>,
    apartmentCode: Option<string>)

  /** A Manager document (Manager.js:3-13). The schema has no apartmentCode. */
  datatype Manager = Manager(
    id: Id,
    name: string,
    nic: string,
    email: string,
    phone: string,
    address: string,
    apartmentName: string,
    password: Digest,
    role: string)

  /** A ServiceProvider document (ServiceProvider.js:3-10). */
  datatype ServiceProvider = ServiceProvider(
    id: Id,
    name: string,
    email: string,
    serviceType: string,
    phone: string,
    password: Digest,
    role: string)

  /** An Apartment document of the central registry (Apartment.js:3-6). */
  datatype Apartment = Apartment(apartmentName: string, createdAt: nat)

  /** Schema defaults of the `role` paths. */
  const DefaultManagerRole := "Manager"
  const DefaultServiceProviderRole := "ServiceProvider"

  /** No two residents share an ObjectId. */
  ghost predicate UniqueResidentIds(residents: map<string, Resident>)
  {
    forall a, b :: a in residents && b in residents && residents[a].id == residents[b].id ==> a == b
  }

  /** `Resident.findById(id)`: the resident with that id, or null. */
  function ResidentById(residents: map<string, Resident>, id: Id): (r: Option<Resident>)
    requires UniqueResidentIds(residents)
    ensures r.None? <==> forall e :: e in residents ==> residents[e].id != id
    ensures forall e :: e in residents && residents[e].id == id ==> r == Some(residents[e])
  {
    if exists e :: e in residents && residents[e].id == id then
      var e :| e in residents && residents[e].id == id;
      Some(residents[e])
    else
      None
  }

  /** The Resident, Manager and ServiceProvider collections of the default
      connection: the models `mongoose.model(...)` registers in Resident.js,
      Manager.js and ServiceProvider.js. */
  class Directory {
    var residents: map<string, Resident>
    var managers: map<string, Manager>
    var serviceProviders: map<string, ServiceProvider>
    /** The next ObjectId to hand out; every stored id is below it. */
    var nextId: Id

    /** Each user is stored under its own e-mail, and resident ids are unique. */
    ghost predicate Valid()
      reads this
    {
      && (forall e :: e in residents ==> residents[e].email == e && residents[e].id < nextId)
      && (forall e :: e in managers ==> managers[e].email == e && managers[e].id < nextId)
      && (forall e :: e in serviceProviders ==> serviceProviders[e].email == e && serviceProviders[e].id < nextId)
      && UniqueResidentIds(residents)
    }

    constructor ()
      ensures Valid()
      ensures residents == map[] && managers == map[] && serviceProviders == map[]
    {
      residents, managers, serviceProviders := map[], map[], map[];
      nextId := 0;
    }

    /** A fresh ObjectId for a document about to be saved. */
    method NewId() returns (id: Id)
      requires Valid()
      modifies this`nextId
      ensures Valid()
      ensures id == old(nextId) && nextId == id + 1
    {
      id := nextId;
      nextId := nextId + 1;
    }
  }

  /** The collections of `centralDB` (server/config/database.js:6-10): the
      ServiceProvider model the service-provider controller binds to it, and the
      Apartment registry. */
  class CentralStore {
    var serviceProviders: map<string, ServiceProvider>
    /** The Apartment collection, in natural (query) order. */
    var apartments: seq<Apartment>
    var nextId: Id

    ghost predicate Valid()
      reads this
    {
      && (forall e :: e in serviceProviders ==> serviceProviders[e].email == e && serviceProviders[e].id < nextId)
      && (forall i, j :: 0 <= i < j < |apartments| ==> apartments[i].apartmentName != apartments[j].apartmentName)
    }

    constructor (apartments: seq<Apartment>)
      requires forall i, j :: 0 <= i < j < |apartments| ==> apartments[i].apartmentName != apartments[j].apartmentName
      ensures Valid()
      ensures serviceProviders == map[] && this.apartments == apartments
    {
      serviceProviders := map[];
      this.apartments := apartments;
      nextId := 0;
    }
  }
}
