/** server/controllers/apartmentController.js: `getAllApartments` answers with
    the name of every apartment in the central registry, in query order. */
module ApartmentController {
  import opened Common
  import opened Models

  datatype ApartmentsAnswer =
    | ApartmentNames(status: nat, apartmentNames: seq<string>)
    /** 500 with "Server error" and the error's own message. */
    | ApartmentsError(status: nat, message: string, error: string)

  /** `apartments.map(apartment => apartment.apartmentName)` */
  function Names(apartments: seq<Apartment>): (names: seq<string>)
    ensures |names| == |apartments|
    ensures forall i :: 0 <= i < |apartments| ==> names[i] == apartments[i].apartmentName
  {
    if apartments == [] then [] else [apartments[0].apartmentName] + Names(apartments[1..])
  }

  /** `getAllApartments`. `query` is the result of `Apartment.find`: the
      records in natural order, or the message of the error it threw. */
  function GetAllApartments(query: Result<seq<Apartment>, string>): (a: ApartmentsAnswer)
    ensures query.Ok? ==> a.ApartmentNames? && a.status == 200
                          && |a.apartmentNames| == |query.value|
                          && forall i :: 0 <= i < |query.value| ==> a.apartmentNames[i] == query.value[i].apartmentName
    ensures query.Ok? && query.value == [] ==> a == ApartmentNames(200, [])
    ensures query.Err? ==> a == ApartmentsError(500, "Server error", query.error)
  {
    match query
    case Ok(apartments) => ApartmentNames(200, Names(apartments))
    case Err(message) => ApartmentsError(500, "Server error", message)
  }

  /** Names are listed the way the records are concatenated. */
  lemma NamesOfConcatenation(xs: seq<Apartment>, ys: seq<Apartment>)
    ensures Names(xs + ys) == Names(xs) + Names(ys)
  {
    var l, r := Names(xs + ys), Names(xs) + Names(ys);
    assert |l| == |r|;
    forall i | 0 <= i < |l| ensures l[i] == r[i] {
      if i < |xs| {
        assert (xs + ys)[i] == xs[i];
      } else {
        assert (xs + ys)[i] == ys[i - |xs|];
      }
    }
  }

  /** The registry's unique index on `apartmentName` makes the answer to a
      query of the central registry free of repeats; the listing changes nothing. */
  lemma RegistryNamesAreDistinct(central: CentralStore)
    requires central.Valid()
    ensures var a := GetAllApartments(Ok(central.apartments));
            && a.ApartmentNames?
            && forall i, j :: 0 <= i < j < |a.apartmentNames| ==> a.apartmentNames[i] != a.apartmentNames[j]
  {
    var a := GetAllApartments(Ok(central.apartments));
    assert a.apartmentNames == Names(central.apartments);
  }
}
