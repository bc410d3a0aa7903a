/** server/controllers/visitorController.js: `generateQRCodeData` validates the
    request, looks up a resident, stores a new visitor pass in state Pending and
    answers with the QR payload; `checkVisitor` sets a pass to Confirmed or
    Rejected. */
module VisitorController {
  import opened Common
  import opened Models

  datatype VisitorStatus = Pending | Confirmed | Rejected

  /** A Visitor document, with the `status` the controller writes. */
  datatype VisitorPass = VisitorPass(
    resident: Id,
    residentName: string,
    apartmentCode: string,
    numOfVisitors: int,
    visitorNames: seq<string>,
    phone: string,
    status: VisitorStatus,
    createdAt: nat)

  /** The `visitorNames` field of the request body. */
  datatype NamesField = NoNames | NotAnArray | NameArray(names: seq<string>)

  /** `qrData` (lines 28-35): what the QR code encodes. Its `createdAt` is the
      ISO string of the clock reading taken at line 34, kept here as that reading. */
  datatype QrData = QrData(
    residentName: string,
    apartmentCode: string,
    numOfVisitors: int,
    visitorNames: seq<string>,
    phone: string,
    createdAt: nat)

  datatype QrOutcome = QrIssued(qrData: QrData, passId: Id) | QrRefused(response: Response)

  datatype CheckOutcome = CheckDone(response: Response, passId: Id, status: VisitorStatus) | CheckRefused(response: Response)

  /** The ObjectId hard-coded at line 19: every pass is issued for this resident. */
  const FixedResidentId: Id := 0x67c2f203312ebbd0051043d0

  const InvalidInputMessage := "Invalid input: numOfVisitors and visitorNames array are required"
  const ResidentNotFoundMessage := "Resident not found"
  const IdRequiredMessage := "Visitor ID is required"
  const InvalidActionMessage := "Invalid action. Use \"confirm\" or \"reject\""
  const VisitorNotFoundMessage := "Visitor not found"

  /** Line 14: `numOfVisitors` truthy (present and not 0) and `visitorNames` an array. */
  predicate ValidQrRequest(numOfVisitors: Option<int>, visitorNames: NamesField)
  {
    numOfVisitors.Some? && numOfVisitors.value != 0 && visitorNames.NameArray?
  }

  /** The Visitor schema's required String paths, checked when the new pass is
      saved: the resident's name, apartmentCode and phone, and every visitor name. */
  predicate PassSavable(r: Resident, names: seq<string>)
  {
    r.name != "" && Present(r.apartmentCode) && Present(r.phone) && forall i :: 0 <= i < |names| ==> names[i] != ""
  }

  /** The pass of lines 37-45; `saveNow` is the clock reading of the schema's
      `createdAt` default, taken when the document is built. */
  function NewPass(r: Resident, numOfVisitors: int, names: seq<string>, saveNow: nat): VisitorPass
    requires PassSavable(r, names)
  {
    VisitorPass(FixedResidentId, r.name, r.apartmentCode.value, numOfVisitors, names, r.phone.value, Pending, saveNow)
  }

  /** The payload of lines 28-35, read off the resident and the request. */
  function QrDataFor(r: Resident, numOfVisitors: int, names: seq<string>, qrNow: nat): QrData
    requires PassSavable(r, names)
  {
    QrData(r.name, r.apartmentCode.value, numOfVisitors, names, r.phone.value, qrNow)
  }

  /** A payload and a pass agree on everything but their creation times, which
      come from two different clock readings. */
  predicate Agrees(q: QrData, p: VisitorPass)
  {
    && q.residentName == p.residentName && q.apartmentCode == p.apartmentCode
    && q.numOfVisitors == p.numOfVisitors && q.visitorNames == p.visitorNames && q.phone == p.phone
  }

  /** Line 85: the only accepted actions. */
  predicate ValidAction(action: Option<string>)
  {
    action == Some("confirm") || action == Some("reject")
  }

  /** Line 94. */
  function StatusFor(action: string): VisitorStatus
  {
    if action == "confirm" then Confirmed else Rejected
  }

  /** The store after `checkVisitor` has set pass `id` according to `action`. */
  function AfterCheck(passes: map<Id, VisitorPass>, id: Id, action: string): (m: map<Id, VisitorPass>)
    requires id in passes
    ensures m.Keys == passes.Keys
    ensures m[id].status == (if action == "confirm" then Confirmed else Rejected)
    // only the status field of that one pass changes
    ensures m[id].(status := passes[id].status) == passes[id]
    ensures forall k :: k in passes && k != id ==> m[k] == passes[k]
  {
    passes[id := passes[id].(status := StatusFor(action))]
  }

  /** Repeating a check changes nothing more. */
  lemma CheckIsIdempotent(passes: map<Id, VisitorPass>, id: Id, action: string)
    requires id in passes
    ensures AfterCheck(AfterCheck(passes, id, action), id, action) == AfterCheck(passes, id, action)
  {
  }

  /** There is no guard on the prior status: a confirmed pass can still be
      rejected, and a rejected one confirmed. */
  lemma TerminalStatusIsOverwritten(passes: map<Id, VisitorPass>, id: Id)
    requires id in passes
    ensures AfterCheck(AfterCheck(passes, id, "confirm"), id, "reject")[id].status == Rejected
    ensures AfterCheck(AfterCheck(passes, id, "reject"), id, "confirm")[id].status == Confirmed
  {
  }

  /** The Visitor collection. */
  class VisitorPasses {
    var passes: map<Id, VisitorPass>
    var nextId: Id

    ghost predicate Valid()
      reads this
    {
      forall id :: id in passes ==> id < nextId
    }

    constructor ()
      ensures Valid() && passes == map[]
    {
      passes := map[];
      nextId := 0;
    }

    /** `generateQRCodeData`. `qrNow` is the clock reading of line 34 and
        `saveNow` the one the schema default takes at line 37; `qrWritten` tells whether
        rendering the QR code and writing its SVG file (lines 48-54), which run
        after the pass is saved, succeeded. */
    method GenerateQRCodeData(numOfVisitors: Option<int>, visitorNames: NamesField,
                              residents: map<string, Resident>, qrNow: nat, saveNow: nat, qrWritten: bool)
      returns (o: QrOutcome)
      requires Valid() && UniqueResidentIds(residents)
      modifies this
      ensures Valid()
      // invalid input: 400 before any lookup, nothing stored
      ensures !ValidQrRequest(numOfVisitors, visitorNames) ==>
                o == QrRefused(Response(400, InvalidInputMessage)) && passes == old(passes)
      // the fixed resident is missing: 404, nothing stored
      ensures ValidQrRequest(numOfVisitors, visitorNames) && ResidentById(residents, FixedResidentId).None? ==>
                o == QrRefused(Response(404, ResidentNotFoundMessage)) && passes == old(passes)
      // the save is rejected by the schema: 500, nothing stored
      ensures ValidQrRequest(numOfVisitors, visitorNames) && ResidentById(residents, FixedResidentId).Some?
              && !PassSavable(ResidentById(residents, FixedResidentId).value, visitorNames.names) ==>
                o == QrRefused(Response(500, ServerErrorMessage)) && passes == old(passes)
      // otherwise one new Pending pass holds the resident's details and the request's visitors
      ensures ValidQrRequest(numOfVisitors, visitorNames) && ResidentById(residents, FixedResidentId).Some?
              && PassSavable(ResidentById(residents, FixedResidentId).value, visitorNames.names) ==>
                && passes == old(passes)[old(nextId) := NewPass(ResidentById(residents, FixedResidentId).value,
                                                                numOfVisitors.value, visitorNames.names, saveNow)]
                && old(nextId) !in old(passes)
                && o == (if qrWritten then QrIssued(QrDataFor(ResidentById(residents, FixedResidentId).value,
                                                              numOfVisitors.value, visitorNames.names, qrNow), old(nextId))
                         else QrRefused(Response(500, ServerErrorMessage)))
      // the answer's QR payload agrees with the stored pass, which is Pending; each
      // carries its own clock reading
      ensures o.QrIssued? ==> o.passId in passes && Agrees(o.qrData, passes[o.passId])
                              && o.qrData.createdAt == qrNow && passes[o.passId].createdAt == saveNow
                              && passes[o.passId].status == Pending && passes[o.passId].resident == FixedResidentId
    {
      if !ValidQrRequest(numOfVisitors, visitorNames) {
        return QrRefused(Response(400, InvalidInputMessage));
      }
      var resident := ResidentById(residents, FixedResidentId);
      if resident.None? {
        return QrRefused(Response(404, ResidentNotFoundMessage));
      }
      var r := resident.value;
      if !PassSavable(r, visitorNames.names) {
        return QrRefused(Response(500, ServerErrorMessage));
      }
      var qrData := QrDataFor(r, numOfVisitors.value, visitorNames.names, qrNow);
      var pass := NewPass(r, numOfVisitors.value, visitorNames.names, saveNow);
      var id := nextId;
      passes := passes[id := pass];
      nextId := nextId + 1;
      if !qrWritten {
        return QrRefused(Response(500, ServerErrorMessage));
      }
      o := QrIssued(qrData, id);
    }

    /** `checkVisitor`. `id` is the route parameter, `action` the body's. */
    method CheckVisitor(id: Option<Id>, action: Option<string>) returns (o: CheckOutcome)
      requires Valid()
      modifies this
      ensures Valid() && nextId == old(nextId)
      ensures id.None? ==> o == CheckRefused(Response(400, IdRequiredMessage)) && passes == old(passes)
      ensures id.Some? && !ValidAction(action) ==>
                o == CheckRefused(Response(400, InvalidActionMessage)) && passes == old(passes)
      ensures id.Some? && ValidAction(action) && id.value !in old(passes) ==>
                o == CheckRefused(Response(404, VisitorNotFoundMessage)) && passes == old(passes)
      ensures id.Some? && ValidAction(action) && id.value in old(passes) ==>
                && passes == AfterCheck(old(passes), id.value, action.value)
                && o == CheckDone(Response(200, "Visitor " + action.value + "ed successfully"),
                                  id.value, StatusFor(action.value))
    {
      if id.None? {
        return CheckRefused(Response(400, IdRequiredMessage));
      }
      if !ValidAction(action) {
        return CheckRefused(Response(400, InvalidActionMessage));
      }
      var key := id.value;
      if key !in passes {
        return CheckRefused(Response(404, VisitorNotFoundMessage));
      }
      var status := StatusFor(action.value);
      passes := passes[key := passes[key].(status := status)];
      o := CheckDone(Response(200, "Visitor " + action.value + "ed successfully"), key, status);
    }
  }
}
