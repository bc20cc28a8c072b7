/**
 * The HTTP layer (JobOfferHandler): reading the numeric path parameter, and
 * for each endpoint the status and body it answers with, given what binding
 * the request and calling the service gave. The gin context is replaced by
 * these inputs and by the `Exchange` each endpoint produces: the reply it
 * writes and the message of the system event it sends, if any.
 */
module Handler {
  import opened Results
  import opened Entities
  import Decimal

  const StatusOK: int := 200
  const StatusCreated: int := 201
  const StatusNoContent: int := 204
  const StatusBadRequest: int := 400
  const StatusInternalServerError: int := 500

  /** The one message every malformed path parameter gets. */
  const IdError: string := "Company id should be a number"

  /** getId: the parameter read as a 32-bit signed decimal. */
  function GetId(idParam: string): (r: Result<int>)
    ensures r.Err? ==> r.error == IdError
    ensures r.Ok? ==> Decimal.InInt32(r.value)
    ensures r.Ok? <==> Decimal.ParseInt32(idParam).Some?
    ensures r.Ok? ==> r.value == Decimal.ParseInt32(idParam).value
  {
    match Decimal.ParseInt32(idParam)
    case None => Err(IdError)
    case Some(n) => Ok(n)
  }

  /** Every 32-bit number, written in decimal, is read back as itself. */
  lemma GetIdRoundTrip(n: int)
    requires Decimal.InInt32(n)
    ensures GetId(Decimal.Render(n)) == Ok(n)
  {
    Decimal.ParseRender(n);
  }

  /** Non-numbers and numbers beyond 32 bits are refused with the fixed message. */
  lemma GetIdRejects()
    ensures GetId("abc") == Err(IdError)
    ensures GetId("") == Err(IdError)
    ensures GetId(Decimal.Render(Decimal.Int32Max + 1)) == Err(IdError)
    ensures GetId(Decimal.Render(Decimal.Int32Min - 1)) == Err(IdError)
  {
    Decimal.ParseRejectsNonNumbers();
    Decimal.ParseRender(Decimal.Int32Max + 1);
    Decimal.ParseRender(Decimal.Int32Min - 1);
  }

  /** What ctx.JSON serialises. */
  datatype Body =
    | OfferBody(offer: JobOfferResponse)
    | OffersBody(offers: seq<JobOfferResponse>)
    | Message(text: string)      // an error's message, err.Error()
    | ErrorValue(error: string)  // the error value itself, serialised as JSON
    | NoBody

  /** The reply an endpoint writes, or a run-time panic before it writes one. */
  datatype Reply = Respond(status: int, body: Body) | Panic

  /** What handling one request amounts to: the reply and the system event it sends. */
  datatype Exchange = Exchange(reply: Reply, systemEvent: Option<string>)

  /** The outcome of ShouldBindJSON on the request body. */
  datatype Binding = BindFailed(bindError: string) | Bound(request: JobOfferRequest)

  /** The service as the handler sees it: what each of its operations answers. */
  datatype ServicePort = ServicePort(
    add: JobOfferRequest -> Result<JobOfferResponse>,
    getCompanysOffers: int -> Result<seq<JobOfferResponse>>,
    getAll: () -> Result<seq<JobOfferResponse>>,
    search: string -> Result<seq<JobOfferResponse>>,
    getById: int -> Result<JobOfferResponse>,
    delete: int -> Option<string>)

  function CreatedEvent(id: int): string {
    "New job offer created with id " + Decimal.Render(id)
  }

  function DeletedEvent(id: int): string {
    "Job offer deleted with id " + Decimal.Render(id)
  }

  /**
   * AddJobOffer as the source orders it: the created offer's id is read for
   * the system event before the service's error is looked at, so a failing
   * service (which returns no offer) makes the handler panic and its 400
   * branch is never reached.
   */
  function AddJobOfferAsWritten(body: Binding, svc: ServicePort): (x: Exchange)
    ensures body.BindFailed? ==> x == Exchange(Respond(StatusBadRequest, ErrorValue(body.bindError)), None)
    ensures body.Bound? && svc.add(body.request).Err? ==> x.reply == Panic && x.systemEvent == None
    ensures body.Bound? ==> x.reply.Panic? || x.reply.status == StatusCreated
  {
    match body
    case BindFailed(e) => Exchange(Respond(StatusBadRequest, ErrorValue(e)), None)
    case Bound(req) =>
      match svc.add(req)
      case Err(_) => Exchange(Panic, None)
      case Ok(created) =>
        Exchange(Respond(StatusCreated, OfferBody(created)), Some(CreatedEvent(created.id)))
  }

  /**
   * AddJobOffer with the error checked first: 400 when the body does not bind
   * or the service fails, otherwise 201 with the created offer and a system
   * event naming its id.
   */
  function AddJobOffer(body: Binding, svc: ServicePort): (x: Exchange)
    ensures x.reply.Respond?
    ensures x.reply.status == StatusCreated <==> body.Bound? && svc.add(body.request).Ok?
    ensures x.reply.status != StatusCreated ==> x.reply.status == StatusBadRequest && x.systemEvent == None
    ensures body.BindFailed? ==> x.reply.body == ErrorValue(body.bindError)
    ensures body.Bound? && svc.add(body.request).Err? ==> x.reply.body == ErrorValue(svc.add(body.request).error)
    ensures x.reply.status == StatusCreated ==>
      var created := svc.add(body.request).value;
      x.reply.body == OfferBody(created) && x.systemEvent == Some(CreatedEvent(created.id))
  {
    match body
    case BindFailed(e) => Exchange(Respond(StatusBadRequest, ErrorValue(e)), None)
    case Bound(req) =>
      match svc.add(req)
      case Err(e) => Exchange(Respond(StatusBadRequest, ErrorValue(e)), None)
      case Ok(created) =>
        Exchange(Respond(StatusCreated, OfferBody(created)), Some(CreatedEvent(created.id)))
  }

  /** The two orders differ exactly when the service fails: a panic as written, a 400 as intended. */
  lemma AddJobOfferOrders(body: Binding, svc: ServicePort)
    ensures AddJobOfferAsWritten(body, svc) != AddJobOffer(body, svc) <==> body.Bound? && svc.add(body.request).Err?
  {
  }

  /** GET /jobOffers/company/:companyId */
  function GetJobOffersByCompany(companyIdParam: string, svc: ServicePort): (x: Exchange)
    ensures x.reply.Respond? && x.systemEvent == None
    ensures x.reply.status == StatusBadRequest <==> GetId(companyIdParam).Err?
    ensures GetId(companyIdParam).Err? ==> x.reply.body == Message(IdError)
    ensures GetId(companyIdParam).Ok? ==>
      var res := svc.getCompanysOffers(GetId(companyIdParam).value);
      && (x.reply.status == StatusOK <==> res.Ok?)
      && (res.Ok? ==> x.reply.body == OffersBody(res.value))
      && (res.Err? ==> x.reply == Respond(StatusInternalServerError, Message(res.error)))
  {
    match GetId(companyIdParam)
    case Err(e) => Exchange(Respond(StatusBadRequest, Message(e)), None)
    case Ok(id) =>
      match svc.getCompanysOffers(id)
      case Err(e) => Exchange(Respond(StatusInternalServerError, Message(e)), None)
      case Ok(offers) => Exchange(Respond(StatusOK, OffersBody(offers)), None)
  }

  /** GET /jobOffers */
  function GetAll(svc: ServicePort): (x: Exchange)
    ensures x.reply.Respond? && x.systemEvent == None
    ensures x.reply.status == StatusOK <==> svc.getAll().Ok?
    ensures svc.getAll().Ok? ==> x.reply.body == OffersBody(svc.getAll().value)
    ensures svc.getAll().Err? ==> x.reply == Respond(StatusInternalServerError, Message(svc.getAll().error))
  {
    match svc.getAll()
    case Err(e) => Exchange(Respond(StatusInternalServerError, Message(e)), None)
    case Ok(offers) => Exchange(Respond(StatusOK, OffersBody(offers)), None)
  }

  /** GET /jobOffers/search?param=...: a missing `param` is searched as the empty text. */
  function Search(param: Option<string>, svc: ServicePort): (x: Exchange)
    ensures x.reply.Respond? && x.systemEvent == None
    ensures
      var res := svc.search(if param.Some? then param.value else "");
      && (x.reply.status == StatusOK <==> res.Ok?)
      && (res.Ok? ==> x.reply.body == OffersBody(res.value))
      && (res.Err? ==> x.reply == Respond(StatusInternalServerError, Message(res.error)))
  {
    var text := if param.Some? then param.value else "";
    match svc.search(text)
    case Err(e) => Exchange(Respond(StatusInternalServerError, Message(e)), None)
    case Ok(offers) => Exchange(Respond(StatusOK, OffersBody(offers)), None)
  }

  /** GET /jobOffers/:id */
  function GetJobOffer(idParam: string, svc: ServicePort): (x: Exchange)
    ensures x.reply.Respond? && x.systemEvent == None
    ensures x.reply.status == StatusBadRequest <==> GetId(idParam).Err?
    ensures GetId(idParam).Err? ==> x.reply.body == Message(IdError)
    ensures GetId(idParam).Ok? ==>
      var res := svc.getById(GetId(idParam).value);
      && (x.reply.status == StatusOK <==> res.Ok?)
      && (res.Ok? ==> x.reply.body == OfferBody(res.value))
      && (res.Err? ==> x.reply == Respond(StatusInternalServerError, Message(res.error)))
  {
    match GetId(idParam)
    case Err(e) => Exchange(Respond(StatusBadRequest, Message(e)), None)
    case Ok(id) =>
      match svc.getById(id)
      case Err(e) => Exchange(Respond(StatusInternalServerError, Message(e)), None)
      case Ok(offer) => Exchange(Respond(StatusOK, OfferBody(offer)), None)
  }

  /** DELETE /jobOffers/:id: 204 and a system event on success, 400 otherwise. */
  function DeleteJobOffer(idParam: string, svc: ServicePort): (x: Exchange)
    ensures x.reply.Respond?
    ensures x.reply.status == StatusNoContent <==> GetId(idParam).Ok? && svc.delete(GetId(idParam).value).None?
    ensures x.reply.status != StatusNoContent ==> x.reply.status == StatusBadRequest && x.systemEvent == None
    ensures GetId(idParam).Err? ==> x.reply.body == Message(IdError)
    ensures GetId(idParam).Ok? && svc.delete(GetId(idParam).value).Some? ==>
      x.reply.body == Message(svc.delete(GetId(idParam).value).value)
    ensures x.reply.status == StatusNoContent ==>
      x.reply.body == NoBody && x.systemEvent == Some(DeletedEvent(GetId(idParam).value))
  {
    match GetId(idParam)
    case Err(e) => Exchange(Respond(StatusBadRequest, Message(e)), None)
    case Ok(id) =>
      match svc.delete(id)
      case Some(e) => Exchange(Respond(StatusBadRequest, Message(e)), None)
      case None => Exchange(Respond(StatusNoContent, NoBody), Some(DeletedEvent(id)))
  }
}
