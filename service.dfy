/**
 * The business layer (JobOfferService): it validates a new offer before
 * anything reaches storage, maps between payloads and entities, and passes
 * every repository error through unchanged. It depends on the repository only
 * through its interface, modelled as the answers the repository gives.
 */
module Service {
  import opened Results
  import opened Entities

  /**
   * IJobOfferRepository as the service sees it: for each operation, what the
   * repository answers. `add` returns the saved entity and the error, as the
   * Go method does; any implementation (the table in module Repository, or a
   * test double) may stand behind it.
   */
  datatype RepositoryPort = RepositoryPort(
    add: JobOffer -> (JobOffer, Option<string>),
    getByCompany: int -> Result<seq<JobOffer>>,
    getAll: () -> Result<seq<JobOffer>>,
    search: string -> Result<seq<JobOffer>>,
    getById: int -> Result<JobOffer>,
    delete: int -> Option<string>)

  /** `res` is `offers` mapped to responses one for one, in the same order. */
  predicate MapsTo(offers: seq<JobOffer>, res: seq<JobOfferResponse>) {
    |res| == |offers| && forall i :: 0 <= i < |offers| ==> res[i] == ToResponse(offers[i])
  }

  /** Allocates a slice of the same length and fills it index by index. */
  method ToResponses(offers: seq<JobOffer>) returns (res: seq<JobOfferResponse>)
    ensures MapsTo(offers, res)
  {
    var buf := new JobOfferResponse[|offers|];
    for i := 0 to |offers|
      invariant forall k :: 0 <= k < i ==> buf[k] == ToResponse(offers[k])
    {
      buf[i] := ToResponse(offers[i]);
    }
    res := buf[..];
  }

  /**
   * Validates, maps the request to an entity with id 0, saves it and maps the
   * saved entity back. A validation error is returned before the repository
   * is consulted (the result does not depend on `repo` then); a repository
   * error is returned as it is.
   */
  function Add(repo: RepositoryPort, validate: JobOfferRequest -> Option<string>, req: JobOfferRequest): (r: Result<JobOfferResponse>)
    ensures validate(req).Some? ==> r == Err(validate(req).value)
    ensures validate(req).None? ==> (r.Err? <==> repo.add(ToEntity(req)).1.Some?)
    ensures validate(req).None? && r.Err? ==> r.error == repo.add(ToEntity(req)).1.value
    ensures r.Ok? ==> r.value.id == repo.add(ToEntity(req)).0.id
    ensures r.Ok? ==> r.value.Fields() == repo.add(ToEntity(req)).0.Fields()
  {
    match validate(req)
    case Some(e) => Err(e)
    case None =>
      var (added, err) := repo.add(ToEntity(req));
      if err.Some? then Err(err.value) else Ok(ToResponse(added))
  }

  /**
   * When the repository stores the entity it is given (as the table does,
   * adding only an id), a successful Add answers with every field of the
   * request unchanged and the id storage chose.
   */
  lemma AddKeepsRequest(repo: RepositoryPort, validate: JobOfferRequest -> Option<string>, req: JobOfferRequest)
    requires repo.add(ToEntity(req)).0.Fields() == ToEntity(req).Fields()
    ensures Add(repo, validate, req).Ok? ==> Add(repo, validate, req).value.Fields() == req
  {
  }

  /** The company's offers as responses, in the repository's order. */
  method GetCompanysOffers(repo: RepositoryPort, companyId: int) returns (r: Result<seq<JobOfferResponse>>)
    ensures repo.getByCompany(companyId).Err? ==> r == Err(repo.getByCompany(companyId).error)
    ensures repo.getByCompany(companyId).Ok? ==> r.Ok? && MapsTo(repo.getByCompany(companyId).value, r.value)
  {
    var offers := repo.getByCompany(companyId);
    if offers.Err? {
      return Err(offers.error);
    }
    var res := ToResponses(offers.value);
    return Ok(res);
  }

  /** All offers as responses, in the repository's order. */
  method GetAll(repo: RepositoryPort) returns (r: Result<seq<JobOfferResponse>>)
    ensures repo.getAll().Err? ==> r == Err(repo.getAll().error)
    ensures repo.getAll().Ok? ==> r.Ok? && MapsTo(repo.getAll().value, r.value)
  {
    var offers := repo.getAll();
    if offers.Err? {
      return Err(offers.error);
    }
    var res := ToResponses(offers.value);
    return Ok(res);
  }

  /** The offers matching the parameter as responses, in the repository's order. */
  method Search(repo: RepositoryPort, param: string) returns (r: Result<seq<JobOfferResponse>>)
    ensures repo.search(param).Err? ==> r == Err(repo.search(param).error)
    ensures repo.search(param).Ok? ==> r.Ok? && MapsTo(repo.search(param).value, r.value)
  {
    var offers := repo.search(param);
    if offers.Err? {
      return Err(offers.error);
    }
    var res := ToResponses(offers.value);
    return Ok(res);
  }

  /** One offer as a response; the repository's error (not found included) passes through. */
  function GetById(repo: RepositoryPort, id: int): (r: Result<JobOfferResponse>)
    ensures r.Err? <==> repo.getById(id).Err?
    ensures r.Err? ==> r.error == repo.getById(id).error
    ensures r.Ok? ==> r.value.id == repo.getById(id).value.id
    ensures r.Ok? ==> r.value.Fields() == repo.getById(id).value.Fields()
  {
    match repo.getById(id)
    case Err(e) => Err(e)
    case Ok(offer) => Ok(ToResponse(offer))
  }

  /** Deletes through the repository; its error passes through. */
  function Delete(repo: RepositoryPort, id: int): (err: Option<string>)
    ensures err == repo.delete(id)
  {
    match repo.delete(id)
    case Some(e) => Some(e)
    case None => None
  }
}
