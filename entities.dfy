/**
 * The job offer as it is stored (the `model.JobOffer` entity), the request
 * payload that creates one and the response payload that describes one, with
 * the two mappings between them. The mapper package copies every field
 * one to one; the request carries no id and the entity built from it leaves
 * the id zero, for storage to assign.
 */
module Entities {

  /** The fields a client supplies when it creates a job offer. */
  datatype JobOfferRequest = JobOfferRequest(
    companyId: int,
    position: string,
    jobDescription: string,
    dailyActivitiesDescription: string,
    skills: string,
    link: string)

  /** A row of the job_offers table. */
  datatype JobOffer = JobOffer(
    id: int,
    companyId: int,
    position: string,
    jobDescription: string,
    dailyActivitiesDescription: string,
    skills: string,
    link: string)
  {
    /** Everything but the id, in the shape of a request. */
    function Fields(): JobOfferRequest {
      JobOfferRequest(companyId, position, jobDescription, dailyActivitiesDescription, skills, link)
    }
  }

  /** What the service hands back for a stored job offer. */
  datatype JobOfferResponse = JobOfferResponse(
    id: int,
    companyId: int,
    position: string,
    jobDescription: string,
    dailyActivitiesDescription: string,
    skills: string,
    link: string)
  {
    /** Everything but the id, in the shape of a request. */
    function Fields(): JobOfferRequest {
      JobOfferRequest(companyId, position, jobDescription, dailyActivitiesDescription, skills, link)
    }
  }

  /** The request mapped to an entity that storage has not yet given an id. */
  function ToEntity(req: JobOfferRequest): (e: JobOffer)
    ensures e.id == 0
    ensures e.Fields() == req
  {
    JobOffer(0, req.companyId, req.position, req.jobDescription,
             req.dailyActivitiesDescription, req.skills, req.link)
  }

  /** The entity mapped to a response, id included. */
  function ToResponse(e: JobOffer): (r: JobOfferResponse)
    ensures r.id == e.id
    ensures r.Fields() == e.Fields()
  {
    JobOfferResponse(e.id, e.companyId, e.position, e.jobDescription,
                     e.dailyActivitiesDescription, e.skills, e.link)
  }

  /**
   * The two mappings compose to the identity on the request fields: a request
   * that storage saves under `id` comes back as a response with that id and
   * every field of the request unchanged.
   */
  lemma MappingRoundTrip(req: JobOfferRequest, id: int)
    ensures ToResponse(ToEntity(req).(id := id)).Fields() == req
    ensures ToResponse(ToEntity(req).(id := id)).id == id
  {
  }
}
