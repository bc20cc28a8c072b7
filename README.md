# jobs-ms job offers, modelled in Dafny

This project models the three layers of the jobs-ms job-offer service and
proves properties of them:

- **Repository** (`JobOfferRepository`). The job_offers table is a class that
  holds a sequence of rows in insertion order and the table's id sequence.
  `Add` (gorm's `Save`) and `Delete` are methods that change the table.
  `GetByCompany`, `GetById`, `GetAll` and `Search` are functions that only
  read it, so they cannot change it. Whether the database runs a statement or
  fails it with a driver error is an argument (`Backend`).
- **Search rule**. The search query lower-cases the parameter, puts it
  between `%` signs, and ORs `LOWER(column) LIKE pattern` over position,
  skills, daily activities description and job description. LIKE is modelled
  with its `%` and `_` wildcards and its `\` escape character. Module `Text`
  proves that an escaped pattern matches exactly the texts that contain the
  parameter.
- **Service** (`JobOfferService`). It sees the repository only through its
  interface: a record of the answers each repository operation gives. The
  three list operations copy the repository's rows into a fresh array, index
  by index, in a loop. `Add` validates first. The validator (`dto.Validate`,
  not shown in the source) is an argument.
- **Handler** (`JobOfferHandler`). `getId` is modelled as
  `strconv.ParseInt(s, 10, 32)`. Each endpoint is a pure function from its
  inputs to its `Exchange`: the status and body it writes, or a panic, plus
  the message of the system event it sends. Its inputs are the path or query
  parameter, the outcome of binding the JSON body, and the service's answer.

Files: `results.dfy` (Option and Result), `entities.dfy` (entity, request,
response, the two mappers), `text.dfy`, `decimal.dfy`, `repository.dfy`,
`service.dfy`, `handler.dfy`.

In these places the model follows the code:

- Errors are message strings, as in the code, not tagged error kinds.
- In this revision `GetById` returns an error when no row matches. gorm v1's
  `Find` into a struct reports "record not found", and the integration test
  expects an error. The message is the same as for a failed query.
- A service failure in `AddJobOffer` makes the handler panic. It does not
  answer 400 (see Findings).
- The class offers both searches. `SearchAsWritten` is the query as the code
  builds it, with the parameter unescaped. `Search` escapes `%`, `_` and `\`
  in the parameter. The two agree on every parameter without those characters
  (see Findings).

## Model

| member | source | states |
|---|---|---|
| Entities.ToEntity | src/service/JobOfferService.go:40 | The entity built from a request has id 0 and exactly the request's fields (the test's mock expects this entity). |
| Entities.ToResponse | src/service/JobOfferService.go:51 | The response keeps the entity's id and all of its other fields. |
| Entities.MappingRoundTrip | src/service/JobOfferService_test.go:61-71 | A request mapped to an entity, saved under an id and mapped back gives every request field unchanged, with that id. |
| Text.Lower | src/repository/JobOfferRepository.go:75 | ASCII lower-casing keeps the length, lower-cases each character and leaves no upper-case letter. |
| Text.LowerIdempotent | src/repository/JobOfferRepository.go:75-77 | Lower-casing an already lower-cased text changes nothing. |
| Text.ContainsAt | src/repository/JobOfferRepository.go:77 | The recursive substring test holds iff the text occurs at some position. |
| Text.LikeEscapedPrefix | src/repository/JobOfferRepository.go:77 | An escaped text at the head of a LIKE pattern matches exactly that text, literally, followed by what the rest of the pattern matches. |
| Text.LikeContains | src/repository/JobOfferRepository.go:75-77 | `s LIKE '%' + escape(q) + '%'` holds iff `q` is a substring of `s`. |
| Text.LikeAnything | src/repository/JobOfferRepository.go:75-77 | The pattern `%` matches every text, so the empty parameter matches every row. |
| Text.EscapePlain | src/repository/JobOfferRepository.go:75 | Escaping changes nothing in a text without `%`, `_` and `\`. |
| Decimal.Digits | src/repository/JobOfferRepository.go:49 | `%d` rendering of a natural number gives only digits and reads back as that number. It starts with `0` only when it is exactly "0", which is the rendering of 0. |
| Decimal.ParseInt32 | src/handler/JobOfferHandler.go:154 | An accepted text is non-empty and its value is in the 32-bit signed range. Its value is given by ParseSignedDigits and ParseAcceptedShape. |
| Decimal.SignedValue | src/handler/JobOfferHandler.go:154 | A sign and a run of digits denote the digits' value, negated for `-`. It is refused exactly when that magnitude exceeds 2147483647, or 2147483648 for `-`. |
| Decimal.ParseSignedDigits | src/handler/JobOfferHandler.go:154 | For every optional sign (`+`, `-` or none) and every non-empty run of digits, leading zeros included, the text is read as its signed value when it fits in 32 bits and refused otherwise. |
| Decimal.ParseAcceptedShape | src/handler/JobOfferHandler.go:154 | Every accepted text is an optional sign followed by a non-empty run of digits, and its value is that signed value. |
| Decimal.ParseRender | src/handler/JobOfferHandler.go:154-158 | Parsing the decimal rendering of n gives n when n fits in 32 bits, and the range error otherwise. |
| Decimal.ParseRejectsNonNumbers | src/handler/JobOfferHandler.go:154-156 | "", a bare sign, "abc" and "1a" are refused. |
| Decimal.ParseAcceptsSignAndZeros | src/handler/JobOfferHandler.go:154 | "+7" and "-007" are accepted as 7 and -7. |
| Handler.GetId | src/handler/JobOfferHandler.go:153-159 | Every failure carries exactly "Company id should be a number"; it succeeds iff ParseInt accepts the text, with exactly ParseInt's value, which is in the 32-bit range. |
| Handler.GetIdRoundTrip | src/handler/JobOfferHandler.go:153-159 | The decimal rendering of any 32-bit n is read as n, without error. |
| Handler.GetIdRejects | src/handler/JobOfferHandler.go:154-157 | "abc", "", 2147483648 and -2147483649 fail with the fixed message. |
| Handler.AddJobOfferAsWritten | src/handler/JobOfferHandler.go:25-49 | An unbindable body gets 400 with the bind error. When the service fails, the handler panics before it writes anything, so it never answers 400 for a bound body. |
| Handler.AddJobOffer | src/handler/JobOfferHandler.go:25-49 | The intended order: 201 with the created offer and a "New job offer created with id N" event iff the body binds and the service succeeds. Otherwise 400 with the bind or service error and no event. It never panics. |
| Handler.AddJobOfferOrders | src/handler/JobOfferHandler.go:38-45 | The two orders differ exactly when the body binds and the service fails. |
| Handler.GetJobOffersByCompany | src/handler/JobOfferHandler.go:51-70 | 400 with the getId message iff the path parameter is malformed, and then the service's answer plays no part. Otherwise 500 with the service's error message, or 200 with the service's list. |
| Handler.GetAll | src/handler/JobOfferHandler.go:72-86 | 200 with the service's list iff the service succeeds, otherwise 500 with its error message. |
| Handler.Search | src/handler/JobOfferHandler.go:88-103 | The `param` query value, or "" when it is missing, goes to the service unchanged. The answer is 200 with the list, or 500 with the error message. |
| Handler.GetJobOffer | src/handler/JobOfferHandler.go:105-126 | 400 with the getId message iff the id is malformed, and then the service's answer plays no part. Otherwise 500 with the service's error, or 200 with the offer. |
| Handler.DeleteJobOffer | src/handler/JobOfferHandler.go:128-151 | 204 with no body and a "Job offer deleted with id N" event iff the id parses and the delete succeeds. Otherwise 400 with the getId message or the service's error, and no event. |
| Repository.Filter | src/repository/JobOfferRepository.go:37-44 | A filtered table holds exactly the accepted rows, each as many times as in the table. |
| Repository.FilterKeepsAll | src/repository/JobOfferRepository.go:74-82 | A filter that accepts every row returns the table unchanged. |
| Repository.FilterUnique | src/repository/JobOfferRepository.go:55-63 | Filtering keeps ids unique. |
| Repository.IndexOf | src/repository/JobOfferRepository.go:46-53 | The position of the first row with the id. |
| Repository.FindById | src/repository/JobOfferRepository.go:46-53 | A lookup finds a row iff some row has the id, and the row found is in the table with that id. |
| Repository.FindUnique | src/repository/JobOfferRepository.go:46-53 | With unique ids, looking up a row's id finds exactly that row. |
| Repository.Upsert | src/repository/JobOfferRepository.go:31-35 | Save with a non-zero id replaces the row with that id in place, or appends the offer when there is none. Ids stay unique. |
| Repository.RemoveId | src/repository/JobOfferRepository.go:55-63 | Delete keeps exactly the rows with other ids, leaves no row with the id, changes nothing when the id is absent, and keeps ids unique. |
| Repository.AddedOfferIsFound | src/repository/JobOfferRepository.go:31-53 | After inserting under an unused id, GetById of that id finds the offer and every other lookup answers as before. |
| Repository.UpsertedOfferIsFound | src/repository/JobOfferRepository.go:31-53 | After a save with an explicit id, that id finds the saved offer and every other lookup answers as before. |
| Repository.DeletedOfferIsGone | src/repository/JobOfferRepository.go:46-63 | After a delete, the id is not found; every other id is found as before. |
| Repository.SearchRule | src/repository/JobOfferRepository.go:74-82 | With the escaped pattern, an offer matches iff the lower-cased parameter is a substring of the lower-cased position, skills, daily activities description or job description. The link plays no part. |
| Repository.LowerKeepsPlain | src/repository/JobOfferRepository.go:75 | Lower-casing adds none of LIKE's special characters. |
| Repository.AsWrittenAgreesOnPlain | src/repository/JobOfferRepository.go:75-77 | For a parameter without `%`, `_` and `\`, the source's unescaped pattern selects exactly the offers the parameter is mentioned in. |
| Repository.AsWrittenPercentIsWildcard | src/repository/JobOfferRepository.go:75-77 | The unescaped pattern for the parameter "%" selects the integration tests' sample offer, although none of its searched columns contains "%". |
| Repository.JobOfferRepository.constructor | src/repository/JobOfferRepository.go:21-25 | A new repository has an empty table whose id sequence starts at 1. |
| Repository.JobOfferRepository.Add | src/repository/JobOfferRepository.go:31-35 | For id 0, the offer is inserted under the next sequence value. That id was not in the table, the offer is otherwise unchanged and earlier rows stay; if the value is taken, the insert fails with a duplicate-key error and nothing is stored. A non-zero id updates or inserts that row. A database failure returns the driver error with the offer and table unchanged. |
| Repository.JobOfferRepository.GetByCompany | src/repository/JobOfferRepository.go:37-44 | Exactly the rows with the company id, each once, and an empty list (not an error) when there are none. Fails only when the database fails, with the fixed message. |
| Repository.JobOfferRepository.GetById | src/repository/JobOfferRepository.go:46-53 | The row with the id when there is one. Otherwise, or on a database failure, the error "Error happened during retrieving job offer with id: N". |
| Repository.JobOfferRepository.Delete | src/repository/JobOfferRepository.go:55-63 | Removes the row with the id and keeps all others. An absent id succeeds and changes nothing. A database failure returns the driver error. |
| Repository.JobOfferRepository.GetAll | src/repository/JobOfferRepository.go:65-72 | Every stored row, or the fixed message on a database failure. |
| Repository.Matching | src/repository/JobOfferRepository.go:77 | The rows for which one of the four searched columns is LIKE the pattern, each as often as in the table. |
| Repository.JobOfferRepository.SearchAsWritten | src/repository/JobOfferRepository.go:74-82 | The search as the code runs it: exactly the rows that one of the four lower-cased columns matches with `'%' + lower(param) + '%'`, unescaped. It fails only when the database fails, with the fixed message. For a parameter without `%`, `_` and `\`, these are exactly the rows the parameter is mentioned in, and the same result as Search. |
| Repository.JobOfferRepository.Search | src/repository/JobOfferRepository.go:74-82 | The corrected search, with the parameter escaped: exactly the rows the parameter is mentioned in (see SearchRule), each as often as in the table, or the fixed message on a database failure. |
| Repository.SearchIgnoresCase | src/repository/JobOfferRepository.go:75-77 | Search(p) equals Search(lower(p)). |
| Repository.SearchAsWrittenIgnoresCase | src/repository/JobOfferRepository.go:75-77 | The code's query gives the same result for a parameter and its lower-cased form, for every parameter, including ones with `%`, `_` or `\`. |
| Repository.SearchEmptyIsGetAll | src/repository/JobOfferRepository.go:74-82 | Search("") and SearchAsWritten("") (the pattern "%%") return the same as GetAll. |
| Repository.ByCompanyIsSubsetOfAll | src/repository/JobOfferRepository.go:37-72 | GetByCompany(c) holds exactly the rows of GetAll whose company id is c. |
| Service.ToResponses | src/service/JobOfferService.go:63-66 | The loop fills a fresh array of the same length, so response i is offer i mapped. The order is kept. |
| Service.Add | src/service/JobOfferService.go:33-52 | A validation error is returned as it is, and the result then does not depend on the repository. Otherwise the repository gets the mapped entity; its error is returned unchanged, or the saved entity is returned mapped, with the saved id. |
| Service.AddKeepsRequest | src/service/JobOfferService.go:40-51 | When the repository stores what it is given (as Repository.JobOfferRepository.Add does), a successful Add returns every request field unchanged. |
| Service.GetCompanysOffers | src/service/JobOfferService.go:54-70 | The repository's error passes through unchanged. Otherwise the result maps the repository's list one for one, in order; an empty list gives an empty, non-error result. |
| Service.GetAll | src/service/JobOfferService.go:72-88 | The same as GetCompanysOffers, for GetAll. |
| Service.Search | src/service/JobOfferService.go:90-106 | The same as GetCompanysOffers, for Search with the parameter unchanged. |
| Service.GetById | src/service/JobOfferService.go:108-120 | Fails iff the repository fails, with its error. Otherwise it returns the offer mapped, with its id and fields. |
| Service.Delete | src/service/JobOfferService.go:122-133 | Returns the repository's error unchanged, and no error when it succeeds. |

## Findings

| source | as written | input that shows it | evidently intended | confidence | as-written member | corrected member |
|---|---|---|---|---|---|---|
| src/handler/JobOfferHandler.go:38-45 | `dto.ID` is read for the system event before `err` is checked. | Any request that binds but for which `Service.Add` fails, e.g. one that fails validation: `dto` is nil and the handler panics. | Check the error first and answer 400 with it. Send the "created" event only on success. | high (not executed) | Handler.AddJobOfferAsWritten | Handler.AddJobOffer |
| src/repository/JobOfferRepository.go:75-77 | The parameter goes into the LIKE pattern unescaped, so `%`, `_` and `\` in it act as wildcards and escapes. | `param = "%"` selects the offer (position "QA", skills "test", …), which holds no "%" in any searched column. | A case-insensitive substring search for the parameter as typed. | medium (not executed) | Repository.JobOfferRepository.SearchAsWritten, Repository.AsWrittenPercentIsWildcard | Repository.JobOfferRepository.Search, Repository.SearchRule |

Repository.JobOfferRepository.Search uses the corrected, escaped pattern.
Repository.JobOfferRepository.SearchAsWritten uses the source's pattern. Its
contract and Repository.AsWrittenAgreesOnPlain prove that the two select the
same rows whenever the parameter has no `%`, `_` or `\`.

## Left out

- Tracing spans, logrus logging and Prometheus metrics: they only observe and do not affect results.
- The wiring in src/main.go (database connection, AutoMigrate, Jaeger, CORS, routes) is not part of this model. It leaves the handler's and service's loggers unset, which this model does not capture.
- AddSystemEvent: the HTTP POST to the events service and its timestamp (a clock reading) are left out. Only the event message an endpoint sends is modelled. Its error is ignored in the source, too.
- JSON binding and serialisation: binding is an abstract outcome (it fails with an error, or gives a request). A body is the value written. How gin serialises an error value (`ctx.JSON(400, err)`) is not modelled.
- `dto.Validate` and the mapper package are not part of this model. Validate is an argument returning an optional error. The mappers are field-for-field copies, as the unit test pins down.
- gorm and SQL execution: only the effect of each statement on the table is modelled. Transactions and concurrent requests are left out.
- Non-ASCII case folding: lower-casing is ASCII only, where Go's strings.ToLower and PostgreSQL's LOWER agree.
- A LIKE pattern that ends in a lone `\` is an error in PostgreSQL; `Text.Like` treats it as matching nothing. No search pattern ends that way.
- Repository.DuplicateKeyError stands for the driver's duplicate-key error. The driver's actual text also carries its `pq:` prefix and the constraint name.
- Integer widths: ids and company ids are unbounded integers. The id sequence and the rendering of ids do not wrap around.
- Repository.JobOfferRepository.Add: when the database fails, the id sequence is treated as unconsumed. The order of rows returned by a query is taken as insertion order; SQL leaves it unspecified.
- Repository.JobOfferRepository.Search: it escapes `%`, `_` and `\` in the parameter. So for a parameter with one of them it can select other rows than the code's query (for `%`, only the rows that contain a `%`, where the code selects all rows). SearchAsWritten models the code's query.
- Repository.JobOfferRepository.GetByCompany, GetAll, Search: the model returns rows, not Go pointers, so aliasing between returned offers is not modelled.
