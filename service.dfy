/** The operations of `EmployeeService` as functions of the upstream reply. Each upstream
    call is a `Reply`: what the blocking subscription to the response `Mono` observed. */
module EmployeeService {
  import opened Wrappers
  import opened Employees
  import opened Strings
  import NameSearch
  import Salary
  import Ranking

  /** How a response `Mono` ended: it emitted a body, completed without one, or failed
      with the HTTP status of a `WebClientResponseException`. */
  datatype Reply<+T> = Emits(body: T) | CompletesEmpty | ErrorStatus(status: int)

  /** The upstream envelope; only `data` is read, and a missing (`null`) `data` is `None`. */
  datatype EmployeeResponse = EmployeeResponse(data: Option<seq<Employee>>)

  /** What the service throws: a `RuntimeException` with a message, or the upstream
      `WebClientResponseException`, which propagates with its status unchanged. */
  datatype Failure = RuntimeException(message: string) | WebClientResponseException(status: int)

  const TooManyRequestsStatus := 429
  /** The message `handleTooManyRequests` puts on a 429. */
  const RateLimitedMessage := "Too many requests, please try again later."
  /** The message every `orElseThrow` uses when the expected value is absent. */
  const MissingDataMessage := "Too many requests"

  /** `handleTooManyRequests`: a 429 becomes a `RuntimeException`; every other error
      status propagates as it was. */
  function HandleTooManyRequests(status: int): (f: Failure)
    ensures f.RuntimeException? <==> status == TooManyRequestsStatus
    ensures f.RuntimeException? ==> f.message == RateLimitedMessage
    ensures f.WebClientResponseException? ==> f.status == status
  {
    if status == TooManyRequestsStatus then RuntimeException(RateLimitedMessage)
    else WebClientResponseException(status)
  }

  /** `handleTooManyRequests(mono).blockOptional()`: the emitted body, or `None` on an
      empty completion; an error status is thrown. */
  function BlockOptional<T>(reply: Reply<T>): (r: Result<Option<T>, Failure>)
    ensures r.Success? <==> !reply.ErrorStatus?
    ensures r.Success? ==> (r.value.Some? <==> reply.Emits?)
    ensures reply.Emits? ==> r == Success(Some(reply.body))
    ensures reply.ErrorStatus? ==> r == Failure(HandleTooManyRequests(reply.status))
  {
    match reply
    case Emits(body) => Success(Some(body))
    case CompletesEmpty => Success(None)
    case ErrorStatus(status) => Failure(HandleTooManyRequests(status))
  }

  /** The upstream list that the reply carries, when it carries one. */
  ghost predicate CarriesData(reply: Reply<EmployeeResponse>) {
    reply.Emits? && reply.body.data.Some?
  }

  /** `getAllEmployees`: `blockOptional().map(getData).orElseThrow(...)`. */
  function GetAllEmployees(reply: Reply<EmployeeResponse>): (r: Result<seq<Employee>, Failure>)
    ensures r.Success? <==> CarriesData(reply)
    ensures r.Success? ==> r.value == reply.body.data.value
    ensures reply.ErrorStatus? ==> r == Failure(HandleTooManyRequests(reply.status))
    ensures !reply.ErrorStatus? && !CarriesData(reply) ==> r == Failure(RuntimeException(MissingDataMessage))
  {
    var found :- BlockOptional(reply);
    if found.Some? && found.value.data.Some? then Success(found.value.data.value)
    else Failure(RuntimeException(MissingDataMessage))
  }

  /** `blockOptional().map(getData).flatMap(data -> data.stream().findFirst()).orElseThrow(...)`,
      shared by `getEmployeeById` and `createEmployee`. */
  function FirstOfData(reply: Reply<EmployeeResponse>): Result<Employee, Failure> {
    var found :- BlockOptional(reply);
    if found.Some? && found.value.data.Some? && |found.value.data.value| > 0 then
      Success(found.value.data.value[0])
    else
      Failure(RuntimeException(MissingDataMessage))
  }

  /** The reply carries a non-empty list. */
  ghost predicate CarriesFirst(reply: Reply<EmployeeResponse>) {
    CarriesData(reply) && |reply.body.data.value| > 0
  }

  /** `getEmployeeById`: the first element of `data`; an absent reply, an absent `data` or
      an empty `data` all fail with the same message. */
  function GetEmployeeById(reply: Reply<EmployeeResponse>): (r: Result<Employee, Failure>)
    ensures r.Success? <==> CarriesFirst(reply)
    ensures r.Success? ==> r.value == reply.body.data.value[0]
    ensures reply.ErrorStatus? ==> r == Failure(HandleTooManyRequests(reply.status))
    ensures !reply.ErrorStatus? && !CarriesFirst(reply) ==> r == Failure(RuntimeException(MissingDataMessage))
  {
    FirstOfData(reply)
  }

  /** `createEmployee`: the first element of `data` in the reply to the POST. */
  function CreateEmployee(reply: Reply<EmployeeResponse>): (r: Result<Employee, Failure>)
    ensures r.Success? <==> CarriesFirst(reply)
    ensures r.Success? ==> r.value == reply.body.data.value[0]
    ensures reply.ErrorStatus? ==> r == Failure(HandleTooManyRequests(reply.status))
    ensures !reply.ErrorStatus? && !CarriesFirst(reply) ==> r == Failure(RuntimeException(MissingDataMessage))
  {
    FirstOfData(reply)
  }

  /** When the list is available, get-by-id and create return an element of it. */
  lemma FirstIsFromList(reply: Reply<EmployeeResponse>)
    requires GetEmployeeById(reply).Success?
    ensures GetAllEmployees(reply).Success?
    ensures GetEmployeeById(reply).value in GetAllEmployees(reply).value
  {
  }

  /** `getEmployeesByNameSearch`: fetches the list, then filters it by name. */
  function GetEmployeesByNameSearch(reply: Reply<EmployeeResponse>, term: string): (r: Result<seq<Employee>, Failure>)
    ensures r.Success? <==> CarriesData(reply)
    ensures r.Failure? ==> r == GetAllEmployees(reply)
    ensures r.Success? ==> r.value == NameSearch.SearchByName(reply.body.data.value, term)
    ensures r.Success? ==> forall e :: e in r.value <==> e in reply.body.data.value && Contains(e.name, term)
  {
    var employees :- GetAllEmployees(reply);
    assert forall e :: e in NameSearch.SearchByName(employees, term) <==> e in employees && Contains(e.name, term) by {
      forall e ensures e in NameSearch.SearchByName(employees, term) <==> e in employees && Contains(e.name, term) {
        NameSearch.SearchMembership(employees, term, e);
      }
    }
    Success(NameSearch.SearchByName(employees, term))
  }

  /** `getHighestSalaryOfEmployees`: fetches the list and takes its highest salary. */
  function GetHighestSalaryOfEmployees(reply: Reply<EmployeeResponse>): (r: Result<Int32, Failure>)
    ensures r.Success? <==> CarriesData(reply)
    ensures r.Failure? ==> r.error == GetAllEmployees(reply).error
    ensures r.Success? && reply.body.data.value == [] ==> r.value == 0
    ensures r.Success? ==> forall e :: e in reply.body.data.value ==> e.salary <= r.value
    ensures r.Success? && reply.body.data.value != [] ==>
      exists e :: e in reply.body.data.value && e.salary == r.value
  {
    var employees :- GetAllEmployees(reply);
    Success(Salary.HighestSalary(employees))
  }

  /** `getTopTenHighestEarningEmployeeNames`: fetches the list, sorts it stably by
      descending salary and returns the names of the first ten. */
  function GetTopTenHighestEarningEmployeeNames(reply: Reply<EmployeeResponse>): (r: Result<seq<string>, Failure>)
    ensures r.Success? <==> CarriesData(reply)
    ensures r.Failure? ==> r.error == GetAllEmployees(reply).error
    ensures r.Success? ==> |r.value| == Ranking.Min(Ranking.TopCount, |reply.body.data.value|)
    ensures r.Success? ==> r.value == Ranking.TopTenNames(reply.body.data.value)
  {
    var employees :- GetAllEmployees(reply);
    Success(Ranking.TopTenNames(employees))
  }

  const DeletedPrefix := "Employee with id "
  const DeletedSuffix := " has been deleted"

  /** The confirmation `deleteEmployeeById` returns: it echoes the id it was given rather
      than a name looked up upstream. */
  function DeletedMessage(id: string): (msg: string)
    ensures |msg| == |DeletedPrefix| + |id| + |DeletedSuffix|
    ensures DeletedPrefix <= msg
    ensures msg[|DeletedPrefix|..|DeletedPrefix| + |id|] == id
    ensures msg[|msg| - |DeletedSuffix|..] == DeletedSuffix
    ensures Contains(msg, id)
  {
    var msg := DeletedPrefix + id + DeletedSuffix;
    assert msg[|DeletedPrefix|..|DeletedPrefix| + |id|] == id;
    ContainsSlice(msg, |DeletedPrefix|, |DeletedPrefix| + |id|);
    msg
  }

  /** Reads the id back out of a confirmation message. */
  function DeletedIdOf(msg: string): Option<string> {
    if |msg| >= |DeletedPrefix| + |DeletedSuffix| && DeletedPrefix <= msg
       && msg[|msg| - |DeletedSuffix|..] == DeletedSuffix
    then Some(msg[|DeletedPrefix|..|msg| - |DeletedSuffix|])
    else None
  }

  /** The id can be read back from the confirmation. */
  lemma DeletedMessageRoundTrip(id: string)
    ensures DeletedIdOf(DeletedMessage(id)) == Some(id)
  {
  }

  /** Every string that reads back as an id is the confirmation for that id, so the
      confirmation format loses nothing and the message determines the id. */
  lemma DeletedIdOfInverse(msg: string)
    requires DeletedIdOf(msg).Some?
    ensures DeletedMessage(DeletedIdOf(msg).value) == msg
  {
  }

  /** Different ids give different confirmations. */
  lemma DeletedMessageInjective(a: string, b: string)
    requires DeletedMessage(a) == DeletedMessage(b)
    ensures a == b
  {
  }

  /** `deleteEmployeeById` as written: `bodyToMono(Void.class).blockOptional().orElseThrow(...)`
      throws unless the DELETE's `Mono` emits a value, and only then returns the confirmation. */
  function DeleteEmployeeByIdAsWritten(id: string, reply: Reply<()>): (r: Result<string, Failure>)
    ensures r.Success? <==> reply.Emits?
    ensures r.Success? ==> r.value == DeletedMessage(id)
  {
    var found :- BlockOptional(reply);
    if found.Some? then Success(DeletedMessage(id))
    else Failure(RuntimeException(MissingDataMessage))
  }

  /** A `Mono<Void>` never emits a value: its reply is an empty completion or an error. */
  ghost predicate IsVoidReply(reply: Reply<()>) {
    !reply.Emits?
  }

  /** As written, no delete ever succeeds: a successful DELETE completes empty and is
      reported as "Too many requests". */
  lemma DeleteAsWrittenNeverSucceeds(id: string, reply: Reply<()>)
    requires IsVoidReply(reply)
    ensures DeleteEmployeeByIdAsWritten(id, reply).Failure?
    ensures reply.CompletesEmpty? ==>
      DeleteEmployeeByIdAsWritten(id, reply) == Failure(RuntimeException(MissingDataMessage))
  {
  }

  /** The concrete input: a DELETE of employee "1" that the upstream accepts. */
  lemma DeleteAsWrittenRejectsAcceptedDelete()
    ensures DeleteEmployeeByIdAsWritten("1", CompletesEmpty) == Failure(RuntimeException("Too many requests"))
  {
  }

  /** `deleteEmployeeById` as intended: the DELETE completing (with or without a body)
      yields the confirmation; an error status fails as every other call does. */
  function DeleteEmployeeById(id: string, reply: Reply<()>): (r: Result<string, Failure>)
    ensures r.Success? <==> !reply.ErrorStatus?
    ensures r.Success? ==> r.value == DeletedMessage(id) && Contains(r.value, id)
    ensures reply.ErrorStatus? ==> r == Failure(HandleTooManyRequests(reply.status))
  {
    var _ :- BlockOptional(reply);
    Success(DeletedMessage(id))
  }

  /** For every reply a `Mono<Void>` can give, the corrected delete succeeds exactly when
      the upstream did not answer with an error status. */
  lemma DeleteSucceedsOnCompletion(id: string, reply: Reply<()>)
    requires IsVoidReply(reply)
    ensures DeleteEmployeeById(id, reply).Success? <==> reply.CompletesEmpty?
  {
  }
}
