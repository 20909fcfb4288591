# Employee service: a Dafny model

The repository is a REST façade over a third-party employee directory. Its only logic
is in `EmployeeService`. The service fetches the employee list from the upstream API,
unwraps the response, and computes three derived views in memory: a search by name, the
highest salary, and the names of the ten highest earners. It also unwraps the replies to
get-by-id, create and delete.

This project models that service as pure Dafny functions over the upstream reply and
proves properties of them:

- `wrappers.dfy`: `Option` and `Result`, the model's stand-ins for `java.util.Optional` and thrown exceptions.
- `employee.dfy`: the `Employee` record (`id`, `name`, `salary`, `age`, `profileImage`), with Java's 32-bit `int` for salary and age.
- `strings.dfy`: `String.contains` as a left-to-right scan, proved equal to "occurs at some position".
- `name_search.dfy`: the order-preserving name filter.
- `salary.dfy`: `max().orElse(0)` over salaries.
- `ranking.dfy`: the stable sort by descending salary, the `limit(10)` cut-off, and the name projection.
- `service.dfy`: the upstream reply (`Reply`), `handleTooManyRequests`, `blockOptional`, the seven service operations, and the delete confirmation.
- `scenarios.dfy`: the two-employee directory used by the controller tests, worked through the model.

An upstream call is modelled as the value the blocking subscription observes. It is one of:

- `Emits(body)`: the `Mono` emitted a body.
- `CompletesEmpty`: the `Mono` completed without a body.
- `ErrorStatus(status)`: the call failed with a `WebClientResponseException`.

Each operation takes its own reply, so every derived operation fetches the list afresh.
A `null` `data` field is `None`.

Two behaviours of the code are kept as written:

- Failures are not split into kinds. A 429 becomes a `RuntimeException` with the message
  "Too many requests, please try again later.". Every absent value becomes a
  `RuntimeException` with the message "Too many requests". Any other error status
  propagates unchanged.
- Salaries are Java `int`s, and a negative salary is not excluded. For a non-empty list
  whose salaries are all negative, the highest salary is that negative maximum, not `0`.

The delete confirmation echoes the request id and does not look up a name. See Findings:
as written, the code never returns that confirmation.

## Model

| member | source | states |
|---|---|---|
| `Strings.Contains` | src/main/java/com/example/rqchallenge/service/EmployeeService.java:49 | true exactly when the search string occurs at some position of the name, so the match is case-sensitive and character by character |
| `Strings.ContainsEmpty` | src/main/java/com/example/rqchallenge/service/EmployeeService.java:49 | every string contains the empty string |
| `NameSearch.SearchByName` | src/main/java/com/example/rqchallenge/service/EmployeeService.java:46-53 | the search result is never longer than the upstream list |
| `NameSearch.SearchMembership` | src/main/java/com/example/rqchallenge/service/EmployeeService.java:48-50 | an employee is in the result if and only if it is in the upstream list and its name contains the search string |
| `NameSearch.SearchIsOrderedFilter` | src/main/java/com/example/rqchallenge/service/EmployeeService.java:48-50 | the result is the subsequence of the upstream list at strictly increasing positions, and a position is kept if and only if its employee's name matches; so the filter is exact and keeps upstream order |
| `NameSearch.SearchEmptyTermIsIdentity` | src/main/java/com/example/rqchallenge/service/EmployeeService.java:49 | searching for "" returns the upstream list unchanged |
| `NameSearch.SearchIdempotent` | src/main/java/com/example/rqchallenge/service/EmployeeService.java:48-50 | searching a search result again with the same string changes nothing |
| `NameSearch.SearchAppend` | src/main/java/com/example/rqchallenge/service/EmployeeService.java:48-50 | searching a concatenation is the concatenation of the two searches |
| `Salary.HighestSalary` | src/main/java/com/example/rqchallenge/service/EmployeeService.java:69-72 | 0 for an empty list; otherwise at least every employee's salary and equal to some employee's salary |
| `Salary.HighestSalaryUnique` | src/main/java/com/example/rqchallenge/service/EmployeeService.java:69-72 | any bound on all salaries that some employee earns is the highest salary |
| `Salary.HighestSalaryPermutation` | src/main/java/com/example/rqchallenge/service/EmployeeService.java:69-72 | reordering the list does not change the highest salary |
| `Ranking.InsertBySalary` | src/main/java/com/example/rqchallenge/service/EmployeeService.java:80 | inserting adds exactly the one employee (multiset) and grows the list by one |
| `Ranking.InsertKeepsSorted` | src/main/java/com/example/rqchallenge/service/EmployeeService.java:80 | inserting into a list in non-increasing salary order keeps it in that order |
| `Ranking.InsertStable` | src/main/java/com/example/rqchallenge/service/EmployeeService.java:80 | the inserted employee goes to the front of its salary class, and every other salary class is unchanged |
| `Ranking.SortBySalaryDesc` | src/main/java/com/example/rqchallenge/service/EmployeeService.java:80 | the sort is a permutation of the upstream list (same length, same multiset) in non-increasing salary order |
| `Ranking.SortStable` | src/main/java/com/example/rqchallenge/service/EmployeeService.java:80 | for every salary, the employees earning it appear in the sorted list in upstream order |
| `Ranking.SortUnique` | src/main/java/com/example/rqchallenge/service/EmployeeService.java:80 | any list in non-increasing salary order that keeps every salary class in upstream order equals the sort, so the sort is the stable sort |
| `Ranking.SortOfSortedIsIdentity` | src/main/java/com/example/rqchallenge/service/EmployeeService.java:80 | a list already in non-increasing salary order is left as it is |
| `Ranking.TopTenEarners` | src/main/java/com/example/rqchallenge/service/EmployeeService.java:80-81 | the kept employees number min(10, length of the list) |
| `Ranking.TopTenCutOff` | src/main/java/com/example/rqchallenge/service/EmployeeService.java:80-81 | the kept employees are in non-increasing salary order and drawn from the upstream list (sub-multiset), and no employee left out earns more than any employee kept |
| `Ranking.TopTenKeepsEarliestTies` | src/main/java/com/example/rqchallenge/service/EmployeeService.java:80-81 | for every salary, the kept employees earning it are the first ones earning it upstream, so ties at the cut-off follow upstream order |
| `Ranking.TopTenOfShortList` | src/main/java/com/example/rqchallenge/service/EmployeeService.java:81 | with at most ten employees, every employee is kept, in sorted order |
| `Ranking.TopEarnerHasHighestSalary` | src/main/java/com/example/rqchallenge/service/EmployeeService.java:67-86 | for a non-empty list, the first of the top ten earns the highest salary |
| `Ranking.TopTenNames` | src/main/java/com/example/rqchallenge/service/EmployeeService.java:82 | min(10, n) names, the k-th being the name of the k-th kept employee |
| `EmployeeService.HandleTooManyRequests` | src/main/java/com/example/rqchallenge/service/EmployeeService.java:27-32 | a 429 becomes a RuntimeException with the rate-limit message; any other status propagates with its status |
| `EmployeeService.BlockOptional` | src/main/java/com/example/rqchallenge/service/EmployeeService.java:41 | a reply with a body gives Some(body), an empty completion gives None, and an error status is thrown after 429 translation |
| `EmployeeService.GetAllEmployees` | src/main/java/com/example/rqchallenge/service/EmployeeService.java:34-44 | succeeds if and only if a body with data arrived, and then returns data unchanged; an error status fails as translated; a missing body or missing data fails with "Too many requests" |
| `EmployeeService.GetEmployeeById` | src/main/java/com/example/rqchallenge/service/EmployeeService.java:55-65 | succeeds if and only if the reply carries a non-empty data list, and then returns its first element; an empty list, missing data or missing body gives "Too many requests" |
| `EmployeeService.CreateEmployee` | src/main/java/com/example/rqchallenge/service/EmployeeService.java:88-99 | as get-by-id, for the reply to the POST: the first element of data, or the same failures |
| `EmployeeService.FirstIsFromList` | src/main/java/com/example/rqchallenge/service/EmployeeService.java:62 | when get-by-id succeeds, get-all on the same reply succeeds too and contains the returned employee |
| `EmployeeService.GetEmployeesByNameSearch` | src/main/java/com/example/rqchallenge/service/EmployeeService.java:46-53 | fails exactly as get-all does; otherwise it returns the name filter of the fetched list, that is, the fetched employees whose name contains the string |
| `EmployeeService.GetHighestSalaryOfEmployees` | src/main/java/com/example/rqchallenge/service/EmployeeService.java:67-75 | fails exactly as get-all does; otherwise 0 for an empty list, and otherwise a salary that bounds every fetched employee's salary and that some fetched employee earns |
| `EmployeeService.GetTopTenHighestEarningEmployeeNames` | src/main/java/com/example/rqchallenge/service/EmployeeService.java:77-86 | fails exactly as get-all does; otherwise the top-ten names of the fetched list, min(10, n) of them |
| `EmployeeService.DeletedMessage` | src/main/java/com/example/rqchallenge/service/EmployeeService.java:109 | "Employee with id " then the id then " has been deleted" (lengths, prefix, id slice, suffix), and the message contains the id |
| `EmployeeService.DeletedMessageRoundTrip` | src/main/java/com/example/rqchallenge/service/EmployeeService.java:109 | the id can be read back out of its confirmation |
| `EmployeeService.DeletedIdOfInverse` | src/main/java/com/example/rqchallenge/service/EmployeeService.java:109 | every string that reads back as an id is exactly that id's confirmation |
| `EmployeeService.DeletedMessageInjective` | src/main/java/com/example/rqchallenge/service/EmployeeService.java:109 | different ids give different confirmations |
| `EmployeeService.DeleteEmployeeByIdAsWritten` | src/main/java/com/example/rqchallenge/service/EmployeeService.java:101-110 | the method as written succeeds, with the confirmation, only if the DELETE's Mono emits a value |
| `EmployeeService.DeleteAsWrittenNeverSucceeds` | src/main/java/com/example/rqchallenge/service/EmployeeService.java:104-107 | for every reply a Mono<Void> can give, the method as written fails; an accepted delete fails with "Too many requests" |
| `EmployeeService.DeleteAsWrittenRejectsAcceptedDelete` | src/main/java/com/example/rqchallenge/service/EmployeeService.java:104-109 | deleting id "1" with an empty completion from upstream gives RuntimeException("Too many requests") |
| `EmployeeService.DeleteEmployeeById` | src/main/java/com/example/rqchallenge/service/EmployeeService.java:101-110 | (corrected) succeeds if and only if the DELETE did not fail with an error status, and then returns the confirmation, which contains the id; an error status fails as translated |
| `EmployeeService.DeleteSucceedsOnCompletion` | src/main/java/com/example/rqchallenge/service/EmployeeService.java:101-110 | (corrected) for a Mono<Void> reply, success if and only if the DELETE completed |
| `Scenarios.TwoEmployeeDirectory` | src/test/java/com/example/rqchallenge/EmployeeControllerTest.java:43-46 | for the Tiger Nixon / Garrett Winters directory: get-all returns both records in order, the highest salary is 320800, and the top names are ["Tiger Nixon", "Garrett Winters"] |
| `Scenarios.LookupTiger` | src/main/java/com/example/rqchallenge/service/EmployeeService.java:62 | get-by-id and create return the first record of the reply |
| `Scenarios.RateLimitedEverywhere` | src/main/java/com/example/rqchallenge/service/EmployeeService.java:27-32 | a 429 fails get-all with the rate-limit message, and fails the three derived operations |

## Left out

- The HTTP calls, `WebClient`, `Mono` and the blocking itself (lines 36-40, 57-61, 90-95, 103-107 of `EmployeeService.java`): these are network I/O in a reactive library. The outcome of each call is an input (`Reply`).
- Request exceptions that carry no HTTP status (connection failures): they propagate unchanged, like `ErrorStatus`, and are not modelled separately.
- The id passed to `getEmployeeById` and the input map passed to `createEmployee`: each is only put into the request, which is not modelled. So the model cannot say that the returned employee has the requested id or the submitted fields.
- Logging: it has no behavioural content.
- `EmployeeController` and `IEmployeeController`: Spring routing and the `{status, data}` envelope, with no logic beyond delegation.
- JSON field names and serialisation: these are done by the framework. `Employee` and `EmployeeResponse` are not part of this model beyond the fields the service reads.
- `null` employees inside `data`: in Java a null employee throws `NullPointerException` in all three derived pipelines (lines 49, 70 and 80 of `EmployeeService.java`). The model's records are never null, so it does not capture these exceptions.
- `null` employee names: a null name throws only in the name search, at `getEmployeeName().contains(...)` (line 49). The highest-salary pipeline never reads the name (line 70). In the top-ten pipeline, `map(Employee::getEmployeeName)` (line 82) copies a null name into the result and `Collectors.toList()` accepts it, so nothing throws. The model's names are never null, so it models neither the exception in the search nor a null name in the top-ten result.
- Lone UTF-16 surrogates: Java's `String.contains` compares UTF-16 code units, and a Dafny `char` is a Unicode scalar value. The two agree on well-formed strings. A name or search string holding a lone surrogate (JSON can carry `\uD800`) cannot be represented in the model.
- The controller test's delete stub, which returns "Tiger Nixon": it is mocked, and it contradicts the service's own message at line 109.
- Concurrency between requests: there is no shared mutable state, and each operation here is one function of one reply.

## Findings

| source | as written | input that shows it | evidently intended | confidence | as-written member | corrected member |
|---|---|---|---|---|---|---|
| src/main/java/com/example/rqchallenge/service/EmployeeService.java:104-109 | `bodyToMono(Void.class)...blockOptional().orElseThrow(...)` throws unless the Mono emits a value, and a `Mono<Void>` only ever completes empty, so the confirmation at line 109 is never returned | `deleteEmployeeById("1")` with an upstream that accepts the DELETE (empty completion) throws RuntimeException("Too many requests") | wait for the DELETE to complete, fail only on an error status, and return "Employee with id 1 has been deleted" | not executed; follows from Reactor's documented `blockOptional` behaviour on an empty Mono | `EmployeeService.DeleteAsWrittenNeverSucceeds` | `EmployeeService.DeleteEmployeeById` |
