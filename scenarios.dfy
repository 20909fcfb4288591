/** The two-employee directory of the controller tests, worked through the service model. */
module Scenarios {
  import opened Wrappers
  import opened Employees
  import opened EmployeeService
  import Ranking

  const Tiger := Employee("1", "Tiger Nixon", 320800, 61, "")
  const Garrett := Employee("2", "Garrett Winters", 170750, 63, "")

  function Directory(): Reply<EmployeeResponse> {
    Emits(EmployeeResponse(Some([Tiger, Garrett])))
  }

  lemma HighestOfTwo()
    ensures GetHighestSalaryOfEmployees(Directory()) == Success(320800)
  {
    assert [Tiger, Garrett][1..] == [Garrett];
  }

  lemma TopTenNamesOfTwo()
    ensures Ranking.TopTenNames([Tiger, Garrett]) == [Tiger.name, Garrett.name]
  {
    var es := [Tiger, Garrett];
    assert Ranking.SortedBySalaryDesc(es);
    Ranking.SortOfSortedIsIdentity(es);
    Ranking.TopTenOfShortList(es);
  }

  lemma TopTenOfTwo()
    ensures GetTopTenHighestEarningEmployeeNames(Directory()) == Success(["Tiger Nixon", "Garrett Winters"])
  {
    TopTenNamesOfTwo();
  }

  /** Listing returns both records in upstream order, the highest salary is Tiger Nixon's,
      and the top earners are both names, highest first. */
  lemma TwoEmployeeDirectory()
    ensures GetAllEmployees(Directory()) == Success([Tiger, Garrett])
    ensures GetHighestSalaryOfEmployees(Directory()) == Success(320800)
    ensures GetTopTenHighestEarningEmployeeNames(Directory()) == Success(["Tiger Nixon", "Garrett Winters"])
  {
    HighestOfTwo();
    TopTenOfTwo();
  }

  /** Looking up or creating Tiger Nixon returns the first record of the reply. */
  lemma LookupTiger()
    ensures GetEmployeeById(Directory()) == Success(Tiger)
    ensures CreateEmployee(Directory()) == Success(Tiger)
  {
  }

  /** A 429 from upstream fails every list-based operation with the rate-limit message. */
  lemma RateLimitedEverywhere(term: string)
    ensures GetAllEmployees(ErrorStatus(429)) == Failure(RuntimeException("Too many requests, please try again later."))
    ensures GetEmployeesByNameSearch(ErrorStatus(429), term).Failure?
    ensures GetHighestSalaryOfEmployees(ErrorStatus(429)).Failure?
    ensures GetTopTenHighestEarningEmployeeNames(ErrorStatus(429)).Failure?
  {
  }
}
