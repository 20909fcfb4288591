/** `getHighestSalaryOfEmployees`: `mapToInt(getEmployeeSalary).max().orElse(0)`. */
module Salary {
  import opened Employees

  /** The largest salary in the list; `0` when the list is empty (the `orElse(0)`).
      A non-empty list whose salaries are all negative yields that negative maximum. */
  function HighestSalary(es: seq<Employee>): (m: Int32)
    ensures es == [] ==> m == 0
    ensures forall e :: e in es ==> e.salary <= m
    ensures es != [] ==> exists e :: e in es && e.salary == m
    decreases |es|
  {
    if es == [] then
      0
    else if |es| == 1 then
      es[0].salary
    else
      var rest := HighestSalary(es[1..]);
      assert forall e :: e in es ==> e == es[0] || e in es[1..];
      if es[0].salary >= rest then es[0].salary else rest
  }

  /** The two postconditions determine the result: any salary that bounds every employee's
      salary and is earned by someone is the highest salary. */
  lemma HighestSalaryUnique(es: seq<Employee>, m: int)
    requires forall e :: e in es ==> e.salary <= m
    requires exists e :: e in es && e.salary == m
    ensures HighestSalary(es) == m
  {
  }

  /** Reordering the list does not change the highest salary. */
  lemma HighestSalaryPermutation(a: seq<Employee>, b: seq<Employee>)
    requires multiset(a) == multiset(b)
    ensures HighestSalary(a) == HighestSalary(b)
  {
    if a != [] {
      var m := HighestSalary(a);
      forall e | e in b ensures e.salary <= m {
        assert e in multiset(a);
      }
      var w :| w in a && w.salary == m;
      assert w in multiset(b);
      HighestSalaryUnique(b, m);
    }
  }
}
