/** `getTopTenHighestEarningEmployeeNames`: the stream
    `sorted((e1, e2) -> Integer.compare(e2.salary, e1.salary)).limit(10).map(getEmployeeName)`.
    `Stream.sorted` on an ordered stream is stable, so the sort is modelled as a stable
    insertion sort by descending salary. */
module Ranking {
  import opened Employees
  import Salary

  /** The `limit(10)` of the pipeline. */
  const TopCount: nat := 10

  function Min(a: int, b: int): (m: int)
    ensures m <= a && m <= b
    ensures m == a || m == b
  {
    if a <= b then a else b
  }

  /** Non-increasing salary from front to back. */
  ghost predicate SortedBySalaryDesc(s: seq<Employee>) {
    forall i, j :: 0 <= i < j < |s| ==> s[i].salary >= s[j].salary
  }

  /** The employees of `s` earning exactly `v`, in the order `s` has them. */
  function WithSalary(s: seq<Employee>, v: int): (r: seq<Employee>)
    decreases |s|
  {
    if s == [] then []
    else if s[0].salary == v then [s[0]] + WithSalary(s[1..], v)
    else WithSalary(s[1..], v)
  }

  /** The salary class `v` holds exactly the employees of `s` who earn `v`. */
  lemma {:induction false} WithSalaryMembership(s: seq<Employee>, v: int, e: Employee)
    ensures e in WithSalary(s, v) <==> e in s && e.salary == v
    decreases |s|
  {
    if s != [] {
      WithSalaryMembership(s[1..], v, e);
      assert e in s <==> e == s[0] || e in s[1..];
    }
  }

  /** Places `e` after every element of `s` that earns strictly more, and before the first
      that earns no more: an employee inserted from further up the upstream list goes
      before its equals. */
  function InsertBySalary(e: Employee, s: seq<Employee>): (r: seq<Employee>)
    ensures |r| == |s| + 1
    ensures multiset(r) == multiset(s) + multiset{e}
    decreases |s|
  {
    if s == [] || s[0].salary <= e.salary then
      [e] + s
    else
      assert s == [s[0]] + s[1..];
      [s[0]] + InsertBySalary(e, s[1..])
  }

  /** A bound on every salary of `s` and on `e` bounds every salary after insertion. */
  lemma {:induction false} InsertBounded(e: Employee, s: seq<Employee>, bound: int)
    requires e.salary <= bound
    requires forall k :: 0 <= k < |s| ==> s[k].salary <= bound
    ensures forall k :: 0 <= k < |InsertBySalary(e, s)| ==> InsertBySalary(e, s)[k].salary <= bound
    decreases |s|
  {
    if s != [] && s[0].salary > e.salary {
      InsertBounded(e, s[1..], bound);
    }
  }

  /** Putting an employee who earns at least as much as everyone in a sorted list in front
      of it keeps it sorted. */
  lemma ConsSorted(x: Employee, s: seq<Employee>)
    requires SortedBySalaryDesc(s)
    requires forall k :: 0 <= k < |s| ==> s[k].salary <= x.salary
    ensures SortedBySalaryDesc([x] + s)
  {
    var r := [x] + s;
    forall i, j | 0 <= i < j < |r| ensures r[i].salary >= r[j].salary {
      assert r[j] == s[j - 1];
      if i > 0 {
        assert r[i] == s[i - 1];
      }
    }
  }

  /** Inserting into a sorted list keeps it sorted. */
  lemma {:induction false} InsertKeepsSorted(e: Employee, s: seq<Employee>)
    requires SortedBySalaryDesc(s)
    ensures SortedBySalaryDesc(InsertBySalary(e, s))
    decreases |s|
  {
    if s == [] || s[0].salary <= e.salary {
      ConsSorted(e, s);
    } else {
      var tail := s[1..];
      assert forall k :: 0 <= k < |tail| ==> tail[k] == s[k + 1];
      InsertKeepsSorted(e, tail);
      InsertBounded(e, tail, s[0].salary);
      ConsSorted(s[0], InsertBySalary(e, tail));
    }
  }

  /** The stable sort by descending salary. */
  function SortBySalaryDesc(es: seq<Employee>): (r: seq<Employee>)
    ensures |r| == |es|
    ensures multiset(r) == multiset(es)
    ensures SortedBySalaryDesc(r)
    decreases |es|
  {
    if es == [] then
      []
    else
      var rest := SortBySalaryDesc(es[1..]);
      assert es == [es[0]] + es[1..];
      InsertKeepsSorted(es[0], rest);
      InsertBySalary(es[0], rest)
  }

  lemma {:induction false} WithSalaryAppend(a: seq<Employee>, b: seq<Employee>, v: int)
    ensures WithSalary(a + b, v) == WithSalary(a, v) + WithSalary(b, v)
    decreases |a|
  {
    if a == [] {
      assert a + b == b;
    } else {
      var c := a + b;
      assert c[0] == a[0];
      assert c[1..] == a[1..] + b;
      WithSalaryAppend(a[1..], b, v);
      if a[0].salary == v {
        calc {
          WithSalary(c, v);
          [a[0]] + WithSalary(a[1..] + b, v);
          [a[0]] + (WithSalary(a[1..], v) + WithSalary(b, v));
          ([a[0]] + WithSalary(a[1..], v)) + WithSalary(b, v);
        }
      }
    }
  }

  /** The salary class `v` of a list with a known head. */
  lemma WithSalaryCons(x: Employee, s: seq<Employee>, v: int)
    ensures WithSalary([x] + s, v) == if x.salary == v then [x] + WithSalary(s, v) else WithSalary(s, v)
  {
  }

  /** Inserting `e` adds it at the front of its own salary class and leaves every
      salary class otherwise as it was. */
  lemma {:induction false} InsertStable(e: Employee, s: seq<Employee>, v: int)
    ensures WithSalary(InsertBySalary(e, s), v) == (if e.salary == v then [e] else []) + WithSalary(s, v)
    decreases |s|
  {
    if s == [] || s[0].salary <= e.salary {
      WithSalaryCons(e, s, v);
    } else {
      var rest := InsertBySalary(e, s[1..]);
      InsertStable(e, s[1..], v);
      WithSalaryCons(s[0], rest, v);
      assert s == [s[0]] + s[1..];
      WithSalaryCons(s[0], s[1..], v);
      // `s[0]` earns more than `e`, so at most one of the two belongs to class `v`.
      if e.salary == v {
        assert WithSalary(s, v) == WithSalary(s[1..], v);
      } else {
        assert WithSalary(rest, v) == WithSalary(s[1..], v);
      }
    }
  }

  /** Stability: for every salary, the employees earning it appear in the sorted list in
      the same relative order as upstream. */
  lemma {:induction false} SortStable(es: seq<Employee>, v: int)
    ensures WithSalary(SortBySalaryDesc(es), v) == WithSalary(es, v)
    decreases |es|
  {
    if es != [] {
      SortStable(es[1..], v);
      InsertStable(es[0], SortBySalaryDesc(es[1..]), v);
    }
  }

  /** The sort is the only stable ordering by descending salary: any list sorted by
      descending salary that keeps every salary class in upstream order equals it. */
  lemma {:induction false} SortUnique(es: seq<Employee>, r: seq<Employee>)
    requires SortedBySalaryDesc(r)
    requires forall v: int :: WithSalary(r, v) == WithSalary(es, v)
    ensures r == SortBySalaryDesc(es)
  {
    var s := SortBySalaryDesc(es);
    forall v: int ensures WithSalary(r, v) == WithSalary(s, v) {
      SortStable(es, v);
    }
    SortedClassesDetermine(r, s);
  }

  lemma HeadInOwnClass(s: seq<Employee>)
    ensures s != [] ==> s[0] in WithSalary(s, s[0].salary)
  {
  }

  /** Two lists sorted by descending salary with the same salary classes are equal. */
  lemma {:induction false} SortedClassesDetermine(a: seq<Employee>, b: seq<Employee>)
    requires SortedBySalaryDesc(a) && SortedBySalaryDesc(b)
    requires forall v: int :: WithSalary(a, v) == WithSalary(b, v)
    ensures a == b
    decreases |a|
  {
    if a == [] {
      if b != [] {
        HeadInOwnClass(b);
        assert false;
      }
    } else if b == [] {
      HeadInOwnClass(a);
      assert false;
    } else {
      // Both heads earn the top salary of the common classes.
      HeadInOwnClass(a);
      HeadInOwnClass(b);
      WithSalaryMembership(b, a[0].salary, a[0]);
      WithSalaryMembership(a, b[0].salary, b[0]);
      assert a[0].salary == b[0].salary;
      var top := a[0].salary;
      assert WithSalary(a, top) == [a[0]] + WithSalary(a[1..], top);
      assert WithSalary(b, top) == [b[0]] + WithSalary(b[1..], top);
      assert a[0] == WithSalary(a, top)[0] == WithSalary(b, top)[0] == b[0];
      forall v: int ensures WithSalary(a[1..], v) == WithSalary(b[1..], v) {
        var head := if a[0].salary == v then [a[0]] else [];
        assert WithSalary(a, v) == head + WithSalary(a[1..], v);
        assert WithSalary(b, v) == head + WithSalary(b[1..], v);
        assert WithSalary(a, v) == WithSalary(b, v);
        assert WithSalary(a[1..], v) == WithSalary(a, v)[|head|..];
        assert WithSalary(b[1..], v) == WithSalary(b, v)[|head|..];
      }
      SortedClassesDetermine(a[1..], b[1..]);
      assert a == [a[0]] + a[1..] && b == [b[0]] + b[1..];
    }
  }

  /** Cutting a sorted list after `n` elements leaves out only employees who earn no more
      than any that are kept. */
  lemma SortedPrefixKeepsHighest(s: seq<Employee>, n: nat)
    requires SortedBySalaryDesc(s) && n <= |s|
    ensures multiset(s[..n]) <= multiset(s)
    ensures forall e, k :: e in multiset(s) - multiset(s[..n]) && 0 <= k < n ==> e.salary <= s[k].salary
  {
    assert s == s[..n] + s[n..];
    assert multiset(s) == multiset(s[..n]) + multiset(s[n..]);
    forall e, k | e in multiset(s) - multiset(s[..n]) && 0 <= k < n
      ensures e.salary <= s[k].salary
    {
      assert e in multiset(s[n..]);
      var j :| 0 <= j < |s[n..]| && s[n..][j] == e;
      assert s[n + j] == e;
    }
  }

  /** The employees whose names the pipeline returns: the first `TopCount` of the sort. */
  function TopTenEarners(es: seq<Employee>): (t: seq<Employee>)
    ensures |t| == Min(TopCount, |es|)
  {
    SortBySalaryDesc(es)[..Min(TopCount, |es|)]
  }

  /** The top earners are sorted, drawn from the upstream list, and nobody left out earns
      more than anybody kept. */
  lemma TopTenCutOff(es: seq<Employee>)
    ensures SortedBySalaryDesc(TopTenEarners(es))
    ensures multiset(TopTenEarners(es)) <= multiset(es)
    ensures forall e, k :: e in multiset(es) - multiset(TopTenEarners(es)) && 0 <= k < |TopTenEarners(es)| ==>
      e.salary <= TopTenEarners(es)[k].salary
  {
    var s := SortBySalaryDesc(es);
    var n := Min(TopCount, |es|);
    SortedPrefixKeepsHighest(s, n);
  }

  lemma {:induction false} WithSalaryPrefix(s: seq<Employee>, n: nat, v: int)
    requires n <= |s|
    ensures WithSalary(s[..n], v) <= WithSalary(s, v)
  {
    assert s == s[..n] + s[n..];
    WithSalaryAppend(s[..n], s[n..], v);
  }

  /** Ties at the cut-off are broken by upstream order: for every salary, the kept
      employees earning it are the first ones earning it upstream. */
  lemma TopTenKeepsEarliestTies(es: seq<Employee>, v: int)
    ensures WithSalary(TopTenEarners(es), v) <= WithSalary(es, v)
  {
    var s := SortBySalaryDesc(es);
    WithSalaryPrefix(s, Min(TopCount, |es|), v);
    SortStable(es, v);
  }

  /** A list already sorted by descending salary is left as it is. */
  lemma SortOfSortedIsIdentity(es: seq<Employee>)
    requires SortedBySalaryDesc(es)
    ensures SortBySalaryDesc(es) == es
  {
    SortUnique(es, es);
  }

  /** With at most ten employees the top ten is every employee, in sorted order. */
  lemma TopTenOfShortList(es: seq<Employee>)
    requires |es| <= TopCount
    ensures TopTenEarners(es) == SortBySalaryDesc(es)
    ensures TopTenNames(es) == Names(SortBySalaryDesc(es))
  {
    PrefixOfWhole(SortBySalaryDesc(es), Min(TopCount, |es|));
  }

  lemma PrefixOfWhole(s: seq<Employee>, n: int)
    requires n == |s|
    ensures s[..n] == s
  {
  }

  /** The first of the top ten earns the highest salary. */
  lemma TopEarnerHasHighestSalary(es: seq<Employee>)
    requires es != []
    ensures TopTenEarners(es)[0].salary == Salary.HighestSalary(es)
  {
    var s := SortBySalaryDesc(es);
    forall e | e in es ensures e.salary <= s[0].salary {
      assert e in multiset(s);
    }
    assert s[0] in multiset(es);
    Salary.HighestSalaryUnique(es, s[0].salary);
  }

  function Names(s: seq<Employee>): (names: seq<string>)
    ensures |names| == |s|
    ensures forall k :: 0 <= k < |s| ==> names[k] == s[k].name
  {
    seq(|s|, k requires 0 <= k < |s| => s[k].name)
  }

  /** The names of the top earners, highest first; at most ten of them. */
  function TopTenNames(es: seq<Employee>): (names: seq<string>)
    ensures |names| == Min(TopCount, |es|)
    ensures forall k :: 0 <= k < |names| ==> names[k] == TopTenEarners(es)[k].name
  {
    Names(TopTenEarners(es))
  }
}
