/** `getEmployeesByNameSearch`: the upstream list filtered, in order, to the employees
    whose name contains the search string. */
module NameSearch {
  import opened Employees
  import opened Strings

  predicate NameMatches(e: Employee, term: string) {
    Contains(e.name, term)
  }

  /** The stream `filter(e -> e.getEmployeeName().contains(term))`, collected to a list. */
  function SearchByName(es: seq<Employee>, term: string): (r: seq<Employee>)
    ensures |r| <= |es|
    decreases |es|
  {
    if es == [] then
      []
    else if NameMatches(es[0], term) then
      [es[0]] + SearchByName(es[1..], term)
    else
      SearchByName(es[1..], term)
  }

  /** An employee is in the result exactly when it is upstream and its name matches. */
  lemma {:induction false} SearchMembership(es: seq<Employee>, term: string, e: Employee)
    ensures e in SearchByName(es, term) <==> e in es && NameMatches(e, term)
    decreases |es|
  {
    if es != [] {
      SearchMembership(es[1..], term, e);
      assert e in es <==> e == es[0] || e in es[1..];
    }
  }

  /** `r` is made of the elements of `es` at the strictly increasing positions `idx`. */
  ghost predicate IsSelection(es: seq<Employee>, r: seq<Employee>, idx: seq<int>) {
    && |idx| == |r|
    && (forall k :: 0 <= k < |idx| ==> 0 <= idx[k] < |es| && r[k] == es[idx[k]])
    && (forall k, l :: 0 <= k < l < |idx| ==> idx[k] < idx[l])
  }

  function Shift(idx: seq<int>): (r: seq<int>)
    ensures |r| == |idx|
    ensures forall k :: 0 <= k < |idx| ==> r[k] == idx[k] + 1
  {
    seq(|idx|, k requires 0 <= k < |idx| => idx[k] + 1)
  }

  /** A selection from the tail of `es` is a selection from `es`, one position further on. */
  lemma ShiftSelection(es: seq<Employee>, r: seq<Employee>, tail: seq<int>)
    requires es != []
    requires IsSelection(es[1..], r, tail)
    ensures IsSelection(es, r, Shift(tail))
    ensures IsSelection(es, [es[0]] + r, [0] + Shift(tail))
  {
    var shifted := Shift(tail);
    assert IsSelection(es, r, shifted);
    var idx, r' := [0] + shifted, [es[0]] + r;
    forall k | 0 <= k < |idx|
      ensures 0 <= idx[k] < |es| && r'[k] == es[idx[k]]
    {
      if k > 0 {
        assert idx[k] == shifted[k - 1] && r'[k] == r[k - 1];
      }
    }
  }

  /** Position `i` of `es` is in `Shift(tail)` exactly when position `i - 1` of the tail is in `tail`. */
  lemma ShiftMembership(tail: seq<int>, i: int)
    requires forall k :: 0 <= k < |tail| ==> tail[k] >= 0
    ensures i in Shift(tail) <==> i >= 1 && i - 1 in tail
  {
  }

  /** If `tail` marks the matching positions of `es[1..]`, then `Shift(tail)` marks the
      matching positions of `es` after the first, and not the first. */
  lemma ShiftMarks(es: seq<Employee>, term: string, tail: seq<int>)
    requires es != []
    requires forall k :: 0 <= k < |tail| ==> tail[k] >= 0
    requires forall j :: 0 <= j < |es[1..]| ==> (j in tail <==> NameMatches(es[1..][j], term))
    ensures 0 !in Shift(tail)
    ensures forall i :: 1 <= i < |es| ==> (i in Shift(tail) <==> NameMatches(es[i], term))
  {
    ShiftMembership(tail, 0);
    forall i | 1 <= i < |es|
      ensures i in Shift(tail) <==> NameMatches(es[i], term)
    {
      ShiftMembership(tail, i);
      assert es[1..][i - 1] == es[i];
    }
  }

  /** The search keeps exactly the positions whose employee matches, and keeps them in
      upstream order: the result is the matching subsequence of the input. */
  lemma {:induction false} SearchIsOrderedFilter(es: seq<Employee>, term: string) returns (idx: seq<int>)
    ensures IsSelection(es, SearchByName(es, term), idx)
    ensures forall i :: 0 <= i < |es| ==> (i in idx <==> NameMatches(es[i], term))
    decreases |es|
  {
    if es == [] {
      idx := [];
    } else {
      var tail := SearchIsOrderedFilter(es[1..], term);
      var rest := SearchByName(es[1..], term);
      ShiftSelection(es, rest, tail);
      ShiftMarks(es, term, tail);
      var shifted := Shift(tail);
      if NameMatches(es[0], term) {
        idx := [0] + shifted;
        assert SearchByName(es, term) == [es[0]] + rest;
        forall i | 0 <= i < |es|
          ensures i in idx <==> NameMatches(es[i], term)
        {
          assert i in idx <==> i == 0 || i in shifted;
        }
      } else {
        idx := shifted;
        assert SearchByName(es, term) == rest;
      }
    }
  }

  /** Searching for the empty string returns the upstream list unchanged. */
  lemma {:induction false} SearchEmptyTermIsIdentity(es: seq<Employee>)
    ensures SearchByName(es, "") == es
    decreases |es|
  {
    if es != [] {
      ContainsEmpty(es[0].name);
      SearchEmptyTermIsIdentity(es[1..]);
    }
  }

  /** Searching the result of a search again with the same string changes nothing. */
  lemma {:induction false} SearchIdempotent(es: seq<Employee>, term: string)
    ensures SearchByName(SearchByName(es, term), term) == SearchByName(es, term)
    decreases |es|
  {
    if es != [] {
      SearchIdempotent(es[1..], term);
      if NameMatches(es[0], term) {
        var r := SearchByName(es[1..], term);
        assert ([es[0]] + r)[1..] == r;
      }
    }
  }

  /** Search distributes over concatenation of upstream lists. */
  lemma {:induction false} SearchAppend(a: seq<Employee>, b: seq<Employee>, term: string)
    ensures SearchByName(a + b, term) == SearchByName(a, term) + SearchByName(b, term)
    decreases |a|
  {
    if a == [] {
      assert a + b == b;
    } else {
      var c := a + b;
      assert c[0] == a[0];
      assert c[1..] == a[1..] + b;
      SearchAppend(a[1..], b, term);
      if NameMatches(a[0], term) {
        calc {
          SearchByName(c, term);
          [a[0]] + SearchByName(a[1..] + b, term);
          [a[0]] + (SearchByName(a[1..], term) + SearchByName(b, term));
          ([a[0]] + SearchByName(a[1..], term)) + SearchByName(b, term);
        }
      }
    }
  }
}
