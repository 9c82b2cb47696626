/** Failure-carrying result types and small collection facts shared by every module. */
module Common {

  type CompanyId = string

  /** Milliseconds since the epoch. */
  type Instant = int

  datatype Option<+T> = None | Some(value: T)

  datatype Result<+T, +E> = Ok(value: T) | Err(error: E)

  ghost predicate Distinct<T>(s: seq<T>) {
    forall i, j :: 0 <= i < j < |s| ==> s[i] != s[j]
  }

  function Elems<T(==, !new)>(s: seq<T>): (r: set<T>)
    ensures forall x :: x in r <==> x in s
  {
    set x | x in s
  }

  /** `[...new Set(xs)]`: the first occurrence of each element, in order. */
  function Unique<T(==, !new)>(s: seq<T>): (r: seq<T>)
    ensures Distinct(r)
    ensures forall x :: x in r <==> x in s
  {
    if s == [] then []
    else
      var front, last := s[..|s| - 1], s[|s| - 1];
      assert s == front + [last];
      if last in front then Unique(front) else Unique(front) + [last]
  }

  /** `ids.filter(Boolean)` */
  function NonEmpty(ids: seq<string>): (r: seq<string>)
    ensures Elems(r) == Elems(ids) - {""}
  {
    if ids == [] then [] else if ids[0] == "" then NonEmpty(ids[1..]) else [ids[0]] + NonEmpty(ids[1..])
  }

  lemma {:induction false} DistinctCardinality<T(!new)>(s: seq<T>)
    requires Distinct(s)
    ensures |Elems(s)| == |s|
  {
    if s != [] {
      var front := s[..|s| - 1];
      DistinctCardinality(front);
      assert s == front + [s[|s| - 1]];
      assert s[|s| - 1] !in Elems(front);
      assert Elems(s) == Elems(front) + {s[|s| - 1]};
    }
  }

  lemma {:induction false} UniqueOfDistinct<T(!new)>(s: seq<T>)
    requires Distinct(s)
    ensures Unique(s) == s
  {
    if s != [] {
      UniqueOfDistinct(s[..|s| - 1]);
    }
  }

  /** Later elements never move or remove the first occurrences before them. */
  lemma {:induction false} UniqueOfLonger<T(!new)>(a: seq<T>, b: seq<T>)
    ensures Unique(a) <= Unique(a + b)
  {
    if b == [] {
      assert a + b == a;
    } else {
      UniqueOfLonger(a, b[..|b| - 1]);
      assert (a + b)[..|a + b| - 1] == a + b[..|b| - 1];
    }
  }
}
