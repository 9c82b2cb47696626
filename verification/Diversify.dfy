/** The Explore feed's first window: the newest pack of each company, then the rest. */
module Diversify {
  import opened Lists

  /** The rows whose company already has a row before them. */
  function Repeats<T, K(==)>(rows: seq<T>, companyOf: T -> K): seq<T> {
    if rows == [] then []
    else
      var front, last := rows[..|rows| - 1], rows[|rows| - 1];
      if companyOf(last) in Keys(front, companyOf) then Repeats(front, companyOf) + [last] else Repeats(front, companyOf)
  }

  function Ordered<T, K(==)>(rows: seq<T>, companyOf: T -> K): seq<T> {
    Firsts(rows, companyOf) + Repeats(rows, companyOf)
  }

  /** `diversifyNewestThenFill` */
  function Diversified<T, K(==)>(rows: seq<T>, companyOf: T -> K, limit: int): seq<T> {
    var ordered := Ordered(rows, companyOf);
    if limit <= 0 then [] else if limit < |ordered| then ordered[..limit] else ordered
  }

  lemma RepeatsOfOneMore<T, K>(rows: seq<T>, last: T, companyOf: T -> K)
    ensures Repeats(rows + [last], companyOf) ==
            if companyOf(last) in Keys(rows, companyOf) then Repeats(rows, companyOf) + [last]
            else Repeats(rows, companyOf)
  {
  }

  method DiversifyNewestThenFill<T, K(==)>(rows: seq<T>, companyOf: T -> K, limit: int) returns (out: seq<T>)
    ensures out == Diversified(rows, companyOf, limit)
  {
    if limit <= 0 || |rows| == 0 {
      return [];
    }
    var seen, lead, rest := {}, [], [];
    for i := 0 to |rows|
      invariant seen == Keys(rows[..i], companyOf)
      invariant lead == Firsts(rows[..i], companyOf) && rest == Repeats(rows[..i], companyOf)
    {
      assert rows[..i + 1] == rows[..i] + [rows[i]];
      KeysOfOneMore(rows[..i], rows[i], companyOf);
      FirstsOfOneMore(rows[..i], rows[i], companyOf);
      RepeatsOfOneMore(rows[..i], rows[i], companyOf);
      if companyOf(rows[i]) !in seen {
        seen := seen + {companyOf(rows[i])};
        lead := lead + [rows[i]];
      } else {
        rest := rest + [rows[i]];
      }
    }
    assert rows[..|rows|] == rows;
    var all := lead + rest;
    out := if limit < |all| then all[..limit] else all;
  }

  /** The rows before the cut are the input rows, none lost and none repeated. */
  lemma {:induction false} OrderedIsAPermutation<T, K>(rows: seq<T>, companyOf: T -> K)
    ensures multiset(Ordered(rows, companyOf)) == multiset(rows)
  {
    if rows != [] {
      var front, last := rows[..|rows| - 1], rows[|rows| - 1];
      OrderedIsAPermutation(front, companyOf);
      assert rows == front + [last];
    }
  }

  /** The window holds `limit` rows, or all there are. */
  lemma WindowIsFull<T, K>(rows: seq<T>, companyOf: T -> K, limit: int)
    ensures |Diversified(rows, companyOf, limit)| == if limit <= 0 then 0 else if limit < |rows| then limit else |rows|
    ensures Diversified(rows, companyOf, limit) <= Ordered(rows, companyOf)
  {
    OrderedIsAPermutation(rows, companyOf);
    assert |multiset(Ordered(rows, companyOf))| == |multiset(rows)|;
  }

  lemma LeadStays<T, K>(front: seq<T>, row: T, later: seq<T>, rows: seq<T>, companyOf: T -> K)
    requires companyOf(row) !in Keys(front, companyOf) && rows == front + [row] + later
    ensures row in Firsts(rows, companyOf)
  {
    var leads := Firsts(front, companyOf);
    FirstsOfOneMore(front, row, companyOf);
    FirstsOfLonger(front + [row], later, companyOf);
    assert Firsts(rows, companyOf)[|leads|] == (leads + [row])[|leads|];
  }

  /** The row of a company that leads is its first one. */
  lemma LeadIsFirst<T, K>(rows: seq<T>, companyOf: T -> K, i: nat)
    requires i < |rows| && forall j :: 0 <= j < i ==> companyOf(rows[j]) != companyOf(rows[i])
    ensures rows[i] in Firsts(rows, companyOf)
  {
    KeysExactly(rows[..i], companyOf, companyOf(rows[i]));
    assert rows == rows[..i] + [rows[i]] + rows[i + 1..];
    LeadStays(rows[..i], rows[i], rows[i + 1..], rows, companyOf);
  }

  /** `sub` is `rows` with some rows left out. */
  predicate IsSubsequence<T(==)>(sub: seq<T>, rows: seq<T>) {
    sub == [] || (rows != [] &&
                  if sub[|sub| - 1] == rows[|rows| - 1] then IsSubsequence(sub[..|sub| - 1], rows[..|rows| - 1])
                  else IsSubsequence(sub, rows[..|rows| - 1]))
  }

  /** Leaving rows out never depends on which later equal row was taken. */
  lemma {:induction false} SubsequenceOfLonger<T>(sub: seq<T>, rows: seq<T>)
    requires rows != [] && IsSubsequence(sub, rows[..|rows| - 1])
    ensures IsSubsequence(sub, rows)
    decreases |rows|, 0
  {
    var front := rows[..|rows| - 1];
    if sub != [] && sub[|sub| - 1] == rows[|rows| - 1] {
      if sub[|sub| - 1] == front[|front| - 1] {
        SubsequenceOfLonger(sub[..|sub| - 1], front);
      } else {
        DropLast(sub, front);
      }
    }
  }

  lemma {:induction false} DropLast<T>(sub: seq<T>, rows: seq<T>)
    requires sub != [] && IsSubsequence(sub, rows)
    ensures IsSubsequence(sub[..|sub| - 1], rows)
    decreases |rows|, 1
  {
    if sub[|sub| - 1] == rows[|rows| - 1] {
      SubsequenceOfLonger(sub[..|sub| - 1], rows);
    } else {
      DropLast(sub, rows[..|rows| - 1]);
      SubsequenceOfLonger(sub[..|sub| - 1], rows);
    }
  }

  /** Leads keep the input order among themselves, and so does the fill. */
  lemma {:induction false} OrderIsKept<T, K>(rows: seq<T>, companyOf: T -> K)
    ensures IsSubsequence(Firsts(rows, companyOf), rows) && IsSubsequence(Repeats(rows, companyOf), rows)
  {
    if rows != [] {
      var front, last := rows[..|rows| - 1], rows[|rows| - 1];
      OrderIsKept(front, companyOf);
      var leads, fill := Firsts(front, companyOf), Repeats(front, companyOf);
      if companyOf(last) in Keys(front, companyOf) {
        SubsequenceOfLonger(leads, rows);
        assert (fill + [last])[..|fill|] == fill;
      } else {
        SubsequenceOfLonger(fill, rows);
        assert (leads + [last])[..|leads|] == leads;
      }
    }
  }

  /** No company shows twice in the window before every company of the input has shown once. */
  lemma NoRepeatBeforeAllAppear<T, K>(rows: seq<T>, companyOf: T -> K, limit: int, i: nat, j: nat)
    requires i < j < |Diversified(rows, companyOf, limit)|
    requires var out := Diversified(rows, companyOf, limit); companyOf(out[i]) == companyOf(out[j])
    ensures Keys(Diversified(rows, companyOf, limit)[..j], companyOf) == Keys(rows, companyOf)
  {
    var out, leads := Diversified(rows, companyOf, limit), Firsts(rows, companyOf);
    FirstsKeepKeys(rows, companyOf);
    assert forall k :: 0 <= k < |out| && k < |leads| ==> out[k] == leads[k];
    if j < |leads| {
      assert false;
    } else {
      assert out[..j] == leads + out[|leads|..j];
      KeysOfConcat(leads, out[|leads|..j], companyOf);
      OrderedKeys(rows, companyOf, out[|leads|..j]);
    }
  }

  /** A run of rows of the window brings no company the input lacks. */
  lemma OrderedKeys<T, K>(rows: seq<T>, companyOf: T -> K, some: seq<T>)
    requires forall r :: r in some ==> r in Ordered(rows, companyOf)
    ensures Keys(some, companyOf) <= Keys(rows, companyOf)
  {
    OrderedIsAPermutation(rows, companyOf);
    forall key | key in Keys(some, companyOf)
      ensures key in Keys(rows, companyOf)
    {
      KeysExactly(some, companyOf, key);
      var r :| r in some && companyOf(r) == key;
      assert r in multiset(Ordered(rows, companyOf));
      assert r in rows;
      KeysExactly(rows, companyOf, key);
    }
  }

  lemma RoomShowsAll<T, K>(rows: seq<T>, companyOf: T -> K, limit: int)
    requires |Firsts(rows, companyOf)| <= limit && limit > 0
    ensures Keys(Diversified(rows, companyOf, limit), companyOf) == Keys(rows, companyOf)
  {
    var out, leads := Diversified(rows, companyOf, limit), Firsts(rows, companyOf);
    assert out == leads + out[|leads|..];
    FirstsKeepKeys(rows, companyOf);
    KeysOfConcat(leads, out[|leads|..], companyOf);
    OrderedKeys(rows, companyOf, out[|leads|..]);
  }

  /** Every company shows in the window exactly when the window has room for all of them. */
  lemma EveryCompanyShowsExactly<T, K>(rows: seq<T>, companyOf: T -> K, limit: int)
    ensures Keys(Diversified(rows, companyOf, limit), companyOf) == Keys(rows, companyOf) <==>
            rows == [] || limit >= |Keys(rows, companyOf)|
  {
    FirstsKeepKeys(rows, companyOf);
    DistinctKeysCount(Firsts(rows, companyOf), companyOf);
    if rows == [] {
      assert Diversified(rows, companyOf, limit) == [];
    } else {
      assert companyOf(rows[|rows| - 1]) in Keys(rows, companyOf);
      if limit >= |Keys(rows, companyOf)| {
        RoomShowsAll(rows, companyOf, limit);
      } else {
        KeysCount(Diversified(rows, companyOf, limit), companyOf);
      }
    }
  }

  lemma {:induction false} KeysCount<T, K>(items: seq<T>, keyOf: T -> K)
    ensures |Keys(items, keyOf)| <= |items|
  {
    if items != [] {
      KeysCount(items[..|items| - 1], keyOf);
    }
  }
}
