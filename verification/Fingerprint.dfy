/** The canonical key of a group: sorted distinct ids joined by commas. */
module Fingerprint {
  import opened Common
  import Text

  predicate Ascending(s: seq<string>) {
    forall i, j :: 0 <= i < j < |s| ==> Text.Less(s[i], s[j])
  }

  function Insert(x: string, s: seq<string>): seq<string> {
    if s == [] || Text.Less(x, s[0]) then [x] + s else [s[0]] + Insert(x, s[1..])
  }

  /** `sort()` */
  function Sort(s: seq<string>): seq<string> {
    if s == [] then [] else Insert(s[0], Sort(s[1..]))
  }

  /** The canonical listing of a group. */
  function Listing(ids: seq<string>): seq<string> {
    Sort(Unique(NonEmpty(ids)))
  }

  /** `membershipKey` */
  function MembershipKey(ids: seq<string>): string {
    Text.Join(Listing(ids), ",")
  }

  /** `sameGroupFingerprint` */
  predicate SameGroup(aCompanies: seq<string>, aPeople: seq<string>, bCompanies: seq<string>, bPeople: seq<string>) {
    MembershipKey(aCompanies) == MembershipKey(bCompanies) && MembershipKey(aPeople) == MembershipKey(bPeople)
  }

  function IdSet(ids: seq<string>): set<string> {
    Elems(ids) - {""}
  }

  predicate CommaFree(ids: seq<string>) {
    forall id :: id in ids ==> ',' !in id
  }

  lemma {:induction false} InsertElems(x: string, s: seq<string>)
    ensures Elems(Insert(x, s)) == {x} + Elems(s)
  {
    if s != [] && !Text.Less(x, s[0]) {
      InsertElems(x, s[1..]);
      assert Elems(s) == {s[0]} + Elems(s[1..]);
      assert Elems(Insert(x, s)) == {s[0]} + Elems(Insert(x, s[1..]));
    }
  }

  lemma {:induction false} InsertAscends(x: string, s: seq<string>)
    requires Ascending(s) && x !in s
    ensures Ascending(Insert(x, s))
  {
    if s != [] {
      if Text.Less(x, s[0]) {
        forall j | 0 < j < |s|
          ensures Text.Less(x, s[j])
        {
          Text.LessIsTransitive(x, s[0], s[j]);
        }
      } else {
        Text.LessIsTotal(x, s[0]);
        InsertAscends(x, s[1..]);
        InsertElems(x, s[1..]);
        var rest := Insert(x, s[1..]);
        forall j | 0 <= j < |rest|
          ensures Text.Less(s[0], rest[j])
        {
          assert rest[j] in Elems(rest);
        }
      }
    }
  }

  lemma {:induction false} SortAscends(s: seq<string>)
    requires Distinct(s)
    ensures Ascending(Sort(s)) && Elems(Sort(s)) == Elems(s)
  {
    if s != [] {
      SortAscends(s[1..]);
      InsertElems(s[0], Sort(s[1..]));
      assert Elems(s) == {s[0]} + Elems(s[1..]);
      assert s[0] !in Elems(Sort(s[1..]));
      InsertAscends(s[0], Sort(s[1..]));
    }
  }

  /** In an ascending list the first element is less than every other, so it is known from the set alone. */
  lemma FirstIsLeast(a: seq<string>, b: seq<string>)
    requires Ascending(a) && Ascending(b) && a != [] && Elems(a) == Elems(b)
    ensures b != [] && a[0] == b[0]
  {
    assert a[0] in Elems(b);
    assert b[0] in Elems(a);
    if a[0] != b[0] {
      Text.LessIsAsymmetric(a[0], b[0]);
      assert false;
    }
  }

  /** A set of ids is listed in ascending order in one way only. */
  lemma {:induction false} AscendingIsUnique(a: seq<string>, b: seq<string>)
    requires Ascending(a) && Ascending(b) && Elems(a) == Elems(b)
    ensures a == b
  {
    if b != [] {
      FirstIsLeast(b, a);
    }
    if a != [] {
      FirstIsLeast(a, b);
      TailElems(a);
      TailElems(b);
      AscendingIsUnique(a[1..], b[1..]);
      assert a == [a[0]] + a[1..] && b == [b[0]] + b[1..];
    }
  }

  lemma TailElems(a: seq<string>)
    requires Ascending(a) && a != []
    ensures Elems(a[1..]) == Elems(a) - {a[0]}
  {
    forall j | 0 < j < |a|
      ensures a[j] != a[0]
    {
      Text.LessIsAsymmetric(a[0], a[j]);
    }
  }

  lemma SortedIds(ids: seq<string>)
    ensures var sorted := Listing(ids);
            Ascending(sorted) && Elems(sorted) == IdSet(ids) && (CommaFree(ids) ==> Text.AreParts(sorted, ','))
  {
    SortAscends(Unique(NonEmpty(ids)));
    var sorted := Listing(ids);
    assert forall id :: id in sorted ==> id in Elems(sorted);
    assert Elems(Unique(NonEmpty(ids))) == Elems(NonEmpty(ids));
    assert forall id :: id in sorted ==> id in IdSet(ids);
  }

  /** The key joins by commas the one ascending listing of the non-empty ids. */
  lemma KeyOfAscending(ids: seq<string>, sorted: seq<string>)
    requires Ascending(sorted) && forall id :: id in sorted <==> id in ids && id != ""
    ensures MembershipKey(ids) == Text.Join(sorted, ",")
  {
    SortedIds(ids);
    assert Elems(sorted) == IdSet(ids);
    AscendingIsUnique(Listing(ids), sorted);
  }

  /** Keys agree exactly when the sets of non-empty ids agree, whatever the order and the repeats. */
  lemma KeyIsTheSet(a: seq<string>, b: seq<string>)
    requires CommaFree(a) && CommaFree(b)
    ensures MembershipKey(a) == MembershipKey(b) <==> IdSet(a) == IdSet(b)
  {
    SortedIds(a);
    SortedIds(b);
    if IdSet(a) == IdSet(b) {
      AscendingIsUnique(Listing(a), Listing(b));
    }
    if MembershipKey(a) == MembershipKey(b) {
      Text.JoinIsInjective(Listing(a), Listing(b), ',');
    }
  }

  /** Two groups have the same fingerprint exactly when they have the same companies and the same people. */
  lemma FingerprintIsTheGroup(aCompanies: seq<string>, aPeople: seq<string>, bCompanies: seq<string>, bPeople: seq<string>)
    requires CommaFree(aCompanies) && CommaFree(aPeople) && CommaFree(bCompanies) && CommaFree(bPeople)
    ensures SameGroup(aCompanies, aPeople, bCompanies, bPeople) <==>
            IdSet(aCompanies) == IdSet(bCompanies) && IdSet(aPeople) == IdSet(bPeople)
  {
    KeyIsTheSet(aCompanies, bCompanies);
    KeyIsTheSet(aPeople, bPeople);
  }

  /** The pieces between the commas of a listing, in order. */
  function Pieces(listing: seq<string>): seq<string> {
    if listing == [] then [] else Text.Split(listing[0], ',') + Pieces(listing[1..])
  }

  lemma {:induction false} PiecesJoin(listing: seq<string>)
    ensures Text.Join(Pieces(listing), ",") == Text.Join(listing, ",") && Text.FreeOf(Pieces(listing), ',')
    ensures listing != [] ==> Pieces(listing) != []
  {
    if listing != [] {
      var first, rest := Text.Split(listing[0], ','), Pieces(listing[1..]);
      Text.JoinOfSplit(listing[0], ',');
      PiecesJoin(listing[1..]);
      if |listing| == 1 {
        assert first + rest == first;
      } else {
        Text.JoinOfConcat(first, rest, ",");
      }
    }
  }

  lemma KeyIsEmptyExactly(ids: seq<string>)
    ensures MembershipKey(ids) == "" <==> Listing(ids) == []
  {
    SortedIds(ids);
    if Listing(ids) != [] {
      assert Listing(ids)[0] in Elems(Listing(ids));
    }
  }

  /** On any ids, keys agree exactly when the listings agree once they are cut at every comma. */
  lemma KeysAgreeExactly(a: seq<string>, b: seq<string>)
    ensures MembershipKey(a) == MembershipKey(b) <==> Pieces(Listing(a)) == Pieces(Listing(b))
  {
    PiecesJoin(Listing(a));
    PiecesJoin(Listing(b));
    KeyIsEmptyExactly(a);
    KeyIsEmptyExactly(b);
    if Listing(a) != [] && Listing(b) != [] {
      Text.SplitOfJoin(Pieces(Listing(a)), ',');
      Text.SplitOfJoin(Pieces(Listing(b)), ',');
    }
  }

  /** With a comma in an id, two different groups can share a key. */
  lemma CommaConfusesKeys()
    ensures MembershipKey(["a,b"]) == MembershipKey(["a", "b"]) && IdSet(["a,b"]) != IdSet(["a", "b"])
  {
    var one, two := ["a,b"], ["a", "b"];
    assert |"a,b"| != |"a"| && |"a,b"| != |"b"| && |"a,b"| != |""|;
    assert "a,b" in IdSet(one) && "a,b" !in IdSet(two);
    assert NonEmpty(one) == one;
    assert NonEmpty(two[1..]) == ["b"];
    UniqueOfDistinct(one);
    UniqueOfDistinct(two);
    assert Sort(two[1..]) == ["b"];
    assert Text.Less("a", "b");
    assert Sort(two) == ["a", "b"];
    assert Sort(one[1..]) == [];
    assert Sort(one) == ["a,b"];
    assert Text.Join(["a", "b"][1..], ",") == "b";
  }
}
