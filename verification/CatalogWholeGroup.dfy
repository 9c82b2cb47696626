/** Showing a ticket by whole catalogs: regrouping loses, repeats and reorders nothing within a group. */
module CatalogWholeGroup {
  import opened Common

  /** `key` is the trimmed catalog id of a group member, None for any other line. */
  type Key<!T> = T -> Option<string>

  datatype DisplayRow<T> = CatalogRow(catalogId: string, catalogName: string, items: seq<T>) | LineRow(item: T)

  /** The members of one catalog, in ticket order. */
  function Group<T(!new)>(items: seq<T>, key: Key<T>, id: string): (r: seq<T>)
    ensures forall x :: x in r <==> x in items && key(x) == Some(id)
  {
    if items == [] then []
    else
      var front, last := items[..|items| - 1], items[|items| - 1];
      assert items == front + [last];
      if key(last) == Some(id) then Group(front, key, id) + [last] else Group(front, key, id)
  }

  /** A group keeps the ticket's order. */
  lemma {:induction false} GroupOfConcat<T(!new)>(a: seq<T>, b: seq<T>, key: Key<T>, id: string)
    ensures Group(a + b, key, id) == Group(a, key, id) + Group(b, key, id)
  {
    if b == [] {
      assert a + b == a;
    } else {
      GroupOfConcat(a, b[..|b| - 1], key, id);
      assert (a + b)[..|a + b| - 1] == a + b[..|b| - 1];
    }
  }

  /** Some member of catalog `id` stands before position `n`. */
  predicate SeenBefore<T>(items: seq<T>, key: Key<T>, n: nat, id: string)
    requires n <= |items|
  {
    n > 0 && (key(items[n - 1]) == Some(id) || SeenBefore(items, key, n - 1, id))
  }

  lemma {:induction false} SeenIfPresent<T>(items: seq<T>, key: Key<T>, j: nat, n: nat, id: string)
    requires j < n <= |items| && key(items[j]) == Some(id)
    ensures SeenBefore(items, key, n, id)
  {
    if j < n - 1 {
      SeenIfPresent(items, key, j, n - 1, id);
    }
  }

  /** The rows opened by the first `n` lines. */
  function RowsUpTo<T(!new)>(items: seq<T>, key: Key<T>, name: T -> string, n: nat): seq<DisplayRow<T>>
    requires n <= |items|
  {
    if n == 0 then []
    else
      var item, rows := items[n - 1], RowsUpTo(items, key, name, n - 1);
      match key(item)
      case None => rows + [LineRow(item)]
      case Some(id) =>
        if SeenBefore(items, key, n - 1, id) then rows
        else
          var group := Group(items, key, id);
          assert item in items;
          rows + [CatalogRow(id, name(group[0]), group)]
  }

  function Collapse<T(!new)>(items: seq<T>, key: Key<T>, name: T -> string): seq<DisplayRow<T>> {
    RowsUpTo(items, key, name, |items|)
  }

  lemma GroupStep<T(!new)>(items: seq<T>, key: Key<T>, i: nat, id: string)
    requires i < |items|
    ensures Group(items[..i + 1], key, id) ==
            if key(items[i]) == Some(id) then Group(items[..i], key, id) + [items[i]] else Group(items[..i], key, id)
  {
    assert items[..i + 1][..i] == items[..i];
  }

  function WithItem<T>(grouped: map<string, seq<T>>, id: string, item: T): map<string, seq<T>> {
    grouped[id := (if id in grouped then grouped[id] else []) + [item]]
  }

  /** The group map after the first `n` lines. */
  function Grouped<T>(items: seq<T>, key: Key<T>, n: nat): map<string, seq<T>>
    requires n <= |items|
  {
    if n == 0 then map[]
    else if key(items[n - 1]).None? then Grouped(items, key, n - 1)
    else WithItem(Grouped(items, key, n - 1), key(items[n - 1]).value, items[n - 1])
  }

  lemma {:induction false} GroupedIsGroup<T(!new)>(items: seq<T>, key: Key<T>, n: nat, id: string)
    requires n <= |items|
    ensures id in Grouped(items, key, n) <==> SeenBefore(items, key, n, id)
    ensures Group(items[..n], key, id) == if id in Grouped(items, key, n) then Grouped(items, key, n)[id] else []
  {
    if n > 0 {
      GroupedIsGroup(items, key, n - 1, id);
      GroupStep(items, key, n - 1, id);
    }
  }

  /** First loop: the groups, filled in ticket order. */
  method CollectGroups<T(!new)>(items: seq<T>, key: Key<T>) returns (grouped: map<string, seq<T>>, order: seq<string>)
    ensures grouped == Grouped(items, key, |items|)
    ensures forall id :: id in order ==> id in grouped
  {
    grouped, order := map[], [];
    for i := 0 to |items|
      invariant grouped == Grouped(items, key, i)
      invariant forall id :: id in order ==> id in grouped
    {
      if key(items[i]).None? {
        continue;
      }
      var id := key(items[i]).value;
      if id !in grouped {
        grouped := grouped[id := []];
        order := order + [id];
      }
      grouped := grouped[id := grouped[id] + [items[i]]];
    }
  }

  lemma FinalGroups<T(!new)>(items: seq<T>, key: Key<T>)
    ensures forall id :: id in Grouped(items, key, |items|) ==> Grouped(items, key, |items|)[id] == Group(items, key, id)
    ensures forall id :: id in Grouped(items, key, |items|) <==> SeenBefore(items, key, |items|, id)
  {
    assert items[..|items|] == items;
    forall id: string
      ensures id in Grouped(items, key, |items|) ==> Grouped(items, key, |items|)[id] == Group(items, key, id)
      ensures id in Grouped(items, key, |items|) <==> SeenBefore(items, key, |items|, id)
    {
      GroupedIsGroup(items, key, |items|, id);
    }
  }

  method CollapseCatalogWholeLines<T(==, !new)>(items: seq<T>, key: Key<T>, name: T -> string)
    returns (rows: seq<DisplayRow<T>>)
    ensures rows == Collapse(items, key, name)
  {
    var grouped, order := CollectGroups(items, key);
    FinalGroups(items, key);

    var consumed: set<T> := {};
    for k := 0 to |order|
      invariant forall x :: x in consumed ==> key(x).Some?
    {
      assert order[k] in order;
      var group := grouped[order[k]];
      for j := 0 to |group|
        invariant forall x :: x in consumed ==> key(x).Some?
      {
        assert group[j] in group;
        consumed := consumed + {group[j]};
      }
    }

    rows := [];
    var seenGroup: set<string> := {};
    for i := 0 to |items|
      invariant rows == RowsUpTo(items, key, name, i)
      invariant forall id :: id in seenGroup <==> SeenBefore(items, key, i, id)
    {
      var item := items[i];
      if key(item).None? {
        if item !in consumed {
          rows := rows + [LineRow(item)];
        }
        continue;
      }
      var id := key(item).value;
      if id in seenGroup {
        continue;
      }
      seenGroup := seenGroup + {id};
      SeenIfPresent(items, key, i, |items|, id);
      var group := grouped[id];
      assert item in items && item in group;
      rows := rows + [CatalogRow(id, name(group[0]), group)];
    }
  }

  // ---- Nothing lost, repeated or reordered ----

  function ItemsOf<T>(row: DisplayRow<T>): seq<T> {
    match row
    case CatalogRow(_, _, items) => items
    case LineRow(item) => [item]
  }

  function Flatten<T>(rows: seq<DisplayRow<T>>): seq<T> {
    if rows == [] then [] else Flatten(rows[..|rows| - 1]) + ItemsOf(rows[|rows| - 1])
  }

  /** A group holds each of its members as often as the ticket does. */
  lemma {:induction false} GroupCount<T(!new)>(items: seq<T>, key: Key<T>, id: string, x: T)
    ensures multiset(Group(items, key, id))[x] == if key(x) == Some(id) then multiset(items)[x] else 0
  {
    if items != [] {
      var front, last := items[..|items| - 1], items[|items| - 1];
      assert items == front + [last];
      GroupCount(front, key, id, x);
    }
  }

  /** How often `x` occurs in the items of a list of rows. */
  ghost function Occurs<T>(rows: seq<DisplayRow<T>>, x: T): nat {
    if rows == [] then 0 else Occurs(rows[..|rows| - 1], x) + multiset(ItemsOf(rows[|rows| - 1]))[x]
  }

  lemma {:induction false} OccursInFlatten<T>(rows: seq<DisplayRow<T>>, x: T)
    ensures multiset(Flatten(rows))[x] == Occurs(rows, x)
  {
    if rows != [] {
      OccursInFlatten(rows[..|rows| - 1], x);
    }
  }

  lemma OccursOfOneMore<T>(rows: seq<DisplayRow<T>>, row: DisplayRow<T>, x: T)
    ensures Occurs(rows + [row], x) == Occurs(rows, x) + multiset(ItemsOf(row))[x]
  {
  }

  ghost function CountOf<T>(items: seq<T>, key: Key<T>, n: nat, x: T): nat
    requires n <= |items|
  {
    if key(x).None? then multiset(items[..n])[x]
    else if SeenBefore(items, key, n, key(x).value) then multiset(items)[x]
    else 0
  }

  /** How many more of `x` the rows hold after item `n`. */
  ghost function Added<T>(items: seq<T>, key: Key<T>, n: nat, x: T): nat
    requires n < |items|
  {
    if key(items[n]).None? then (if x == items[n] then 1 else 0)
    else if SeenBefore(items, key, n, key(items[n]).value) then 0
    else if key(x) == key(items[n]) then multiset(items)[x]
    else 0
  }

  lemma CountGrows<T(!new)>(items: seq<T>, key: Key<T>, n: nat, x: T)
    requires 0 < n <= |items|
    ensures CountOf(items, key, n, x) == CountOf(items, key, n - 1, x) + Added(items, key, n - 1, x)
  {
    assert items[..n] == items[..n - 1] + [items[n - 1]];
  }

  lemma RowsGrow<T(!new)>(items: seq<T>, key: Key<T>, name: T -> string, n: nat, x: T)
    requires 0 < n <= |items|
    ensures Occurs(RowsUpTo(items, key, name, n), x) ==
            Occurs(RowsUpTo(items, key, name, n - 1), x) + Added(items, key, n - 1, x)
  {
    if key(items[n - 1]).None? {
      LineRowCount(items, key, name, n, x);
    } else if !SeenBefore(items, key, n - 1, key(items[n - 1]).value) {
      NewRowCount(items, key, name, n, x);
    }
  }

  ghost function TotalAdded<T>(items: seq<T>, key: Key<T>, n: nat, x: T): nat
    requires n <= |items|
  {
    if n == 0 then 0 else TotalAdded(items, key, n - 1, x) + Added(items, key, n - 1, x)
  }

  lemma {:induction false} RowsHoldTotal<T(!new)>(items: seq<T>, key: Key<T>, name: T -> string, n: nat, x: T)
    requires n <= |items|
    ensures Occurs(RowsUpTo(items, key, name, n), x) == TotalAdded(items, key, n, x)
  {
    if n > 0 {
      RowsHoldTotal(items, key, name, n - 1, x);
      RowsGrow(items, key, name, n, x);
    }
  }

  lemma {:induction false} TotalIsCount<T(!new)>(items: seq<T>, key: Key<T>, n: nat, x: T)
    requires n <= |items|
    ensures TotalAdded(items, key, n, x) == CountOf(items, key, n, x)
  {
    if n == 0 {
      assert items[..0] == [];
    } else {
      TotalIsCount(items, key, n - 1, x);
      CountGrows(items, key, n, x);
    }
  }

  lemma LineRowCount<T(!new)>(items: seq<T>, key: Key<T>, name: T -> string, n: nat, x: T)
    requires 0 < n <= |items| && key(items[n - 1]).None?
    ensures Occurs(RowsUpTo(items, key, name, n), x) ==
            Occurs(RowsUpTo(items, key, name, n - 1), x) + (if x == items[n - 1] then 1 else 0)
  {
  }

  lemma NewRowCount<T(!new)>(items: seq<T>, key: Key<T>, name: T -> string, n: nat, x: T)
    requires 0 < n <= |items| && key(items[n - 1]).Some?
    requires !SeenBefore(items, key, n - 1, key(items[n - 1]).value)
    ensures Occurs(RowsUpTo(items, key, name, n), x) ==
            Occurs(RowsUpTo(items, key, name, n - 1), x) +
            (if key(x) == key(items[n - 1]) then multiset(items)[x] else 0)
  {
    var id := key(items[n - 1]).value;
    var group := Group(items, key, id);
    assert items[n - 1] in items && items[n - 1] in group;
    OccursOfOneMore(RowsUpTo(items, key, name, n - 1), CatalogRow(id, name(group[0]), group), x);
    GroupCount(items, key, id, x);
  }

  /** The rows hold exactly the ticket's lines. */
  lemma CollapseConserves<T(!new)>(items: seq<T>, key: Key<T>, name: T -> string)
    ensures multiset(Flatten(Collapse(items, key, name))) == multiset(items)
  {
    forall x: T
      ensures multiset(Flatten(Collapse(items, key, name)))[x] == multiset(items)[x]
    {
      OccursInFlatten(Collapse(items, key, name), x);
      RowsHoldTotal(items, key, name, |items|, x);
      TotalIsCount(items, key, |items|, x);
      assert items[..|items|] == items;
      if key(x).Some? && x in items {
        var j :| 0 <= j < |items| && items[j] == x;
        SeenIfPresent(items, key, j, |items|, key(x).value);
      }
    }
  }

  /** A catalog row holds its whole group in ticket order; a single line belongs to no group. */
  ghost predicate RowIsRight<T(!new)>(items: seq<T>, key: Key<T>, name: T -> string, n: nat, row: DisplayRow<T>)
    requires n <= |items|
  {
    match row
    case CatalogRow(id, shown, group) =>
      SeenBefore(items, key, n, id) && group == Group(items, key, id) && group != [] && shown == name(group[0])
    case LineRow(item) => key(item).None?
  }

  lemma {:induction false} RowsAreRight<T(!new)>(items: seq<T>, key: Key<T>, name: T -> string, n: nat)
    requires n <= |items|
    ensures forall row :: row in RowsUpTo(items, key, name, n) ==> RowIsRight(items, key, name, n, row)
  {
    if n > 0 {
      RowsAreRight(items, key, name, n - 1);
      var item := items[n - 1];
      assert item in items;
      forall row | row in RowsUpTo(items, key, name, n)
        ensures RowIsRight(items, key, name, n, row)
      {
        if row in RowsUpTo(items, key, name, n - 1) {
          assert RowIsRight(items, key, name, n - 1, row);
        } else {
          assert key(item).Some? ==> item in Group(items, key, key(item).value);
        }
      }
    }
  }

  ghost predicate OneRowPerCatalog<T>(rows: seq<DisplayRow<T>>) {
    forall k, l :: 0 <= k < l < |rows| && rows[k].CatalogRow? && rows[l].CatalogRow? ==>
      rows[k].catalogId != rows[l].catalogId
  }

  lemma {:induction false} CatalogsAreDistinct<T(!new)>(items: seq<T>, key: Key<T>, name: T -> string, n: nat)
    requires n <= |items|
    ensures OneRowPerCatalog(RowsUpTo(items, key, name, n))
  {
    if n > 0 {
      CatalogsAreDistinct(items, key, name, n - 1);
      RowsAreRight(items, key, name, n - 1);
      var rows := RowsUpTo(items, key, name, n - 1);
      forall k | 0 <= k < |rows| && rows[k].CatalogRow?
        ensures SeenBefore(items, key, n - 1, rows[k].catalogId)
      {
        assert rows[k] in rows;
      }
    }
  }

  /** Every catalog on the ticket has a row, which stands where its first line stood. */
  lemma {:induction false} EveryGroupHasItsRow<T(!new)>(items: seq<T>, key: Key<T>, name: T -> string, n: nat, id: string)
    returns (k: nat)
    requires n <= |items| && SeenBefore(items, key, n, id)
    ensures var rows := RowsUpTo(items, key, name, n);
            k < |rows| && rows[k].CatalogRow? && rows[k].catalogId == id
  {
    if SeenBefore(items, key, n - 1, id) {
      k := EveryGroupHasItsRow(items, key, name, n - 1, id);
    } else {
      assert key(items[n - 1]) == Some(id);
      k := |RowsUpTo(items, key, name, n - 1)|;
    }
  }

  /** The rows opened by a shorter prefix stay first: rows come in the order their catalogs and lines first appear. */
  lemma {:induction false} RowsKeepOrder<T(!new)>(items: seq<T>, key: Key<T>, name: T -> string, m: nat, n: nat)
    requires m <= n <= |items|
    ensures RowsUpTo(items, key, name, m) <= RowsUpTo(items, key, name, n)
  {
    if m < n {
      RowsKeepOrder(items, key, name, m, n - 1);
    }
  }

  function Ids<T>(items: seq<T>, idOf: T -> string): seq<string> {
    if items == [] then [] else Ids(items[..|items| - 1], idOf) + [idOf(items[|items| - 1])]
  }

  function FindById<T>(items: seq<T>, idOf: T -> string, id: string): (r: Option<T>)
    ensures r.Some? ==> idOf(r.value) == id && exists j :: 0 <= j < |items| && items[j] == r.value
  {
    if items == [] then None
    else if idOf(items[0]) == id then Some(items[0])
    else
      var r := FindById(items[1..], idOf, id);
      assert forall j :: 0 <= j < |items| - 1 ==> items[1..][j] == items[j + 1];
      r
  }

  /** `catalogWholePeerIds`: the ids of the lines that must move together with this one. */
  function PeerIds<T(!new)>(items: seq<T>, key: Key<T>, idOf: T -> string, orderItemId: string): seq<string> {
    match FindById(items, idOf, orderItemId)
    case None => [orderItemId]
    case Some(hit) =>
      match key(hit)
      case None => [orderItemId]
      case Some(id) => Ids(Group(items, key, id), idOf)
  }

  /** Some catalog row of the ticket holds the line, and its items are the peers. */
  ghost predicate PeersInRow<T>(rows: seq<DisplayRow<T>>, k: int, hit: T, peers: seq<string>, idOf: T -> string) {
    0 <= k < |rows| && rows[k].CatalogRow? && hit in rows[k].items && peers == Ids(rows[k].items, idOf)
  }

  /** The peers of a group member are the items of the catalog row that holds it; any other line moves alone. */
  lemma PeersExactly<T(!new)>(items: seq<T>, key: Key<T>, name: T -> string, idOf: T -> string, orderItemId: string)
    ensures var hit, peers := FindById(items, idOf, orderItemId), PeerIds(items, key, idOf, orderItemId);
            if hit.Some? && key(hit.value).Some?
            then exists k :: PeersInRow(Collapse(items, key, name), k, hit.value, peers, idOf)
            else peers == [orderItemId]
  {
    var hit := FindById(items, idOf, orderItemId);
    if hit.Some? && key(hit.value).Some? {
      var k := PeersAreTheRow(items, key, name, idOf, orderItemId);
      assert PeersInRow(Collapse(items, key, name), k, hit.value, PeerIds(items, key, idOf, orderItemId), idOf);
    }
  }

  /** The peers of a group member are exactly the items of the catalog row that holds it. */
  lemma PeersAreTheRow<T(!new)>(items: seq<T>, key: Key<T>, name: T -> string, idOf: T -> string, orderItemId: string)
    returns (k: nat)
    requires var hit := FindById(items, idOf, orderItemId); hit.Some? && key(hit.value).Some?
    ensures var rows := Collapse(items, key, name);
            && k < |rows| && rows[k].CatalogRow?
            && FindById(items, idOf, orderItemId).value in rows[k].items
            && PeerIds(items, key, idOf, orderItemId) == Ids(rows[k].items, idOf)
  {
    var hit := FindById(items, idOf, orderItemId).value;
    var j :| 0 <= j < |items| && items[j] == hit;
    SeenIfPresent(items, key, j, |items|, key(hit).value);
    k := EveryGroupHasItsRow(items, key, name, |items|, key(hit).value);
    RowsAreRight(items, key, name, |items|);
    assert Collapse(items, key, name)[k] in Collapse(items, key, name);
  }
}
