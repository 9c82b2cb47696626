/** Billing a ticket line by line and by whole catalogs: the two totals agree. */
module TicketBilling {
  import opened Common
  import opened Text
  import opened OrderBilling
  import opened CatalogWholeGroup

  /** An order line, with the stamp that ties it to a catalog ordered as a whole. */
  datatype Item = Item(
    id: string,
    catalogId: Option<string>,
    catalogName: Option<string>,
    catalogWhole: bool,
    sourceItemId: Option<string>,
    quantity: real,
    rate: Option<real>,
    unit: Option<string>,
    piecesPerPack: Option<real>)

  function TrimOr(s: Option<string>, default: string): string {
    if s.Some? && Trim(s.value) != "" then Trim(s.value) else default
  }

  /** `isCatalogWholeGroupMember`, and the trimmed id that groups it. */
  function GroupKey(item: Item): Option<string> {
    if item.catalogWhole && TrimOr(item.catalogId, "") != "" && (item.sourceItemId.None? || item.sourceItemId.value == "")
    then Some(TrimOr(item.catalogId, "")) else None
  }

  /** A line is grouped exactly when it was ordered as part of a whole catalog with an id and is no mill hop. */
  lemma GroupedExactly(item: Item)
    ensures GroupKey(item).Some? <==>
            && item.catalogWhole && item.catalogId.Some? && !AllSpace(item.catalogId.value)
            && (item.sourceItemId == None || item.sourceItemId == Some(""))
    ensures GroupKey(item).Some? ==> GroupKey(item) == Some(Trim(item.catalogId.value))
  {
    if item.catalogId.Some? {
      BlankExactly(item.catalogId.value);
    }
  }

  function GroupName(item: Item): string {
    TrimOr(item.catalogName, "Catalog")
  }

  lemma NamedExactly(item: Item)
    ensures GroupName(item) == if item.catalogName.Some? && !AllSpace(item.catalogName.value)
                               then Trim(item.catalogName.value) else "Catalog"
  {
    if item.catalogName.Some? {
      BlankExactly(item.catalogName.value);
    }
  }

  function Rows(items: seq<Item>): seq<DisplayRow<Item>> {
    Collapse(items, GroupKey, GroupName)
  }

  function Amount(item: Item): Option<real> {
    LineBillAmount(item.quantity, item.rate, item.unit, item.piecesPerPack)
  }

  function Amounts(items: seq<Item>): (r: seq<Option<real>>)
    ensures |r| == |items| && forall i :: 0 <= i < |items| ==> r[i] == Amount(items[i])
  {
    seq(|items|, i requires 0 <= i < |items| => Amount(items[i]))
  }

  function OrderBillTotal(items: seq<Item>): Option<real> {
    var sum := Sum(Amounts(items));
    if items == [] || sum.None? then None else Some(Round2(sum.value))
  }

  /** A line without a rate has no amount. */
  lemma AmountNeedsRate(item: Item)
    ensures item.rate.None? ==> Amount(item).None?
  {
  }

  /** There is a total exactly when there are lines and each of them has an amount. */
  method ComputeOrderBillTotal(items: seq<Item>) returns (r: Option<real>)
    ensures r == OrderBillTotal(items)
    ensures r.None? <==> items == [] || exists item :: item in items && Amount(item).None?
  {
    if |items| == 0 {
      return None;
    }
    var amounts := Amounts(items);
    forall i | 0 <= i < |items|
      ensures items[i].rate.None? ==> amounts[i].None?
    {
      AmountNeedsRate(items[i]);
    }
    var sum := AddUp(items, amounts);
    SumNeedsEveryAmount(amounts);
    return if sum.None? then None else Some(Round2(sum.value));
  }

  /** The loop of `orderBillTotal`, given the amount of each line. */
  method AddUp(items: seq<Item>, amounts: seq<Option<real>>) returns (r: Option<real>)
    requires |items| == |amounts| && forall i :: 0 <= i < |items| && items[i].rate.None? ==> amounts[i].None?
    ensures r == Sum(amounts)
  {
    var total := 0.0;
    for i := 0 to |amounts|
      invariant Sum(amounts[..i]) == Some(total)
    {
      assert amounts[..i + 1][..i] == amounts[..i];
      if items[i].rate.None? || amounts[i].None? {
        MissingSticks(amounts, i + 1);
        return None;
      }
      total := total + amounts[i].value;
    }
    assert amounts[..|amounts|] == amounts;
    return Some(total);
  }

  lemma AmountsAreWhole(items: seq<Item>)
    ensures AllWhole(Amounts(items))
  {
    forall i | 0 <= i < |items|
      ensures Amount(items[i]).Some? ==> WholePaise(Amount(items[i]).value)
    {
      LineBillIsWhole(items[i].quantity, items[i].rate, items[i].unit, items[i].piecesPerPack);
    }
  }

  /** The final rounding of an order total never changes it. */
  lemma TotalIsTheSum(items: seq<Item>)
    requires items != []
    ensures OrderBillTotal(items) == Sum(Amounts(items))
  {
    AmountsAreWhole(items);
    SumIsWhole(Amounts(items));
    if Sum(Amounts(items)).Some? {
      RoundingWholeIsExact(Sum(Amounts(items)).value);
    }
  }

  // ---- The equal-quantity check ----

  predicate SameQty(group: seq<Item>) {
    forall x :: x in group ==> x.quantity == group[0].quantity
  }

  predicate EqualQtyPasses(rows: seq<DisplayRow<Item>>) {
    forall row :: row in rows && row.CatalogRow? ==> SameQty(row.items)
  }

  /** The first row at fault is the `k`th. */
  predicate FirstUnequal(rows: seq<DisplayRow<Item>>, k: int) {
    && 0 <= k < |rows| && rows[k].CatalogRow? && !SameQty(rows[k].items)
    && forall l :: 0 <= l < k && rows[l].CatalogRow? ==> SameQty(rows[l].items)
  }

  /** Refuses with the name of the first catalog whose designs differ in quantity. */
  method AssertEqualCatalogWholeQty(items: seq<Item>) returns (refused: Option<string>)
    ensures refused.None? <==> EqualQtyPasses(Rows(items))
    ensures refused.Some? ==> exists k :: FirstUnequal(Rows(items), k) && refused.value == Rows(items)[k].catalogName
  {
    var rows := CollapseCatalogWholeLines(items, GroupKey, GroupName);
    for k := 0 to |rows|
      invariant forall l :: 0 <= l < k && rows[l].CatalogRow? ==> SameQty(rows[l].items)
    {
      if rows[k].LineRow? {
        continue;
      }
      if !SameQty(rows[k].items) {
        assert rows[k] in rows && FirstUnequal(rows, k);
        return Some(rows[k].catalogName);
      }
    }
    return None;
  }

  // ---- Billing by row ----

  /** The catalog stamped one rate, unit and pack size on all its designs. */
  ghost predicate SharedTerms(group: seq<Item>) {
    forall x :: x in group ==>
      x.rate == group[0].rate && x.unit == group[0].unit && x.piecesPerPack == group[0].piecesPerPack
  }

  /** What a row is billed; `rateUnit` gives each catalog's Rate per. */
  function RowBill(row: DisplayRow<Item>, rateUnit: string -> Option<string>): Option<real> {
    match row
    case LineRow(item) => Amount(item)
    case CatalogRow(id, _, group) =>
      if group == [] then None
      else CatalogBunchBill(group[0].quantity, group[0].rate, group[0].unit, rateUnit(id), group[0].piecesPerPack, |group|)
  }

  function RowBills(rows: seq<DisplayRow<Item>>, rateUnit: string -> Option<string>): seq<Option<real>> {
    if rows == [] then [] else RowBills(rows[..|rows| - 1], rateUnit) + [RowBill(rows[|rows| - 1], rateUnit)]
  }

  /** The ticket total as its rows add up. */
  function RowsTotal(rows: seq<DisplayRow<Item>>, rateUnit: string -> Option<string>): Option<real> {
    if rows == [] then None else Sum(RowBills(rows, rateUnit))
  }

  /** A catalog priced per bunch is billed its rate once per bunch, not once per design. */
  lemma RowBillAtBunchPrice(row: DisplayRow<Item>, rateUnit: string -> Option<string>, per: string)
    requires row.CatalogRow? && row.items != [] && rateUnit(row.catalogId) == Some(per)
    requires Trim(per) in {"set", "dozen", "box", "bundle"}
    ensures RowBill(row, rateUnit) == LineBillAmount(row.items[0].quantity, row.items[0].rate, None, None)
  {
    var first := row.items[0];
    BunchPriceIsBilledOnce(first.quantity, first.rate, first.unit, per, first.piecesPerPack, |row.items|);
  }

  /** The row is either a single line, or a catalog priced per piece whose designs agree on everything billed. */
  ghost predicate BillsAsMembers(row: DisplayRow<Item>, rateUnit: string -> Option<string>) {
    row.CatalogRow? ==>
      row.items != [] && SameQty(row.items) && SharedTerms(row.items) && !CatalogRateIsBunchPrice(rateUnit(row.catalogId))
  }

  lemma RowBillIsMemberSum(row: DisplayRow<Item>, rateUnit: string -> Option<string>)
    requires BillsAsMembers(row, rateUnit)
    ensures RowBill(row, rateUnit) == Sum(Amounts(ItemsOf(row)))
  {
    match row
    case LineRow(item) =>
      assert Amounts([item]) == [Amount(item)];
      SumOfOne(Amount(item));
    case CatalogRow(id, _, group) =>
      forall i | 0 <= i < |group|
        ensures Amounts(group)[i] == Amount(group[0])
      {
        assert group[i] in group;
      }
      BunchBillIsMemberSum(group[0].quantity, group[0].rate, group[0].unit, rateUnit(id), group[0].piecesPerPack,
                           Amounts(group));
  }

  lemma AmountsOfConcat(a: seq<Item>, b: seq<Item>)
    ensures Amounts(a + b) == Amounts(a) + Amounts(b)
  {
  }

  lemma SumOfOneMoreRow(items: seq<Item>, last: seq<Item>, bills: seq<Option<real>>, bill: Option<real>)
    requires Sum(bills) == Sum(Amounts(items)) && bill == Sum(Amounts(last))
    ensures Sum(bills + [bill]) == Sum(Amounts(items + last))
  {
    AmountsOfConcat(items, last);
    SumConcat(Amounts(items), Amounts(last));
    SumConcat(bills, [bill]);
    SumOfOne(bill);
  }

  lemma {:induction false} RowsSumTheirItems(rows: seq<DisplayRow<Item>>, rateUnit: string -> Option<string>)
    requires forall row :: row in rows ==> BillsAsMembers(row, rateUnit)
    ensures Sum(RowBills(rows, rateUnit)) == Sum(Amounts(Flatten(rows)))
  {
    if rows != [] {
      var front, last := rows[..|rows| - 1], rows[|rows| - 1];
      assert rows == front + [last];
      assert last in rows && forall row :: row in front ==> row in rows;
      RowsSumTheirItems(front, rateUnit);
      RowBillIsMemberSum(last, rateUnit);
      SumOfOneMoreRow(Flatten(front), ItemsOf(last), RowBills(front, rateUnit), RowBill(last, rateUnit));
    }
  }

  lemma AmountsOfInsert(left: seq<Item>, x: Item, right: seq<Item>)
    ensures multiset(Amounts(left + [x] + right)) == multiset(Amounts(left + right)) + multiset{Amount(x)}
  {
    AmountsOfConcat(left + [x], right);
    AmountsOfConcat(left, [x]);
    AmountsOfConcat(left, right);
    assert Amounts([x]) == [Amount(x)];
    CountsOfInsert(Amounts(left), Amount(x), Amounts(right));
  }

  lemma CountsOfInsert<X>(l: seq<X>, x: X, r: seq<X>)
    ensures multiset(l + [x] + r) == multiset(l + r) + multiset{x}
  {
  }

  lemma {:induction false} AmountsOfPermutation(a: seq<Item>, b: seq<Item>)
    requires multiset(a) == multiset(b)
    ensures multiset(Amounts(a)) == multiset(Amounts(b))
    decreases |a|
  {
    if a == [] {
      assert |multiset(b)| == 0;
    } else {
      var front, x := a[..|a| - 1], a[|a| - 1];
      assert a == front + [x];
      assert x in multiset(b);
      var k :| 0 <= k < |b| && b[k] == x;
      var left, right := b[..k], b[k + 1..];
      assert b == left + [x] + right;
      OthersMatch(front, x, left, right);
      AmountsOfPermutation(front, left + right);
      AmountsOfInsert(left, x, right);
      AmountsOfInsert(front, x, []);
      assert front + [x] + [] == a && front + [] == front;
    }
  }

  lemma {:induction false} RowsOfNonEmpty(items: seq<Item>, n: nat)
    requires 0 < n <= |items|
    ensures RowsUpTo(items, GroupKey, GroupName, n) != []
  {
    if n > 1 {
      RowsOfNonEmpty(items, n - 1);
    }
  }

  /**
   * When the equal-quantity check passes, no catalog is priced per bunch and each catalog's designs share its
   * terms, billing by row gives the flat order total, and is null in exactly the same cases.
   */
  lemma RowsBillTheOrder(items: seq<Item>, rateUnit: string -> Option<string>)
    requires EqualQtyPasses(Rows(items))
    requires forall row :: row in Rows(items) && row.CatalogRow? ==>
               SharedTerms(row.items) && !CatalogRateIsBunchPrice(rateUnit(row.catalogId))
    ensures RowsTotal(Rows(items), rateUnit) == OrderBillTotal(items)
  {
    if items != [] {
      RowsAreRight(items, GroupKey, GroupName, |items|);
      forall row | row in Rows(items)
        ensures BillsAsMembers(row, rateUnit)
      {
        assert RowIsRight(items, GroupKey, GroupName, |items|, row);
      }
      RowsSumTheirItems(Rows(items), rateUnit);
      CollapseConserves(items, GroupKey, GroupName);
      AmountsOfPermutation(Flatten(Rows(items)), items);
      SumOfPermutation(Amounts(Flatten(Rows(items))), Amounts(items));
      RowsOfNonEmpty(items, |items|);
      TotalIsTheSum(items);
    }
  }
}
