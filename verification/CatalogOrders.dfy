/** Ordering designs of whole catalogs: the lines copy what the catalog stamped, so the ticket bills row by row. */
module CatalogOrders {
  import opened Common
  import opened Packs
  import opened Text
  import opened OrderBilling
  import opened CatalogWholeGroup
  import opened TicketBilling
  import Shop = CatalogExclusivity

  /** What a buyer asks for of one design. */
  datatype Ask = Ask(lineId: string, productId: ProductId, quantity: real, unit: Option<string>)

  /**
   * `resolveCatalogWholeStamps`: the whole catalog a line belongs to, which is the pack ordered from when that is a
   * whole catalog, and else the catalog the design is stamped with. `whole` names the catalogs ordered as a whole.
   */
  function StampOf(design: Shop.Product, pack: Option<PackId>, whole: map<PackId, string>): Option<PackId> {
    if pack.Some? && pack.value in whole then pack
    else if design.stamp.Some? && design.stamp.value in whole then design.stamp
    else None
  }

  /** The line copies rate, unit and pack size of its design; the buyer's unit counts when the design has none. */
  function LineOf(design: Shop.Product, ask: Ask, stamp: Option<PackId>, whole: map<PackId, string>): Item {
    Item(ask.lineId, stamp,
         if stamp.Some? && stamp.value in whole then Some(whole[stamp.value]) else None,
         stamp.Some?, None, ask.quantity, AsReal(design.terms.rate),
         if design.terms.unit.Some? then design.terms.unit else ask.unit, AsReal(design.terms.piecesPerPack))
  }

  function AsReal(n: Option<int>): Option<real> {
    match n case None => None case Some(v) => Some(v as real)
  }

  function Stamps(products: map<ProductId, Shop.Product>, asks: seq<Ask>, pack: Option<PackId>,
                  whole: map<PackId, string>): (r: seq<Option<PackId>>)
    requires forall ask :: ask in asks ==> ask.productId in products
    ensures |r| == |asks|
    ensures forall i :: 0 <= i < |asks| ==> r[i] == StampOf(products[asks[i].productId], pack, whole)
  {
    seq(|asks|, i requires 0 <= i < |asks| => assert asks[i] in asks; StampOf(products[asks[i].productId], pack, whole))
  }

  function Lines(products: map<ProductId, Shop.Product>, asks: seq<Ask>, stamps: seq<Option<PackId>>,
                 whole: map<PackId, string>): (r: seq<Item>)
    requires |stamps| == |asks| && forall ask :: ask in asks ==> ask.productId in products
    ensures |r| == |asks|
    ensures forall i :: 0 <= i < |asks| ==> r[i] == LineOf(products[asks[i].productId], asks[i], stamps[i], whole)
  {
    seq(|asks|, i requires 0 <= i < |asks| =>
      assert asks[i] in asks; LineOf(products[asks[i].productId], asks[i], stamps[i], whole))
  }

  /** Lines of one whole catalog ask for one quantity. */
  ghost predicate QuantitiesAgree(asks: seq<Ask>, stamps: seq<Option<PackId>>)
    requires |stamps| == |asks|
  {
    forall i, j :: 0 <= i < |asks| && 0 <= j < |asks| && stamps[i].Some? && stamps[i] == stamps[j] ==>
      asks[i].quantity == asks[j].quantity
  }

  /** `assertEqualWholeCatalogQuantities` */
  method AssertEqualWholeCatalogQuantities(asks: seq<Ask>, stamps: seq<Option<PackId>>) returns (ok: bool)
    requires |stamps| == |asks|
    ensures ok <==> QuantitiesAgree(asks, stamps)
  {
    var byCatalog: map<PackId, real> := map[];
    for i := 0 to |asks|
      invariant forall k :: 0 <= k < i && stamps[k].Some? ==>
                  stamps[k].value in byCatalog && byCatalog[stamps[k].value] == asks[k].quantity
      invariant forall c :: c in byCatalog ==> exists k :: 0 <= k < i && stamps[k] == Some(c)
    {
      if stamps[i].None? {
        continue;
      }
      var c := stamps[i].value;
      if c !in byCatalog {
        byCatalog := byCatalog[c := asks[i].quantity];
      } else if byCatalog[c] != asks[i].quantity {
        return false;
      }
    }
    return true;
  }

  /** Designs ordered from one whole catalog have the same terms, a unit among them. */
  ghost predicate TermsAgree(products: map<ProductId, Shop.Product>, asks: seq<Ask>, stamps: seq<Option<PackId>>)
    requires |stamps| == |asks| && forall ask :: ask in asks ==> ask.productId in products
  {
    forall i, j :: 0 <= i < |asks| && 0 <= j < |asks| && stamps[i].Some? && stamps[i] == stamps[j] ==>
      && asks[i] in asks && asks[j] in asks
      && products[asks[i].productId].terms == products[asks[j].productId].terms
      && products[asks[i].productId].terms.unit.Some?
  }

  /** No two whole catalogs have ids that differ in outer space alone. */
  ghost predicate PlainIds(whole: map<PackId, string>) {
    forall c, d :: c in whole && d in whole && Trim(c) == Trim(d) ==> c == d
  }

  predicate BilledAlike(x: Item, y: Item) {
    x.quantity == y.quantity && x.rate == y.rate && x.unit == y.unit && x.piecesPerPack == y.piecesPerPack
  }

  ghost predicate Agreed(products: map<ProductId, Shop.Product>, asks: seq<Ask>, stamps: seq<Option<PackId>>,
                         whole: map<PackId, string>)
  {
    && |stamps| == |asks| && (forall ask :: ask in asks ==> ask.productId in products)
    && (forall stamp :: stamp in stamps && stamp.Some? ==> stamp.value in whole)
    && PlainIds(whole) && QuantitiesAgree(asks, stamps) && TermsAgree(products, asks, stamps)
  }

  /** A line is shown in the row of the whole catalog it was stamped with. */
  lemma LineGroup(design: Shop.Product, ask: Ask, stamp: Option<PackId>, whole: map<PackId, string>)
    requires stamp.Some? ==> stamp.value in whole
    ensures GroupKey(LineOf(design, ask, stamp, whole)) ==
            if stamp.Some? && !AllSpace(stamp.value) then Some(Trim(stamp.value)) else None
  {
    GroupedExactly(LineOf(design, ask, stamp, whole));
  }

  lemma SameStamp(stamp: Option<PackId>, other: Option<PackId>, whole: map<PackId, string>, x: Item, y: Item)
    requires stamp.Some? ==> stamp.value in whole
    requires other.Some? ==> other.value in whole
    requires PlainIds(whole) && GroupKey(x).Some? && GroupKey(x) == GroupKey(y)
    requires GroupKey(x) == if stamp.Some? && !AllSpace(stamp.value) then Some(Trim(stamp.value)) else None
    requires GroupKey(y) == if other.Some? && !AllSpace(other.value) then Some(Trim(other.value)) else None
    ensures stamp == other && stamp.Some? && GroupKey(x).value == Trim(stamp.value)
  {
  }

  /** Two lines of one group agree on everything billed. */
  lemma SameGroupSameTerms(products: map<ProductId, Shop.Product>, asks: seq<Ask>, stamps: seq<Option<PackId>>,
                           whole: map<PackId, string>, i: nat, j: nat)
    requires Agreed(products, asks, stamps, whole) && i < |asks| && j < |asks|
    requires var lines := Lines(products, asks, stamps, whole);
             GroupKey(lines[i]).Some? && GroupKey(lines[i]) == GroupKey(lines[j])
    ensures stamps[i].Some? && stamps[i].value in whole
    ensures var lines := Lines(products, asks, stamps, whole);
            Trim(stamps[i].value) == GroupKey(lines[i]).value && BilledAlike(lines[i], lines[j])
  {
    assert asks[i] in asks && asks[j] in asks && stamps[i] in stamps && stamps[j] in stamps;
    var x := LineOf(products[asks[i].productId], asks[i], stamps[i], whole);
    var y := LineOf(products[asks[j].productId], asks[j], stamps[j], whole);
    LineGroup(products[asks[i].productId], asks[i], stamps[i], whole);
    LineGroup(products[asks[j].productId], asks[j], stamps[j], whole);
    SameStamp(stamps[i], stamps[j], whole, x, y);
    assert asks[i].quantity == asks[j].quantity;
    assert products[asks[i].productId].terms == products[asks[j].productId].terms;
  }

  lemma GroupSharesTerms(products: map<ProductId, Shop.Product>, asks: seq<Ask>, stamps: seq<Option<PackId>>,
                         whole: map<PackId, string>, row: DisplayRow<Item>)
    requires Agreed(products, asks, stamps, whole)
    requires row.CatalogRow? && row.items != []
    requires row.items == Group(Lines(products, asks, stamps, whole), GroupKey, row.catalogId)
    ensures SameQty(row.items) && SharedTerms(row.items)
    ensures exists c :: c in whole && Trim(c) == row.catalogId
  {
    var lines, first := Lines(products, asks, stamps, whole), row.items[0];
    assert first in row.items;
    var j :| 0 <= j < |lines| && lines[j] == first;
    SameGroupSameTerms(products, asks, stamps, whole, j, j);
    forall x | x in row.items
      ensures BilledAlike(x, first)
    {
      var i :| 0 <= i < |lines| && lines[i] == x;
      SameGroupSameTerms(products, asks, stamps, whole, i, j);
    }
  }

  /**
   * An order whose whole catalogs agree on terms and quantity, none priced per bunch: billed by row it costs
   * what its lines cost.
   */
  lemma WholeCatalogOrderBillsByRow(products: map<ProductId, Shop.Product>, asks: seq<Ask>, stamps: seq<Option<PackId>>,
                                    whole: map<PackId, string>, rateUnit: string -> Option<string>)
    requires Agreed(products, asks, stamps, whole)
    requires forall c :: c in whole ==> !CatalogRateIsBunchPrice(rateUnit(Trim(c)))
    ensures var lines := Lines(products, asks, stamps, whole);
            RowsTotal(Rows(lines), rateUnit) == OrderBillTotal(lines)
  {
    var lines := Lines(products, asks, stamps, whole);
    RowsAreRight(lines, GroupKey, GroupName, |lines|);
    forall row | row in Rows(lines) && row.CatalogRow?
      ensures SameQty(row.items) && SharedTerms(row.items) && !CatalogRateIsBunchPrice(rateUnit(row.catalogId))
    {
      assert RowIsRight(lines, GroupKey, GroupName, |lines|, row);
      GroupSharesTerms(products, asks, stamps, whole, row);
    }
    RowsBillTheOrder(lines, rateUnit);
  }

  /** One call took both designs into the catalog, which had a unit, and nothing has repriced them since. */
  ghost predicate TakenInTogether(st: Shop.Store, events: seq<Shop.Event>, id: PackId, p: ProductId, q: ProductId) {
    exists k {:trigger events[k]} :: 0 <= k < |events|
      && Shop.TakesIn(Shop.Run(st, events[..k]), events[k], id, p)
      && Shop.TakesIn(Shop.Run(st, events[..k]), events[k], id, q)
      && Shop.Run(st, events[..k]).albums[id].terms.unit.Some?
      && Shop.NotRepricedSince(st, events, k + 1, p) && Shop.NotRepricedSince(st, events, k + 1, q)
  }

  /** A line of a design that a catalog took in, and that nobody repriced since, is billed at that catalog's terms. */
  lemma LineBillsCatalogTerms(st: Shop.Store, events: seq<Shop.Event>, k: nat, id: PackId, p: ProductId, ask: Ask,
                              stamp: Option<PackId>, whole: map<PackId, string>)
    requires k < |events| && Shop.TakesIn(Shop.Run(st, events[..k]), events[k], id, p)
    requires Shop.NotRepricedSince(st, events, k + 1, p)
    ensures p in Shop.Run(st, events).products
    ensures var terms := Shop.Run(st, events[..k]).albums[id].terms;
            Amount(LineOf(Shop.Run(st, events).products[p], ask, stamp, whole)) ==
            LineBillAmount(ask.quantity, if terms.rate.Some? then Some(terms.rate.value as real) else None,
                           if terms.unit.Some? then terms.unit else ask.unit,
                           if terms.piecesPerPack.Some? then Some(terms.piecesPerPack.value as real) else None)
  {
    Shop.TermsLast(st, events, k, id, p);
  }

  lemma TogetherMeansSameTerms(st: Shop.Store, events: seq<Shop.Event>, products: map<ProductId, Shop.Product>, id: PackId,
                               p: ProductId, q: ProductId)
    requires products == Shop.Run(st, events).products && TakenInTogether(st, events, id, p, q)
    ensures p in products && q in products
    ensures products[p].terms == products[q].terms && products[p].terms.unit.Some?
  {
    var k :| 0 <= k < |events|
      && Shop.TakesIn(Shop.Run(st, events[..k]), events[k], id, p)
      && Shop.TakesIn(Shop.Run(st, events[..k]), events[k], id, q)
      && Shop.Run(st, events[..k]).albums[id].terms.unit.Some?
      && Shop.NotRepricedSince(st, events, k + 1, p) && Shop.NotRepricedSince(st, events, k + 1, q);
    Shop.TermsLast(st, events, k, id, p);
    Shop.TermsLast(st, events, k, id, q);
  }

  /**
   * After any run of catalog calls: an order of designs that their whole catalogs took in together, and that nobody
   * has repriced since, costs the same billed by row and billed by line.
   */
  lemma StampedOrderBillsByRow(st: Shop.Store, events: seq<Shop.Event>, asks: seq<Ask>, pack: Option<PackId>,
                               whole: map<PackId, string>, rateUnit: string -> Option<string>)
    requires forall ask :: ask in asks ==> ask.productId in Shop.Run(st, events).products
    requires var stamps := Stamps(Shop.Run(st, events).products, asks, pack, whole);
             && QuantitiesAgree(asks, stamps)
             && forall i, j :: 0 <= i < |asks| && 0 <= j < |asks| && stamps[i].Some? && stamps[i] == stamps[j] ==>
                  TakenInTogether(st, events, stamps[i].value, asks[i].productId, asks[j].productId)
    requires PlainIds(whole) && forall c :: c in whole ==> !CatalogRateIsBunchPrice(rateUnit(Trim(c)))
    ensures var products := Shop.Run(st, events).products;
            var lines := Lines(products, asks, Stamps(products, asks, pack, whole), whole);
            RowsTotal(Rows(lines), rateUnit) == OrderBillTotal(lines)
  {
    var products := Shop.Run(st, events).products;
    var stamps := Stamps(products, asks, pack, whole);
    forall i, j | 0 <= i < |asks| && 0 <= j < |asks| && stamps[i].Some? && stamps[i] == stamps[j]
      ensures asks[i] in asks && asks[j] in asks
      ensures products[asks[i].productId].terms == products[asks[j].productId].terms
      ensures products[asks[i].productId].terms.unit.Some?
    {
      TogetherMeansSameTerms(st, events, products, stamps[i].value, asks[i].productId, asks[j].productId);
    }
    WholeCatalogOrderBillsByRow(products, asks, stamps, whole, rateUnit);
  }
}
