/** The table writes of the collection service, statement by statement. */
module CatalogService {
  import opened Common
  import opened Packs
  import opened CatalogExclusivity

  // ---- What single statements write ----

  function Replaced(rows: map<Row, nat>, id: PackId, ids: seq<ProductId>): map<Row, nat> {
    map r: Row | r in rows.Keys + (set p | p in ids :: (id, p)) && (r.0 == id ==> r.1 in ids) ::
      if r.0 == id && r.1 in ids then PositionOf(ids, r.1) else if r in rows then rows[r] else 0
  }

  /** The other live packs' rows of `moving` deleted. */
  function LeftLivePacks(albums: map<PackId, Album>, rows: map<Row, nat>, company: CompanyId, id: PackId,
                         moving: set<ProductId>): map<Row, nat>
  {
    map r: Row | r in rows && !(r.1 in moving && r.0 != id && Live(albums, company, r.0)) :: rows[r]
  }

  /** The company's catalogs' rows of `moving` deleted. */
  function LeftCatalogs(albums: map<PackId, Album>, rows: map<Row, nat>, company: CompanyId,
                        moving: set<ProductId>): map<Row, nat>
  {
    map r: Row | r in rows && !(r.1 in moving && r.0 in albums && albums[r.0].company == company
                                && albums[r.0].kind.Catalog?) :: rows[r]
  }

  function Unstamped(products: map<ProductId, Product>, company: CompanyId, moving: set<ProductId>): map<ProductId, Product> {
    map p | p in products ::
      if p in moving && products[p].company == company then products[p].(stamp := None) else products[p]
  }

  function Stamped(products: map<ProductId, Product>, claimed: set<ProductId>, id: PackId): map<ProductId, Product> {
    map p | p in products :: if p in claimed then products[p].(stamp := Some(id)) else products[p]
  }

  function Released(products: map<ProductId, Product>, id: PackId, ownIds: set<ProductId>): map<ProductId, Product> {
    map p | p in products ::
      if products[p].stamp == Some(id) && p !in ownIds then products[p].(stamp := None) else products[p]
  }

  function Priced(products: map<ProductId, Product>, company: CompanyId, taken: set<ProductId>, terms: Terms)
    : map<ProductId, Product>
  {
    map p | p in products ::
      if p in taken && products[p].company == company then products[p].(terms := terms) else products[p]
  }

  lemma CatalogRows(st: Store, company: CompanyId, id: PackId, ids: seq<ProductId>, relocate: bool)
    requires id in st.albums && st.albums[id].kind.Catalog?
    ensures var moving := Relocating(st, company, id, ids, relocate);
            Replaced(LeftLivePacks(st.albums, st.rows, company, id, moving), id, ids) ==
            WithProducts(st, company, id, ids, relocate).rows
  {
    var moving := Relocating(st, company, id, ids, relocate);
    var stepwise := Replaced(LeftLivePacks(st.albums, st.rows, company, id, moving), id, ids);
    var atOnce := WithProducts(st, company, id, ids, relocate).rows;
    forall r: Row
      ensures r in stepwise <==> r in atOnce
    {
    }
    forall r: Row | r in stepwise
      ensures stepwise[r] == atOnce[r]
    {
    }
  }

  lemma RegularRows(st: Store, company: CompanyId, id: PackId, ids: seq<ProductId>, relocate: bool)
    requires id in st.albums && st.albums[id].kind.Regular?
    ensures var moving := Relocating(st, company, id, ids, relocate);
            Replaced(LeftCatalogs(st.albums, st.rows, company, moving), id, ids) ==
            WithProducts(st, company, id, ids, relocate).rows
  {
    var moving := Relocating(st, company, id, ids, relocate);
    var stepwise := Replaced(LeftCatalogs(st.albums, st.rows, company, moving), id, ids);
    var atOnce := WithProducts(st, company, id, ids, relocate).rows;
    forall r: Row
      ensures r in stepwise <==> r in atOnce
    {
    }
    forall r: Row | r in stepwise
      ensures stepwise[r] == atOnce[r]
    {
    }
  }

  lemma NothingMoves(albums: map<PackId, Album>, rows: map<Row, nat>, products: map<ProductId, Product>,
                     company: CompanyId, id: PackId)
    ensures LeftLivePacks(albums, rows, company, id, {}) == rows
    ensures LeftCatalogs(albums, rows, company, {}) == rows
    ensures Unstamped(products, company, {}) == products
  {
  }

  /** After the relocation, every newly added own design is free to claim. */
  lemma ClaimIsWhole(st: Store, company: CompanyId, id: PackId, ids: seq<ProductId>, relocate: bool)
    requires id in st.albums && st.albums[id].kind.Catalog?
    requires !Blocked(st, company, id, ids, relocate)
    ensures var moving, taken := Relocating(st, company, id, ids, relocate), NewlyAddedOwn(st, company, id, ids);
            Claimable(Unstamped(st.products, company, moving), company, id, taken) == taken
  {
  }

  function Claimable(products: map<ProductId, Product>, company: CompanyId, id: PackId, ids: set<ProductId>)
    : set<ProductId>
  {
    set p | p in ids && p in products && products[p].company == company
            && (products[p].stamp == None || products[p].stamp == Some(id))
  }

  lemma CatalogDesigns(st: Store, company: CompanyId, id: PackId, ids: seq<ProductId>, relocate: bool)
    requires id in st.albums && st.albums[id].kind.Catalog?
    ensures var moving, taken := Relocating(st, company, id, ids, relocate), NewlyAddedOwn(st, company, id, ids);
            var ownIds := set p | p in ids && Own(st, company, p);
            Priced(Released(Stamped(Unstamped(st.products, company, moving), taken, id), id, ownIds),
                   company, taken, st.albums[id].terms) ==
            WithProducts(st, company, id, ids, relocate).products
  {
  }

  lemma RegularDesigns(st: Store, company: CompanyId, id: PackId, ids: seq<ProductId>, relocate: bool)
    requires id in st.albums && st.albums[id].kind.Regular?
    ensures var moving := Relocating(st, company, id, ids, relocate);
            Unstamped(st.products, company, moving) == WithProducts(st, company, id, ids, relocate).products
  {
  }

  class CollectionService {
    var albums: map<PackId, Album>
    var products: map<ProductId, Product>
    var rows: map<Row, nat>

    constructor (st: Store)
      ensures Tables() == st
    {
      albums, products, rows := st.albums, st.products, st.rows;
    }

    function Tables(): Store
      reads this
    {
      Store(albums, products, rows)
    }

    /** `deleteMany` of the pack's rows, then `createMany` in order. */
    method ReplaceRows(id: PackId, ids: seq<ProductId>)
      requires Distinct(ids)
      modifies this`rows
      ensures rows == Replaced(old(rows), id, ids)
    {
      rows := map r: Row | r in rows && r.0 != id :: rows[r];
      ghost var others := rows;
      var position := 0;
      while position < |ids|
        invariant position <= |ids|
        invariant forall r: Row :: r in rows <==> if r.0 == id then r.1 in ids[..position] else r in others
        invariant forall r: Row :: r in rows && r.0 == id ==> rows[r] < position && ids[rows[r]] == r.1
        invariant forall r: Row :: r in rows && r.0 != id ==> rows[r] == others[r]
      {
        rows := rows[(id, ids[position]) := position];
        position := position + 1;
      }
      assert ids[..position] == ids;
      forall r: Row | r in rows && r.0 == id
        ensures rows[r] == PositionOf(ids, r.1)
      {
        assert ids[rows[r]] == ids[PositionOf(ids, r.1)];
      }
    }

    /** The checks that come before any write. */
    method Refusal(companyId: CompanyId, id: PackId, productIds: seq<ProductId>, relocateExclusive: bool,
                   curatable: set<ProductId>)
      returns (r: Option<SetError>)
      ensures r == SetProductsError(Tables(), companyId, id, productIds, relocateExclusive, curatable)
      ensures r ==
              if id !in albums || albums[id].company != companyId then Some(NotFound)
              else if albums[id].kind.General? then Some(GeneralReadonly)
              else if exists p :: p in productIds && (p in products ==> products[p].status.ArchivedDesign?)
              then Some(InvalidProducts)
              else if exists p :: p in productIds && (id, p) !in rows && products[p].company != companyId && p !in curatable
              then Some(NotCuratable)
              else if exists p :: p in productIds && (id, p) !in rows && products[p].company == companyId &&
                        if products[p].stamp.Some? && products[p].stamp.value != id then !relocateExclusive
                        else albums[id].kind.Catalog? &&
                             exists c :: c in albums && c != id && (c, p) in rows && albums[c].company == companyId
                                         && !albums[c].kind.General? && !albums[c].status.Archived?
              then Some(CatalogExclusive)
              else None
    {
      if id !in albums || albums[id].company != companyId {
        return Some(NotFound);
      }
      if albums[id].kind.General? {
        return Some(GeneralReadonly);
      }
      var uniqueIds := Unique(productIds);
      if exists p :: p in uniqueIds && (p !in products || products[p].status.ArchivedDesign?) {
        return Some(InvalidProducts);
      }
      var newlyAdded := NewlyAdded(Tables(), id, uniqueIds);
      if exists p :: p in newlyAdded && !Own(Tables(), companyId, p) && p !in curatable {
        return Some(NotCuratable);
      }
      if Blocked(Tables(), companyId, id, uniqueIds, relocateExclusive) {
        return Some(CatalogExclusive);
      }
      return None;
    }

    method SetProducts(companyId: CompanyId, id: PackId, productIds: seq<ProductId>, relocateExclusive: bool,
                       curatable: set<ProductId>)
      returns (r: Option<SetError>)
      modifies this
      ensures r == SetProductsError(old(Tables()), companyId, id, productIds, relocateExclusive, curatable)
      ensures Tables() == Step(old(Tables()), Event.SetProducts(companyId, id, productIds, relocateExclusive, curatable))
      ensures r.Some? ==> unchanged(this)
      ensures r.None? ==> albums == old(albums) && products.Keys == old(products).Keys && id in albums
      ensures r.None? ==>
                forall p :: p in products ==>
                  var was, catalog := old(products)[p], albums[id].kind.Catalog?;
                  var listed := p in productIds && was.company == companyId;
                  var taken := listed && (id, p) !in old(rows);
                  products[p] == was.(
                    terms := if catalog && taken then albums[id].terms else was.terms,
                    stamp := if catalog && taken then Some(id)
                             else if catalog && was.stamp == Some(id) && !listed then None
                             else if relocateExclusive && taken && was.stamp != Some(id) then None
                             else was.stamp)
      ensures r.None? ==> forall p :: (id, p) in rows <==> p in productIds
    {
      r := Refusal(companyId, id, productIds, relocateExclusive, curatable);
      if r.Some? {
        return;
      }
      SetProductsDesigns(Tables(), companyId, id, productIds, relocateExclusive);
      SetProductsOwnRows(Tables(), companyId, id, productIds, relocateExclusive);
      var uniqueIds := Unique(productIds);
      var relocating := Relocating(Tables(), companyId, id, uniqueIds, relocateExclusive);
      if albums[id].kind.Catalog? {
        ClaimForCatalog(companyId, id, uniqueIds, relocating, relocateExclusive);
      } else {
        FillRegular(companyId, id, uniqueIds, relocating, relocateExclusive);
      }
    }

    /** The transaction of a regular pack, with or without designs that leave their catalogs. */
    method FillRegular(companyId: CompanyId, id: PackId, uniqueIds: seq<ProductId>, relocating: set<ProductId>,
                       ghost relocate: bool)
      requires id in albums && albums[id].company == companyId && albums[id].kind.Regular?
      requires Distinct(uniqueIds)
      requires relocating == Relocating(Tables(), companyId, id, uniqueIds, relocate)
      modifies this
      ensures Tables() == WithProducts(old(Tables()), companyId, id, uniqueIds, relocate)
    {
      RegularRows(Tables(), companyId, id, uniqueIds, relocate);
      RegularDesigns(Tables(), companyId, id, uniqueIds, relocate);
      if relocating != {} {
        rows := LeftCatalogs(albums, rows, companyId, relocating);
        products := Unstamped(products, companyId, relocating);
        ReplaceRows(id, uniqueIds);
      } else {
        NothingMoves(albums, rows, products, companyId, id);
        ReplaceRows(id, uniqueIds);
      }
    }

    /** The catalog transaction. The claim count cannot fall short once the guards have passed. */
    method ClaimForCatalog(companyId: CompanyId, id: PackId, uniqueIds: seq<ProductId>, relocating: set<ProductId>,
                           ghost relocate: bool)
      requires id in albums && albums[id].company == companyId && albums[id].kind.Catalog?
      requires Distinct(uniqueIds)
      requires relocating == Relocating(Tables(), companyId, id, uniqueIds, relocate)
      requires !Blocked(Tables(), companyId, id, uniqueIds, relocate)
      modifies this
      ensures Tables() == WithProducts(old(Tables()), companyId, id, uniqueIds, relocate)
    {
      CatalogRows(Tables(), companyId, id, uniqueIds, relocate);
      CatalogDesigns(Tables(), companyId, id, uniqueIds, relocate);
      ghost var before := Tables();
      var ownIds := set p | p in uniqueIds && Own(Tables(), companyId, p);
      var stampOwnIds := NewlyAddedOwn(Tables(), companyId, id, uniqueIds);
      NothingMoves(albums, rows, products, companyId, id);
      ClaimIsWhole(before, companyId, id, uniqueIds, relocate);
      if relocating != {} {
        rows := LeftLivePacks(albums, rows, companyId, id, relocating);
        products := Unstamped(products, companyId, relocating);
      }
      var claimed := Claimable(products, companyId, id, stampOwnIds);
      // The conflict thrown when the claim count falls short is unreachable in an atomic call.
      assert |claimed| == |stampOwnIds|;
      products := Stamped(products, claimed, id);
      ReplaceRows(id, uniqueIds);
      products := Released(products, id, ownIds);
      products := Priced(products, companyId, stampOwnIds, albums[id].terms);
    }

    method SetStatus(companyId: CompanyId, id: PackId, status: Status, alsoArchiveDesigns: bool, alsoDraftDesigns: bool,
                     canPublish: bool)
      returns (r: Option<StatusError>)
      modifies this
      ensures r == StatusRefusal(old(Tables()), companyId, id, status, canPublish)
      ensures Tables() == Step(old(Tables()), Event.SetStatus(companyId, id, status, alsoArchiveDesigns, alsoDraftDesigns,
                                                              canPublish))
      ensures r == if id !in old(albums) || old(albums)[id].company != companyId then Some(NoSuchPack)
                   else if old(albums)[id].kind.General? then Some(GeneralHasNoStatus)
                   else if status.Ready? then Some(NoReadyStep)
                   else if status.Published? && !canPublish then Some(CannotPublish)
                   else None
      ensures rows == old(rows) && products.Keys == old(products).Keys
      ensures r.Some? ==> unchanged(this)
      ensures r.None? ==>
                && albums == old(albums)[id := old(albums)[id].(status := status)]
                && forall p :: p in products ==>
                     var was := old(products)[p];
                     var shared := exists c :: c in old(albums) && c != id && (c, p) in rows
                                               && old(albums)[c].company == companyId
                                               && !old(albums)[c].kind.General? && !old(albums)[c].status.Archived?;
                     products[p] ==
                     if (id, p) !in rows || was.company != companyId then was
                     else if status.Draft? && alsoDraftDesigns && !was.status.ArchivedDesign?
                     then was.(status := DraftDesign, onMarket := false)
                     else if status.Archived? && alsoArchiveDesigns && !shared
                     then was.(status := ArchivedDesign, onMarket := false, stamp := None)
                     else was
    {
      if id !in albums || albums[id].company != companyId {
        return Some(NoSuchPack);
      }
      if albums[id].kind.General? {
        return Some(GeneralHasNoStatus);
      }
      if status.Ready? {
        return Some(NoReadyStep);
      }
      if status.Published? && !canPublish {
        return Some(CannotPublish);
      }
      WriteDesigns(companyId, id, status, alsoArchiveDesigns, alsoDraftDesigns);
      albums := albums[id := albums[id].(status := status)];
      return None;
    }

    /** The designs that are drafted or archived with their pack. */
    method WriteDesigns(companyId: CompanyId, id: PackId, status: Status, alsoArchiveDesigns: bool, alsoDraftDesigns: bool)
      requires id in albums
      modifies `products
      ensures products == map p | p in old(products) ::
                AfterStatus(old(Tables()), companyId, id, status, alsoArchiveDesigns, alsoDraftDesigns, p)
    {
      if status.Draft? && alsoDraftDesigns {
        products := map p | p in products ::
          if (id, p) in rows && products[p].company == companyId && !products[p].status.ArchivedDesign?
          then products[p].(status := DraftDesign, onMarket := false) else products[p];
      }
      if status.Archived? && alsoArchiveDesigns {
        DeleteOwnUnsharedMembers(companyId, id, status, alsoDraftDesigns);
      }
    }

    method DeleteOwnUnsharedMembers(companyId: CompanyId, id: PackId, status: Status, ghost alsoDraft: bool)
      requires id in albums && status.Archived?
      modifies this`products
      ensures products == map p | p in old(products) ::
                AfterStatus(old(Tables()), companyId, id, status, true, alsoDraft, p)
    {
      ghost var before := Tables();
      var members := set p | p in products && (id, p) in rows && products[p].company == companyId;
      var pending := members;
      while pending != {}
        invariant pending <= members
        invariant products.Keys == before.products.Keys
        invariant forall p :: p in products ==>
                    products[p] == if p in members - pending then AfterStatus(before, companyId, id, status, true, alsoDraft, p)
                                   else before.products[p]
        decreases pending
      {
        var p :| p in pending;
        pending := pending - {p};
        var others := set c | c in albums && c != id && (c, p) in rows && Live(albums, companyId, c);
        if |others| > 0 {
          assert exists c :: c in others;
          assert InOtherLive(before, companyId, id, p);
          continue;
        }
        assert others == {};
        assert forall c :: c in albums && c != id && (c, p) in rows ==> c in others || !Live(albums, companyId, c);
        products := products[p := products[p].(status := ArchivedDesign, onMarket := false, stamp := None)];
      }
    }

    method Publish(companyId: CompanyId, id: PackId, allowed: bool) returns (r: Option<StatusError>)
      modifies this
      ensures r == PublishRefusal(old(Tables()), companyId, id, allowed)
      ensures Tables() == Step(old(Tables()), Event.Publish(companyId, id, allowed))
      ensures r == if id !in old(albums) || old(albums)[id].company != companyId then Some(NoSuchPack)
                   else if old(albums)[id].kind.General? then Some(GeneralHasNoStatus)
                   else if !allowed then Some(CannotPublish)
                   else if forall p :: (id, p) !in rows then Some(EmptyCollection)
                   else None
      ensures rows == old(rows) && products.Keys == old(products).Keys
      ensures r.Some? ==> unchanged(this)
      ensures r.None? ==>
                && albums == old(albums)[id := old(albums)[id].(status := Status.Published)]
                && forall p :: p in products ==>
                     var was := old(products)[p];
                     products[p] ==
                     if (id, p) in rows && was.company == companyId && was.status.DraftDesign?
                     then was.(status := PublishedDesign) else was
    {
      if id !in albums || albums[id].company != companyId {
        return Some(NoSuchPack);
      }
      if albums[id].kind.General? {
        return Some(GeneralHasNoStatus);
      }
      if !allowed {
        return Some(CannotPublish);
      }
      var members := set r | r in rows && r.0 == id :: r.1;
      if |members| < 1 {
        assert forall r :: r in rows && r.0 == id ==> r.1 in members;
        return Some(EmptyCollection);
      }
      assert exists p :: p in members;
      products := map p | p in products ::
        if p in members && products[p].company == companyId && products[p].status.DraftDesign?
        then products[p].(status := PublishedDesign) else products[p];
      albums := albums[id := albums[id].(status := Status.Published)];
      return None;
    }
  }
}
