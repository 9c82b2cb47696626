/** A design is in at most one live catalog of its owner: the stamp on the design and the membership rows agree. */
module CatalogExclusivity {
  import opened Common
  import opened Packs

  datatype ProductStatus = DraftDesign | PublishedDesign | ArchivedDesign

  /** The pricing columns a catalog stamps on the designs it takes in. */
  datatype Terms = Terms(rate: Option<int>, rateMax: Option<int>, unit: Option<string>, dispatchUnit: Option<string>,
                         catalogRateUnit: Option<string>, piecesPerPack: Option<int>)

  datatype Album = Album(company: CompanyId, kind: Kind, status: Status, terms: Terms)

  /** `stamp` is `catalogCollectionId`. */
  datatype Product = Product(company: CompanyId, status: ProductStatus, onMarket: bool, stamp: Option<PackId>, terms: Terms)

  type Row = (PackId, ProductId)

  /** The three tables; a membership row maps to its position. */
  datatype Store = Store(albums: map<PackId, Album>, products: map<ProductId, Product>, rows: map<Row, nat>)

  /** `qualifyingCollectionWhere`: a regular pack or catalog of the company that is not archived. */
  predicate Live(albums: map<PackId, Album>, company: CompanyId, c: PackId) {
    c in albums && albums[c].company == company && !albums[c].kind.General? && !albums[c].status.Archived?
  }

  predicate Own(st: Store, company: CompanyId, p: ProductId) {
    p in st.products && st.products[p].company == company
  }

  predicate InOtherLive(st: Store, company: CompanyId, id: PackId, p: ProductId) {
    exists c :: c in st.albums && c != id && (c, p) in st.rows && Live(st.albums, company, c)
  }

  // ---- The invariant ----

  /** A membership row refers to existing rows, and an owner's design in a live catalog carries its stamp. */
  ghost predicate RowOk(st: Store, c: PackId, p: ProductId) {
    && c in st.albums && p in st.products
    && (st.albums[c].kind.Catalog? && !st.albums[c].status.Archived? && st.products[p].company == st.albums[c].company
        ==> st.products[p].stamp == Some(c))
  }

  /** A stamp names a catalog of the owner that holds the design, and no other live pack of the owner does. */
  ghost predicate StampOk(st: Store, p: ProductId)
    requires p in st.products
  {
    st.products[p].stamp.Some? ==>
      var c, company := st.products[p].stamp.value, st.products[p].company;
      && (c, p) in st.rows
      && c in st.albums && st.albums[c].kind.Catalog? && st.albums[c].company == company
      && !InOtherLive(st, company, c, p)
  }

  ghost predicate Exclusive(st: Store) {
    && (forall c, p {:trigger RowOk(st, c, p)} :: (c, p) in st.rows ==> RowOk(st, c, p))
    && (forall p {:trigger StampOk(st, p)} :: p in st.products ==> StampOk(st, p))
  }

  /** What the invariant means: an own design in a live catalog sits in no other live pack of its company. */
  lemma CatalogMembersAreExclusive(st: Store, c: PackId, p: ProductId, d: PackId)
    requires Exclusive(st)
    requires (c, p) in st.rows && c in st.albums && st.albums[c].kind.Catalog? && !st.albums[c].status.Archived?
    requires Own(st, st.albums[c].company, p)
    requires (d, p) in st.rows && Live(st.albums, st.albums[c].company, d)
    ensures d == c && st.products[p].stamp == Some(c)
  {
    assert RowOk(st, c, p) && StampOk(st, p);
  }

  // ---- setProducts ----

  datatype SetError = NotFound | GeneralReadonly | InvalidProducts | NotCuratable | CatalogExclusive

  function NewlyAdded(st: Store, id: PackId, ids: seq<ProductId>): set<ProductId> {
    set p | p in ids && (id, p) !in st.rows
  }

  function NewlyAddedOwn(st: Store, company: CompanyId, id: PackId, ids: seq<ProductId>): set<ProductId> {
    set p | p in ids && (id, p) !in st.rows && Own(st, company, p)
  }

  function StampedElsewhere(st: Store, id: PackId, p: ProductId): bool
    requires p in st.products
  {
    st.products[p].stamp.Some? && st.products[p].stamp != Some(id)
  }

  function Relocating(st: Store, company: CompanyId, id: PackId, ids: seq<ProductId>, relocate: bool): set<ProductId> {
    set p | p in ids && relocate && (id, p) !in st.rows && Own(st, company, p) && StampedElsewhere(st, id, p)
  }

  predicate Blocked(st: Store, company: CompanyId, id: PackId, ids: seq<ProductId>, relocate: bool)
    requires id in st.albums
  {
    exists p :: p in ids && (id, p) !in st.rows && Own(st, company, p)
                && p !in Relocating(st, company, id, ids, relocate)
                && (StampedElsewhere(st, id, p)
                    || (st.albums[id].kind.Catalog? && InOtherLive(st, company, id, p)))
  }

  function PositionOf(ids: seq<ProductId>, p: ProductId): (k: nat)
    requires p in ids
    ensures k < |ids| && ids[k] == p && p !in ids[..k]
  {
    if ids[0] == p then 0 else 1 + PositionOf(ids[1..], p)
  }

  function SetProductsError(st: Store, company: CompanyId, id: PackId, productIds: seq<ProductId>, relocate: bool,
                            curatable: set<ProductId>): Option<SetError>
  {
    var ids := Unique(productIds);
    if id !in st.albums || st.albums[id].company != company then Some(NotFound)
    else if st.albums[id].kind.General? then Some(GeneralReadonly)
    else if exists p :: p in ids && (p !in st.products || st.products[p].status.ArchivedDesign?) then Some(InvalidProducts)
    else if exists p :: p in NewlyAdded(st, id, ids) && !Own(st, company, p) && p !in curatable then Some(NotCuratable)
    else if Blocked(st, company, id, ids, relocate) then Some(CatalogExclusive)
    else None
  }

  /** Whether a row of another pack survives the relocation of `moving` into `id`. */
  predicate RowSurvives(st: Store, company: CompanyId, id: PackId, moving: set<ProductId>, c: PackId, p: ProductId)
    requires id in st.albums
  {
    c != id && (p in moving ==>
      if st.albums[id].kind.Catalog? then !Live(st.albums, company, c)
      else !(c in st.albums && st.albums[c].company == company && st.albums[c].kind.Catalog?))
  }

  /** The tables after a successful call, read off in one go. */
  function WithProducts(st: Store, company: CompanyId, id: PackId, ids: seq<ProductId>, relocate: bool): Store
    requires id in st.albums
  {
    var moving, taken := Relocating(st, company, id, ids, relocate), NewlyAddedOwn(st, company, id, ids);
    var catalog := st.albums[id].kind.Catalog?;
    Store(
      st.albums,
      map p | p in st.products ::
        if catalog && p in taken then st.products[p].(stamp := Some(id), terms := st.albums[id].terms)
        else if p in moving || (catalog && st.products[p].stamp == Some(id) && !(p in ids && Own(st, company, p)))
        then st.products[p].(stamp := None)
        else st.products[p],
      map r: Row | r in st.rows.Keys + (set p | p in ids :: (id, p))
                   && (if r.0 == id then r.1 in ids else RowSurvives(st, company, id, moving, r.0, r.1)) ::
        if r.0 == id && r.1 in ids then PositionOf(ids, r.1) else if r in st.rows then st.rows[r] else 0)
  }

  /**
   * Design by design: a catalog stamps and prices the own designs a call newly takes in and drops its stamp from
   * those that leave; a regular pack drops the stamp of those it relocates; nothing else about a design changes.
   */
  lemma SetProductsDesigns(st: Store, company: CompanyId, id: PackId, productIds: seq<ProductId>, relocate: bool)
    requires id in st.albums
    ensures WithProducts(st, company, id, Unique(productIds), relocate).albums == st.albums
    ensures WithProducts(st, company, id, Unique(productIds), relocate).products.Keys == st.products.Keys
    ensures forall p :: p in st.products ==>
              var was, catalog := st.products[p], st.albums[id].kind.Catalog?;
              var listed := p in productIds && was.company == company;
              var taken := listed && (id, p) !in st.rows;
              WithProducts(st, company, id, Unique(productIds), relocate).products[p] == was.(
                terms := if catalog && taken then st.albums[id].terms else was.terms,
                stamp := if catalog && taken then Some(id)
                         else if catalog && was.stamp == Some(id) && !listed then None
                         else if relocate && taken && was.stamp != Some(id) then None
                         else was.stamp)
  {
  }

  /** The pack's rows are the listed designs. */
  lemma SetProductsOwnRows(st: Store, company: CompanyId, id: PackId, productIds: seq<ProductId>, relocate: bool)
    requires id in st.albums
    ensures forall p :: (id, p) in WithProducts(st, company, id, Unique(productIds), relocate).rows <==> p in productIds
  {
  }

  /**
   * Of the other packs' rows exactly those of relocated designs go that sit in a live pack (for a catalog) or in a
   * catalog of the company (for a regular pack).
   */
  lemma SetProductsOtherRows(st: Store, company: CompanyId, id: PackId, productIds: seq<ProductId>, relocate: bool)
    requires id in st.albums
    ensures var after := WithProducts(st, company, id, Unique(productIds), relocate).rows;
            && (forall c, p :: c != id && (c, p) in after <==>
                  && c != id && (c, p) in st.rows
                  && !(&& relocate && p in productIds && (id, p) !in st.rows
                       && p in st.products && st.products[p].company == company
                       && st.products[p].stamp.Some? && st.products[p].stamp.value != id
                       && c in st.albums && st.albums[c].company == company
                       && if st.albums[id].kind.Catalog?
                          then !st.albums[c].kind.General? && !st.albums[c].status.Archived?
                          else st.albums[c].kind.Catalog?))
            && (forall r: Row :: r in after && r.0 != id ==> after[r] == st.rows[r])
  {
  }

  lemma UniqueOfOneMore(front: seq<ProductId>, p: ProductId)
    requires p !in front
    ensures Unique(front + [p]) == Unique(front) + [p]
  {
    assert (front + [p])[..|front|] == front;
  }

  lemma PositionAfter(ids: seq<ProductId>, before: seq<ProductId>, p: ProductId)
    requires Distinct(ids) && before + [p] <= ids
    ensures p in ids && PositionOf(ids, p) == |before|
  {
    assert ids[|before|] == (before + [p])[|before|];
    assert ids[PositionOf(ids, p)] == ids[|before|];
  }

  /** A design's position is the number of different designs mentioned before it. */
  lemma PositionOfFirst(productIds: seq<ProductId>, front: seq<ProductId>, p: ProductId, ids: seq<ProductId>)
    requires front + [p] <= productIds && p !in front && ids == Unique(productIds)
    ensures p in ids && PositionOf(ids, p) == |Elems(front)|
  {
    var before, rest := Unique(front), productIds[|front| + 1..];
    assert front + [p] + rest == productIds;
    UniqueOfOneMore(front, p);
    UniqueOfLonger(front + [p], rest);
    PositionAfter(ids, before, p);
    DistinctCardinality(before);
    assert Elems(before) == Elems(front);
  }

  lemma FirstMention(productIds: seq<ProductId>, k: nat, ids: seq<ProductId>)
    requires k < |productIds| && productIds[k] !in productIds[..k] && ids == Unique(productIds)
    ensures productIds[k] in ids && PositionOf(ids, productIds[k]) == |Elems(productIds[..k])|
  {
    assert productIds[..k] + [productIds[k]] == productIds[..k + 1];
    PositionOfFirst(productIds, productIds[..k], productIds[k], ids);
  }

  lemma RowPosition(st: Store, company: CompanyId, id: PackId, ids: seq<ProductId>, relocate: bool, p: ProductId)
    requires id in st.albums && p in ids
    ensures var after := WithProducts(st, company, id, ids, relocate).rows;
            (id, p) in after && after[(id, p)] == PositionOf(ids, p)
  {
  }

  /** Each listed design stands at the place of its first mention. */
  lemma SetProductsPositions(st: Store, company: CompanyId, id: PackId, productIds: seq<ProductId>, relocate: bool,
                             k: nat)
    requires id in st.albums && k < |productIds| && productIds[k] !in productIds[..k]
    ensures var after := WithProducts(st, company, id, Unique(productIds), relocate).rows;
            (id, productIds[k]) in after && after[(id, productIds[k])] == |Elems(productIds[..k])|
  {
    FirstMention(productIds, k, Unique(productIds));
    RowPosition(st, company, id, Unique(productIds), relocate, productIds[k]);
  }

  // ---- setStatus and publish ----

  datatype StatusError = NoSuchPack | GeneralHasNoStatus | NoReadyStep | CannotPublish | EmptyCollection

  datatype Event =
    | AddAlbum(id: PackId, company: CompanyId, kind: Kind, terms: Terms)
    | AddDesign(p: ProductId, company: CompanyId, terms: Terms)
    | SetProducts(company: CompanyId, id: PackId, productIds: seq<ProductId>, relocate: bool, curatable: set<ProductId>)
    | SetStatus(company: CompanyId, id: PackId, status: Status, alsoArchive: bool, alsoDraft: bool, canPublish: bool)
    | Publish(company: CompanyId, id: PackId, allowed: bool)
    | PriceAlbum(company: CompanyId, id: PackId, terms: Terms)
    | PriceDesign(company: CompanyId, p: ProductId, terms: Terms)

  function StatusRefusal(st: Store, company: CompanyId, id: PackId, status: Status, canPublish: bool): Option<StatusError> {
    if id !in st.albums || st.albums[id].company != company then Some(NoSuchPack)
    else if st.albums[id].kind.General? then Some(GeneralHasNoStatus)
    else if status.Ready? then Some(NoReadyStep)
    else if status.Published? && !canPublish then Some(CannotPublish)
    else None
  }

  /** A design as `setStatus` leaves it. */
  function AfterStatus(st: Store, company: CompanyId, id: PackId, status: Status, alsoArchive: bool, alsoDraft: bool,
                       p: ProductId): Product
    requires p in st.products
  {
    var product := st.products[p];
    if (id, p) !in st.rows || product.company != company then product
    else if status.Draft? && alsoDraft && !product.status.ArchivedDesign? then
      product.(status := DraftDesign, onMarket := false)
    else if status.Archived? && alsoArchive && !InOtherLive(st, company, id, p) then
      product.(status := ArchivedDesign, onMarket := false, stamp := None)
    else product
  }

  function WithStatus(st: Store, company: CompanyId, id: PackId, status: Status, alsoArchive: bool, alsoDraft: bool): Store
    requires id in st.albums
  {
    Store(st.albums[id := st.albums[id].(status := status)],
          map p | p in st.products :: AfterStatus(st, company, id, status, alsoArchive, alsoDraft, p),
          st.rows)
  }

  function Published(st: Store, company: CompanyId, id: PackId): Store
    requires id in st.albums
  {
    Store(st.albums[id := st.albums[id].(status := Status.Published)],
          map p | p in st.products ::
            if (id, p) in st.rows && Own(st, company, p) && st.products[p].status.DraftDesign?
            then st.products[p].(status := PublishedDesign) else st.products[p],
          st.rows)
  }

  function Step(st: Store, e: Event): Store {
    match e
    case AddAlbum(id, company, kind, terms) =>
      if id in st.albums then st else st.(albums := st.albums[id := Album(company, kind, Draft, terms)])
    case AddDesign(p, company, terms) =>
      if p in st.products then st else st.(products := st.products[p := Product(company, DraftDesign, false, None, terms)])
    case SetProducts(company, id, productIds, relocate, curatable) =>
      if SetProductsError(st, company, id, productIds, relocate, curatable).Some? then st
      else WithProducts(st, company, id, Unique(productIds), relocate)
    case SetStatus(company, id, status, alsoArchive, alsoDraft, canPublish) =>
      if StatusRefusal(st, company, id, status, canPublish).Some? then st
      else WithStatus(st, company, id, status, alsoArchive, alsoDraft)
    case Publish(company, id, allowed) =>
      if PublishRefusal(st, company, id, allowed).Some? then st else Published(st, company, id)
    case PriceAlbum(company, id, terms) =>
      if id !in st.albums || st.albums[id].company != company || st.albums[id].kind.General? then st
      else st.(albums := st.albums[id := st.albums[id].(terms := terms)])
    case PriceDesign(company, p, terms) =>
      if !Own(st, company, p) then st
      else st.(products := st.products[p := st.products[p].(terms := terms)])
  }

  function PublishRefusal(st: Store, company: CompanyId, id: PackId, allowed: bool): Option<StatusError> {
    if id !in st.albums || st.albums[id].company != company then Some(NoSuchPack)
    else if st.albums[id].kind.General? then Some(GeneralHasNoStatus)
    else if !allowed then Some(CannotPublish)
    else if !exists r :: r in st.rows && r.0 == id then Some(EmptyCollection)
    else None
  }

  // ---- One step keeps the invariant, exactly when ----

  /** The event brings an archived pack back, which neither `setStatus` nor `publish` refuses. */
  predicate Revives(st: Store, e: Event) {
    match e
    case SetStatus(company, id, status, _, _, canPublish) =>
      StatusRefusal(st, company, id, status, canPublish).None? && st.albums[id].status.Archived? && !status.Archived?
    case Publish(company, id, allowed) =>
      PublishRefusal(st, company, id, allowed).None? && st.albums[id].status.Archived?
    case _ => false
  }

  /** Each of the owner's designs in the pack carries its stamp if it is a catalog, and none if it is not. */
  predicate MembersCarryOwnStamp(st: Store, id: PackId)
    requires id in st.albums
  {
    forall p :: p in st.products && (id, p) in st.rows && Own(st, st.albums[id].company, p) ==>
      st.products[p].stamp == if st.albums[id].kind.Catalog? then Some(id) else None
  }

  lemma ExclusiveAt(st: Store, c: PackId, p: ProductId)
    requires Exclusive(st)
    ensures (c, p) in st.rows ==> RowOk(st, c, p)
    ensures p in st.products ==> StampOk(st, p)
  {
  }

  lemma SetProductsRow(st: Store, company: CompanyId, id: PackId, ids: seq<ProductId>, relocate: bool, c: PackId, p: ProductId)
    requires Exclusive(st)
    requires id in st.albums && st.albums[id].company == company && !st.albums[id].kind.General?
    requires forall q :: q in ids ==> q in st.products
    requires !Blocked(st, company, id, ids, relocate)
    requires (c, p) in WithProducts(st, company, id, ids, relocate).rows
    ensures RowOk(WithProducts(st, company, id, ids, relocate), c, p)
  {
    ExclusiveAt(st, c, p);
    ExclusiveAt(st, id, p);
    if c == id {
      assert p in ids;
    } else {
      assert (c, p) in st.rows;
      if st.albums[c].kind.Catalog? && !st.albums[c].status.Archived? && Own(st, st.albums[c].company, p) {
        assert st.products[p].stamp == Some(c);
        if st.albums[c].company == company {
          assert Live(st.albums, company, c);
        }
      }
    }
  }

  lemma SetProductsStamp(st: Store, company: CompanyId, id: PackId, ids: seq<ProductId>, relocate: bool, p: ProductId)
    requires Exclusive(st)
    requires id in st.albums && st.albums[id].company == company && !st.albums[id].kind.General?
    requires forall q :: q in ids ==> q in st.products
    requires !Blocked(st, company, id, ids, relocate)
    requires p in st.products
    ensures StampOk(WithProducts(st, company, id, ids, relocate), p)
  {
    var after := WithProducts(st, company, id, ids, relocate);
    var moving := Relocating(st, company, id, ids, relocate);
    ExclusiveAt(st, id, p);
    if after.products[p].stamp.Some? {
      var c, owner := after.products[p].stamp.value, st.products[p].company;
      forall d | d in after.albums && d != c && (d, p) in after.rows && Live(after.albums, owner, d)
        ensures false
      {
        ExclusiveAt(st, d, p);
        ExclusiveAt(st, c, p);
        if d != id {
          assert (d, p) in st.rows;
          if c == id && (id, p) !in st.rows {
            assert InOtherLive(st, company, id, p);
          } else {
            assert InOtherLive(st, owner, c, p);
          }
        } else if (id, p) in st.rows {
          assert InOtherLive(st, owner, c, p);
        } else {
          assert StampedElsewhere(st, id, p);
        }
      }
      if c != id {
        assert st.products[p].stamp == Some(c);
      }
    }
  }

  lemma SetProductsKeepsExclusive(st: Store, company: CompanyId, id: PackId, productIds: seq<ProductId>, relocate: bool,
                                  curatable: set<ProductId>)
    requires Exclusive(st)
    requires SetProductsError(st, company, id, productIds, relocate, curatable).None?
    ensures Exclusive(WithProducts(st, company, id, Unique(productIds), relocate))
  {
    var ids := Unique(productIds);
    var after := WithProducts(st, company, id, ids, relocate);
    forall c, p | (c, p) in after.rows
      ensures RowOk(after, c, p)
    {
      SetProductsRow(st, company, id, ids, relocate, c, p);
    }
    forall p | p in after.products
      ensures StampOk(after, p)
    {
      SetProductsStamp(st, company, id, ids, relocate, p);
    }
  }

  /** A status change that leaves each pack's liveness as it was, or only ends it, keeps the invariant. */
  lemma StatusKeepsExclusive(st: Store, company: CompanyId, id: PackId, status: Status, alsoArchive: bool, alsoDraft: bool)
    requires Exclusive(st)
    requires id in st.albums && st.albums[id].company == company && !st.albums[id].kind.General?
    requires st.albums[id].status.Archived? ==> status.Archived?
    ensures Exclusive(WithStatus(st, company, id, status, alsoArchive, alsoDraft))
  {
    var after := WithStatus(st, company, id, status, alsoArchive, alsoDraft);
    forall c, p | (c, p) in after.rows
      ensures RowOk(after, c, p)
    {
      ExclusiveAt(st, c, p);
      if after.products[p] != st.products[p] && c != id && Live(st.albums, company, c) {
        assert InOtherLive(st, company, id, p);
      }
    }
    forall p | p in after.products
      ensures StampOk(after, p)
    {
      ExclusiveAt(st, id, p);
      if after.products[p].stamp.Some? {
        var c := st.products[p].stamp.value;
        var owner := st.products[p].company;
        assert InOtherLive(after, owner, c, p) ==> InOtherLive(st, owner, c, p);
      }
    }
  }

  /** Bringing an archived pack back keeps the invariant exactly when its own designs still carry its stamp. */
  lemma RevivalExactly(st: Store, after: Store, id: PackId)
    requires Exclusive(st)
    requires id in st.albums && st.albums[id].status.Archived? && !st.albums[id].kind.General?
    requires after.rows == st.rows && after.products.Keys == st.products.Keys
    requires forall p :: p in st.products ==>
               after.products[p].stamp == st.products[p].stamp && after.products[p].company == st.products[p].company
    requires after.albums.Keys == st.albums.Keys
    requires forall c :: c in st.albums && c != id ==> after.albums[c] == st.albums[c]
    requires after.albums[id] == st.albums[id].(status := after.albums[id].status) && !after.albums[id].status.Archived?
    ensures Exclusive(after) <==> MembersCarryOwnStamp(st, id)
  {
    var company, catalog := st.albums[id].company, st.albums[id].kind.Catalog?;
    if Exclusive(after) {
      forall p | p in st.products && (id, p) in st.rows && Own(st, company, p)
        ensures st.products[p].stamp == if catalog then Some(id) else None
      {
        assert RowOk(after, id, p) && StampOk(after, p);
        assert Live(after.albums, company, id);
      }
    }
    if MembersCarryOwnStamp(st, id) {
      forall c, p | (c, p) in after.rows
        ensures RowOk(after, c, p)
      {
        ExclusiveAt(st, c, p);
      }
      forall p | p in after.products
        ensures StampOk(after, p)
      {
        ExclusiveAt(st, id, p);
        if after.products[p].stamp.Some? {
          var c, owner := st.products[p].stamp.value, st.products[p].company;
          assert InOtherLive(after, owner, c, p) ==> InOtherLive(st, owner, c, p);
        }
      }
    }
  }

  function PackOf(e: Event): PackId {
    match e
    case AddAlbum(id, _, _, _) => id
    case AddDesign(p, _, _) => p
    case SetProducts(_, id, _, _, _) => id
    case SetStatus(_, id, _, _, _, _) => id
    case Publish(_, id, _) => id
    case PriceAlbum(_, id, _) => id
    case PriceDesign(_, p, _) => p
  }

  /**
   * One call keeps the catalog rule if and only if it does not bring an archived pack back, or the own designs
   * of the pack it brings back still carry that pack's stamp (no stamp, for a regular pack).
   */
  lemma StepKeepsExclusiveExactly(st: Store, e: Event)
    requires Exclusive(st)
    ensures Exclusive(Step(st, e)) <==> !Revives(st, e) || MembersCarryOwnStamp(st, PackOf(e))
  {
    var after := Step(st, e);
    if Revives(st, e) {
      RevivalExactly(st, after, PackOf(e));
    } else {
      match e {
        case AddAlbum(id, _, _, _) =>
          FreshAlbumKeepsExclusive(st, e);
        case AddDesign(p, _, _) =>
          FreshDesignKeepsExclusive(st, e);
        case SetProducts(company, id, productIds, relocate, curatable) =>
          if SetProductsError(st, company, id, productIds, relocate, curatable).None? {
            SetProductsKeepsExclusive(st, company, id, productIds, relocate, curatable);
          }
        case SetStatus(company, id, status, alsoArchive, alsoDraft, canPublish) =>
          if StatusRefusal(st, company, id, status, canPublish).None? {
            StatusKeepsExclusive(st, company, id, status, alsoArchive, alsoDraft);
          }
        case Publish(company, id, allowed) =>
          if PublishRefusal(st, company, id, allowed).None? {
            PublishKeepsExclusive(st, company, id);
          }
        case PriceAlbum(_, _, _) =>
          PricingKeepsExclusive(st, after);
        case PriceDesign(_, _, _) =>
          PricingKeepsExclusive(st, after);
      }
    }
  }

  /** A new price changes no stamp, no row and no pack's liveness. */
  lemma PricingKeepsExclusive(st: Store, after: Store)
    requires Exclusive(st) && after.rows == st.rows
    requires after.albums.Keys == st.albums.Keys && after.products.Keys == st.products.Keys
    requires forall c :: c in st.albums ==> after.albums[c] == st.albums[c].(terms := after.albums[c].terms)
    requires forall p :: p in st.products ==> after.products[p] == st.products[p].(terms := after.products[p].terms)
    ensures Exclusive(after)
  {
    forall c, p | (c, p) in after.rows
      ensures RowOk(after, c, p)
    {
      ExclusiveAt(st, c, p);
    }
    forall p | p in after.products
      ensures StampOk(after, p)
    {
      ExclusiveAt(st, "", p);
    }
  }

  lemma FreshAlbumKeepsExclusive(st: Store, e: Event)
    requires Exclusive(st) && e.AddAlbum?
    ensures Exclusive(Step(st, e))
  {
    var after := Step(st, e);
    forall c, p | (c, p) in after.rows
      ensures RowOk(after, c, p)
    {
      ExclusiveAt(st, c, p);
    }
    forall p | p in after.products
      ensures StampOk(after, p)
    {
      ExclusiveAt(st, e.id, p);
    }
  }

  lemma FreshDesignKeepsExclusive(st: Store, e: Event)
    requires Exclusive(st) && e.AddDesign?
    ensures Exclusive(Step(st, e))
  {
    var after := Step(st, e);
    forall c, p | (c, p) in after.rows
      ensures RowOk(after, c, p)
    {
      ExclusiveAt(st, c, p);
    }
    forall p | p in after.products
      ensures StampOk(after, p)
    {
      if p in st.products {
        ExclusiveAt(st, "", p);
      }
    }
  }

  lemma PublishKeepsExclusive(st: Store, company: CompanyId, id: PackId)
    requires Exclusive(st) && id in st.albums && !st.albums[id].status.Archived?
    ensures Exclusive(Published(st, company, id))
  {
    var after := Published(st, company, id);
    forall c, p | (c, p) in after.rows
      ensures RowOk(after, c, p)
    {
      ExclusiveAt(st, c, p);
    }
    forall p | p in after.products
      ensures StampOk(after, p)
    {
      ExclusiveAt(st, id, p);
      if after.products[p].stamp.Some? {
        var c, owner := st.products[p].stamp.value, st.products[p].company;
        assert forall d :: d in after.albums && Live(after.albums, owner, d) ==> Live(st.albums, owner, d);
      }
    }
  }

  // ---- Whole runs ----

  function Run(st: Store, events: seq<Event>): Store {
    if events == [] then st else Step(Run(st, events[..|events| - 1]), events[|events| - 1])
  }

  ghost predicate ArchivedIsTerminal(st: Store, events: seq<Event>) {
    forall k :: 0 <= k < |events| ==> !Revives(Run(st, events[..k]), events[k])
  }

  const EMPTY_STORE := Store(map[], map[], map[])

  lemma {:induction false} EveryRunIsExclusive(st: Store, events: seq<Event>)
    requires Exclusive(st) && ArchivedIsTerminal(st, events)
    ensures Exclusive(Run(st, events))
  {
    if events != [] {
      var k := |events| - 1;
      var front := events[..k];
      assert forall i :: 0 <= i < k ==> front[..i] == events[..i] && front[i] == events[i];
      EveryRunIsExclusive(st, front);
      assert !Revives(Run(st, events[..k]), events[k]);
      StepKeepsExclusiveExactly(Run(st, front), events[k]);
    }
  }

  /** In any run from empty tables that never revives a pack, a design never sits in a catalog and another live pack. */
  lemma NoDesignInTwoPlaces(events: seq<Event>, c: PackId, p: ProductId, d: PackId)
    requires ArchivedIsTerminal(EMPTY_STORE, events)
    requires var st := Run(EMPTY_STORE, events);
             && (c, p) in st.rows && c in st.albums && st.albums[c].kind.Catalog? && !st.albums[c].status.Archived?
             && Own(st, st.albums[c].company, p)
             && (d, p) in st.rows && Live(st.albums, st.albums[c].company, d)
    ensures d == c && Run(EMPTY_STORE, events).products[p].stamp == Some(c)
  {
    EveryRunIsExclusive(EMPTY_STORE, events);
    CatalogMembersAreExclusive(Run(EMPTY_STORE, events), c, p, d);
  }

  // ---- The terms of a catalog's designs ----

  /** The event is an accepted call that newly takes the own design `p` into the catalog `id`. */
  predicate TakesIn(st: Store, e: Event, id: PackId, p: ProductId) {
    && e.SetProducts? && e.id == id
    && SetProductsError(st, e.company, id, e.productIds, e.relocate, e.curatable).None?
    && st.albums[id].kind.Catalog? && p in e.productIds && (id, p) !in st.rows && Own(st, e.company, p)
  }

  /** The event gives `p` new terms: its owner edits its price, or a catalog takes it in. */
  predicate Reprices(st: Store, e: Event, p: ProductId) {
    || (e.PriceDesign? && e.p == p && Own(st, e.company, p))
    || (e.SetProducts? && TakesIn(st, e, e.id, p))
  }

  lemma TermsAfterStep(st: Store, e: Event, p: ProductId)
    requires p in st.products
    ensures p in Step(st, e).products
    ensures Step(st, e).products[p].terms ==
            if !Reprices(st, e, p) then st.products[p].terms
            else if e.PriceDesign? then e.terms
            else st.albums[e.id].terms
  {
    match e {
      case SetProducts(company, id, productIds, relocate, curatable) =>
        if SetProductsError(st, company, id, productIds, relocate, curatable).None? {
          SetProductsDesigns(st, company, id, productIds, relocate);
        }
      case _ =>
    }
  }

  /** No event of the run from number `k` on reprices `p`. */
  ghost predicate NotRepricedSince(st: Store, events: seq<Event>, k: nat, p: ProductId) {
    forall j :: k <= j < |events| ==> !Reprices(Run(st, events[..j]), events[j], p)
  }

  lemma NotRepricedBefore(st: Store, events: seq<Event>, k: nat, p: ProductId)
    requires k < |events| && NotRepricedSince(st, events, k, p)
    ensures NotRepricedSince(st, events[..|events| - 1], k, p)
    ensures !Reprices(Run(st, events[..|events| - 1]), events[|events| - 1], p)
  {
    var front := events[..|events| - 1];
    assert forall j :: 0 <= j < |front| ==> front[..j] == events[..j] && front[j] == events[j];
  }

  lemma {:induction false} TermsStay(st: Store, events: seq<Event>, k: nat, p: ProductId)
    requires k <= |events| && p in Run(st, events[..k]).products && NotRepricedSince(st, events, k, p)
    ensures p in Run(st, events).products
    ensures Run(st, events).products[p].terms == Run(st, events[..k]).products[p].terms
  {
    if k == |events| {
      assert events[..k] == events;
    } else {
      var front := events[..|events| - 1];
      assert front[..k] == events[..k];
      NotRepricedBefore(st, events, k, p);
      TermsStay(st, front, k, p);
      TermsAfterStep(Run(st, front), events[|events| - 1], p);
    }
  }

  /** A design keeps the terms of the catalog that took it in until the next call that reprices it. */
  lemma TermsLast(st: Store, events: seq<Event>, k: nat, id: PackId, p: ProductId)
    requires k < |events| && TakesIn(Run(st, events[..k]), events[k], id, p)
    requires NotRepricedSince(st, events, k + 1, p)
    ensures p in Run(st, events).products
    ensures Run(st, events).products[p].terms == Run(st, events[..k]).albums[id].terms
  {
    var before := Run(st, events[..k]);
    assert events[..k + 1][..k] == events[..k];
    TermsAfterStep(before, events[k], p);
    TermsStay(st, events, k + 1, p);
  }

  /** Designs taken in by one call and not repriced since have the same terms. */
  lemma TakenInTogetherAgree(st: Store, events: seq<Event>, k: nat, id: PackId, p: ProductId, q: ProductId)
    requires k < |events|
    requires TakesIn(Run(st, events[..k]), events[k], id, p) && TakesIn(Run(st, events[..k]), events[k], id, q)
    requires NotRepricedSince(st, events, k + 1, p) && NotRepricedSince(st, events, k + 1, q)
    ensures var products := Run(st, events).products;
            p in products && q in products && products[p].terms == products[q].terms
  {
    TermsLast(st, events, k, id, p);
    TermsLast(st, events, k, id, q);
  }

  const NO_TERMS := Terms(None, None, None, None, None, None)

  /** Catalogs k and m of one company; design p is a member of k, or of both. */
  function TwoCatalogs(k: Status, stamp: PackId, inBoth: bool): Store {
    Store(map["k" := Album("c", Catalog, k, NO_TERMS), "m" := Album("c", Catalog, Draft, NO_TERMS)],
          map["p" := Product("c", DraftDesign, false, Some(stamp), NO_TERMS)],
          if inBoth then map[("k", "p") := 0, ("m", "p") := 0] else map[("k", "p") := 0])
  }

  const ARCHIVE_K := SetStatus("c", "k", Archived, false, false, true)
  const MOVE_TO_M := SetProducts("c", "m", ["p"], true, {})
  const REVIVE_K := SetStatus("c", "k", Draft, false, false, true)

  lemma StartIsExclusive()
    ensures Exclusive(TwoCatalogs(Draft, "k", false))
  {
  }

  lemma ArchiveKeepsStamp()
    ensures Step(TwoCatalogs(Draft, "k", false), ARCHIVE_K) == TwoCatalogs(Archived, "k", false)
  {
  }

  lemma MoveIsAccepted()
    ensures var st := TwoCatalogs(Archived, "k", false);
            SetProductsError(st, "c", "m", ["p"], true, {}).None? && Unique(["p"]) == ["p"]
  {
  }

  lemma MoveRestampsDesigns()
    ensures var st := TwoCatalogs(Archived, "k", false);
            WithProducts(st, "c", "m", ["p"], true).products == TwoCatalogs(Archived, "m", true).products
  {
  }

  lemma MoveRewritesRows()
    ensures var st := TwoCatalogs(Archived, "k", false);
            WithProducts(st, "c", "m", ["p"], true).rows == TwoCatalogs(Archived, "m", true).rows
  {
  }

  lemma MoveRestamps()
    ensures Step(TwoCatalogs(Archived, "k", false), MOVE_TO_M) == TwoCatalogs(Archived, "m", true)
  {
    MoveIsAccepted();
    MoveRestampsDesigns();
    MoveRewritesRows();
  }

  /** Archive k, relocate its design to m, un-archive k: the design sits in two live catalogs. */
  lemma RevivalBreaksExclusivity()
    ensures var start := TwoCatalogs(Draft, "k", false);
            var moved := Step(Step(start, ARCHIVE_K), MOVE_TO_M);
            Exclusive(start) && Exclusive(moved) && !Exclusive(Step(moved, REVIVE_K))
  {
    StartIsExclusive();
    ArchiveKeepsStamp();
    MoveRestamps();
    StepKeepsExclusiveExactly(TwoCatalogs(Draft, "k", false), ARCHIVE_K);
    StepKeepsExclusiveExactly(TwoCatalogs(Archived, "k", false), MOVE_TO_M);
    var moved := TwoCatalogs(Archived, "m", true);
    StepKeepsExclusiveExactly(moved, REVIVE_K);
    assert ("k", "p") in moved.rows && Own(moved, "c", "p");
  }
}
