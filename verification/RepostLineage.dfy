/** Creating, delivering and syncing reposts, and the cached root each of them stamps. */
module RepostLineage {
  import opened Common
  import opened Packs
  import opened SourceChain
  import Sync = MembershipSync

  // ---- The lineage invariant ----

  /** The chain from `id` ends, and the bounded walk reads its end. */
  ghost predicate Readable(packs: PackTable, id: PackId) {
    exists n: nat, end :: EndsAfter(packs, id, n, end) && WithinReach(packs, id, n)
  }

  ghost predicate WithinReach(packs: PackTable, id: PackId, n: nat) {
    n <= WALK_LIMIT || exists i: nat :: i < WALK_LIMIT && StampedHop(packs, id, i)
  }

  ghost predicate SourceOk(packs: PackTable, p: PackId)
    requires p in packs
  {
    packs[p].source.Some? ==>
      && packs[p].source.value in packs
      && packs[packs[p].source.value].company != packs[p].company
      && (packs[p].origin == Some(Automatic) ==> !OnChain(packs, packs[p].source.value, packs[p].company))
  }

  ghost predicate StampOk(packs: PackTable, p: PackId)
    requires p in packs
  {
    packs[p].root.Some? ==> EndsAt(packs, p, packs[p].root.value)
  }

  ghost predicate RowOk(packs: PackTable, p: PackId)
    requires p in packs
  {
    Readable(packs, p) && SourceOk(packs, p) && StampOk(packs, p)
  }

  /**
   * Sources exist, belong to another company and chains end; every stamped root is the end of its chain; an
   * automatic repost's company occurs nowhere further up its chain.
   */
  ghost predicate LineageOk(packs: PackTable) {
    forall p {:trigger RowOk(packs, p)} :: p in packs ==> RowOk(packs, p)
  }

  /** The chain the walk misreads has sound sources and stamps: all it lacks is a stamp. */
  lemma LongChainHasSoundSources(p: PackId)
    requires p in LongChain()
    ensures SourceOk(LongChain(), p) && StampOk(LongChain(), p)
    ensures LongChain()[p].source.Some? ==> !OnChain(LongChain(), LongChain()[p].source.value, LongChain()[p].company)
  {
    var i: nat :| i < 34 && p == ChainId(i);
    LongChainRow(i);
    if i < 33 {
      LongChainRow(i + 1);
      LongChainOwners(i);
      assert |ChainId(i + 1)| != |ChainId(i)|;
    }
  }

  lemma {:induction false} HopStaysInTable(packs: PackTable, id: PackId, n: nat)
    requires LineageOk(packs) && id in packs
    ensures Hop(packs, id, n).Some? ==> Hop(packs, id, n).value in packs
  {
    if n > 0 {
      HopStaysInTable(packs, id, n - 1);
      var c := Hop(packs, id, n - 1);
      if c.Some? {
        assert RowOk(packs, c.value);
      }
    }
  }

  lemma LineageStampsAgree(packs: PackTable, id: PackId)
    requires LineageOk(packs)
    ensures StampsAgree(packs, id)
  {
    assert forall c :: c in packs && RowOk(packs, c) ==> StampOk(packs, c);
  }

  /** Under the invariant, the bounded walk returns the end of the whole chain, however long. */
  lemma RootIdIsTheEnd(packs: PackTable, id: PackId)
    requires LineageOk(packs) && id in packs
    ensures EndsAt(packs, id, RootId(packs, id))
  {
    assert RowOk(packs, id);
    var n: nat, end :| EndsAfter(packs, id, n, end) && WithinReach(packs, id, n);
    LineageStampsAgree(packs, id);
    RootIdExactly(packs, id, n, end);
  }

  // ---- Events of a run ----

  datatype Event =
    | Post(id: PackId, company: CompanyId, kind: Kind, now: Instant)
    | Repost(id: PackId, company: CompanyId, sourceId: PackId, kind: Kind, now: Instant)
    | StampAutomatic(id: PackId, sourceId: PackId, rootId: PackId, token: Instant, productIds: seq<ProductId>)
    | StampSynced(id: PackId, sourceId: PackId, token: Instant, productIds: seq<ProductId>)
    | Touch(id: PackId, row: Pack)

  function NewPack(company: CompanyId, kind: Kind, now: Instant): Pack {
    Pack(company, kind, Draft, Followers, [], true, None, now, now, None, None, None, None, [])
  }

  predicate SameIdentity(a: Pack, b: Pack) {
    a.company == b.company && a.source == b.source && a.root == b.root && a.origin == b.origin
  }

  ghost predicate Enabled(packs: PackTable, e: Event) {
    match e
    case Post(id, _, _, _) => id !in packs
    case Repost(id, company, sourceId, _, _) =>
      id !in packs && sourceId in packs && packs[sourceId].status.Published? && packs[sourceId].company != company
    case StampAutomatic(id, sourceId, rootId, _, _) =>
      && id in packs && packs[id].source == Some(sourceId) && sourceId in packs
      && !OnChain(packs, sourceId, packs[id].company)
      && rootId == RootId(packs, sourceId)
    case StampSynced(id, sourceId, _, _) =>
      && id in packs && sourceId in packs
      && (packs[id].root == Some(RootId(packs, sourceId))
          || packs[id].source == Some(sourceId)
          || packs[id].source == Some(RootId(packs, sourceId)))
    case Touch(id, row) => id in packs && SameIdentity(packs[id], row)
  }

  function Apply(packs: PackTable, e: Event): PackTable {
    match e
    case Post(id, company, kind, now) => packs[id := NewPack(company, kind, now)]
    case Repost(id, company, sourceId, kind, now) =>
      packs[id := NewPack(company, kind, now).(source := Some(sourceId), root := Some(RootId(packs, sourceId)),
                                               origin := Some(Manual))]
    case StampAutomatic(id, sourceId, rootId, token, productIds) =>
      if id !in packs then packs
      else packs[id := packs[id].(root := Some(rootId), origin := Some(Automatic),
                                  syncedAt := Some(token), syncedIds := productIds)]
    case StampSynced(id, sourceId, token, productIds) =>
      if id !in packs then packs
      else packs[id := packs[id].(root := Some(RootId(packs, sourceId)),
                                  syncedAt := Some(token), syncedIds := productIds)]
    case Touch(id, row) => packs[id := row]
  }

  ghost predicate Run(tables: seq<PackTable>, events: seq<Event>) {
    && |tables| == |events| + 1
    && forall i {:trigger events[i]} :: 0 <= i < |events| ==>
         Enabled(tables[i], events[i]) && tables[i + 1] == Apply(tables[i], events[i])
  }

  /** Rows may change as long as company and source stay; then so does every chain. */
  ghost predicate SameLinks(packs: PackTable, packs': PackTable) {
    packs.Keys <= packs'.Keys
    && forall p :: p in packs ==> packs'[p].company == packs[p].company && packs'[p].source == packs[p].source
  }

  lemma {:induction false} SameLinksSameHops(packs: PackTable, packs': PackTable, id: PackId, n: nat)
    requires LineageOk(packs) && SameLinks(packs, packs') && id in packs
    ensures Hop(packs', id, n) == Hop(packs, id, n)
  {
    if n > 0 {
      SameLinksSameHops(packs, packs', id, n - 1);
      HopStaysInTable(packs, id, n - 1);
    }
  }

  lemma SameLinksSameEnds(packs: PackTable, packs': PackTable, id: PackId, end: PackId)
    requires LineageOk(packs) && SameLinks(packs, packs') && id in packs
    ensures EndsAt(packs, id, end) ==> EndsAt(packs', id, end)
  {
    if EndsAt(packs, id, end) {
      var n: nat :| EndsAfter(packs, id, n, end);
      SameLinksSameHops(packs, packs', id, n);
      assert EndsAfter(packs', id, n, end);
    }
  }

  lemma SameLinksSameCompanies(packs: PackTable, packs': PackTable, id: PackId, company: CompanyId)
    requires LineageOk(packs) && SameLinks(packs, packs') && id in packs
    ensures OnChain(packs', id, company) ==> OnChain(packs, id, company)
  {
    if OnChain(packs', id, company) {
      var n: nat :| OwnsHop(packs', id, n, company);
      SameLinksSameHops(packs, packs', id, n);
      HopStaysInTable(packs, id, n);
      assert OwnsHop(packs, id, n, company);
    }
  }

  lemma ReadableStays(packs: PackTable, packs': PackTable, id: PackId)
    requires LineageOk(packs) && SameLinks(packs, packs') && id in packs
    requires forall p :: p in packs && packs[p].root.Some? ==> packs'[p].root.Some?
    ensures Readable(packs', id)
  {
    assert RowOk(packs, id);
    var n: nat, end :| EndsAfter(packs, id, n, end) && WithinReach(packs, id, n);
    SameLinksSameHops(packs, packs', id, n);
    assert EndsAfter(packs', id, n, end);
    if n > WALK_LIMIT {
      var i: nat :| i < WALK_LIMIT && StampedHop(packs, id, i);
      SameLinksSameHops(packs, packs', id, i);
      assert StampedHop(packs', id, i);
    }
    assert WithinReach(packs', id, n);
  }

  /** A row kept by a step is still sound after it. */
  lemma KeptRowIsSound(packs: PackTable, packs': PackTable, p: PackId)
    requires LineageOk(packs) && SameLinks(packs, packs') && p in packs
    requires forall q :: q in packs && packs[q].root.Some? ==> packs'[q].root.Some?
    requires packs'[p].root.Some? ==> EndsAt(packs, p, packs'[p].root.value)
    requires packs'[p].origin == Some(Automatic) && packs[p].source.Some? ==>
               !OnChain(packs, packs[p].source.value, packs[p].company)
    ensures RowOk(packs', p)
  {
    assert RowOk(packs, p);
    ReadableStays(packs, packs', p);
    if packs'[p].root.Some? {
      SameLinksSameEnds(packs, packs', p, packs'[p].root.value);
    }
    if packs[p].source.Some? {
      SameLinksSameCompanies(packs, packs', packs[p].source.value, packs[p].company);
    }
  }

  /** One link prepended: the chain of a repost is its source's chain. */
  lemma {:induction false} HopThroughSource(packs: PackTable, p: PackId, s: PackId, n: nat)
    requires p in packs && packs[p].source == Some(s)
    ensures Hop(packs, p, n + 1) == Hop(packs, s, n)
  {
    assert Hop(packs, p, 1) == Some(s) by { assert Hop(packs, p, 0) == Some(p); }
    HopAdds(packs, p, 1, s, n);
  }

  lemma EndThroughSource(packs: PackTable, p: PackId, s: PackId, end: PackId)
    requires p in packs && packs[p].source == Some(s) && EndsAt(packs, s, end)
    ensures EndsAt(packs, p, end)
  {
    var n: nat :| EndsAfter(packs, s, n, end);
    HopThroughSource(packs, p, s, n);
    assert EndsAfter(packs, p, n + 1, end);
  }

  lemma NewRepostIsSound(packs: PackTable, id: PackId, row: Pack, s: PackId)
    requires LineageOk(packs) && id !in packs
    requires row.source == Some(s) && s in packs && packs[s].company != row.company
    requires row.root == Some(RootId(packs, s)) && row.origin == Some(Manual)
    ensures var packs' := packs[id := row]; RowOk(packs', id)
  {
    var packs', end := packs[id := row], RootId(packs, s);
    assert RowOk(packs, s);
    RootIdIsTheEnd(packs, s);
    SameLinksSameEnds(packs, packs', s, end);
    EndThroughSource(packs', id, s, end);
    var n: nat :| EndsAfter(packs', id, n, end);
    assert StampedHop(packs', id, 0);
    assert WithinReach(packs', id, n);
  }

  lemma StampTargetsTheEnd(packs: PackTable, id: PackId, sourceId: PackId)
    requires LineageOk(packs)
    requires Enabled(packs, StampSynced(id, sourceId, 0, []))
    ensures EndsAt(packs, id, RootId(packs, sourceId))
  {
    var rootId := RootId(packs, sourceId);
    assert RowOk(packs, id) && RowOk(packs, sourceId);
    RootIdIsTheEnd(packs, sourceId);
    if packs[id].source == Some(sourceId) {
      EndThroughSource(packs, id, sourceId, rootId);
    } else if packs[id].source == Some(rootId) {
      assert EndsAfter(packs, rootId, 0, rootId);
      EndThroughSource(packs, id, rootId, rootId);
    }
  }

  lemma StepKeepsLineage(packs: PackTable, e: Event)
    requires LineageOk(packs) && Enabled(packs, e)
    ensures LineageOk(Apply(packs, e))
  {
    var packs' := Apply(packs, e);
    assert SameLinks(packs, packs');
    match e {
      case Post(id, company, kind, now) =>
        assert EndsAfter(packs', id, 0, id);
        assert WithinReach(packs', id, 0);
      case Repost(id, company, sourceId, kind, now) =>
        NewRepostIsSound(packs, id, packs'[id], sourceId);
      case StampAutomatic(id, sourceId, rootId, _, _) =>
        StampTargetsTheEnd(packs, id, sourceId);
      case StampSynced(id, sourceId, _, _) =>
        StampTargetsTheEnd(packs, id, sourceId);
      case Touch(_, _) =>
    }
    forall p | p in packs
      ensures RowOk(packs', p)
    {
      assert RowOk(packs, p);
      KeptRowIsSound(packs, packs', p);
    }
  }

  /** Over every run that starts from an empty table, the cache agrees with the slow walk. */
  lemma {:induction false} EveryRunKeepsLineage(tables: seq<PackTable>, events: seq<Event>)
    requires Run(tables, events)
    requires LineageOk(tables[0])
    ensures LineageOk(tables[|events|])
  {
    if events != [] {
      var n := |events| - 1;
      assert Run(tables[..n + 1], events[..n]) by {
        forall i | 0 <= i < n
          ensures Enabled(tables[..n + 1][i], events[..n][i])
          ensures tables[..n + 1][i + 1] == Apply(tables[..n + 1][i], events[..n][i])
        {
          assert events[i] == events[..n][i];
        }
      }
      EveryRunKeepsLineage(tables[..n + 1], events[..n]);
      assert events[n] == events[|events| - 1];
      StepKeepsLineage(tables[n], events[n]);
    }
  }

  lemma CacheAgreesFromScratch(tables: seq<PackTable>, events: seq<Event>, p: PackId)
    requires Run(tables, events) && tables[0] == map[]
    requires p in tables[|events|]
    ensures var packs := tables[|events|];
            && (packs[p].root.Some? ==> EndsAt(packs, p, packs[p].root.value))
            && EndsAt(packs, p, RootId(packs, p))
            && (packs[p].origin == Some(Automatic) && packs[p].source.Some? ==>
                  !OnChain(packs, packs[p].source.value, packs[p].company))
  {
    EveryRunKeepsLineage(tables, events);
    assert RowOk(tables[|events|], p);
    RootIdIsTheEnd(tables[|events|], p);
  }

  /** A root read before a step is the root read after it. */
  lemma RootIdIsStable(packs: PackTable, packs': PackTable, id: PackId)
    requires LineageOk(packs) && LineageOk(packs') && SameLinks(packs, packs') && id in packs
    ensures RootId(packs', id) == RootId(packs, id)
  {
    var end, end' := RootId(packs, id), RootId(packs', id);
    RootIdIsTheEnd(packs, id);
    RootIdIsTheEnd(packs', id);
    SameLinksSameEnds(packs, packs', id, end);
    var n: nat :| EndsAfter(packs', id, n, end);
    assert Hop(packs', id, 0) == Some(id);
    EndIsUnique(packs', id, n, end, 0, id, end');
  }

  /** A walk that has come back to a pack it has seen stays among the packs it has seen. */
  lemma {:induction false} LoopStaysSeen(packs: PackTable, id: PackId, k: nat, m: nat)
    requires Hop(packs, id, k).Some? && Hop(packs, id, k).value in SeenUpTo(packs, id, k)
    requires forall i: nat :: i < k ==> Hop(packs, id, i).Some?
    ensures Hop(packs, id, m).Some? ==> Hop(packs, id, m).value in SeenUpTo(packs, id, k)
  {
    if m > 0 && Hop(packs, id, m).Some? {
      LoopStaysSeen(packs, id, k, m - 1);
      var c := Hop(packs, id, m - 1).value;
      var i: nat :| i < k && Hop(packs, id, i) == Some(c);
      assert Hop(packs, id, i + 1) == Hop(packs, id, m);
      if i + 1 < k {
        assert Hop(packs, id, i + 1).value in SeenUpTo(packs, id, k);
      }
    }
  }

  /** Adding a fresh pack below `start` does not change what the bounded walk from `start` reads. */
  lemma {:induction false} FreshPackKeepsRootFrom(packs: PackTable, id: PackId, row: Pack, start: PackId,
                                                  current: PackId, seen: set<PackId>, left: nat)
    requires LineageOk(packs) && id !in packs && current in packs
    ensures RootFrom(packs[id := row], start, current, seen, left) == RootFrom(packs, start, current, seen, left)
    decreases left
  {
    assert RowOk(packs, current);
    if left > 0 && current !in seen && packs[current].root.None? && packs[current].source.Some? {
      FreshPackKeepsRootFrom(packs, id, row, start, packs[current].source.value, seen + {current}, left - 1);
    }
  }

  // ---- Delivery to a trader ----

  function EffectiveAudience(audience: Audience): Audience {
    if audience.Everyone? || audience.Connections? then Followers else audience
  }

  /** `canDiscoverCollection` for an allowed follower that is not the owner. */
  predicate FollowerDiscovers(viewer: CompanyId, pack: Pack) {
    match EffectiveAudience(pack.audience)
    case Followers => viewer !in pack.audienceIds
    case Selected => viewer in pack.audienceIds
    case _ => false
  }

  /** A direct-link lane from a trader to `source`'s company, for one end buyer. */
  datatype Lane = Lane(buyer: CompanyId, createdAt: Instant)

  function Buyers(lanes: seq<Lane>, trader: CompanyId, seller: CompanyId): (r: seq<CompanyId>)
    ensures Distinct(r)
    ensures forall b :: b in r <==> b != "" && b != trader && b != seller && exists l :: l in lanes && l.buyer == b
  {
    if lanes == [] then []
    else
      var front, last := lanes[..|lanes| - 1], lanes[|lanes| - 1];
      assert lanes == front + [last];
      var r := Buyers(front, trader, seller);
      if last.buyer == "" || last.buyer == trader || last.buyer == seller || last.buyer in r then r
      else r + [last.buyer]
  }

  lemma NoBuyers(lanes: seq<Lane>, trader: CompanyId, seller: CompanyId)
    ensures Buyers(lanes, trader, seller) == [] <==> forall l :: l in lanes ==> l.buyer in {"", trader, seller}
  {
  }

  function EarliestLane(lanes: seq<Lane>): (r: Instant)
    requires lanes != []
    ensures (exists l :: l in lanes && l.createdAt == r) && forall l :: l in lanes ==> r <= l.createdAt
  {
    if |lanes| == 1 then lanes[0].createdAt
    else
      var r := EarliestLane(lanes[1..]);
      if lanes[0].createdAt < r then lanes[0].createdAt else r
  }

  /** What the delivery reads outside the pack tables. */
  datatype Relation = Relation(followAllowed: bool, lanes: seq<Lane>, hasOwner: bool)

  /** The step of a delivery that throws, if any. */
  datatype Fault = NoFault | NameTaken | NotCurated | CannotPublish

  function SourceToken(pack: Pack): Instant {
    if pack.exploreAt.Some? then pack.exploreAt.value else pack.updatedAt
  }

  predicate ShouldReuse(pack: Pack) {
    || pack.status.Draft?
    || (pack.status.Published? && pack.origin == Some(Automatic) && EffectiveAudience(pack.audience).Selected?)
  }

  /** A trader's live packs that already stand for `sourceId` or its root. */
  function Candidates(packs: PackTable, trader: CompanyId, sourceId: PackId, rootId: PackId): set<PackId> {
    set c | c in packs && packs[c].company == trader && !packs[c].status.Archived?
            && (packs[c].root == Some(rootId) || packs[c].source == Some(sourceId) || packs[c].source == Some(rootId))
  }

  predicate Older(a: Pack, b: Pack) {
    var aAt := if a.exploreAt.Some? then a.exploreAt.value else a.createdAt;
    var bAt := if b.exploreAt.Some? then b.exploreAt.value else b.createdAt;
    aAt < bAt || (aAt == bAt && a.createdAt <= b.createdAt)
  }

  /** The oldest Published candidate; the oldest of all when none is Published. */
  predicate IsRootSurvivor(packs: PackTable, candidates: set<PackId>, s: PackId)
    requires candidates <= packs.Keys
  {
    && s in candidates
    && (packs[s].status.Published? || forall c :: c in candidates ==> !packs[c].status.Published?)
    && forall c :: c in candidates && (packs[s].status.Published? ==> packs[c].status.Published?) ==>
         Older(packs[s], packs[c])
  }

  lemma {:induction false} OldestExists(packs: PackTable, pool: set<PackId>) returns (s: PackId)
    requires pool <= packs.Keys && pool != {}
    ensures s in pool && forall c :: c in pool ==> Older(packs[s], packs[c])
  {
    s :| s in pool;
    var rest := pool - {s};
    if rest != {} {
      var t := OldestExists(packs, rest);
      if !Older(packs[s], packs[t]) {
        s := t;
      }
    }
  }

  lemma SurvivorExists(packs: PackTable, candidates: set<PackId>)
    requires candidates <= packs.Keys && candidates != {}
    ensures exists s :: s in candidates && IsRootSurvivor(packs, candidates, s)
  {
    var live := set c | c in candidates && packs[c].status.Published?;
    var s := OldestExists(packs, if live != {} then live else candidates);
    if live != {} {
      assert s in live;
    } else {
      assert forall c :: c in candidates ==> c !in live;
    }
    assert IsRootSurvivor(packs, candidates, s);
  }

  /** The Published ones of a pack's members, in position order. */
  function PublishedOf(productIds: seq<ProductId>, published: set<ProductId>): (r: seq<ProductId>)
    ensures Distinct(productIds) ==> Distinct(r)
    ensures forall x :: x in r <==> x in productIds && x in published
  {
    if productIds == [] then []
    else
      var front, last := productIds[..|productIds| - 1], productIds[|productIds| - 1];
      assert productIds == front + [last];
      if last in published then PublishedOf(front, published) + [last] else PublishedOf(front, published)
  }

  /** The Published members keep their order. */
  lemma {:induction false} PublishedOfConcat(a: seq<ProductId>, b: seq<ProductId>, published: set<ProductId>)
    ensures PublishedOf(a + b, published) == PublishedOf(a, published) + PublishedOf(b, published)
  {
    if b == [] {
      assert a + b == a;
    } else {
      PublishedOfConcat(a, b[..|b| - 1], published);
      assert (a + b)[..|a + b| - 1] == a + b[..|b| - 1];
    }
  }

  function DestOf(packs: PackTable, members: map<PackId, seq<ProductId>>, id: PackId): Sync.Dest
    requires id in packs && id in members
  {
    Sync.Dest(members[id], packs[id].syncedAt, packs[id].syncedIds)
  }

  lemma SyncedRowKeepsLineage(packs: PackTable, destId: PackId, sourceId: PackId, row: Pack)
    requires LineageOk(packs) && Enabled(packs, StampSynced(destId, sourceId, 0, []))
    requires SameIdentity(packs[destId].(root := Some(RootId(packs, sourceId))), row)
    ensures LineageOk(packs[destId := row])
  {
    var stamped := Apply(packs, StampSynced(destId, sourceId, 0, []));
    StepKeepsLineage(packs, StampSynced(destId, sourceId, 0, []));
    StepKeepsLineage(stamped, Touch(destId, row));
    assert stamped[destId := row] == packs[destId := row];
  }

  /** A failed delivery leaves at most a draft behind: no row is touched and none is published. */
  predicate NothingDelivered(before: PackTable, after: PackTable, freshId: PackId) {
    after - {freshId} == before - {freshId} && (freshId in after ==> !after[freshId].status.Published?)
  }

  /** Create, stamp, then publish or not: every table on the way keeps the invariant. */
  lemma DeliveryKeepsLineage(packs: PackTable, freshId: PackId, sourceId: PackId, trader: CompanyId,
                             sourceIds: seq<ProductId>, row: Pack, now: Instant)
    requires LineageOk(packs) && freshId !in packs
    requires sourceId in packs && packs[sourceId].status.Published? && packs[sourceId].company != trader
    requires !OnChain(packs, sourceId, trader)
    requires row.company == trader && row.source == Some(sourceId) && row.origin == Some(Automatic)
    requires row.root == Some(RootId(packs, sourceId))
    ensures LineageOk(packs[freshId := row])
    ensures EndsAt(packs[freshId := row], freshId, RootId(packs, sourceId))
  {
    var rootId, token := RootId(packs, sourceId), SourceToken(packs[sourceId]);
    var created := Apply(packs, Repost(freshId, trader, sourceId, Regular, now));
    StepKeepsLineage(packs, Repost(freshId, trader, sourceId, Regular, now));
    assert SameLinks(packs, created);
    RootIdIsStable(packs, created, sourceId);
    SameLinksSameCompanies(packs, created, sourceId, trader);
    var stamp := StampAutomatic(freshId, sourceId, rootId, token, sourceIds);
    StepKeepsLineage(created, stamp);
    var stamped := Apply(created, stamp);
    StepKeepsLineage(stamped, Touch(freshId, row));
    assert stamped[freshId := row] == packs[freshId := row];
    assert RowOk(packs[freshId := row], freshId);
  }

  lemma LastWriteWins(packs: PackTable, id: PackId, first: Pack, last: Pack)
    ensures packs[id := first][id := last] == packs[id := last]
  {
  }

  predicate CanUnionAutomaticSelected(pack: Pack) {
    pack.origin == Some(Automatic) && EffectiveAudience(pack.audience).Selected?
  }

  datatype CreateError = NotFound | OwnPost | AlreadyReposted | NameClash

  datatype Delivery = Nothing | Refreshed(dest: PackId) | Created(id: PackId) | Failed

  class RepostService {
    var packs: PackTable
    var members: map<PackId, seq<ProductId>>
    var published: set<ProductId>
    var queue: seq<PackId>

    ghost predicate Valid()
      reads this
    {
      && LineageOk(packs)
      && packs.Keys == members.Keys
      && forall p :: p in members ==> Distinct(members[p])
    }

    method ResolveRepostRootId(sourceId: PackId) returns (rootId: PackId)
      ensures rootId == RootId(packs, sourceId)
    {
      var current, seen := sourceId, {};
      for i := 0 to WALK_LIMIT
        invariant RootFrom(packs, sourceId, current, seen, WALK_LIMIT - i) == RootId(packs, sourceId)
      {
        if current in seen {
          return current;
        }
        if current !in packs {
          return sourceId;
        }
        if packs[current].root.Some? {
          return packs[current].root.value;
        }
        if packs[current].source.None? {
          return current;
        }
        seen := seen + {current};
        current := packs[current].source.value;
      }
      return current;
    }

    /** Decides whether a company owns any pack of the chain, also when the links form a cycle. */
    method CompanyOnSourceChain(sourceId: PackId, companyId: CompanyId) returns (found: bool)
      ensures found <==> OnChain(packs, sourceId, companyId)
    {
      var current, seen := Some(sourceId), {};
      ghost var k: nat := 0;
      assert SeenUpTo(packs, sourceId, 0) == {};
      while current.Some? && current.value !in seen
        invariant current == Hop(packs, sourceId, k)
        invariant seen == SeenUpTo(packs, sourceId, k) && seen <= packs.Keys
        invariant forall i: nat :: i < k ==> Hop(packs, sourceId, i).Some?
        invariant forall i: nat :: i < k ==> !OwnsHop(packs, sourceId, i, companyId)
        decreases packs.Keys - seen
      {
        var id := current.value;
        if id !in packs {
          assert Hop(packs, sourceId, k + 1).None?;
          current := None;
          seen := seen + {id};
          forall n: nat
            ensures !OwnsHop(packs, sourceId, n, companyId)
          {
            if n > k {
              HopPastEnd(packs, sourceId, k + 1, n);
            }
          }
          return false;
        }
        if packs[id].company == companyId {
          assert OwnsHop(packs, sourceId, k, companyId);
          return true;
        }
        assert SeenUpTo(packs, sourceId, k + 1) == SeenUpTo(packs, sourceId, k) + {id};
        seen := seen + {id};
        current := packs[id].source;
        k := k + 1;
      }
      forall n: nat
        ensures !OwnsHop(packs, sourceId, n, companyId)
      {
        if current.None? {
          if n >= k {
            HopPastEnd(packs, sourceId, k, n);
          }
        } else {
          LoopStaysSeen(packs, sourceId, k, n);
          var c := Hop(packs, sourceId, n);
          if c.Some? {
            var i: nat :| i < k && Hop(packs, sourceId, i) == c;
            assert !OwnsHop(packs, sourceId, i, companyId);
          }
        }
      }
      return false;
    }

    /** `create` with a repost source, and the manual lineage stamp that follows it. */
    method CreateRepost(companyId: CompanyId, sourceId: PackId, freshId: PackId, nameTaken: bool, now: Instant)
      returns (r: Result<PackId, CreateError>)
      requires Valid() && freshId !in packs
      modifies this
      ensures Valid()
      ensures var reposts := set c | c in old(packs) && old(packs)[c].company == companyId
                                     && old(packs)[c].source == Some(sourceId) && !old(packs)[c].status.Archived?;
              if sourceId !in old(packs) || !old(packs)[sourceId].status.Published? then r == Err(NotFound)
              else if old(packs)[sourceId].company == companyId then r == Err(OwnPost)
              else if reposts != {} then
                exists c :: c in reposts &&
                  var live := old(packs)[c];
                  if live.status.Draft? || (live.status.Published? && live.origin == Some(Automatic) && live.audience.Selected?)
                  then r == (if nameTaken then Err(NameClash) else Ok(c))
                  else r == Err(AlreadyReposted)
              else if nameTaken then r == Err(NameClash)
              else
                && r == Ok(freshId)
                && packs == old(packs)[freshId :=
                     Pack(companyId, Regular, Draft, Followers, [], true, None, now, now, Some(sourceId),
                          Some(RootId(old(packs), sourceId)), Some(Manual), None, [])]
                && members == old(members)[freshId := []]
      ensures !(r == Ok(freshId)) ==> unchanged(this)
      ensures published == old(published) && queue == old(queue)
    {
      if sourceId !in packs || !packs[sourceId].status.Published? {
        return Err(NotFound);
      }
      if packs[sourceId].company == companyId {
        return Err(OwnPost);
      }
      var reposts := set c | c in packs && packs[c].company == companyId
                             && packs[c].source == Some(sourceId) && !packs[c].status.Archived?;
      if reposts != {} {
        var existing :| existing in reposts;
        if !ShouldReuse(packs[existing]) {
          return Err(AlreadyReposted);
        }
        if nameTaken {
          return Err(NameClash);
        }
        return Ok(existing);
      }
      if nameTaken {
        return Err(NameClash);
      }
      AddRepost(companyId, sourceId, freshId, now);
      return Ok(freshId);
    }

    /** The new row, and then its lineage stamp. */
    method AddRepost(companyId: CompanyId, sourceId: PackId, freshId: PackId, now: Instant)
      requires Valid() && Enabled(packs, Repost(freshId, companyId, sourceId, Regular, now))
      modifies this
      ensures Valid() && published == old(published) && queue == old(queue)
      ensures packs == Apply(old(packs), Repost(freshId, companyId, sourceId, Regular, now))
      ensures packs == old(packs)[freshId :=
                Pack(companyId, Regular, Draft, Followers, [], true, None, now, now, Some(sourceId),
                     Some(RootId(old(packs), sourceId)), Some(Manual), None, [])]
      ensures members == old(members)[freshId := []]
    {
      StepKeepsLineage(packs, Repost(freshId, companyId, sourceId, Regular, now));
      ghost var before := packs;
      var row := NewPack(companyId, Regular, now).(source := Some(sourceId));
      packs := packs[freshId := row];
      members := members[freshId := []];
      var rootId := ResolveRepostRootId(sourceId);
      FreshPackKeepsRootFrom(before, freshId, row, sourceId, sourceId, {}, WALK_LIMIT);
      packs := packs[freshId := row.(root := Some(rootId), origin := Some(Manual))];
      LastWriteWins(before, freshId, row, row.(root := Some(rootId), origin := Some(Manual)));
    }

    method SyncMembership(sourceId: PackId, destId: PackId, curated: bool) returns (r: Result<bool, ()>)
      requires Valid() && sourceId in packs && destId in packs
      requires Enabled(packs, StampSynced(destId, sourceId, 0, []))
      modifies this
      ensures Valid()
      ensures var source, was := old(packs)[sourceId], old(packs)[destId];
              var token := if source.exploreAt.Some? then source.exploreAt.value else source.updatedAt;
              var sourceIds := PublishedOf(old(members)[sourceId], old(published));
              var dest := DestOf(old(packs), old(members), destId);
              var had, sent := Elems(old(members)[destId]), Elems(sourceIds);
              var changed := had != sent + (had - sent - Elems(was.syncedIds));
              var bump := changed && was.status.Published?;
              if Sync.Skips(dest, sourceIds, token) then r == Ok(false) && unchanged(this)
              else if changed && !curated then r.Err? && unchanged(this)
              else
                && r == Ok(bump)
                && members == old(members)[destId := Sync.Synced(dest, sourceIds, token).members]
                && DestOf(packs, members, destId) == Sync.Synced(dest, sourceIds, token)
                && packs == old(packs)[destId := was.(
                     root := Some(RootId(old(packs), sourceId)), syncedAt := Some(token), syncedIds := sourceIds,
                     exploreAt := if bump then Some(token) else was.exploreAt)]
                && queue == old(queue) + (if bump && !(sent <= had) then [destId] else [])
      ensures published == old(published)
    {
      var incoming := SourceToken(packs[sourceId]);
      var sourceIds := PublishedOf(members[sourceId], published);
      var dest := DestOf(packs, members, destId);
      var watermark := dest.syncedAt;
      var nextIds := Sync.NextIds(sourceIds, dest);
      var changed := Sync.MembershipChanged(nextIds, dest.members);
      Sync.ChangedExactly(sourceIds, dest);
      if watermark.Some? && incoming < watermark.value {
        return Ok(false);
      }
      if watermark.Some? && incoming == watermark.value && !changed {
        return Ok(false);
      }
      if !changed && watermark.Some? && incoming <= watermark.value {
        return Ok(false);
      }
      if changed && !curated {
        return Err(());
      }
      var bump := WriteSync(destId, sourceId, incoming, sourceIds, nextIds, changed);
      return Ok(bump);
    }

    /** `setProducts` when the members change, then the update of the synced row. */
    method WriteSync(destId: PackId, sourceId: PackId, incoming: Instant, sourceIds: seq<ProductId>,
                     nextIds: seq<ProductId>, changed: bool)
      returns (bump: bool)
      requires Valid() && Enabled(packs, StampSynced(destId, sourceId, 0, [])) && Distinct(nextIds)
      modifies this
      ensures Valid() && published == old(published)
      ensures bump <==> changed && old(packs)[destId].status.Published?
      ensures packs == old(packs)[destId := old(packs)[destId].(
                root := Some(RootId(old(packs), sourceId)), syncedAt := Some(incoming), syncedIds := sourceIds,
                exploreAt := if bump then Some(incoming) else old(packs)[destId].exploreAt)]
      ensures members == if changed then old(members)[destId := nextIds] else old(members)
      ensures queue == old(queue) + (if bump && !(Elems(sourceIds) <= Elems(old(members)[destId])) then [destId] else [])
    {
      bump := changed && packs[destId].status.Published?;
      if changed {
        if packs[destId].status.Published? && exists x :: x in sourceIds && x !in members[destId] {
          queue := queue + [destId];
        }
        members := members[destId := nextIds];
      }
      var rootId := ResolveRepostRootId(sourceId);
      var row := packs[destId].(
        root := Some(rootId), syncedAt := Some(incoming), syncedIds := sourceIds,
        exploreAt := if bump then Some(incoming) else packs[destId].exploreAt);
      SyncedRowKeepsLineage(packs, destId, sourceId, row);
      packs := packs[destId := row];
    }

    method SyncSelectedBuyers(destId: PackId, buyers: seq<CompanyId>)
      requires Valid() && destId in packs
      modifies this
      ensures Valid() && packs.Keys == old(packs).Keys
      ensures packs == old(packs)[destId := old(packs)[destId].(audienceIds := packs[destId].audienceIds)]
      ensures if old(packs)[destId].origin == Some(Automatic) && old(packs)[destId].audience.Selected?
              then Elems(packs[destId].audienceIds) - {""} ==
                   Elems(old(packs)[destId].audienceIds) + Elems(buyers) - {""}
              else packs == old(packs)
      ensures members == old(members) && published == old(published) && queue == old(queue)
    {
      if buyers == [] || !CanUnionAutomaticSelected(packs[destId]) {
        return;
      }
      var had := packs[destId].audienceIds;
      var next := Unique(NonEmpty(had + buyers));
      if |next| == |had| && forall b :: b in next ==> b in had {
        assert forall b :: b in buyers && b != "" ==> b in next;
        return;
      }
      var row := packs[destId].(audienceIds := next);
      StepKeepsLineage(packs, Touch(destId, row));
      packs := packs[destId := row];
    }

    /**
     * One delivery: nothing, a refresh of the trader's oldest live repost, or a new published row shown to the
     * buyers of the trader's lanes and to nobody else.
     */
    method DeliverToTrader(sourceId: PackId, trader: CompanyId, relation: Relation, fault: Fault, freshId: PackId,
                           now: Instant)
      returns (d: Delivery)
      requires Valid() && sourceId in packs && packs[sourceId].status.Published? && freshId !in packs
      modifies this
      ensures Valid() && published == old(published)
      ensures var source, rootId := old(packs)[sourceId], RootId(old(packs), sourceId);
              var live := set c | c in old(packs) && old(packs)[c].company == trader && !old(packs)[c].status.Archived?
                                  && (old(packs)[c].root == Some(rootId) || old(packs)[c].source == Some(sourceId)
                                      || old(packs)[c].source == Some(rootId));
              && (d == Nothing <==>
                    || trader == source.company || OnChain(old(packs), sourceId, trader)
                    || !source.allowForward || !relation.followAllowed || !relation.hasOwner
                    || (source.audience.Selected? <==> trader !in source.audienceIds)
                    || (forall l :: l in relation.lanes ==> l.buyer in {"", trader, source.company})
                    || (live == {} && forall l :: l in relation.lanes ==> source.createdAt <= l.createdAt))
              && (d != Nothing && live != {} ==>
                    || (d == Failed && fault.NotCurated? && unchanged(this))
                    || (d.Refreshed? && d.dest in live && forall c :: c in live ==>
                          var a, b := old(packs)[d.dest], old(packs)[c];
                          var aAt := if a.exploreAt.Some? then a.exploreAt.value else a.createdAt;
                          var bAt := if b.exploreAt.Some? then b.exploreAt.value else b.createdAt;
                          && (b.status.Published? ==> a.status.Published?)
                          && (|| (a.status.Published? && !b.status.Published?)
                              || aAt < bAt || (aAt == bAt && a.createdAt <= b.createdAt))))
              && (d != Nothing && live == {} ==>
                    d == if fault.NoFault? && PublishedOf(old(members)[sourceId], published) != [] then Created(freshId)
                         else Failed)
      ensures d == Nothing ==> unchanged(this)
      ensures d == Failed ==> packs - {freshId} == old(packs) && (freshId in packs ==> !packs[freshId].status.Published?)
      ensures d.Refreshed? ==> d.dest in old(packs) && d.dest in packs && d.dest in members
      ensures d.Refreshed? ==>
                var source, was, row := old(packs)[sourceId], old(packs)[d.dest], packs[d.dest];
                && DestOf(packs, members, d.dest) ==
                   Sync.Synced(DestOf(old(packs), old(members), d.dest), PublishedOf(old(members)[sourceId], published),
                               if source.exploreAt.Some? then source.exploreAt.value else source.updatedAt)
                && (if was.origin == Some(Automatic) && was.audience.Selected? then
                      Elems(row.audienceIds) - {""} ==
                      Elems(was.audienceIds) + Elems(Buyers(relation.lanes, trader, source.company)) - {""}
                    else row.audienceIds == was.audienceIds)
                && packs == old(packs)[d.dest := row]
                && row == was.(root := row.root, syncedAt := row.syncedAt, syncedIds := row.syncedIds,
                               exploreAt := row.exploreAt, audienceIds := row.audienceIds)
                && members == old(members)[d.dest := members[d.dest]]
      ensures d.Created? ==> freshId in packs
      ensures d.Created? ==>
                var source, row := old(packs)[sourceId], packs[freshId];
                && packs == old(packs)[freshId := row]
                && members == old(members)[freshId := PublishedOf(old(members)[sourceId], published)]
                && queue == old(queue) + [freshId]
                && row.company == trader && row.status.Published? && row.audience.Selected? && row.kind.Regular?
                && (forall b :: b in row.audienceIds <==>
                      && b != "" && b != trader && b != source.company
                      && exists l :: l in relation.lanes && l.buyer == b)
                && row.allowForward == source.allowForward
                && row.exploreAt == Some(now) && row.createdAt == now
                && row.source == Some(sourceId) && row.origin == Some(Automatic)
                && row.root.Some? && EndsAt(packs, freshId, row.root.value)
                && row.syncedIds == members[freshId]
                && row.syncedAt == Some(if source.exploreAt.Some? then source.exploreAt.value else source.updatedAt)
    {
      var source := packs[sourceId];
      if trader == source.company {
        return Nothing;
      }
      var onChain := CompanyOnSourceChain(sourceId, trader);
      if onChain || !source.allowForward || !relation.followAllowed || !FollowerDiscovers(trader, source) {
        return Nothing;
      }
      var buyers := Buyers(relation.lanes, trader, source.company);
      NoBuyers(relation.lanes, trader, source.company);
      if buyers == [] {
        return Nothing;
      }
      var rootId := ResolveRepostRootId(sourceId);
      var candidates := Candidates(packs, trader, sourceId, rootId);
      if !relation.hasOwner {
        return Nothing;
      }
      if candidates != {} {
        var survivor := PickRootSurvivor(candidates);
        d := Refresh(sourceId, survivor, buyers, fault);
        return d;
      }
      if source.createdAt <= EarliestLane(relation.lanes) {
        return Nothing;
      }
      d := DeliverNew(sourceId, trader, buyers, fault, freshId, rootId, now);
    }

    /** An oldest Published pack, or an oldest one when none is Published. */
    method PickRootSurvivor(candidates: set<PackId>) returns (survivor: PackId)
      requires candidates != {} && candidates <= packs.Keys
      ensures survivor in candidates
      ensures forall c :: c in candidates ==>
                var a, b := packs[survivor], packs[c];
                var aAt := if a.exploreAt.Some? then a.exploreAt.value else a.createdAt;
                var bAt := if b.exploreAt.Some? then b.exploreAt.value else b.createdAt;
                && (b.status.Published? ==> a.status.Published?)
                && (|| (a.status.Published? && !b.status.Published?)
                    || aAt < bAt || (aAt == bAt && a.createdAt <= b.createdAt))
    {
      SurvivorExists(packs, candidates);
      survivor :| survivor in candidates && IsRootSurvivor(packs, candidates, survivor);
    }

    method Refresh(sourceId: PackId, survivor: PackId, buyers: seq<CompanyId>, fault: Fault) returns (d: Delivery)
      requires Valid() && sourceId in packs && survivor in packs
      requires Enabled(packs, StampSynced(survivor, sourceId, 0, []))
      modifies this
      ensures Valid()
      ensures d == Failed || d == Refreshed(survivor)
      ensures d == Failed ==> fault.NotCurated? && unchanged(this)
      ensures survivor in packs && survivor in members
      ensures members == old(members)[survivor := members[survivor]] && published == old(published)
      ensures d == Refreshed(survivor) ==>
                var source, was, row := old(packs)[sourceId], old(packs)[survivor], packs[survivor];
                var token := if source.exploreAt.Some? then source.exploreAt.value else source.updatedAt;
                var sourceIds := PublishedOf(old(members)[sourceId], old(published));
                var dest := DestOf(old(packs), old(members), survivor);
                var skipped := Sync.Skips(dest, sourceIds, token);
                var had, sent := Elems(old(members)[survivor]), Elems(sourceIds);
                var bump := !skipped && had != sent + (had - sent - Elems(was.syncedIds)) && was.status.Published?;
                && DestOf(packs, members, survivor) == Sync.Synced(dest, sourceIds, token)
                && packs == old(packs)[survivor := row]
                && row == was.(root := if skipped then was.root else Some(RootId(old(packs), sourceId)),
                               syncedAt := row.syncedAt, syncedIds := row.syncedIds, audienceIds := row.audienceIds,
                               exploreAt := if bump then Some(token) else was.exploreAt)
                && (if was.origin == Some(Automatic) && was.audience.Selected? then
                      Elems(row.audienceIds) - {""} == Elems(was.audienceIds) + Elems(buyers) - {""}
                    else row.audienceIds == was.audienceIds)
                && queue == old(queue)
                            + (if bump && !(sent <= had) then [survivor] else [])
                            + (if bump then [survivor] else [])
    {
      var changed := SyncMembership(sourceId, survivor, !fault.NotCurated?);
      if changed.Err? {
        return Failed;
      }
      ghost var synced := packs[survivor];
      assert packs == old(packs)[survivor := synced];
      SyncSelectedBuyers(survivor, buyers);
      LastWriteWins(old(packs), survivor, synced, packs[survivor]);
      if changed.value {
        queue := queue + [survivor];
      }
      return Refreshed(survivor);
    }

    /** `create` for a trader without a live repost: a fresh row, or nothing. */
    method CreateFirstRepost(sourceId: PackId, trader: CompanyId, freshId: PackId, rootId: PackId, nameTaken: bool,
                             now: Instant)
      returns (ok: bool)
      requires Valid() && sourceId in packs && packs[sourceId].status.Published? && freshId !in packs
      requires packs[sourceId].company != trader && Candidates(packs, trader, sourceId, rootId) == {}
      modifies this
      ensures Valid() && published == old(published) && queue == old(queue)
      ensures ok <==> !nameTaken
      ensures !ok ==> unchanged(this)
      ensures ok ==> packs == Apply(old(packs), Repost(freshId, trader, sourceId, Regular, now))
      ensures ok ==> members == old(members)[freshId := []]
    {
      forall c | c in packs && packs[c].company == trader && packs[c].source == Some(sourceId)
        ensures packs[c].status.Archived?
      {
        assert c !in Candidates(packs, trader, sourceId, rootId);
      }
      var created := CreateRepost(trader, sourceId, freshId, nameTaken, now);
      ok := created.Ok?;
    }

    /** `create`, `setProducts`, the lineage stamp and `publish`, any of which may throw and leave the rest undone. */
    method DeliverNew(sourceId: PackId, trader: CompanyId, buyers: seq<CompanyId>, fault: Fault, freshId: PackId,
                      rootId: PackId, now: Instant)
      returns (d: Delivery)
      requires Valid() && sourceId in packs && packs[sourceId].status.Published? && freshId !in packs
      requires packs[sourceId].company != trader && !OnChain(packs, sourceId, trader)
      requires rootId == RootId(packs, sourceId)
      requires Candidates(packs, trader, sourceId, rootId) == {}
      modifies this
      ensures Valid() && published == old(published)
      ensures d == Failed || d == Created(freshId)
      ensures d == Failed <==> !fault.NoFault? || PublishedOf(old(members)[sourceId], old(published)) == []
      ensures d == Failed ==> NothingDelivered(old(packs), packs, freshId)
      ensures d == Created(freshId) ==>
                var sourceIds := PublishedOf(old(members)[sourceId], old(published));
                && sourceIds != []
                && packs == old(packs)[freshId :=
                     Pack(trader, Regular, Status.Published, Selected, buyers, old(packs)[sourceId].allowForward,
                          Some(now), now, now, Some(sourceId), Some(rootId), Some(Automatic),
                          Some(SourceToken(old(packs)[sourceId])), sourceIds)]
                && members == old(members)[freshId := sourceIds] && queue == old(queue) + [freshId]
                && EndsAt(packs, freshId, rootId)
    {
      var filled, sourceIds := CreateAndFill(sourceId, trader, fault, freshId, rootId, now);
      if !filled {
        return Failed;
      }
      var live := StampAndPublish(old(packs), sourceId, trader, buyers, fault.CannotPublish?, freshId, rootId, sourceIds, now);
      d := if live then Created(freshId) else Failed;
    }

    /** `create` and `setProducts`: a draft with the source's published designs. */
    method CreateAndFill(sourceId: PackId, trader: CompanyId, fault: Fault, freshId: PackId, rootId: PackId, now: Instant)
      returns (ok: bool, sourceIds: seq<ProductId>)
      requires Valid() && sourceId in packs && packs[sourceId].status.Published? && freshId !in packs
      requires packs[sourceId].company != trader && Candidates(packs, trader, sourceId, rootId) == {}
      modifies this
      ensures Valid() && published == old(published) && queue == old(queue)
      ensures ok <==> !fault.NameTaken? && !(fault.NotCurated? && PublishedOf(old(members)[sourceId], old(published)) != [])
      ensures !ok ==> NothingDelivered(old(packs), packs, freshId)
      ensures ok ==>
                && sourceIds == PublishedOf(old(members)[sourceId], old(published))
                && packs == Apply(old(packs), Repost(freshId, trader, sourceId, Regular, now))
                && members == old(members)[freshId := sourceIds]
    {
      sourceIds := [];
      var created := CreateFirstRepost(sourceId, trader, freshId, rootId, fault.NameTaken?, now);
      if !created {
        return false, [];
      }
      sourceIds := PublishedOf(members[sourceId], published);
      if sourceIds != [] {
        if fault.NotCurated? {
          return false, sourceIds;
        }
        members := members[freshId := sourceIds];
      }
      return true, sourceIds;
    }

    /** The lineage stamp on the new row, then `publish` unless it throws or finds the pack empty. */
    method StampAndPublish(ghost before: PackTable, sourceId: PackId, trader: CompanyId, buyers: seq<CompanyId>,
                           cannotPublish: bool, freshId: PackId, rootId: PackId, sourceIds: seq<ProductId>, now: Instant)
      returns (live: bool)
      requires LineageOk(before) && freshId !in before && rootId == RootId(before, sourceId)
      requires sourceId in before && before[sourceId].status.Published? && before[sourceId].company != trader
      requires !OnChain(before, sourceId, trader)
      requires packs == Apply(before, Repost(freshId, trader, sourceId, Regular, now))
      requires packs.Keys == members.Keys && forall p :: p in members ==> Distinct(members[p])
      modifies this
      ensures Valid() && members == old(members) && published == old(published)
      ensures live <==> !cannotPublish && old(members)[freshId] != []
      ensures !live ==> NothingDelivered(before, packs, freshId)
      ensures live ==>
                && EndsAt(packs, freshId, rootId)
                && packs == before[freshId :=
                     Pack(trader, Regular, Status.Published, Selected, buyers, before[sourceId].allowForward,
                          Some(now), now, now, Some(sourceId), Some(rootId), Some(Automatic),
                          Some(SourceToken(before[sourceId])), sourceIds)]
                && queue == old(queue) + [freshId]
    {
      var source, row := packs[sourceId], packs[freshId];
      var stamped := row.(root := Some(rootId), origin := Some(Automatic), syncedAt := Some(SourceToken(source)),
                          syncedIds := sourceIds);
      packs := packs[freshId := stamped];
      LastWriteWins(before, freshId, row, stamped);
      DeliveryKeepsLineage(before, freshId, sourceId, trader, sourceIds, stamped, now);
      if cannotPublish || members[freshId] == [] {
        return false;
      }
      var shown := stamped.(status := Status.Published, audience := Selected, audienceIds := buyers,
                            allowForward := source.allowForward, exploreAt := Some(now));
      packs := packs[freshId := shown];
      LastWriteWins(before, freshId, stamped, shown);
      DeliveryKeepsLineage(before, freshId, sourceId, trader, sourceIds, shown, now);
      queue := queue + [freshId];
      return true;
    }
  }
}
