/** The three-way merge that keeps a reposted pack's members in step with its source. */
module MembershipSync {
  import opened Common
  import opened Packs

  /** The reposted pack: its members, the last source token applied and the source members applied with it. */
  datatype Dest = Dest(members: seq<ProductId>, syncedAt: Option<Instant>, syncedIds: seq<ProductId>)

  function Extras(sourceIds: seq<ProductId>, members: seq<ProductId>, previous: seq<ProductId>): (r: seq<ProductId>)
    ensures Elems(r) == Elems(members) - Elems(sourceIds) - Elems(previous)
  {
    if members == [] then []
    else
      var rest := Extras(sourceIds, members[1..], previous);
      if members[0] in sourceIds || members[0] in previous then rest else [members[0]] + rest
  }

  function NextIds(sourceIds: seq<ProductId>, dest: Dest): (r: seq<ProductId>)
    ensures Distinct(r)
  {
    Unique(sourceIds + Extras(sourceIds, dest.members, dest.syncedIds))
  }

  /** `nextIds.length !== destIds.length || nextIds.some((id) => !destIds.includes(id))` */
  predicate MembershipChanged(next: seq<ProductId>, members: seq<ProductId>) {
    |next| != |members| || exists id :: id in next && id !in members
  }

  predicate Skips(dest: Dest, sourceIds: seq<ProductId>, token: Instant) {
    var changed := MembershipChanged(NextIds(sourceIds, dest), dest.members);
    && dest.syncedAt.Some?
    && (token < dest.syncedAt.value || (token == dest.syncedAt.value && !changed)
        || (!changed && token <= dest.syncedAt.value))
  }

  function Synced(dest: Dest, sourceIds: seq<ProductId>, token: Instant): Dest {
    var next := NextIds(sourceIds, dest);
    if Skips(dest, sourceIds, token) then dest
    else Dest(if MembershipChanged(next, dest.members) then next else dest.members, Some(token), sourceIds)
  }

  /** The length-and-inclusion test decides whether the two member sets differ. */
  lemma ChangedMeansSetsDiffer(next: seq<ProductId>, members: seq<ProductId>)
    requires Distinct(next) && Distinct(members)
    ensures MembershipChanged(next, members) <==> Elems(next) != Elems(members)
  {
    DistinctCardinality(next);
    DistinctCardinality(members);
    if !MembershipChanged(next, members) {
      assert |Elems(members) - Elems(next)| == |Elems(members)| - |Elems(next)|;
    }
  }

  lemma NextIdsMembers(sourceIds: seq<ProductId>, dest: Dest)
    ensures Elems(NextIds(sourceIds, dest)) ==
            Elems(sourceIds) + (Elems(dest.members) - Elems(sourceIds) - Elems(dest.syncedIds))
  {
  }

  lemma ChangedExactly(sourceIds: seq<ProductId>, dest: Dest)
    requires Distinct(dest.members)
    ensures var had, sent := Elems(dest.members), Elems(sourceIds);
            MembershipChanged(NextIds(sourceIds, dest), dest.members) <==>
            had != sent + (had - sent - Elems(dest.syncedIds))
  {
    NextIdsMembers(sourceIds, dest);
    ChangedMeansSetsDiffer(NextIds(sourceIds, dest), dest.members);
  }

  /** An applied sync carries the source, drops what the source withdrew and keeps what it never sent. */
  lemma SyncedMembers(dest: Dest, sourceIds: seq<ProductId>, token: Instant)
    requires Distinct(dest.members)
    ensures Distinct(Synced(dest, sourceIds, token).members)
    ensures !Skips(dest, sourceIds, token) ==>
              Elems(Synced(dest, sourceIds, token).members) ==
              Elems(sourceIds) + (Elems(dest.members) - Elems(sourceIds) - Elems(dest.syncedIds))
  {
    NextIdsMembers(sourceIds, dest);
    ChangedMeansSetsDiffer(NextIds(sourceIds, dest), dest.members);
  }

  /**
   * An applied sync remembers the source's token and designs; when it adds or drops a design, the source's designs
   * come first and in their order, and otherwise the list stays as it was.
   */
  lemma SyncedOrder(dest: Dest, sourceIds: seq<ProductId>, token: Instant)
    requires Distinct(dest.members) && Distinct(sourceIds)
    ensures var after := Synced(dest, sourceIds, token);
            if Skips(dest, sourceIds, token) then after == dest
            else
              && after.syncedAt == Some(token) && after.syncedIds == sourceIds
              && if Elems(after.members) == Elems(dest.members) then after.members == dest.members
                 else sourceIds <= after.members
  {
    SyncedMembers(dest, sourceIds, token);
    ChangedMeansSetsDiffer(NextIds(sourceIds, dest), dest.members);
    UniqueOfLonger(sourceIds, Extras(sourceIds, dest.members, dest.syncedIds));
    UniqueOfDistinct(sourceIds);
  }

  /** Exactly when a sync is skipped: an older token, or the same token with nothing to change. */
  lemma SkippedExactly(dest: Dest, sourceIds: seq<ProductId>, token: Instant)
    requires Distinct(dest.members)
    ensures Skips(dest, sourceIds, token) <==>
            && dest.syncedAt.Some?
            && (|| token < dest.syncedAt.value
                || (&& token == dest.syncedAt.value
                    && Elems(sourceIds) <= Elems(dest.members)
                    && Elems(dest.members) * Elems(dest.syncedIds) <= Elems(sourceIds)))
  {
    NextIdsMembers(sourceIds, dest);
    ChangedMeansSetsDiffer(NextIds(sourceIds, dest), dest.members);
  }

  lemma SyncTwiceIsOnce(dest: Dest, sourceIds: seq<ProductId>, token: Instant)
    requires Distinct(dest.members)
    ensures Synced(Synced(dest, sourceIds, token), sourceIds, token) == Synced(dest, sourceIds, token)
  {
    var once := Synced(dest, sourceIds, token);
    SyncedMembers(dest, sourceIds, token);
    if !Skips(dest, sourceIds, token) {
      SkippedExactly(once, sourceIds, token);
    }
  }

  /** One pack's history: syncs from its source and edits by its owner. */
  datatype Event = Sync(sourceIds: seq<ProductId>, token: Instant) | Edit(productIds: seq<ProductId>)

  function Apply(dest: Dest, e: Event): Dest {
    match e
    case Sync(sourceIds, token) => Synced(dest, sourceIds, token)
    case Edit(productIds) => dest.(members := Unique(productIds))
  }

  function Run(dest: Dest, events: seq<Event>): Dest {
    if events == [] then dest else Apply(Run(dest, events[..|events| - 1]), events[|events| - 1])
  }

  lemma {:induction false} RunKeepsDistinct(dest: Dest, events: seq<Event>)
    requires Distinct(dest.members)
    ensures Distinct(Run(dest, events).members)
  {
    if events != [] {
      var before := Run(dest, events[..|events| - 1]);
      RunKeepsDistinct(dest, events[..|events| - 1]);
      match events[|events| - 1]
      case Sync(sourceIds, token) => SyncedMembers(before, sourceIds, token);
      case Edit(_) =>
    }
  }

  /** The watermark never goes back, from any point of a run to any later one. */
  lemma {:induction false} WatermarkNeverGoesBack(dest: Dest, events: seq<Event>, k: nat)
    requires k <= |events|
    ensures var earlier, later := Run(dest, events[..k]).syncedAt, Run(dest, events).syncedAt;
            earlier.Some? ==> later.Some? && earlier.value <= later.value
  {
    if k < |events| {
      var front := events[..|events| - 1];
      WatermarkNeverGoesBack(dest, front, k);
      assert front[..k] == events[..k];
    } else {
      assert events[..k] == events;
    }
  }

  /** The source does not carry `x`, and the owner does not take it out. */
  predicate LeavesAlone(e: Event, x: ProductId) {
    match e
    case Sync(sourceIds, _) => x !in sourceIds
    case Edit(productIds) => x in productIds
  }

  /** A hand-added design that the source never carries is never lost, whatever is synced around it. */
  lemma {:induction false} HandAddedIsNeverLost(dest: Dest, events: seq<Event>, x: ProductId)
    requires Distinct(dest.members)
    requires x in dest.members && x !in dest.syncedIds
    requires forall e :: e in events ==> LeavesAlone(e, x)
    ensures x in Run(dest, events).members && x !in Run(dest, events).syncedIds
  {
    if events != [] {
      var front, last := events[..|events| - 1], events[|events| - 1];
      assert events == front + [last];
      HandAddedIsNeverLost(dest, front, x);
      assert LeavesAlone(last, x);
      RunKeepsDistinct(dest, front);
      match last
      case Sync(sourceIds, token) =>
        SyncedMembers(Run(dest, front), sourceIds, token);
        assert x in Elems(Run(dest, events).members);
      case Edit(_) =>
    }
  }

  /** The sources of the syncs of a run that were not skipped, oldest first. */
  function Applied(dest: Dest, events: seq<Event>): seq<seq<ProductId>> {
    if events == [] then []
    else
      var front, last := events[..|events| - 1], events[|events| - 1];
      if last.Sync? && !Skips(Run(dest, front), last.sourceIds, last.token)
      then Applied(dest, front) + [last.sourceIds]
      else Applied(dest, front)
  }

  function Carried(sources: seq<seq<ProductId>>): set<ProductId> {
    set s, x | s in sources && x in s :: x
  }

  lemma CarriedOfOneMore(applied: seq<seq<ProductId>>, last: seq<ProductId>)
    ensures Carried(applied + [last]) == Carried(applied) + Elems(last)
    ensures if applied == [] then Carried(applied) == {} else Elems(applied[|applied| - 1]) <= Carried(applied)
  {
  }

  /**
   * Any run without owner edits, in closed form: the snapshot is the last source applied, and the members are
   * that source plus the original members no applied source and no original snapshot ever carried.
   */
  lemma {:induction false} MembersAfterAnyRun(dest: Dest, events: seq<Event>)
    requires Distinct(dest.members)
    requires forall e :: e in events ==> e.Sync?
    ensures var applied, after := Applied(dest, events), Run(dest, events);
            if applied == [] then after == dest
            else
              && after.syncedIds == applied[|applied| - 1]
              && Elems(after.members) ==
                 Elems(applied[|applied| - 1]) + (Elems(dest.members) - Elems(dest.syncedIds) - Carried(applied))
  {
    if events != [] {
      var front, last := events[..|events| - 1], events[|events| - 1];
      assert events == front + [last];
      MembersAfterAnyRun(dest, front);
      RunKeepsDistinct(dest, front);
      var before, applied := Run(dest, front), Applied(dest, front);
      SyncedMembers(before, last.sourceIds, last.token);
      CarriedOfOneMore(applied, last.sourceIds);
    }
  }
}
