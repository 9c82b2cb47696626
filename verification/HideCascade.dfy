/** The job cascade that hides a withdrawn pack's reposts, hop by hop. */
module HideCascade {
  import opened Common
  import opened Packs

  /** What a hidden pack becomes. */
  function Hide(pack: Pack): Pack {
    pack.(status := Draft, exploreAt := None)
  }

  /** Published packs whose source is `id`. */
  function Children(packs: PackTable, id: PackId): set<PackId> {
    set c | c in packs && packs[c].source == Some(id) && packs[c].status.Published?
  }

  function HideChildren(packs: PackTable, id: PackId): PackTable {
    map p | p in packs :: if p in Children(packs, id) then Hide(packs[p]) else packs[p]
  }

  /** Every queued job is for a pack that is unknown, General or not Published. */
  ghost predicate OnlyHidingJobs(packs: PackTable, queue: seq<PackId>) {
    forall q :: q in queue && q in packs && !packs[q].kind.General? ==> !packs[q].status.Published?
  }

  function PublishedIds(packs: PackTable): set<PackId> {
    set p | p in packs && packs[p].status.Published?
  }

  /** The queued jobs that hide something: known packs, not General, not Published. */
  function Roots(packs: PackTable, queue: seq<PackId>): set<PackId> {
    set q | q in queue && q in packs && !packs[q].kind.General? && !packs[q].status.Published?
  }

  /**
   * `p` is Published and hangs from a root by source links with exactly `between` packs between
   * them, each of them Published and none of them General (a General pack's job does nothing).
   */
  ghost predicate Hangs(packs: PackTable, roots: set<PackId>, p: PackId, between: nat)
    decreases between
  {
    && p in packs && packs[p].status.Published? && packs[p].source.Some?
    && var parent := packs[p].source.value;
    && if between == 0 then parent in roots
       else parent in packs && !packs[parent].kind.General? && Hangs(packs, roots, parent, between - 1)
  }

  ghost predicate Doomed(packs: PackTable, roots: set<PackId>, p: PackId) {
    exists between: nat :: Hangs(packs, roots, p, between)
  }

  ghost function DoomedIds(packs: PackTable, roots: set<PackId>): set<PackId> {
    set p | p in packs && Doomed(packs, roots, p)
  }

  /** The table after the cascade: every doomed pack hidden, every other row untouched. */
  ghost function Cascaded(packs: PackTable, roots: set<PackId>): PackTable {
    map p | p in packs :: if Doomed(packs, roots, p) then Hide(packs[p]) else packs[p]
  }

  /** What holds between two jobs of a cascade that began with table `start` and hiding jobs `roots`. */
  ghost predicate Midway(start: PackTable, roots: set<PackId>, packs: PackTable, queue: seq<PackId>) {
    && (forall r :: r in roots ==> r in start && !start[r].kind.General? && !start[r].status.Published?)
    && OnlyDoomedHidden(start, roots, packs)
    && QueueIsDoomed(start, roots, packs, queue)
    && SpreadIsQueued(start, roots, packs, queue)
  }

  /** A pack is as it was, or doomed and hidden. */
  ghost predicate OnlyDoomedHidden(start: PackTable, roots: set<PackId>, packs: PackTable) {
    && packs.Keys == start.Keys
    && forall p :: p in packs ==> packs[p] == start[p] || (Doomed(start, roots, p) && packs[p] == Hide(start[p]))
  }

  /** A queued job belongs to a root or to a pack already hidden. */
  ghost predicate QueueIsDoomed(start: PackTable, roots: set<PackId>, packs: PackTable, queue: seq<PackId>)
    requires packs.Keys == start.Keys
  {
    forall q :: q in queue && q in packs && !packs[q].kind.General? ==>
      q in roots || (Doomed(start, roots, q) && packs[q] == Hide(start[q]))
  }

  /** A hidden pack whose job is done has no published child left. */
  ghost predicate SpreadIsQueued(start: PackTable, roots: set<PackId>, packs: PackTable, queue: seq<PackId>) {
    forall p :: p in packs && p !in queue && Spreads(start, roots, packs, p) ==> Children(packs, p) == {}
  }

  /** A pack whose own job has been queued at some point of the cascade. */
  ghost predicate Spreads(start: PackTable, roots: set<PackId>, packs: PackTable, p: PackId)
    requires p in packs
  {
    && !packs[p].kind.General?
    && (p in roots || (p in start && start[p].status.Published? && !packs[p].status.Published?))
  }

  lemma ChildIsDoomed(start: PackTable, roots: set<PackId>, q: PackId, c: PackId)
    requires c in start && start[c].source == Some(q) && start[c].status.Published?
    requires q in roots || (q in start && !start[q].kind.General? && Doomed(start, roots, q))
    ensures Doomed(start, roots, c)
  {
    if q in roots {
      assert Hangs(start, roots, c, 0);
    } else {
      var between: nat :| Hangs(start, roots, q, between);
      assert Hangs(start, roots, c, between + 1);
    }
  }

  lemma ChildrenLeavePublished(packs: PackTable, id: PackId)
    ensures |PublishedIds(HideChildren(packs, id))| == |PublishedIds(packs)| - |Children(packs, id)|
  {
    assert PublishedIds(HideChildren(packs, id)) == PublishedIds(packs) - Children(packs, id);
  }

  lemma HidingJobLowersMeasure(packs: PackTable, queue: seq<PackId>, k: nat, added: seq<PackId>)
    requires k < |queue| && |added| == |Children(packs, queue[k])|
    ensures |PublishedIds(HideChildren(packs, queue[k]))| + |queue[..k] + queue[k + 1..] + added| ==
            |PublishedIds(packs)| + |queue| - 1
  {
    ChildrenLeavePublished(packs, queue[k]);
  }

  lemma OneMoreJob(children: set<PackId>, pending: set<PackId>, added: seq<PackId>, child: PackId)
    requires child in pending && pending <= children
    requires |added| == |children - pending| && Elems(added) == children - pending
    ensures var left := pending - {child};
            |added + [child]| == |children - left| && Elems(added + [child]) == children - left
  {
  }

  /** Dropping a job that does nothing keeps the invariant. */
  lemma IdleJobKeepsMidway(start: PackTable, roots: set<PackId>, packs: PackTable, queue: seq<PackId>, k: nat)
    requires Midway(start, roots, packs, queue) && OnlyHidingJobs(packs, queue)
    requires k < |queue| && (queue[k] !in packs || packs[queue[k]].kind.General?)
    ensures Midway(start, roots, packs, queue[..k] + queue[k + 1..])
    ensures OnlyHidingJobs(packs, queue[..k] + queue[k + 1..])
  {
  }

  /** A hiding job keeps the invariant: its children are doomed and their own jobs are queued. */
  lemma HidingJobKeepsMidway(start: PackTable, roots: set<PackId>, packs: PackTable, queue: seq<PackId>, k: nat,
                             added: seq<PackId>)
    requires Midway(start, roots, packs, queue) && OnlyHidingJobs(packs, queue)
    requires k < |queue| && queue[k] in packs && !packs[queue[k]].kind.General?
    requires Elems(added) == Children(packs, queue[k])
    ensures Midway(start, roots, HideChildren(packs, queue[k]), queue[..k] + queue[k + 1..] + added)
    ensures OnlyHidingJobs(HideChildren(packs, queue[k]), queue[..k] + queue[k + 1..] + added)
  {
    var id := queue[k];
    var children := Children(packs, id);
    var packs', queue' := HideChildren(packs, id), queue[..k] + queue[k + 1..] + added;
    assert forall q :: q in queue' ==> q in queue || q in children;
    assert forall q :: q in queue || q in children ==> q in queue' || q == id;
    forall c | c in children
      ensures packs[c] == start[c] && Doomed(start, roots, c)
    {
      ChildIsDoomed(start, roots, id, c);
    }
    HidingKeepsSpread(start, roots, packs, queue, id, queue');
  }

  /** What a hiding job leaves: the invariant, and one less on the measure. */
  lemma AfterHidingJob(start: PackTable, roots: set<PackId>, packs: PackTable, queue: seq<PackId>, k: nat,
                       packs': PackTable, queue': seq<PackId>)
    requires Midway(start, roots, packs, queue) && OnlyHidingJobs(packs, queue)
    requires k < |queue| && queue[k] in packs && !packs[queue[k]].kind.General?
    requires packs' == HideChildren(packs, queue[k]) && queue[..k] + queue[k + 1..] <= queue'
    requires |queue'| == |queue| - 1 + |Children(packs, queue[k])|
    requires Elems(queue'[|queue| - 1..]) == Children(packs, queue[k])
    ensures Midway(start, roots, packs', queue') && OnlyHidingJobs(packs', queue')
    ensures |PublishedIds(packs')| + |queue'| == |PublishedIds(packs)| + |queue| - 1
  {
    var added := queue'[|queue| - 1..];
    assert queue' == queue[..k] + queue[k + 1..] + added;
    HidingJobKeepsMidway(start, roots, packs, queue, k, added);
    HidingJobLowersMeasure(packs, queue, k, added);
  }

  lemma HidingKeepsSpread(start: PackTable, roots: set<PackId>, packs: PackTable, queue: seq<PackId>, id: PackId,
                          queue': seq<PackId>)
    requires SpreadIsQueued(start, roots, packs, queue)
    requires forall q :: q in queue || q in Children(packs, id) ==> q in queue' || q == id
    requires forall c :: c in Children(packs, id) ==> c in queue' || c == id
    ensures SpreadIsQueued(start, roots, HideChildren(packs, id), queue')
  {
  }

  /** Once no job is left, every pack that hangs from a root has been hidden. */
  lemma {:induction false} HangingIsHidden(start: PackTable, roots: set<PackId>, packs: PackTable, p: PackId, between: nat)
    requires Midway(start, roots, packs, [])
    requires Hangs(start, roots, p, between)
    ensures packs[p] == Hide(start[p])
    decreases between
  {
    var parent := start[p].source.value;
    if between > 0 {
      HangingIsHidden(start, roots, packs, parent, between - 1);
    }
    assert Spreads(start, roots, packs, parent);
    assert p !in Children(packs, parent);
  }

  lemma EmptyQueueIsCascaded(start: PackTable, roots: set<PackId>, packs: PackTable)
    requires Midway(start, roots, packs, [])
    ensures packs == Cascaded(start, roots)
    ensures PublishedIds(packs) == PublishedIds(start) - DoomedIds(start, roots)
  {
    forall p | p in start
      ensures packs[p] == if Doomed(start, roots, p) then Hide(start[p]) else start[p]
    {
      if Doomed(start, roots, p) {
        var between: nat :| Hangs(start, roots, p, between);
        HangingIsHidden(start, roots, packs, p, between);
      }
    }
  }

  lemma DoomedWerePublished(packs: PackTable, roots: set<PackId>)
    ensures DoomedIds(packs, roots) <= PublishedIds(packs)
  {
  }

  /** No pack left Published hangs from a root: draining again hides nothing more. */
  lemma {:induction false} NothingHangs(packs: PackTable, roots: set<PackId>, p: PackId, between: nat)
    ensures !Hangs(Cascaded(packs, roots), roots, p, between)
    decreases between
  {
    var after := Cascaded(packs, roots);
    if Hangs(after, roots, p, between) {
      if between > 0 {
        NothingHangs(packs, roots, after[p].source.value, between - 1);
      } else {
        ChildIsDoomed(packs, roots, after[p].source.value, p);
      }
    }
  }

  lemma CascadeSettles(packs: PackTable, roots: set<PackId>)
    ensures Cascaded(Cascaded(packs, roots), roots) == Cascaded(packs, roots)
  {
    forall p | p in packs
      ensures !Doomed(Cascaded(packs, roots), roots, p)
    {
      forall between: nat
        ensures !Hangs(Cascaded(packs, roots), roots, p, between)
      {
        NothingHangs(packs, roots, p, between);
      }
    }
  }

  datatype Outcome = Skipped | HidChildren | Delivers

  class PropagateService {
    var packs: PackTable
    var queue: seq<PackId>

    constructor (packs: PackTable, queue: seq<PackId>)
      ensures this.packs == packs && this.queue == queue
    {
      this.packs, this.queue := packs, queue;
    }

    ghost function Measure(): nat
      reads this
    {
      |PublishedIds(packs)| + |queue|
    }

    /** One `collection.propagate` job. The Published branch (delivery) is a separate protocol. */
    method Propagate(id: PackId) returns (outcome: Outcome)
      modifies this
      ensures outcome.Delivers? <==>
              id in old(packs) && !old(packs)[id].kind.General? && old(packs)[id].status.Published?
      ensures outcome.HidChildren? <==>
              id in old(packs) && !old(packs)[id].kind.General? && !old(packs)[id].status.Published?
      ensures !outcome.HidChildren? ==> unchanged(this)
      ensures outcome.HidChildren? ==>
                var children := Children(old(packs), id);
                && packs == HideChildren(old(packs), id) && packs.Keys == old(packs).Keys
                && (forall p :: p in packs ==>
                      var was := old(packs)[p];
                      packs[p] == if was.source == Some(id) && was.status.Published?
                                  then was.(status := Draft, exploreAt := None) else was)
                && |queue| == |old(queue)| + |children|
                && old(queue) <= queue
                && Elems(queue[|old(queue)|..]) == children
    {
      if id !in packs {
        return Skipped;
      }
      var source := packs[id];
      if source.kind.General? {
        return Skipped;
      }
      if !source.status.Published? {
        HideImmediateChildren(id);
        return HidChildren;
      }
      return Delivers;
    }

    method HideImmediateChildren(sourceId: PackId)
      modifies this
      ensures var children := set c | c in old(packs) && old(packs)[c].source == Some(sourceId)
                                     && old(packs)[c].status.Published?;
              && packs == HideChildren(old(packs), sourceId) && packs.Keys == old(packs).Keys
              && (forall p :: p in packs ==>
                    packs[p] == if p in children then old(packs)[p].(status := Draft, exploreAt := None)
                                else old(packs)[p])
              && |queue| == |old(queue)| + |children|
              && old(queue) <= queue
              && Elems(queue[|old(queue)|..]) == children
    {
      var children := Children(packs, sourceId);
      packs := map p | p in packs :: if p in children then Hide(packs[p]) else packs[p];
      Enqueue(children);
    }

    /** One job per hidden child, in any order. */
    method Enqueue(children: set<PackId>)
      modifies `queue
      ensures |queue| == |old(queue)| + |children|
      ensures old(queue) <= queue && Elems(queue[|old(queue)|..]) == children
    {
      var pending := children;
      ghost var added: seq<PackId> := [];
      while pending != {}
        invariant pending <= children && queue == old(queue) + added
        invariant |added| == |children - pending| && Elems(added) == children - pending
        decreases pending
      {
        var child :| child in pending;
        OneMoreJob(children, pending, added, child);
        queue := queue + [child];
        added := added + [child];
        pending := pending - {child};
      }
      assert queue[|old(queue)|..] == added;
      assert children - pending == children;
    }

    /** The runner takes any pending job; a hiding job lowers the measure by exactly one. */
    method RunOneJob(ghost start: PackTable, ghost roots: set<PackId>)
      requires queue != []
      requires Midway(start, roots, packs, queue)
      requires OnlyHidingJobs(packs, queue)
      modifies this
      ensures Midway(start, roots, packs, queue)
      ensures OnlyHidingJobs(packs, queue)
      ensures Measure() == old(Measure()) - 1
    {
      var k :| 0 <= k < |queue|;
      var id := queue[k];
      queue := queue[..k] + queue[k + 1..];
      var outcome := Propagate(id);
      if outcome.HidChildren? {
        AfterHidingJob(start, roots, old(packs), old(queue), k, packs, queue);
      } else {
        IdleJobKeepsMidway(start, roots, packs, old(queue), k);
      }
    }

    /** Runs jobs, in any order, until none is left. */
    method Drain() returns (jobs: nat)
      requires OnlyHidingJobs(packs, queue)
      modifies this
      ensures queue == []
      ensures packs == Cascaded(old(packs), Roots(old(packs), old(queue)))
      ensures packs.Keys == old(packs).Keys
      ensures forall p :: p in packs ==>
                packs[p] == if Doomed(old(packs), Roots(old(packs), old(queue)), p)
                            then old(packs)[p].(status := Draft, exploreAt := None) else old(packs)[p]
      ensures jobs == |old(queue)| + |DoomedIds(old(packs), Roots(old(packs), old(queue)))|
    {
      ghost var start, roots := packs, Roots(packs, queue);
      jobs := 0;
      while queue != []
        invariant Midway(start, roots, packs, queue)
        invariant OnlyHidingJobs(packs, queue)
        invariant Measure() + jobs == old(Measure())
        decreases Measure()
      {
        RunOneJob(start, roots);
        jobs := jobs + 1;
      }
      EmptyQueueIsCascaded(start, roots, packs);
      DoomedWerePublished(start, roots);
    }

    /** `setStatus` to Draft or Archived followed by the whole cascade, with whatever hiding jobs were queued. */
    method Withdraw(companyId: CompanyId, id: PackId, status: Status) returns (ok: bool)
      requires status.Draft? || status.Archived?
      requires OnlyHidingJobs(packs - {id}, queue)
      modifies this
      ensures ok <==> id in old(packs) && old(packs)[id].company == companyId && !old(packs)[id].kind.General?
      ensures !ok ==> unchanged(this)
      ensures ok ==>
                var written := old(packs)[id := old(packs)[id].(status := status, exploreAt := None)];
                packs == Cascaded(written, {id} + Roots(written, old(queue))) && queue == []
    {
      if id !in packs || packs[id].company != companyId || packs[id].kind.General? {
        return false;
      }
      packs := packs[id := packs[id].(status := status, exploreAt := None)];
      queue := queue + [id];
      assert forall q :: q in queue <==> q in old(queue) || q == id;
      assert Roots(packs, queue) == {id} + Roots(packs, old(queue));
      var _ := Drain();
      return true;
    }
  }
}
