/** Walking source links: the slow, unbounded reading that the cached root must agree with. */
module SourceChain {
  import opened Common
  import opened Packs

  /** How many packs `resolveRepostRootId` is willing to look at. */
  const WALK_LIMIT: nat := 32

  /** The pack `n` source links away from `id`; None past the end of the chain. */
  ghost function Hop(packs: PackTable, id: PackId, n: nat): Option<PackId> {
    if n == 0 then Some(id)
    else
      match Hop(packs, id, n - 1)
      case None => None
      case Some(c) => if c in packs then packs[c].source else None
  }

  ghost predicate EndsAfter(packs: PackTable, id: PackId, n: nat, end: PackId) {
    Hop(packs, id, n) == Some(end) && end in packs && packs[end].source.None?
  }

  ghost predicate EndsAt(packs: PackTable, id: PackId, end: PackId) {
    exists n: nat :: EndsAfter(packs, id, n, end)
  }

  /** `companyId` owns some pack on the chain that starts at `id`. */
  ghost predicate OnChain(packs: PackTable, id: PackId, companyId: CompanyId) {
    exists n: nat :: OwnsHop(packs, id, n, companyId)
  }

  ghost predicate OwnsHop(packs: PackTable, id: PackId, n: nat, companyId: CompanyId) {
    var c := Hop(packs, id, n);
    c.Some? && c.value in packs && packs[c.value].company == companyId
  }

  /** Walking `m` links from the pack `n` links away is walking `n + m` links. */
  lemma {:induction false} HopAdds(packs: PackTable, id: PackId, n: nat, c: PackId, m: nat)
    requires Hop(packs, id, n) == Some(c)
    ensures Hop(packs, id, n + m) == Hop(packs, c, m)
    decreases m
  {
    if m > 0 {
      HopAdds(packs, id, n, c, m - 1);
    }
  }

  /** Past the end of a chain there is nothing, and every hop before it is a pack. */
  lemma {:induction false} HopPastEnd(packs: PackTable, id: PackId, n: nat, m: nat)
    requires Hop(packs, id, n).None? && n <= m
    ensures Hop(packs, id, m).None?
    decreases m
  {
    if n < m {
      HopPastEnd(packs, id, n, m - 1);
    }
  }

  lemma HopBeforeEnd(packs: PackTable, id: PackId, n: nat, end: PackId, i: nat)
    requires EndsAfter(packs, id, n, end)
    ensures i <= n ==> Hop(packs, id, i).Some? && Hop(packs, id, i).value in packs
    ensures i < n ==> packs[Hop(packs, id, i).value].source.Some?
    ensures i > n ==> Hop(packs, id, i).None?
  {
    if i > n {
      assert Hop(packs, id, n + 1).None?;
      HopPastEnd(packs, id, n + 1, i);
    } else {
      if Hop(packs, id, i).None? {
        HopPastEnd(packs, id, i, n);
      }
      if i < n && Hop(packs, id, i + 1).None? {
        HopPastEnd(packs, id, i + 1, n);
      }
    }
  }

  /** A chain has one end, and every pack on it ends there. */
  lemma EndIsUnique(packs: PackTable, id: PackId, n: nat, end: PackId, i: nat, c: PackId, end': PackId)
    requires EndsAfter(packs, id, n, end)
    requires Hop(packs, id, i) == Some(c) && EndsAt(packs, c, end')
    ensures end' == end && i <= n && EndsAfter(packs, c, n - i, end)
  {
    HopBeforeEnd(packs, id, n, end, i);
    HopAdds(packs, id, i, c, n - i);
    var m: nat :| EndsAfter(packs, c, m, end');
    HopBeforeEnd(packs, c, n - i, end, m);
    HopBeforeEnd(packs, c, m, end', n - i);
  }

  /** A chain that ends never visits a pack twice. */
  lemma EndingChainHasNoRepeat(packs: PackTable, id: PackId, n: nat, end: PackId, i: nat, j: nat)
    requires EndsAfter(packs, id, n, end) && i < j <= n
    ensures Hop(packs, id, i) != Hop(packs, id, j)
  {
    HopBeforeEnd(packs, id, n, end, i);
    HopBeforeEnd(packs, id, n, end, j);
    if Hop(packs, id, i) == Hop(packs, id, j) {
      var c := Hop(packs, id, i).value;
      HopAdds(packs, id, i, c, n - i);
      HopAdds(packs, id, j, c, n - j);
      HopBeforeEnd(packs, c, n - i, end, n - j);
    }
  }

  /** What `resolveRepostRootId` returns from `current`, having seen `seen`, with `left` packs still to look at. */
  function RootFrom(packs: PackTable, start: PackId, current: PackId, seen: set<PackId>, left: nat): PackId
    decreases left
  {
    if left == 0 || current in seen then current
    else if current !in packs then start
    else if packs[current].root.Some? then packs[current].root.value
    else if packs[current].source.None? then current
    else RootFrom(packs, start, packs[current].source.value, seen + {current}, left - 1)
  }

  function RootId(packs: PackTable, start: PackId): PackId {
    RootFrom(packs, start, start, {}, WALK_LIMIT)
  }

  /** Every root stamped along the chain is that chain's end. */
  ghost predicate StampsAgree(packs: PackTable, id: PackId) {
    forall i: nat, c :: Hop(packs, id, i) == Some(c) && c in packs && packs[c].root.Some? ==>
      EndsAt(packs, c, packs[c].root.value)
  }

  ghost predicate StampedHop(packs: PackTable, id: PackId, i: nat) {
    var c := Hop(packs, id, i);
    c.Some? && c.value in packs && packs[c.value].root.Some?
  }

  /** The packs a walk from `id` has looked at before hop `k`. */
  ghost function SeenUpTo(packs: PackTable, id: PackId, k: nat): set<PackId> {
    set i | 0 <= i < k && Hop(packs, id, i).Some? :: Hop(packs, id, i).value
  }

  /** The walk from hop `k` on, when nothing before hop `k` was stamped. */
  lemma {:induction false} WalkFromHop(packs: PackTable, id: PackId, n: nat, end: PackId, k: nat, c: PackId)
    requires EndsAfter(packs, id, n, end) && StampsAgree(packs, id)
    requires Hop(packs, id, k) == Some(c)
    requires k <= n && k <= WALK_LIMIT
    requires forall i: nat :: i < k ==> !StampedHop(packs, id, i)
    ensures RootFrom(packs, id, c, SeenUpTo(packs, id, k), WALK_LIMIT - k) == end <==>
            n <= WALK_LIMIT || exists i: nat :: i < WALK_LIMIT && StampedHop(packs, id, i)
    decreases WALK_LIMIT - k
  {
    HopBeforeEnd(packs, id, n, end, k);
    forall i: nat | i < k
      ensures Hop(packs, id, i) != Some(c)
    {
      EndingChainHasNoRepeat(packs, id, n, end, i, k);
    }
    if k == WALK_LIMIT {
      if k < n {
        EndingChainHasNoRepeat(packs, id, n, end, k, n);
      }
    } else if packs[c].root.Some? {
      assert StampedHop(packs, id, k);
      EndIsUnique(packs, id, n, end, k, c, packs[c].root.value);
    } else if k == n {
    } else {
      assert SeenUpTo(packs, id, k + 1) == SeenUpTo(packs, id, k) + {c};
      WalkFromHop(packs, id, n, end, k + 1, packs[c].source.value);
    }
  }

  /**
   * On a chain that ends after `n` links, `resolveRepostRootId` returns the end if and only if the end is at
   * most 32 links away or one of the first 32 packs is stamped.
   */
  lemma RootIdExactly(packs: PackTable, id: PackId, n: nat, end: PackId)
    requires EndsAfter(packs, id, n, end) && StampsAgree(packs, id)
    ensures RootId(packs, id) == end <==> n <= 32 || exists i: nat :: i < 32 && StampedHop(packs, id, i)
  {
    assert SeenUpTo(packs, id, 0) == {};
    WalkFromHop(packs, id, n, end, 0, id);
  }

  /** The walk, seen from hop `k`, when the packs before it are known, unstamped and all different. */
  lemma {:induction false} WalkReaches(packs: PackTable, id: PackId, k: nat, c: PackId)
    requires k <= WALK_LIMIT && Hop(packs, id, k) == Some(c)
    requires forall i: nat :: i < k ==> !StampedHop(packs, id, i)
    requires forall i: nat, j: nat :: i < j < k ==> Hop(packs, id, i) != Hop(packs, id, j)
    ensures RootId(packs, id) == RootFrom(packs, id, c, SeenUpTo(packs, id, k), WALK_LIMIT - k)
  {
    if k == 0 {
      assert SeenUpTo(packs, id, 0) == {};
    } else {
      var b := Hop(packs, id, k - 1).value;
      WalkReaches(packs, id, k - 1, b);
      assert !StampedHop(packs, id, k - 1);
      assert SeenUpTo(packs, id, k) == SeenUpTo(packs, id, k - 1) + {b};
      assert b !in SeenUpTo(packs, id, k - 1);
    }
  }

  /**
   * Where the walk stops: at its 33rd pack or the first it meets again it answers that pack; at an unknown pack, the
   * pack it began with; at a stamped pack, the stamp; at a pack without a source, that pack.
   */
  lemma RootIdReads(packs: PackTable, id: PackId, k: nat, c: PackId)
    requires k <= 32 && Hop(packs, id, k) == Some(c)
    requires forall i: nat :: i < k ==> !StampedHop(packs, id, i)
    requires forall i: nat, j: nat :: i < j < k ==> Hop(packs, id, i) != Hop(packs, id, j)
    ensures if k == 32 || exists i: nat :: i < k && Hop(packs, id, i) == Some(c) then RootId(packs, id) == c
            else if c !in packs then RootId(packs, id) == id
            else if packs[c].root.Some? then RootId(packs, id) == packs[c].root.value
            else packs[c].source.None? ==> RootId(packs, id) == c
  {
    WalkReaches(packs, id, k, c);
    if i: nat :| i < k && Hop(packs, id, i) == Some(c) {
      assert c in SeenUpTo(packs, id, k);
    }
  }

  /** A chain of 34 unstamped packs of 34 companies: number `k` reposts number `k + 1`, and number 33 is the end. */
  function LongChain(): PackTable {
    map id | id in set i | 0 <= i < 34 :: ChainId(i) :: ChainPack(|id| - 1)
  }

  function ChainId(i: nat): PackId { seq(i + 1, _ => 'p') }

  function ChainPack(i: nat): Pack {
    Pack(ChainId(i), Regular, Published, Followers, [], true, None, 0, 0,
         if i < 33 then Some(ChainId(i + 1)) else None, None, None, None, [])
  }

  lemma LongChainRow(i: nat)
    requires i <= 33
    ensures ChainId(i) in LongChain() && LongChain()[ChainId(i)] == ChainPack(i)
  {
  }

  lemma {:induction false} LongChainHop(from: nat, n: nat)
    requires from <= 33
    ensures Hop(LongChain(), ChainId(from), n) == if from + n <= 33 then Some(ChainId(from + n)) else None
  {
    if n > 0 {
      LongChainHop(from, n - 1);
      if from + n - 1 <= 33 {
        LongChainRow(from + n - 1);
      }
    }
  }

  lemma LongChainOwner(i: nat, n: nat)
    requires i < 33
    ensures !OwnsHop(LongChain(), ChainId(i + 1), n, ChainPack(i).company)
  {
    LongChainHop(i + 1, n);
    if i + 1 + n <= 33 {
      LongChainRow(i + 1 + n);
      assert |ChainId(i + 1 + n)| != |ChainId(i)|;
    }
  }

  /** No company owns two packs of the chain. */
  lemma LongChainOwners(i: nat)
    requires i < 33
    ensures !OnChain(LongChain(), ChainId(i + 1), ChainPack(i).company)
  {
    if OnChain(LongChain(), ChainId(i + 1), ChainPack(i).company) {
      var n: nat :| OwnsHop(LongChain(), ChainId(i + 1), n, ChainPack(i).company);
      LongChainOwner(i, n);
      assert false;
    }
  }

  lemma LongChainIsUnstamped(i: nat)
    ensures !StampedHop(LongChain(), ChainId(0), i)
  {
  }

  /** An unstamped chain of 33 links is resolved to the wrong pack. */
  lemma LongUnstampedChainIsMisread()
    ensures EndsAfter(LongChain(), ChainId(0), 33, ChainId(33))
    ensures RootId(LongChain(), ChainId(0)) != ChainId(33)
  {
    var packs := LongChain();
    LongChainHop(0, 33);
    LongChainRow(33);
    forall i: nat
      ensures !StampedHop(packs, ChainId(0), i)
    {
      LongChainIsUnstamped(i);
    }
    assert StampsAgree(packs, ChainId(0)) by {
      forall i: nat, c | Hop(packs, ChainId(0), i) == Some(c) && c in packs
        ensures packs[c].root.None?
      {
        assert !StampedHop(packs, ChainId(0), i);
      }
    }
    RootIdExactly(packs, ChainId(0), 33, ChainId(33));
  }
}
