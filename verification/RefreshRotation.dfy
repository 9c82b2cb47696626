/** Refresh-token rotation with a one-minute grace cache for parallel refreshes. */
module RefreshRotation {
  import opened Common

  type RefreshToken = string

  /** Reuse window after a rotation. */
  const REFRESH_GRACE_MS := 60_000

  /** A stored token; only its hash is stored, and hashes are taken as collision-free. */
  datatype Stored = Stored(user: string, expiresAt: Instant, revokedAt: Option<Instant>)

  /** What a login or a rotation hands out. */
  datatype Grant = Grant(access: string, refresh: RefreshToken, user: string, company: Option<string>)

  datatype GraceEntry = GraceEntry(grant: Grant, expiresAt: Instant)

  datatype State = State(tokens: map<RefreshToken, Stored>, grace: map<RefreshToken, GraceEntry>)

  /** `minted` is what signing and the database would produce if the call issues a pair. */
  datatype Event =
    | Issue(minted: Grant, now: Instant)
    | Rotate(raw: RefreshToken, minted: Grant, now: Instant)
    | Revoke(raw: RefreshToken, now: Instant)

  datatype Reply = Granted(grant: Grant) | Rejected | Done

  function Pruned(grace: map<RefreshToken, GraceEntry>, now: Instant): map<RefreshToken, GraceEntry> {
    map raw | raw in grace && grace[raw].expiresAt > now :: grace[raw]
  }

  predicate InGrace(grace: map<RefreshToken, GraceEntry>, raw: RefreshToken, now: Instant) {
    raw in grace && grace[raw].expiresAt > now
  }

  predicate Usable(tokens: map<RefreshToken, Stored>, raw: RefreshToken, now: Instant) {
    raw in tokens && tokens[raw].revokedAt.None? && tokens[raw].expiresAt >= now
  }

  function WithRevoked(tokens: map<RefreshToken, Stored>, raw: RefreshToken, now: Instant): map<RefreshToken, Stored> {
    if raw in tokens && tokens[raw].revokedAt.None? then tokens[raw := tokens[raw].(revokedAt := Some(now))] else tokens
  }

  /** One call. `prune` is what the service does; without it the cache only grows. */
  function Step(st: State, e: Event, ttl: int, prune: bool): (State, Reply) {
    match e
    case Issue(minted, now) =>
      (st.(tokens := st.tokens[minted.refresh := Stored(minted.user, now + ttl, None)]), Granted(minted))
    case Revoke(raw, now) => (st.(tokens := WithRevoked(st.tokens, raw, now)), Done)
    case Rotate(raw, minted, now) =>
      var grace := if prune then Pruned(st.grace, now) else st.grace;
      if InGrace(grace, raw, now) then (st.(grace := grace), Granted(grace[raw].grant))
      else if !Usable(st.tokens, raw, now) then (st.(grace := grace), Rejected)
      else
        (State(WithRevoked(st.tokens, raw, now)[minted.refresh := Stored(minted.user, now + ttl, None)],
               grace[raw := GraceEntry(minted, now + REFRESH_GRACE_MS)]),
         Granted(minted))
  }

  function Fresh(e: Event): Option<RefreshToken> {
    match e
    case Issue(minted, _) => Some(minted.refresh)
    case Rotate(_, minted, _) => Some(minted.refresh)
    case Revoke(_, _) => None
  }

  function StateAfter(st: State, events: seq<Event>, ttl: int, prune: bool): State {
    if events == [] then st else Step(StateAfter(st, events[..|events| - 1], ttl, prune), events[|events| - 1], ttl, prune).0
  }

  /** The reply to the last call of a run. */
  function LastReply(st: State, events: seq<Event>, ttl: int, prune: bool): Reply
    requires events != []
  {
    Step(StateAfter(st, events[..|events| - 1], ttl, prune), events[|events| - 1], ttl, prune).1
  }

  /** The clock never goes back. */
  predicate Sequential(events: seq<Event>) {
    forall i, j :: 0 <= i < j < |events| ==> events[i].now <= events[j].now
  }

  const START := State(map[], map[])

  // ---- Pruning is not observable ----

  /** Same tokens; the pruned cache lacks only entries that have expired by `clock`. */
  ghost predicate SameButExpired(pruned: State, kept: State, clock: Instant) {
    && pruned.tokens == kept.tokens
    && (forall raw :: raw in pruned.grace ==> raw in kept.grace && kept.grace[raw] == pruned.grace[raw])
    && (forall raw :: raw in kept.grace && raw !in pruned.grace ==> kept.grace[raw].expiresAt <= clock)
  }

  lemma StepKeepsSameButExpired(pruned: State, kept: State, e: Event, clock: Instant, ttl: int)
    requires SameButExpired(pruned, kept, clock) && clock <= e.now
    ensures Step(pruned, e, ttl, true).1 == Step(kept, e, ttl, false).1
    ensures SameButExpired(Step(pruned, e, ttl, true).0, Step(kept, e, ttl, false).0, e.now)
  {
  }

  /** A sequential run that begins at `clock` or later. */
  predicate From(events: seq<Event>, clock: Instant) {
    Sequential(events) && forall e :: e in events ==> clock <= e.now
  }

  function ClockAfter(events: seq<Event>, clock: Instant): Instant {
    if events == [] then clock else events[|events| - 1].now
  }

  lemma FrontIsFrom(events: seq<Event>, clock: Instant)
    requires events != [] && From(events, clock)
    ensures var front := events[..|events| - 1];
            From(front, clock) && ClockAfter(front, clock) <= events[|events| - 1].now
  {
  }

  lemma {:induction false} PrunedRunIsKeptRun(events: seq<Event>, ttl: int, start: Instant)
    requires From(events, start)
    ensures SameButExpired(StateAfter(START, events, ttl, true), StateAfter(START, events, ttl, false),
                           ClockAfter(events, start))
  {
    if events != [] {
      var front := events[..|events| - 1];
      FrontIsFrom(events, start);
      PrunedRunIsKeptRun(front, ttl, start);
      StepKeepsSameButExpired(StateAfter(START, front, ttl, true), StateAfter(START, front, ttl, false),
                              events[|events| - 1], ClockAfter(front, start), ttl);
    }
  }

  /** In any sequential run, every reply is the one a service that never prunes would give. */
  lemma PruningIsUnobservable(events: seq<Event>, ttl: int, start: Instant)
    requires events != [] && Sequential(events) && forall e :: e in events ==> start <= e.now
    ensures LastReply(START, events, ttl, true) == LastReply(START, events, ttl, false)
  {
    var front := events[..|events| - 1];
    FrontIsFrom(events, start);
    PrunedRunIsKeptRun(front, ttl, start);
    StepKeepsSameButExpired(StateAfter(START, front, ttl, true), StateAfter(START, front, ttl, false),
                            events[|events| - 1], ClockAfter(front, start), ttl);
  }

  // ---- Replays ----

  /** `raw` was rotated at `at` into `grant`, as seen from any later state. */
  ghost predicate WasRotated(st: State, raw: RefreshToken, grant: Grant, at: Instant, clock: Instant) {
    && raw in st.tokens && st.tokens[raw].revokedAt.Some?
    && if raw in st.grace then st.grace[raw] == GraceEntry(grant, at + REFRESH_GRACE_MS)
       else at + REFRESH_GRACE_MS <= clock
  }

  /** No call mints a token that is already stored. */
  ghost predicate MintsFresh(st: State, e: Event) {
    Fresh(e).Some? ==> Fresh(e).value !in st.tokens
  }

  ghost predicate MintsFreshThroughout(st: State, events: seq<Event>, ttl: int) {
    forall k :: 0 <= k < |events| ==> MintsFresh(StateAfter(st, events[..k], ttl, true), events[k])
  }

  // ---- When pruning shows ----

  /** Call `i` of the run drops the entry of `raw` from the pruned cache: the entry is there and has expired. */
  predicate DropsAt(events: seq<Event>, ttl: int, raw: RefreshToken, i: int) {
    0 <= i < |events| && events[i].Rotate? && Expired(StateAfter(START, events[..i], ttl, false), raw, events[i].now)
  }

  predicate Expired(kept: State, raw: RefreshToken, now: Instant) {
    raw in kept.grace && kept.grace[raw].expiresAt <= now
  }

  /** Some rotation of the run was called at or after the end of the window of `raw`, its entry being stored already. */
  ghost predicate Dropped(events: seq<Event>, ttl: int, raw: RefreshToken) {
    exists i :: DropsAt(events, ttl, raw, i)
  }

  lemma DroppedOfOneMore(events: seq<Event>, ttl: int, raw: RefreshToken)
    requires events != []
    ensures var front, last := events[..|events| - 1], events[|events| - 1];
            Dropped(events, ttl, raw) <==>
            Dropped(front, ttl, raw) || (last.Rotate? && Expired(StateAfter(START, front, ttl, false), raw, last.now))
  {
    var n := |events| - 1;
    var front := events[..n];
    assert forall i :: 0 <= i < n ==> front[..i] == events[..i];
    if i :| DropsAt(events, ttl, raw, i) {
      assert i < n ==> DropsAt(front, ttl, raw, i);
    }
    if i :| DropsAt(front, ttl, raw, i) {
      assert DropsAt(events, ttl, raw, i);
    }
    assert DropsAt(events, ttl, raw, n) <==>
           events[n].Rotate? && Expired(StateAfter(START, front, ttl, false), raw, events[n].now);
  }

  /** Every cached token is stored and revoked. */
  ghost predicate CachedAreRevoked(kept: State) {
    forall raw :: raw in kept.grace ==> raw in kept.tokens && kept.tokens[raw].revokedAt.Some?
  }

  /** Same tokens; the pruned cache is the kept one without the entries in `dropped`. */
  ghost predicate KeptBut(pruned: State, kept: State, dropped: iset<RefreshToken>) {
    && pruned.tokens == kept.tokens
    && (forall raw :: raw in pruned.grace <==> raw in kept.grace && raw !in dropped)
    && (forall raw :: raw in pruned.grace ==> pruned.grace[raw] == kept.grace[raw])
  }

  /** What a call adds to the dropped entries. */
  ghost function DropsNow(kept: State, e: Event): iset<RefreshToken> {
    iset raw | e.Rotate? && Expired(kept, raw, e.now)
  }

  /** One call, whatever the clock: replies differ exactly on a replay of a dropped entry still in its window. */
  lemma StepKeepsKeptBut(pruned: State, kept: State, dropped: iset<RefreshToken>, e: Event, ttl: int)
    requires KeptBut(pruned, kept, dropped) && CachedAreRevoked(kept) && MintsFresh(kept, e)
    requires forall raw :: raw in dropped ==> raw in kept.grace
    ensures var p, k := Step(pruned, e, ttl, true), Step(kept, e, ttl, false);
            && (p.1 == k.1 <==> !(e.Rotate? && InGrace(kept.grace, e.raw, e.now) && e.raw in dropped))
            && KeptBut(p.0, k.0, dropped + DropsNow(kept, e)) && CachedAreRevoked(k.0)
            && forall raw :: raw in dropped + DropsNow(kept, e) ==> raw in k.0.grace
  {
  }

  ghost function DroppedIn(events: seq<Event>, ttl: int): iset<RefreshToken> {
    iset raw | Dropped(events, ttl, raw)
  }

  lemma DroppedInOfOneMore(events: seq<Event>, ttl: int)
    requires events != []
    ensures var front := events[..|events| - 1];
            DroppedIn(events, ttl) ==
            DroppedIn(front, ttl) + DropsNow(StateAfter(START, front, ttl, false), events[|events| - 1])
  {
    forall raw
      ensures raw in DroppedIn(events, ttl) <==>
              raw in DroppedIn(events[..|events| - 1], ttl)
              || raw in DropsNow(StateAfter(START, events[..|events| - 1], ttl, false), events[|events| - 1])
    {
      DroppedOfOneMore(events, ttl, raw);
    }
  }

  lemma FrontMintsFresh(st: State, events: seq<Event>, ttl: int)
    requires events != [] && MintsFreshThroughout(st, events, ttl)
    ensures var front := events[..|events| - 1];
            MintsFreshThroughout(st, front, ttl) && MintsFresh(StateAfter(st, front, ttl, true), events[|events| - 1])
  {
    var n := |events| - 1;
    forall k | 0 <= k < n
      ensures MintsFresh(StateAfter(st, events[..n][..k], ttl, true), events[..n][k])
    {
      assert events[..n][..k] == events[..k];
    }
  }

  /** Over any run, on any clock, the two services hold the same tokens, and the caches differ in the dropped entries. */
  lemma {:induction false} AnyRunIsKeptBut(events: seq<Event>, ttl: int)
    requires MintsFreshThroughout(START, events, ttl)
    ensures var pruned, kept := StateAfter(START, events, ttl, true), StateAfter(START, events, ttl, false);
            && KeptBut(pruned, kept, DroppedIn(events, ttl)) && CachedAreRevoked(kept)
            && forall raw :: raw in DroppedIn(events, ttl) ==> raw in kept.grace
  {
    if events == [] {
      assert DroppedIn(events, ttl) == iset{};
    } else {
      var front, last := events[..|events| - 1], events[|events| - 1];
      FrontMintsFresh(START, events, ttl);
      AnyRunIsKeptBut(front, ttl);
      DroppedInOfOneMore(events, ttl);
      StepKeepsKeptBut(StateAfter(START, front, ttl, true), StateAfter(START, front, ttl, false), DroppedIn(front, ttl),
                       last, ttl);
    }
  }

  /** The last call replays an entry still in its window that an earlier rotation found past its window. */
  ghost predicate ReplaysDropped(events: seq<Event>, ttl: int)
    requires events != []
  {
    var front, last := events[..|events| - 1], events[|events| - 1];
    && last.Rotate? && InGrace(StateAfter(START, front, ttl, false).grace, last.raw, last.now)
    && Dropped(front, ttl, last.raw)
  }

  /**
   * On any clock, the last reply of a run is the one a service that never prunes would give if and only if the call
   * does not replay an entry, still in its window, that an earlier rotation found past its window.
   */
  lemma PruningIsUnobservableExactly(events: seq<Event>, ttl: int)
    requires events != [] && MintsFreshThroughout(START, events, ttl)
    ensures LastReply(START, events, ttl, true) == LastReply(START, events, ttl, false) <==> !ReplaysDropped(events, ttl)
  {
    var front, last := events[..|events| - 1], events[|events| - 1];
    FrontMintsFresh(START, events, ttl);
    AnyRunIsKeptBut(front, ttl);
    StepKeepsKeptBut(StateAfter(START, front, ttl, true), StateAfter(START, front, ttl, false), DroppedIn(front, ttl),
                     last, ttl);
  }

  lemma StepKeepsEntry(kept: State, e: Event, ttl: int, raw: RefreshToken)
    requires CachedAreRevoked(kept) && raw in kept.grace
    ensures var after := Step(kept, e, ttl, false).0; raw in after.grace && after.grace[raw] == kept.grace[raw]
  {
  }

  /** An entry of the kept cache is never changed. */
  lemma {:induction false} EntriesStay(events: seq<Event>, ttl: int, i: nat, raw: RefreshToken)
    requires MintsFreshThroughout(START, events, ttl) && i <= |events|
    requires raw in StateAfter(START, events[..i], ttl, false).grace
    ensures var early, late := StateAfter(START, events[..i], ttl, false), StateAfter(START, events, ttl, false);
            raw in late.grace && late.grace[raw] == early.grace[raw]
  {
    if i == |events| {
      assert events[..i] == events;
    } else {
      var front := events[..|events| - 1];
      assert front[..i] == events[..i];
      FrontMintsFresh(START, events, ttl);
      EntriesStay(front, ttl, i, raw);
      AnyRunIsKeptBut(front, ttl);
      StepKeepsEntry(StateAfter(START, front, ttl, false), events[|events| - 1], ttl, raw);
    }
  }

  /** A sequential run never meets the exception: an entry past its window stays past it. */
  lemma SequentialRunsReplayNothingDropped(events: seq<Event>, ttl: int)
    requires events != [] && Sequential(events) && MintsFreshThroughout(START, events, ttl)
    ensures !ReplaysDropped(events, ttl)
  {
    var front, last := events[..|events| - 1], events[|events| - 1];
    FrontMintsFresh(START, events, ttl);
    if ReplaysDropped(events, ttl) {
      var i :| DropsAt(front, ttl, last.raw, i);
      EntriesStay(front, ttl, i, last.raw);
      assert false;
    }
  }

  /** A login, its rotation at 0, a stray call at 60000, and a replay on a clock that has gone back to 59999. */
  function BackwardRun(login: Grant, minted: Grant, stray: RefreshToken, other: Grant): seq<Event> {
    [Issue(login, 0), Rotate(login.refresh, minted, 0), Rotate(stray, other, REFRESH_GRACE_MS),
     Rotate(login.refresh, other, REFRESH_GRACE_MS - 1)]
  }

  /** With a clock that goes back, pruning shows. */
  lemma PruningShowsWhenTheClockGoesBack(login: Grant, minted: Grant, stray: RefreshToken, other: Grant)
    requires login.refresh != minted.refresh && stray != login.refresh && stray != minted.refresh
    ensures var events := BackwardRun(login, minted, stray, other);
            && LastReply(START, events, 100_000, true) == Rejected
            && LastReply(START, events, 100_000, false) == Granted(minted)
  {
    var events := BackwardRun(login, minted, stray, other);
    assert events[..3] == [events[0], events[1], events[2]];
    StateBeforeStray(login, minted, stray, other, true);
    StateBeforeStray(login, minted, stray, other, false);
    NextState(START, events, 2, 100_000, true);
    NextState(START, events, 2, 100_000, false);
  }

  lemma StateBeforeStray(login: Grant, minted: Grant, stray: RefreshToken, other: Grant, prune: bool)
    requires login.refresh != minted.refresh && stray != login.refresh && stray != minted.refresh
    ensures var st := StateAfter(START, BackwardRun(login, minted, stray, other)[..2], 100_000, prune);
            && login.refresh in st.tokens && st.tokens[login.refresh].revokedAt.Some? && stray !in st.tokens
            && st.grace == map[login.refresh := GraceEntry(minted, REFRESH_GRACE_MS)]
  {
    var events := BackwardRun(login, minted, stray, other);
    NextState(START, events, 0, 100_000, prune);
    NextState(START, events, 1, 100_000, prune);
    assert StateAfter(START, events[..1], 100_000, prune) ==
           State(map[login.refresh := Stored(login.user, 100_000, None)], map[]);
  }

  lemma NextState(st: State, events: seq<Event>, k: nat, ttl: int, prune: bool)
    requires k < |events|
    ensures events[..0] == []
    ensures StateAfter(st, events[..k + 1], ttl, prune) == Step(StateAfter(st, events[..k], ttl, prune), events[k], ttl, prune).0
  {
    assert events[..k + 1][..k] == events[..k];
  }

  lemma StepKeepsRotated(st: State, e: Event, ttl: int, raw: RefreshToken, grant: Grant, at: Instant, clock: Instant)
    requires WasRotated(st, raw, grant, at, clock) && clock <= e.now && MintsFresh(st, e)
    ensures WasRotated(Step(st, e, ttl, true).0, raw, grant, at, e.now)
  {
  }

  lemma {:induction false} RotatedStaysRotated(st: State, events: seq<Event>, ttl: int, raw: RefreshToken, grant: Grant,
                                               at: Instant, clock: Instant)
    requires WasRotated(st, raw, grant, at, clock)
    requires From(events, clock) && MintsFreshThroughout(st, events, ttl)
    ensures WasRotated(StateAfter(st, events, ttl, true), raw, grant, at, ClockAfter(events, clock))
  {
    if events != [] {
      var front := events[..|events| - 1];
      FrontIsFrom(events, clock);
      FrontMintsFresh(st, events, ttl);
      RotatedStaysRotated(st, front, ttl, raw, grant, at, clock);
      StepKeepsRotated(StateAfter(st, front, ttl, true), events[|events| - 1], ttl, raw, grant, at,
                       ClockAfter(front, clock));
    }
  }

  /**
   * Whatever happens in between, a replay of a rotated token returns the identical pair inside the window and is
   * rejected from the end of the window on.
   */
  lemma ReplayExactly(st: State, raw: RefreshToken, minted: Grant, at: Instant, events: seq<Event>, ttl: int,
                      again: Grant, now: Instant)
    requires raw in st.tokens && st.tokens[raw].revokedAt.None? && at <= st.tokens[raw].expiresAt
    requires minted.refresh !in st.tokens
    requires raw in st.grace ==> st.grace[raw].expiresAt <= at
    requires var rotated := Step(st, Rotate(raw, minted, at), ttl, true).0;
             && MintsFreshThroughout(rotated, events, ttl)
             && Sequential(events + [Rotate(raw, again, now)])
             && forall e :: e in events + [Rotate(raw, again, now)] ==> at <= e.now
    ensures var rotated := Step(st, Rotate(raw, minted, at), ttl, true).0;
            Step(StateAfter(rotated, events, ttl, true), Rotate(raw, again, now), ttl, true).1 ==
            if now < at + 60_000 then Granted(minted) else Rejected
  {
    var rotated := Step(st, Rotate(raw, minted, at), ttl, true).0;
    var all := events + [Rotate(raw, again, now)];
    assert all[..|all| - 1] == events;
    FrontIsFrom(all, at);
    RotationIsRemembered(st, raw, minted, at, ttl);
    RotatedStaysRotated(rotated, events, ttl, raw, minted, at, at);
    ReplyToReplay(StateAfter(rotated, events, ttl, true), raw, minted, at, ClockAfter(events, at), again, now, ttl);
  }

  lemma RotationIsRemembered(st: State, raw: RefreshToken, minted: Grant, at: Instant, ttl: int)
    requires Usable(st.tokens, raw, at) && minted.refresh !in st.tokens
    requires raw in st.grace ==> st.grace[raw].expiresAt <= at
    ensures WasRotated(Step(st, Rotate(raw, minted, at), ttl, true).0, raw, minted, at, at)
  {
  }

  lemma ReplyToReplay(st: State, raw: RefreshToken, minted: Grant, at: Instant, clock: Instant, again: Grant,
                      now: Instant, ttl: int)
    requires WasRotated(st, raw, minted, at, clock) && clock <= now
    ensures Step(st, Rotate(raw, again, now), ttl, true).1 ==
            if now < at + REFRESH_GRACE_MS then Granted(minted) else Rejected
  {
  }

  // ---- A token before its first rotation ----

  ghost predicate Waiting(st: State, raw: RefreshToken, expiresAt: Instant, revoked: bool) {
    && raw in st.tokens && st.tokens[raw].expiresAt == expiresAt && raw !in st.grace
    && (st.tokens[raw].revokedAt.Some? <==> revoked)
  }

  lemma MintingStep(st: State, e: Event, ttl: int, raw: RefreshToken)
    requires raw !in st.tokens && raw !in st.grace && raw in Step(st, e, ttl, true).0.tokens
    ensures Waiting(Step(st, e, ttl, true).0, raw, e.now + ttl, false)
    ensures Step(st, e, ttl, true).1.Granted? && Step(st, e, ttl, true).1.grant.refresh == raw
  {
  }

  lemma StepKeepsWaiting(st: State, e: Event, ttl: int, raw: RefreshToken, expiresAt: Instant, revoked: bool)
    requires Waiting(st, raw, expiresAt, revoked) && MintsFresh(st, e) && !(e.Rotate? && e.raw == raw)
    ensures Waiting(Step(st, e, ttl, true).0, raw, expiresAt, revoked || (e.Revoke? && e.raw == raw))
  {
  }

  lemma ReplyToWaiting(st: State, raw: RefreshToken, expiresAt: Instant, revoked: bool, minted: Grant, now: Instant,
                       ttl: int)
    requires Waiting(st, raw, expiresAt, revoked)
    ensures Step(st, Rotate(raw, minted, now), ttl, true).1 ==
            if now <= expiresAt && !revoked then Granted(minted) else Rejected
  {
  }

  lemma UnstoredIsUncached(events: seq<Event>, ttl: int, raw: RefreshToken)
    requires MintsFreshThroughout(START, events, ttl) && raw !in StateAfter(START, events, ttl, true).tokens
    ensures raw !in StateAfter(START, events, ttl, true).grace
  {
    AnyRunIsKeptBut(events, ttl);
  }

  lemma JustMinted(before: seq<Event>, e: Event, ttl: int, raw: RefreshToken)
    requires MintsFreshThroughout(START, before, ttl)
    requires raw !in StateAfter(START, before, ttl, true).tokens
    requires raw in Step(StateAfter(START, before, ttl, true), e, ttl, true).0.tokens
    ensures var after := Step(StateAfter(START, before, ttl, true), e, ttl, true);
            Waiting(after.0, raw, e.now + ttl, false) && after.1.Granted? && after.1.grant.refresh == raw
  {
    UnstoredIsUncached(before, ttl, raw);
    MintingStep(StateAfter(START, before, ttl, true), e, ttl, raw);
  }

  predicate RevokedIn(events: seq<Event>, raw: RefreshToken) {
    events != [] && (RevokedIn(events[..|events| - 1], raw)
                     || (events[|events| - 1].Revoke? && events[|events| - 1].raw == raw))
  }

  lemma {:induction false} RevokedInExactly(events: seq<Event>, raw: RefreshToken)
    ensures RevokedIn(events, raw) <==> exists e :: e in events && e.Revoke? && e.raw == raw
  {
    if events != [] {
      RevokedInExactly(events[..|events| - 1], raw);
      assert events == events[..|events| - 1] + [events[|events| - 1]];
    }
  }

  predicate RotatedIn(events: seq<Event>, raw: RefreshToken) {
    exists e :: e in events && e.Rotate? && e.raw == raw
  }

  lemma RotatedInFront(events: seq<Event>, raw: RefreshToken)
    requires events != [] && !RotatedIn(events, raw)
    ensures !RotatedIn(events[..|events| - 1], raw)
    ensures !(events[|events| - 1].Rotate? && events[|events| - 1].raw == raw)
  {
  }

  lemma {:induction false} WaitingLasts(st: State, events: seq<Event>, ttl: int, raw: RefreshToken, expiresAt: Instant)
    requires Waiting(st, raw, expiresAt, false) && MintsFreshThroughout(st, events, ttl)
    requires !RotatedIn(events, raw)
    ensures Waiting(StateAfter(st, events, ttl, true), raw, expiresAt, RevokedIn(events, raw))
  {
    if events != [] {
      var front := events[..|events| - 1];
      RotatedInFront(events, raw);
      FrontMintsFresh(st, events, ttl);
      WaitingLasts(st, front, ttl, raw, expiresAt);
      StepKeepsWaiting(StateAfter(st, front, ttl, true), events[|events| - 1], ttl, raw, expiresAt, RevokedIn(front, raw));
    }
  }

  /**
   * A call `e` that stores a token hands it out. Whatever happens `later` and whatever the clock does, the token's
   * first rotation answers with the new pair up to and including `ttl` after that call unless the token was revoked,
   * and is refused otherwise.
   */
  lemma FirstRotationExactly(before: seq<Event>, e: Event, later: seq<Event>, ttl: int, raw: RefreshToken,
                             minted: Grant, now: Instant)
    requires MintsFreshThroughout(START, before, ttl)
    requires raw !in StateAfter(START, before, ttl, true).tokens
    requires raw in Step(StateAfter(START, before, ttl, true), e, ttl, true).0.tokens
    requires MintsFreshThroughout(Step(StateAfter(START, before, ttl, true), e, ttl, true).0, later, ttl)
    requires forall l :: l in later && l.Rotate? ==> l.raw != raw
    ensures var (issued, reply) := Step(StateAfter(START, before, ttl, true), e, ttl, true);
            && reply.Granted? && reply.grant.refresh == raw
            && Step(StateAfter(issued, later, ttl, true), Rotate(raw, minted, now), ttl, true).1 ==
               if now <= e.now + ttl && forall l :: l in later && l.Revoke? ==> l.raw != raw
               then Granted(minted) else Rejected
  {
    var issued := Step(StateAfter(START, before, ttl, true), e, ttl, true).0;
    JustMinted(before, e, ttl, raw);
    WaitingLasts(issued, later, ttl, raw, e.now + ttl);
    ReplyToWaiting(StateAfter(issued, later, ttl, true), raw, e.now + ttl,
                   RevokedIn(later, raw), minted, now, ttl);
    RevokedInExactly(later, raw);
  }

  // ---- One login, one chain ----

  /** The tokens of each login, oldest first, and the login of each token; a login is named by its first token. */
  datatype World = World(st: State, chains: map<RefreshToken, seq<RefreshToken>>, login: map<RefreshToken, RefreshToken>)

  ghost predicate InChain(w: World, login: RefreshToken, raw: RefreshToken) {
    login in w.chains && raw in w.chains[login]
  }

  /** Every stored token is on the chain of its login and on no other. */
  ghost predicate LoginsOk(w: World) {
    && w.login.Keys == w.st.tokens.Keys
    && (forall raw {:trigger w.login[raw]} :: raw in w.login ==> InChain(w, w.login[raw], raw))
    && (forall login, raw {:trigger InChain(w, login, raw)} ::
          InChain(w, login, raw) ==> raw in w.login && w.login[raw] == login)
  }

  /** All tokens of a chain but the last are revoked. */
  ghost predicate LinksOk(w: World) {
    forall login {:trigger w.chains[login]} :: login in w.chains ==> OneChain(w.st.tokens, login, w.chains[login])
  }

  ghost predicate ChainsOk(w: World) {
    LoginsOk(w) && LinksOk(w)
  }

  ghost predicate OneChain(tokens: map<RefreshToken, Stored>, login: RefreshToken, chain: seq<RefreshToken>) {
    && chain != [] && chain[0] == login && Distinct(chain)
    && (forall i :: 0 <= i < |chain| ==> chain[i] in tokens)
    && (forall i :: 0 <= i < |chain| - 1 ==> tokens[chain[i]].revokedAt.Some?)
  }

  predicate Rotates(w: World, e: Event) {
    e.Rotate? && !InGrace(Pruned(w.st.grace, e.now), e.raw, e.now) && Usable(w.st.tokens, e.raw, e.now)
  }

  /** A login starts a chain; a rotation extends the chain of the token it consumed. */
  function Next(w: World, e: Event, ttl: int): World {
    var st := Step(w.st, e, ttl, true).0;
    if e.Issue? then
      World(st, w.chains[e.minted.refresh := [e.minted.refresh]], w.login[e.minted.refresh := e.minted.refresh])
    else if Rotates(w, e) && e.raw in w.login && w.login[e.raw] in w.chains then
      var login := w.login[e.raw];
      World(st, w.chains[login := w.chains[login] + [e.minted.refresh]], w.login[e.minted.refresh := login])
    else World(st, w.chains, w.login)
  }

  lemma UnrevokedIsLastLink(tokens: map<RefreshToken, Stored>, login: RefreshToken, chain: seq<RefreshToken>,
                            raw: RefreshToken)
    requires OneChain(tokens, login, chain) && raw in chain && raw in tokens && tokens[raw].revokedAt.None?
    ensures raw == chain[|chain| - 1]
  {
  }

  /** Only the last token of a chain can be unrevoked. */
  lemma UnrevokedIsLast(w: World, login: RefreshToken, raw: RefreshToken)
    requires ChainsOk(w) && InChain(w, login, raw) && raw in w.st.tokens && w.st.tokens[raw].revokedAt.None?
    ensures raw == w.chains[login][|w.chains[login]| - 1]
  {
    assert OneChain(w.st.tokens, login, w.chains[login]);
    UnrevokedIsLastLink(w.st.tokens, login, w.chains[login], raw);
  }

  /** Members of the chains after one more token, `minted`, has joined the chain of `login`. */
  ghost predicate Joined(w: World, w': World, login: RefreshToken, minted: RefreshToken) {
    forall l, raw {:trigger InChain(w', l, raw)} ::
      InChain(w', l, raw) <==> InChain(w, l, raw) || (l == login && raw == minted)
  }

  lemma JoinedKeepsLogins(w: World, w': World, login: RefreshToken, minted: RefreshToken)
    requires LoginsOk(w) && minted !in w.login && Joined(w, w', login, minted)
    requires w'.login == w.login[minted := login] && w'.st.tokens.Keys == w.st.tokens.Keys + {minted}
    ensures LoginsOk(w')
  {
  }

  lemma ChainNamesAreStored(w: World)
    requires LinksOk(w)
    ensures w.chains.Keys <= w.st.tokens.Keys
  {
  }

  lemma IssueKeepsLogins(w: World, e: Event, ttl: int)
    requires LoginsOk(w) && e.Issue? && e.minted.refresh !in w.login && e.minted.refresh !in w.chains
    ensures LoginsOk(Next(w, e, ttl))
  {
    var w', minted := Next(w, e, ttl), e.minted.refresh;
    assert w'.chains[minted] == [minted];
    assert Joined(w, w', minted, minted);
    JoinedKeepsLogins(w, w', minted, minted);
  }

  lemma IssueKeepsLinks(w: World, e: Event, ttl: int)
    requires LinksOk(w) && e.Issue? && MintsFresh(w.st, e)
    ensures LinksOk(Next(w, e, ttl))
  {
  }

  lemma RotationJoins(w: World, w': World, login: RefreshToken, minted: RefreshToken)
    requires login in w.chains && w'.chains == w.chains[login := w.chains[login] + [minted]]
    ensures Joined(w, w', login, minted)
  {
  }

  lemma RotationKeepsLogins(w: World, e: Event, ttl: int)
    requires LoginsOk(w) && Rotates(w, e) && MintsFresh(w.st, e)
    ensures LoginsOk(Next(w, e, ttl))
  {
    var w', login := Next(w, e, ttl), w.login[e.raw];
    assert InChain(w, login, e.raw);
    RotationJoins(w, w', login, e.minted.refresh);
    JoinedKeepsLogins(w, w', login, e.minted.refresh);
  }

  lemma RotationKeepsLinks(w: World, e: Event, ttl: int)
    requires LinksOk(w) && Rotates(w, e) && MintsFresh(w.st, e)
    requires e.raw in w.login && w.login[e.raw] in w.chains
    requires var chain := w.chains[w.login[e.raw]]; chain != [] && e.raw == chain[|chain| - 1]
    ensures LinksOk(Next(w, e, ttl))
  {
  }

  lemma OtherCallKeepsLogins(w: World, e: Event, ttl: int)
    requires LoginsOk(w) && !e.Issue? && !Rotates(w, e)
    ensures LoginsOk(Next(w, e, ttl))
  {
    var w' := Next(w, e, ttl);
    assert w'.st.tokens.Keys == w.st.tokens.Keys && w'.chains == w.chains && w'.login == w.login;
    assert forall login, raw :: InChain(w', login, raw) <==> InChain(w, login, raw);
  }

  lemma OtherCallKeepsLinks(w: World, e: Event, ttl: int)
    requires LinksOk(w) && !e.Issue? && !Rotates(w, e)
    ensures LinksOk(Next(w, e, ttl))
  {
  }

  lemma CallKeepsChains(w: World, e: Event, ttl: int)
    requires ChainsOk(w) && MintsFresh(w.st, e)
    ensures ChainsOk(Next(w, e, ttl))
  {
    if e.Issue? {
      ChainNamesAreStored(w);
      IssueKeepsLogins(w, e, ttl);
      IssueKeepsLinks(w, e, ttl);
    } else if Rotates(w, e) {
      assert InChain(w, w.login[e.raw], e.raw);
      UnrevokedIsLast(w, w.login[e.raw], e.raw);
      RotationKeepsLogins(w, e, ttl);
      RotationKeepsLinks(w, e, ttl);
    } else {
      OtherCallKeepsLogins(w, e, ttl);
      OtherCallKeepsLinks(w, e, ttl);
    }
  }

  function WorldAfter(events: seq<Event>, ttl: int): World {
    if events == [] then World(START, map[], map[])
    else Next(WorldAfter(events[..|events| - 1], ttl), events[|events| - 1], ttl)
  }

  lemma {:induction false} WorldFollowsState(events: seq<Event>, ttl: int)
    ensures WorldAfter(events, ttl).st == StateAfter(START, events, ttl, true)
  {
    if events != [] {
      WorldFollowsState(events[..|events| - 1], ttl);
    }
  }

  /** Over every run, the tokens of one login form one chain and at most the last of them is unrevoked. */
  lemma {:induction false} EveryRunKeepsChains(events: seq<Event>, ttl: int)
    requires MintsFreshThroughout(START, events, ttl)
    ensures ChainsOk(WorldAfter(events, ttl))
  {
    if events != [] {
      var front := events[..|events| - 1];
      FrontMintsFresh(START, events, ttl);
      EveryRunKeepsChains(front, ttl);
      WorldFollowsState(front, ttl);
      CallKeepsChains(WorldAfter(front, ttl), events[|events| - 1], ttl);
    }
  }

  lemma AtMostOneUnrevoked(events: seq<Event>, ttl: int, login: RefreshToken, a: RefreshToken, b: RefreshToken)
    requires MintsFreshThroughout(START, events, ttl)
    requires var w := WorldAfter(events, ttl);
             InChain(w, login, a) && InChain(w, login, b) && a in w.st.tokens && b in w.st.tokens
             && w.st.tokens[a].revokedAt.None? && w.st.tokens[b].revokedAt.None?
    ensures a == b
  {
    EveryRunKeepsChains(events, ttl);
    UnrevokedIsLast(WorldAfter(events, ttl), login, a);
    UnrevokedIsLast(WorldAfter(events, ttl), login, b);
  }

  // ---- Logging out ----

  predicate AllRevoked(tokens: map<RefreshToken, Stored>, chain: seq<RefreshToken>) {
    forall raw :: raw in chain ==> raw in tokens && tokens[raw].revokedAt.Some?
  }

  /** No token of the login can be used any more. */
  ghost predicate Ended(w: World, login: RefreshToken) {
    login in w.chains && AllRevoked(w.st.tokens, w.chains[login])
  }

  lemma NextOfRevoke(w: World, raw: RefreshToken, now: Instant, ttl: int)
    ensures var w' := Next(w, Revoke(raw, now), ttl);
            w'.chains == w.chains && w'.st.tokens == WithRevoked(w.st.tokens, raw, now)
  {
  }

  /** A logout ends the login of its token exactly when it presents the newest token, or the login had ended. */
  lemma LogoutEndsExactly(w: World, raw: RefreshToken, now: Instant, ttl: int, login: RefreshToken)
    requires ChainsOk(w) && InChain(w, login, raw)
    ensures var chain := w.chains[login];
            Ended(Next(w, Revoke(raw, now), ttl), login) <==> chain != [] && (raw == chain[|chain| - 1] || Ended(w, login))
  {
    NextOfRevoke(w, raw, now, ttl);
    assert OneChain(w.st.tokens, login, w.chains[login]);
    RevokingInChain(w.st.tokens, login, w.chains[login], raw, now);
  }

  lemma RevokingInChain(tokens: map<RefreshToken, Stored>, login: RefreshToken, chain: seq<RefreshToken>,
                        raw: RefreshToken, now: Instant)
    requires OneChain(tokens, login, chain) && raw in chain
    ensures AllRevoked(WithRevoked(tokens, raw, now), chain) <==> raw == chain[|chain| - 1] || AllRevoked(tokens, chain)
  {
  }

  lemma StepKeepsRevoked(st: State, e: Event, ttl: int, chain: seq<RefreshToken>)
    requires AllRevoked(st.tokens, chain) && MintsFresh(st, e)
    ensures AllRevoked(Step(st, e, ttl, true).0.tokens, chain)
  {
  }

  /** No call touches an ended login: none of its tokens can be rotated, and no login takes its name. */
  lemma EndedIsUntouched(w: World, e: Event, login: RefreshToken)
    requires ChainsOk(w) && MintsFresh(w.st, e) && Ended(w, login)
    ensures e.Issue? ==> e.minted.refresh != login
    ensures Rotates(w, e) ==> e.raw in w.login && w.login[e.raw] != login
  {
    ChainNamesAreStored(w);
    if Rotates(w, e) {
      assert InChain(w, w.login[e.raw], e.raw);
    }
  }

  lemma OtherChainsStay(w: World, e: Event, ttl: int, login: RefreshToken)
    requires login in w.chains
    requires e.Issue? ==> e.minted.refresh != login
    requires Rotates(w, e) && e.raw in w.login ==> w.login[e.raw] != login
    ensures var w' := Next(w, e, ttl);
            login in w'.chains && w'.chains[login] == w.chains[login] && w'.st == Step(w.st, e, ttl, true).0
  {
  }

  lemma CallKeepsEnded(w: World, e: Event, ttl: int, login: RefreshToken)
    requires ChainsOk(w) && MintsFresh(w.st, e) && Ended(w, login)
    ensures Ended(Next(w, e, ttl), login)
  {
    EndedIsUntouched(w, e, login);
    OtherChainsStay(w, e, ttl, login);
    StepKeepsRevoked(w.st, e, ttl, w.chains[login]);
  }

  /** After a login has ended, no later call of any run gives it a usable token. */
  lemma {:induction false} EndedStaysEnded(events: seq<Event>, ttl: int, k: nat, login: RefreshToken)
    requires MintsFreshThroughout(START, events, ttl) && k <= |events|
    requires Ended(WorldAfter(events[..k], ttl), login)
    ensures Ended(WorldAfter(events, ttl), login)
  {
    if k == |events| {
      assert events[..k] == events;
    } else {
      var front := events[..|events| - 1];
      assert front[..k] == events[..k];
      FrontMintsFresh(START, events, ttl);
      EndedStaysEnded(front, ttl, k, login);
      EveryRunKeepsChains(front, ttl);
      WorldFollowsState(front, ttl);
      CallKeepsEnded(WorldAfter(front, ttl), events[|events| - 1], ttl, login);
    }
  }

  class TokenService {
    var tokens: map<RefreshToken, Stored>
    var refreshGrace: map<RefreshToken, GraceEntry>

    function Now(): State
      reads this
    {
      State(tokens, refreshGrace)
    }

    method Issue(minted: Grant, ttl: int, now: Instant) returns (r: Reply)
      modifies this
      ensures (Now(), r) == Step(old(Now()), Event.Issue(minted, now), ttl, true)
      ensures r == Granted(minted) && refreshGrace == old(refreshGrace)
      ensures tokens == old(tokens)[minted.refresh := Stored(minted.user, now + ttl, None)]
    {
      tokens := tokens[minted.refresh := Stored(minted.user, now + ttl, None)];
      return Granted(minted);
    }

    method Rotate(raw: RefreshToken, minted: Grant, ttl: int, now: Instant) returns (r: Reply)
      modifies this
      ensures (Now(), r) == Step(old(Now()), Event.Rotate(raw, minted, now), ttl, true)
      ensures var cached := raw in old(refreshGrace) && now < old(refreshGrace)[raw].expiresAt;
              var live := raw in old(tokens) && old(tokens)[raw].revokedAt.None? && now <= old(tokens)[raw].expiresAt;
              if cached then r == Granted(old(refreshGrace)[raw].grant) && tokens == old(tokens)
              else if !live then r == Rejected && tokens == old(tokens)
              else
                && r == Granted(minted)
                && tokens == old(tokens)[raw := old(tokens)[raw].(revokedAt := Some(now))]
                                        [minted.refresh := Stored(minted.user, now + ttl, None)]
                && raw in refreshGrace && refreshGrace[raw] == GraceEntry(minted, now + 60_000)
    {
      PruneRefreshGrace(now);
      if raw in refreshGrace && refreshGrace[raw].expiresAt > now {
        return Granted(refreshGrace[raw].grant);
      }
      if raw !in tokens || tokens[raw].revokedAt.Some? || tokens[raw].expiresAt < now {
        return Rejected;
      }
      tokens := tokens[raw := tokens[raw].(revokedAt := Some(now))];
      r := Issue(minted, ttl, now);
      refreshGrace := refreshGrace[raw := GraceEntry(minted, now + REFRESH_GRACE_MS)];
    }

    method Revoke(raw: RefreshToken, now: Instant) returns (r: Reply)
      modifies this
      ensures forall ttl :: (Now(), r) == Step(old(Now()), Event.Revoke(raw, now), ttl, true)
      ensures tokens == if raw in old(tokens) && old(tokens)[raw].revokedAt.None?
                        then old(tokens)[raw := old(tokens)[raw].(revokedAt := Some(now))] else old(tokens)
    {
      if raw in tokens && tokens[raw].revokedAt.None? {
        tokens := tokens[raw := tokens[raw].(revokedAt := Some(now))];
      }
      return Done;
    }

    method PruneRefreshGrace(now: Instant)
      modifies this`refreshGrace
      ensures refreshGrace == Pruned(old(refreshGrace), now)
    {
      var pending := refreshGrace.Keys;
      while pending != {}
        invariant pending <= old(refreshGrace).Keys
        invariant refreshGrace.Keys <= old(refreshGrace).Keys
        invariant forall raw :: raw in old(refreshGrace) ==>
                    (raw in refreshGrace <==> raw in pending || old(refreshGrace)[raw].expiresAt > now)
        invariant forall raw :: raw in refreshGrace ==> refreshGrace[raw] == old(refreshGrace)[raw]
        decreases pending
      {
        var raw :| raw in pending;
        pending := pending - {raw};
        if refreshGrace[raw].expiresAt <= now {
          refreshGrace := refreshGrace - {raw};
        }
      }
    }
  }
}
