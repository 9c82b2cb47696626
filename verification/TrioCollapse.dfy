/** One open group per trade trio: clones close, their living cards and lanes move to the survivor. */
module TrioCollapse {
  import opened Common

  type ThreadId = string
  type MessageId = string
  type LaneId = string

  datatype ParticipantState = Active | Pending | Archived

  datatype Participant = Participant(state: ParticipantState, leftAt: Option<Instant>, inboxHiddenAt: Option<Instant>)

  /** A thread has at most one participant row per company. */
  datatype Thread = Thread(group: bool, closedAt: Option<Instant>, createdAt: Instant, lastMessageAt: Instant,
                           participants: map<CompanyId, Participant>)

  datatype MessageType = OrderCard | Rate | Other

  datatype Message = Message(thread: ThreadId, kind: MessageType, reference: Option<string>)

  /** A lane maps to its group thread, if any. */
  datatype Store = Store(threads: map<ThreadId, Thread>, messages: map<MessageId, Message>,
                         lanes: map<LaneId, Option<ThreadId>>)

  type CardKey = (MessageType, string)

  function Present(t: Thread): set<CompanyId> {
    set c | c in t.participants && t.participants[c].leftAt.None?
  }

  predicate OpenGroup(st: Store, id: ThreadId) {
    id in st.threads && st.threads[id].group && st.threads[id].closedAt.None?
  }

  /** `findExactTrioGroups`: open groups whose present companies are exactly the wanted ones. */
  function ExactTrios(st: Store, wanted: set<CompanyId>): set<ThreadId> {
    set t | t in st.threads && OpenGroup(st, t) && Present(st.threads[t]) == wanted
  }

  /** A card that points at something; the empty reference never moves. */
  predicate IsCard(m: Message) {
    !m.kind.Other? && m.reference.Some?
  }

  function KeyOf(m: Message): CardKey
    requires IsCard(m)
  {
    (m.kind, m.reference.value)
  }

  predicate HasCard(st: Store, thread: ThreadId, key: CardKey) {
    exists m :: m in st.messages && st.messages[m].thread == thread && IsCard(st.messages[m]) && KeyOf(st.messages[m]) == key
  }

  predicate Moves(st: Store, survivor: ThreadId, clones: set<ThreadId>, m: MessageId)
    requires m in st.messages
  {
    var message := st.messages[m];
    message.thread in clones && IsCard(message) && message.reference.value != ""
    && !HasCard(st, survivor, KeyOf(message))
  }

  function Reactivated(t: Thread, wanted: set<CompanyId>): Thread {
    t.(participants := map c | c in t.participants ::
         if c in wanted then Participant(Active, None, None) else t.participants[c])
  }

  /** The tables once the clones of `survivor` have been collapsed into it. */
  function Collapsed(st: Store, survivor: ThreadId, clones: set<ThreadId>, now: Instant): Store {
    var moved := exists m :: m in st.messages && Moves(st, survivor, clones, m);
    Store(
      map t | t in st.threads ::
        if t == survivor then (if moved then st.threads[t].(lastMessageAt := now) else st.threads[t])
        else if t in clones && st.threads[t].closedAt.None? then st.threads[t].(closedAt := Some(now))
        else st.threads[t],
      map m | m in st.messages ::
        if Moves(st, survivor, clones, m) then st.messages[m].(thread := survivor) else st.messages[m],
      map l | l in st.lanes ::
        if st.lanes[l].Some? && st.lanes[l].value in clones then Some(survivor) else st.lanes[l])
  }

  function Settled(st: Store, wanted: set<CompanyId>, survivor: ThreadId, now: Instant): Store
    requires survivor in st.threads
  {
    var after := Collapsed(st, survivor, ExactTrios(st, wanted) - {survivor}, now);
    after.(threads := after.threads[survivor := Reactivated(after.threads[survivor], wanted)])
  }

  /** The stored thread if it is still an open group; otherwise an oldest exact trio. */
  predicate IsSurvivor(st: Store, wanted: set<CompanyId>, existing: Option<ThreadId>, s: ThreadId) {
    if existing.Some? && OpenGroup(st, existing.value) then s == existing.value
    else s in ExactTrios(st, wanted)
         && forall t :: t in ExactTrios(st, wanted) ==> st.threads[s].createdAt <= st.threads[t].createdAt
  }

  predicate Reusable(st: Store, wanted: set<CompanyId>, existing: Option<ThreadId>) {
    (existing.Some? && OpenGroup(st, existing.value)) || ExactTrios(st, wanted) != {}
  }

  lemma SurvivorIsOpenGroup(st: Store, wanted: set<CompanyId>, existing: Option<ThreadId>, s: ThreadId)
    requires IsSurvivor(st, wanted, existing, s)
    ensures OpenGroup(st, s)
  {
  }

  lemma {:induction false} OldestExists(st: Store, pool: set<ThreadId>) returns (s: ThreadId)
    requires pool != {} && pool <= st.threads.Keys
    ensures s in pool && forall t :: t in pool ==> st.threads[s].createdAt <= st.threads[t].createdAt
  {
    s :| s in pool;
    if pool != {s} {
      var t := OldestExists(st, pool - {s});
      if st.threads[t].createdAt < st.threads[s].createdAt {
        s := t;
      }
    }
  }

  // ---- What the settled tables satisfy ----

  /** No exact trio other than the survivor is left open. */
  lemma OnlySurvivorRemains(st: Store, wanted: set<CompanyId>, s: ThreadId, now: Instant)
    requires OpenGroup(st, s)
    ensures ExactTrios(Settled(st, wanted, s, now), wanted) <= {s}
    ensures OpenGroup(Settled(st, wanted, s, now), s)
    ensures s in ExactTrios(st, wanted) ==> ExactTrios(Settled(st, wanted, s, now), wanted) == {s}
  {
  }

  /** Every living card of a clone or of the survivor is in the survivor afterwards. */
  lemma CardsReachSurvivor(st: Store, wanted: set<CompanyId>, s: ThreadId, now: Instant, m: MessageId)
    requires s in st.threads && m in st.messages
    requires IsCard(st.messages[m]) && st.messages[m].reference.value != ""
    requires st.messages[m].thread == s || st.messages[m].thread in ExactTrios(st, wanted)
    ensures HasCard(Settled(st, wanted, s, now), s, KeyOf(st.messages[m]))
  {
    var after, key := Settled(st, wanted, s, now), KeyOf(st.messages[m]);
    if HasCard(st, s, key) {
      var k :| k in st.messages && st.messages[k].thread == s && IsCard(st.messages[k]) && KeyOf(st.messages[k]) == key;
      assert after.messages[k].thread == s && KeyOf(after.messages[k]) == key;
    } else {
      assert after.messages[m].thread == s && KeyOf(after.messages[m]) == key;
    }
  }

  /** No message is created, lost or altered but for its thread, and only a clone's card moves. */
  lemma MessagesAreConserved(st: Store, wanted: set<CompanyId>, s: ThreadId, now: Instant)
    requires s in st.threads
    ensures var after := Settled(st, wanted, s, now);
            && after.messages.Keys == st.messages.Keys
            && forall m :: m in st.messages ==>
                 && after.messages[m].(thread := st.messages[m].thread) == st.messages[m]
                 && (after.messages[m].thread != st.messages[m].thread ==>
                       after.messages[m].thread == s && st.messages[m].thread in ExactTrios(st, wanted) - {s}
                       && IsCard(st.messages[m]) && !HasCard(st, s, KeyOf(st.messages[m])))
  {
  }

  /** A lane that pointed at a clone points at the survivor; no other lane changes. */
  lemma LanesFollowSurvivor(st: Store, wanted: set<CompanyId>, s: ThreadId, now: Instant, l: LaneId)
    requires s in st.threads && l in st.lanes
    ensures var after, clones := Settled(st, wanted, s, now), ExactTrios(st, wanted) - {s};
            after.lanes[l] == if st.lanes[l].Some? && st.lanes[l].value in clones then Some(s) else st.lanes[l]
    ensures var after := Settled(st, wanted, s, now);
            after.lanes[l].Some? && after.lanes[l].value in ExactTrios(st, wanted) ==> after.lanes[l].value == s
  {
  }

  /** The clones are the other open groups in which exactly the wanted companies are present. */
  ghost predicate AreClones(st: Store, wanted: set<CompanyId>, s: ThreadId, clones: set<ThreadId>) {
    forall t :: t in clones <==>
      && t in st.threads && t != s && st.threads[t].group && st.threads[t].closedAt.None?
      && forall c :: c in wanted <==> c in st.threads[t].participants && st.threads[t].participants[c].leftAt.None?
  }

  lemma ClonesExactly(st: Store, wanted: set<CompanyId>, s: ThreadId, clones: set<ThreadId>)
    requires AreClones(st, wanted, s, clones)
    ensures clones == ExactTrios(st, wanted) - {s}
  {
  }

  /** `m` is an order card or a rate of some clone that points at something the survivor has no such card for. */
  ghost predicate IsLackingCard(st: Store, s: ThreadId, clones: set<ThreadId>, m: Message) {
    && m.thread in clones && (m.kind.OrderCard? || m.kind.Rate?) && m.reference.Some? && m.reference.value != ""
    && forall k :: k in st.messages && st.messages[k].thread == s ==>
         st.messages[k].kind != m.kind || st.messages[k].reference != m.reference
  }

  lemma LackingCardsMove(st: Store, s: ThreadId, clones: set<ThreadId>, m: MessageId)
    requires m in st.messages
    ensures Moves(st, s, clones, m) <==> IsLackingCard(st, s, clones, st.messages[m])
  {
  }

  /** Message by message: the cards the survivor lacks move to it, and nothing else about a message changes. */
  lemma MessagesAfterSettling(st: Store, wanted: set<CompanyId>, s: ThreadId, now: Instant, clones: set<ThreadId>)
    requires s in st.threads && AreClones(st, wanted, s, clones)
    ensures Settled(st, wanted, s, now).messages.Keys == st.messages.Keys
    ensures forall m :: m in st.messages ==>
              Settled(st, wanted, s, now).messages[m] ==
              if IsLackingCard(st, s, clones, st.messages[m]) then st.messages[m].(thread := s) else st.messages[m]
  {
    ClonesExactly(st, wanted, s, clones);
    forall m | m in st.messages
      ensures Moves(st, s, clones, m) <==> IsLackingCard(st, s, clones, st.messages[m])
    {
      LackingCardsMove(st, s, clones, m);
    }
  }

  /**
   * Thread by thread: clones close now and keep everything else; in the survivor the wanted companies are active,
   * present and unhidden again, and it moves up exactly when a card reached it; other threads stay as they were.
   */
  lemma ThreadsAfterSettling(st: Store, wanted: set<CompanyId>, s: ThreadId, now: Instant, clones: set<ThreadId>)
    requires s in st.threads && AreClones(st, wanted, s, clones)
    ensures var after := Settled(st, wanted, s, now).threads;
            && after.Keys == st.threads.Keys
            && (forall t :: t in st.threads && t != s ==>
                  after[t] == if t in clones then st.threads[t].(closedAt := Some(now)) else st.threads[t])
            && after[s].participants.Keys == st.threads[s].participants.Keys
            && (forall c :: c in after[s].participants ==>
                  after[s].participants[c] ==
                  if c in wanted then Participant(Active, None, None) else st.threads[s].participants[c])
            && after[s] == st.threads[s].(
                 participants := after[s].participants,
                 lastMessageAt := if exists m :: m in st.messages && IsLackingCard(st, s, clones, st.messages[m])
                                  then now else st.threads[s].lastMessageAt)
  {
    ClonesExactly(st, wanted, s, clones);
    forall m | m in st.messages
      ensures Moves(st, s, clones, m) <==> IsLackingCard(st, s, clones, st.messages[m])
    {
      LackingCardsMove(st, s, clones, m);
    }
  }

  /** With no clones left, settling again changes nothing. */
  lemma SettledIsFixed(st: Store, wanted: set<CompanyId>, s: ThreadId, now: Instant, later: Instant)
    requires OpenGroup(st, s)
    ensures var after := Settled(st, wanted, s, now); Settled(after, wanted, s, later) == after
  {
    var after := Settled(st, wanted, s, now);
    OnlySurvivorRemains(st, wanted, s, now);
    assert ExactTrios(after, wanted) - {s} == {};
    assert Collapsed(after, s, {}, later).messages == after.messages;
    assert Collapsed(after, s, {}, later).lanes == after.lanes;
    assert Collapsed(after, s, {}, later).threads == after.threads;
    assert Reactivated(after.threads[s], wanted) == after.threads[s];
  }

  /** A second call, with the same stored thread or with the returned one, picks the same group and writes nothing. */
  lemma SecondCallIsNoOp(st: Store, wanted: set<CompanyId>, existing: Option<ThreadId>, s: ThreadId, now: Instant,
                         again: Option<ThreadId>, s': ThreadId, later: Instant)
    requires IsSurvivor(st, wanted, existing, s)
    requires again == existing || again == Some(s)
    requires IsSurvivor(Settled(st, wanted, s, now), wanted, again, s')
    ensures s' == s && Settled(Settled(st, wanted, s, now), wanted, s', later) == Settled(st, wanted, s, now)
  {
    SurvivorIsOpenGroup(st, wanted, existing, s);
    OnlySurvivorRemains(st, wanted, s, now);
    SettledIsFixed(st, wanted, s, now, later);
    if again == existing && existing.Some? && !OpenGroup(st, existing.value) {
      assert !OpenGroup(Settled(st, wanted, s, now), existing.value);
    }
  }

  /**
   * Called again without the stored thread, the same group is found exactly when the survivor is an exact trio:
   * a stored group that lacks one of the three shops is reused only by whoever still holds its id.
   */
  lemma FoundAgainExactly(st: Store, wanted: set<CompanyId>, existing: Option<ThreadId>, s: ThreadId, now: Instant)
    requires IsSurvivor(st, wanted, existing, s)
    ensures Reusable(Settled(st, wanted, s, now), wanted, None) <==>
            (forall c :: c in wanted ==> c in st.threads[s].participants) && Present(st.threads[s]) <= wanted
  {
    SurvivorIsOpenGroup(st, wanted, existing, s);
    OnlySurvivorRemains(st, wanted, s, now);
    var after := Settled(st, wanted, s, now);
    var back := after.threads[s];
    assert back.participants.Keys == st.threads[s].participants.Keys;
    assert forall c :: c in back.participants ==> (c in Present(back) <==> c in wanted || c in Present(st.threads[s]));
    if s in ExactTrios(after, wanted) {
      assert forall c :: c in wanted ==> c in Present(back);
    }
  }

  function CardsIn(st: Store, thread: ThreadId): set<CardKey> {
    set m | m in st.messages && st.messages[m].thread == thread && IsCard(st.messages[m]) :: KeyOf(st.messages[m])
  }

  /** The key set of the survivor selects exactly the cards that move. */
  lemma MoveIdsAreMoves(st: Store, survivor: ThreadId, clones: set<ThreadId>, moveIds: set<MessageId>)
    requires moveIds == set m | m in st.messages && st.messages[m].thread in clones && IsCard(st.messages[m])
                                && st.messages[m].reference.value != "" && KeyOf(st.messages[m]) !in CardsIn(st, survivor)
    ensures moveIds == set m | m in st.messages && Moves(st, survivor, clones, m)
    ensures (exists m :: m in st.messages && Moves(st, survivor, clones, m)) <==> moveIds != {}
  {
    forall key: CardKey
      ensures key in CardsIn(st, survivor) <==> HasCard(st, survivor, key)
    {
    }
    if m :| m in st.messages && Moves(st, survivor, clones, m) {
      assert m in moveIds;
    }
    if m :| m in moveIds {
      assert Moves(st, survivor, clones, m);
    }
  }

  function MovedMessages(messages: map<MessageId, Message>, moveIds: set<MessageId>, survivor: ThreadId)
    : map<MessageId, Message>
  {
    map m | m in messages :: if m in moveIds then messages[m].(thread := survivor) else messages[m]
  }

  function ClosedThreads(threads: map<ThreadId, Thread>, clones: set<ThreadId>, now: Instant): map<ThreadId, Thread> {
    map t | t in threads ::
      if t in clones && threads[t].closedAt.None? then threads[t].(closedAt := Some(now)) else threads[t]
  }

  function RepointedLanes(lanes: map<LaneId, Option<ThreadId>>, from: set<ThreadId>, survivor: ThreadId)
    : map<LaneId, Option<ThreadId>>
  {
    map l | l in lanes :: if lanes[l].Some? && lanes[l].value in from then Some(survivor) else lanes[l]
  }

  /** The three bulk updates, taken together, are the collapse. */
  lemma BulkUpdatesCollapse(st: Store, survivor: ThreadId, clones: set<ThreadId>, moveIds: set<MessageId>, now: Instant)
    requires survivor in st.threads && survivor !in clones
    requires moveIds == set m | m in st.messages && Moves(st, survivor, clones, m)
    requires (exists m :: m in st.messages && Moves(st, survivor, clones, m)) <==> moveIds != {}
    ensures var touched := if moveIds == {} then st.threads
                           else st.threads[survivor := st.threads[survivor].(lastMessageAt := now)];
            Collapsed(st, survivor, clones, now) ==
            Store(ClosedThreads(touched, clones, now), MovedMessages(st.messages, moveIds, survivor),
                  RepointedLanes(st.lanes, {survivor} + clones, survivor))
  {
  }

  class ThreadService {
    var threads: map<ThreadId, Thread>
    var messages: map<MessageId, Message>
    var lanes: map<LaneId, Option<ThreadId>>

    function Tables(): Store
      reads this
    {
      Store(threads, messages, lanes)
    }

    method EnsureTradeLaneGroup(trader: CompanyId, seller: CompanyId, buyer: CompanyId, existing: Option<ThreadId>,
                                freshId: ThreadId, now: Instant)
      returns (r: Option<ThreadId>)
      requires freshId !in threads && existing != Some(freshId)
      modifies this
      ensures var st, wanted := old(Tables()), {trader, seller, buyer};
              if Reusable(st, wanted, existing) then
                && r.Some? && IsSurvivor(st, wanted, existing, r.value)
                && Tables() == Settled(st, wanted, r.value, now)
              else if |wanted| == 3 then
                && r == Some(freshId)
                && Tables() == st.(threads := st.threads[freshId :=
                     Thread(true, None, now, now, map c | c in wanted :: Participant(Active, None, None))])
                && ExactTrios(Tables(), wanted) == {freshId}
              else r == None && unchanged(this)
    {
      var wanted := {trader, seller, buyer};
      r := ReuseExactTrio(wanted, existing, now);
      if r.Some? {
        return r;
      }
      if |wanted| != 3 {
        // The participant rows collide, the create throws, and the retry finds nothing either.
        r := ReuseExactTrio(wanted, existing, now);
        return r;
      }
      threads := threads[freshId := NewGroup(wanted, now)];
      NewGroupIsExact(old(Tables()), wanted, freshId, now);
      var after := ReuseExactTrio(wanted, Some(freshId), now);
      return Some(if after.Some? then after.value else freshId);
    }

    method ReuseExactTrio(wanted: set<CompanyId>, existing: Option<ThreadId>, now: Instant) returns (r: Option<ThreadId>)
      modifies this
      ensures r.Some? <==> Reusable(old(Tables()), wanted, existing)
      ensures r.None? ==> unchanged(this)
      ensures r.Some? ==> IsSurvivor(old(Tables()), wanted, existing, r.value)
      ensures r.Some? ==> r.value in old(threads) && old(threads)[r.value].group && old(threads)[r.value].closedAt.None?
      ensures r.Some? && r != existing ==>
                && (existing.Some? && existing.value in old(threads) ==>
                      !old(threads)[existing.value].group || old(threads)[existing.value].closedAt.Some?)
                && Present(old(threads)[r.value]) == wanted
                && forall t :: t in old(threads) && old(threads)[t].group && old(threads)[t].closedAt.None?
                               && Present(old(threads)[t]) == wanted ==>
                     old(threads)[r.value].createdAt <= old(threads)[t].createdAt
      ensures r.Some? ==> Tables() == Settled(old(Tables()), wanted, r.value, now)
    {
      ghost var before := Tables();
      var groups := ExactTrios(Tables(), wanted);
      var survivor: ThreadId;
      if existing.Some? && existing.value in threads && threads[existing.value].group
         && threads[existing.value].closedAt.None? {
        survivor := existing.value;
      } else if groups != {} {
        ghost var _ := OldestExists(Tables(), groups);
        survivor :| survivor in groups && forall t :: t in groups ==> threads[survivor].createdAt <= threads[t].createdAt;
      } else {
        return None;
      }
      var clones := groups - {survivor};
      if clones != {} {
        CollapseTrioClones(survivor, clones, now);
      } else {
        NoClonesNoChange(before, survivor, now);
      }
      assert Tables() == Collapsed(before, survivor, clones, now);
      ReactivateTrioParticipants(survivor, wanted);
      return Some(survivor);
    }

    method CollapseTrioClones(survivor: ThreadId, clones: set<ThreadId>, now: Instant)
      requires survivor in threads && survivor !in clones && clones <= threads.Keys
      modifies this
      ensures Tables() == Collapsed(old(Tables()), survivor, clones, now)
    {
      ghost var before := Tables();
      var have := CardsIn(Tables(), survivor);
      var moveIds := set m | m in messages && messages[m].thread in clones && IsCard(messages[m])
                             && messages[m].reference.value != "" && KeyOf(messages[m]) !in have;
      MoveIdsAreMoves(before, survivor, clones, moveIds);
      BulkUpdatesCollapse(before, survivor, clones, moveIds, now);
      if moveIds != {} {
        messages := MovedMessages(messages, moveIds, survivor);
        threads := threads[survivor := threads[survivor].(lastMessageAt := now)];
      } else {
        assert MovedMessages(messages, {}, survivor) == messages;
      }
      threads := ClosedThreads(threads, clones, now);
      lanes := RepointedLanes(lanes, {survivor} + clones, survivor);
    }

    method ReactivateTrioParticipants(id: ThreadId, wanted: set<CompanyId>)
      requires id in threads
      modifies this`threads
      ensures threads == old(threads)[id := Reactivated(old(threads)[id], wanted)]
    {
      ghost var before := threads[id];
      var pending := threads[id].participants.Keys;
      while pending != {}
        invariant pending <= before.participants.Keys
        invariant id in threads && threads == old(threads)[id := threads[id]]
        invariant threads[id] == before.(participants := threads[id].participants)
        invariant threads[id].participants.Keys == before.participants.Keys
        invariant forall c :: c in before.participants ==>
                    threads[id].participants[c] ==
                    if c !in pending && c in wanted then Participant(Active, None, None) else before.participants[c]
        decreases pending
      {
        var company :| company in pending;
        pending := pending - {company};
        var participant := threads[id].participants[company];
        if company !in wanted {
          continue;
        }
        if participant.leftAt.Some? || participant.state.Archived? || participant.state.Pending?
           || participant.inboxHiddenAt.Some? {
          var row := threads[id];
          threads := threads[id := row.(participants := row.participants[company := Participant(Active, None, None)])];
        }
      }
      assert threads[id].participants == Reactivated(before, wanted).participants;
    }
  }

  function NewGroup(wanted: set<CompanyId>, now: Instant): Thread {
    Thread(true, None, now, now, map c | c in wanted :: Participant(Active, None, None))
  }

  lemma NoClonesNoChange(st: Store, survivor: ThreadId, now: Instant)
    ensures Collapsed(st, survivor, {}, now) == st
  {
  }

  /** A group just created is the only exact trio, and settling on it changes nothing. */
  lemma NewGroupIsExact(st: Store, wanted: set<CompanyId>, freshId: ThreadId, now: Instant)
    requires freshId !in st.threads && ExactTrios(st, wanted) == {}
    ensures var after := st.(threads := st.threads[freshId := NewGroup(wanted, now)]);
            && OpenGroup(after, freshId)
            && ExactTrios(after, wanted) == {freshId}
            && Settled(after, wanted, freshId, now) == after
  {
    var after := st.(threads := st.threads[freshId := NewGroup(wanted, now)]);
    assert Present(after.threads[freshId]) == wanted;
    assert forall t :: t in ExactTrios(after, wanted) && t != freshId ==> t in ExactTrios(st, wanted);
    assert ExactTrios(after, wanted) - {freshId} == {};
    NoClonesNoChange(after, freshId, now);
    assert Reactivated(after.threads[freshId], wanted) == after.threads[freshId];
  }

  // ---- One group per trio ----

  /** No two open groups have the same three companies present. */
  ghost predicate OneGroupPerTrio(st: Store) {
    forall t, u :: t in st.threads && u in st.threads && Twins(st, t, u) ==> t == u
  }

  predicate Twins(st: Store, t: ThreadId, u: ThreadId)
    requires t in st.threads && u in st.threads
  {
    && OpenGroup(st, t) && OpenGroup(st, u)
    && Present(st.threads[t]) == Present(st.threads[u]) && |Present(st.threads[t])| == 3
  }

  /** Who is present once the wanted participants are reactivated. */
  function PresentAfter(t: Thread, wanted: set<CompanyId>): set<CompanyId> {
    Present(t) + (t.participants.Keys * wanted)
  }

  /** Settling leaves every other thread as present as it was, and closes those that were exact. */
  lemma OthersAfterSettling(st: Store, wanted: set<CompanyId>, s: ThreadId, now: Instant, t: ThreadId)
    requires OpenGroup(st, s) && t in st.threads && t != s
    ensures var after := Settled(st, wanted, s, now);
            && t in after.threads && Present(after.threads[t]) == Present(st.threads[t])
            && (OpenGroup(after, t) <==> OpenGroup(st, t) && Present(st.threads[t]) != wanted)
  {
  }

  lemma SurvivorAfterSettling(st: Store, wanted: set<CompanyId>, s: ThreadId, now: Instant)
    requires OpenGroup(st, s)
    ensures var after := Settled(st, wanted, s, now);
            s in after.threads && OpenGroup(after, s) && Present(after.threads[s]) == PresentAfter(st.threads[s], wanted)
  {
  }

  /** Another open group already stands for the three companies that settling makes present in the survivor. */
  ghost predicate MakesATwin(st: Store, wanted: set<CompanyId>, s: ThreadId)
    requires s in st.threads
  {
    var present := PresentAfter(st.threads[s], wanted);
    && present != wanted && |present| == 3
    && exists t :: t in st.threads && t != s && OpenGroup(st, t) && Present(st.threads[t]) == present
  }

  /** Settling on a group keeps one group per trio exactly when it does not turn it into another trio's group. */
  lemma SettlingKeepsOneGroupExactly(st: Store, wanted: set<CompanyId>, s: ThreadId, now: Instant)
    requires OneGroupPerTrio(st) && OpenGroup(st, s)
    ensures OneGroupPerTrio(Settled(st, wanted, s, now)) <==> !MakesATwin(st, wanted, s)
  {
    var after := Settled(st, wanted, s, now);
    var present := PresentAfter(st.threads[s], wanted);
    SurvivorAfterSettling(st, wanted, s, now);
    if MakesATwin(st, wanted, s) {
      var t :| t in st.threads && t != s && OpenGroup(st, t) && Present(st.threads[t]) == present;
      OthersAfterSettling(st, wanted, s, now, t);
      assert Twins(after, s, t);
    } else {
      forall t, u | t in after.threads && u in after.threads && Twins(after, t, u)
        ensures t == u
      {
        TwinsWereTwins(st, wanted, s, now, t, u);
      }
    }
  }

  /** A group that nobody has left is never turned into another trio's. */
  lemma FullGroupMakesNoTwin(st: Store, wanted: set<CompanyId>, s: ThreadId)
    requires OneGroupPerTrio(st) && OpenGroup(st, s)
    requires forall c :: c in st.threads[s].participants ==> st.threads[s].participants[c].leftAt.None?
    ensures !MakesATwin(st, wanted, s)
  {
  }

  lemma TwinsWereTwins(st: Store, wanted: set<CompanyId>, s: ThreadId, now: Instant, t: ThreadId, u: ThreadId)
    requires OneGroupPerTrio(st) && OpenGroup(st, s) && !MakesATwin(st, wanted, s)
    requires var after := Settled(st, wanted, s, now); t in after.threads && u in after.threads && Twins(after, t, u)
    ensures t == u
  {
    SurvivorAfterSettling(st, wanted, s, now);
    if t != s {
      OthersAfterSettling(st, wanted, s, now, t);
    }
    if u != s {
      OthersAfterSettling(st, wanted, s, now, u);
    }
    if t != s && u != s {
      assert Twins(st, t, u);
    }
  }

  /** A group made for a trio that had none is the only one. */
  lemma NewGroupKeepsOneGroup(st: Store, wanted: set<CompanyId>, freshId: ThreadId, now: Instant)
    requires OneGroupPerTrio(st) && freshId !in st.threads && ExactTrios(st, wanted) == {}
    ensures OneGroupPerTrio(st.(threads := st.threads[freshId := NewGroup(wanted, now)]))
  {
    var after := st.(threads := st.threads[freshId := NewGroup(wanted, now)]);
    assert Present(after.threads[freshId]) == wanted;
    assert forall t :: t in st.threads && OpenGroup(st, t) && Present(st.threads[t]) == wanted ==> t in ExactTrios(st, wanted);
    forall t, u | t in after.threads && u in after.threads && Twins(after, t, u)
      ensures t == u
    {
      if t != freshId && u != freshId {
        assert Twins(st, t, u);
      }
    }
  }

  function Member(present: bool): Participant {
    Participant(Active, if present then None else Some(1), None)
  }

  /** Group g of a, b, c, and group h of the same three, which c has left. */
  function GroupAndItsShadow(): Store {
    Store(map["g" := Thread(true, None, 0, 0, map["a" := Member(true), "b" := Member(true), "c" := Member(true)]),
              "h" := Thread(true, None, 0, 0, map["a" := Member(true), "b" := Member(true), "c" := Member(false)])],
          map[], map[])
  }

  /** A lane of a, c and d that still points at h brings c back into it: then a, b and c have two open groups. */
  lemma ReactivationMakesATwin(now: Instant)
    ensures var st := GroupAndItsShadow();
            OneGroupPerTrio(st) && OpenGroup(st, "h") && !OneGroupPerTrio(Settled(st, {"a", "c", "d"}, "h", now))
  {
    var st := GroupAndItsShadow();
    assert Present(st.threads["g"]) == {"a", "b", "c"};
    assert Present(st.threads["h"]) == {"a", "b"};
    assert "c" in Present(st.threads["g"]) && "c" !in Present(st.threads["h"]);
    assert PresentAfter(st.threads["h"], {"a", "c", "d"}) == {"a", "b", "c"};
    assert "b" in {"a", "b", "c"} && "b" !in {"a", "c", "d"};
    assert OpenGroup(st, "g") && "g" != "h";
    assert MakesATwin(st, {"a", "c", "d"}, "h");
    SettlingKeepsOneGroupExactly(st, {"a", "c", "d"}, "h", now);
  }
}
