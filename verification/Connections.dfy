/** Mutual connections: one row per unordered pair, silent blocks, and the backfill from allowed follows. */
module Connections {
  import opened Common
  import opened Text

  type Pair = (CompanyId, CompanyId)

  datatype Status = Active | Paused | Blocked

  /** `setter` is `statusSetByCompanyId`. */
  datatype Connection = Connection(status: Status, setter: Option<CompanyId>)

  type Table = map<Pair, Connection>

  /** `orderCompanyPair` for two different companies. */
  function PairOf(a: CompanyId, b: CompanyId): (pair: Pair)
    requires a != b
    ensures Less(pair.0, pair.1)
    ensures pair == (a, b) || pair == (b, a)
  {
    LessIsTotal(a, b);
    if Less(a, b) then (a, b) else (b, a)
  }

  lemma PairOfIsUnordered(a: CompanyId, b: CompanyId)
    requires a != b
    ensures PairOf(a, b) == PairOf(b, a)
  {
    if Less(a, b) {
      LessIsAsymmetric(a, b);
    }
    if Less(b, a) {
      LessIsAsymmetric(b, a);
    }
  }

  function Counterpart(company: CompanyId, pair: Pair): Option<CompanyId> {
    if company == pair.0 then Some(pair.1) else if company == pair.1 then Some(pair.0) else None
  }

  // ---- Actions ----

  datatype Action = Pause | Resume | Block | Unblock

  datatype Event =
    | OwnerAction(company: CompanyId, pair: Pair, action: Action)
    | ChatAccept(company: CompanyId, other: CompanyId)
    | BlockCounterpart(company: CompanyId, other: CompanyId)
    | Approve(target: CompanyId, requester: CompanyId)
    | FollowAllow(follower: CompanyId, followed: CompanyId)

  datatype Refusal = NotFound | InvalidTransition | ConnectionBlocked | SelfPair

  function AllowedFrom(action: Action): set<Status> {
    match action
    case Pause => {Active}
    case Resume => {Paused}
    case Block => {Active}
    case Unblock => {Blocked}
  }

  function OwnerActionRefusal(table: Table, company: CompanyId, pair: Pair, action: Action): Option<Refusal> {
    if pair !in table || Counterpart(company, pair).None? then Some(NotFound)
    else if action.Pause? then Some(InvalidTransition)
    else if table[pair].status !in AllowedFrom(action) then Some(InvalidTransition)
    else if (action.Resume? || action.Unblock?) && table[pair].setter != Some(company) then Some(NotFound)
    else None
  }

  function RefusalOf(table: Table, e: Event): Option<Refusal> {
    match e
    case OwnerAction(company, pair, action) => OwnerActionRefusal(table, company, pair, action)
    case BlockCounterpart(company, other) => if company == other then Some(SelfPair) else None
    case FollowAllow(_, _) => None
    case ChatAccept(a, b) => UpsertRefusal(table, a, b)
    case Approve(a, b) => UpsertRefusal(table, a, b)
  }

  function UpsertRefusal(table: Table, a: CompanyId, b: CompanyId): Option<Refusal> {
    if a == b then Some(SelfPair)
    else if BlockedIn(table, PairOf(a, b)) then Some(ConnectionBlocked)
    else None
  }

  predicate BlockedIn(table: Table, pair: Pair) {
    pair in table && table[pair].status.Blocked?
  }

  const ACTIVE := Connection(Active, None)

  function Step(table: Table, e: Event): Table {
    if RefusalOf(table, e).Some? then table
    else
      match e
      case OwnerAction(company, pair, action) =>
        table[pair := if action.Block? then Connection(Blocked, Some(company)) else ACTIVE]
      case BlockCounterpart(company, other) => table[PairOf(company, other) := Connection(Blocked, Some(company))]
      case ChatAccept(a, b) => table[PairOf(a, b) := ACTIVE]
      case Approve(a, b) => table[PairOf(a, b) := ACTIVE]
      case FollowAllow(a, b) =>
        if a == b || BlockedIn(table, PairOf(a, b)) then table else table[PairOf(a, b) := ACTIVE]
  }

  function Run(table: Table, events: seq<Event>): Table {
    if events == [] then table else Step(Run(table, events[..|events| - 1]), events[|events| - 1])
  }

  // ---- Safety over every run ----

  /** Pairs are ordered; Active rows name no setter; any other row names one of the pair. */
  ghost predicate Sound(table: Table) {
    forall pair {:trigger table[pair]} :: pair in table ==>
      && Less(pair.0, pair.1)
      && (table[pair].status.Active? <==> table[pair].setter.None?)
      && (table[pair].setter.Some? ==> table[pair].setter.value == pair.0 || table[pair].setter.value == pair.1)
  }

  lemma StepKeepsSound(table: Table, e: Event)
    requires Sound(table)
    ensures Sound(Step(table, e))
  {
  }

  lemma {:induction false} RunIsSound(table: Table, events: seq<Event>)
    requires Sound(table)
    ensures Sound(Run(table, events))
  {
    if events != [] {
      RunIsSound(table, events[..|events| - 1]);
      StepKeepsSound(Run(table, events[..|events| - 1]), events[|events| - 1]);
    }
  }

  lemma EveryRunIsSound(events: seq<Event>)
    ensures Sound(Run(map[], events))
  {
    RunIsSound(map[], events);
  }

  /** A blocked pair stays blocked through every event but an unblock by its recorded setter. */
  lemma OnlySetterUnblocks(table: Table, e: Event, pair: Pair)
    requires Sound(table) && BlockedIn(table, pair)
    ensures BlockedIn(Step(table, e), pair) <==>
            !(e.OwnerAction? && e.pair == pair && e.action.Unblock? && table[pair].setter == Some(e.company))
    ensures BlockedIn(Step(table, e), pair) && Step(table, e)[pair].setter != table[pair].setter ==>
              e.BlockCounterpart? && e.company != e.other && PairOf(e.company, e.other) == pair
              && Step(table, e)[pair].setter == Some(e.company)
  {
  }

  /** The setter does not unblock, and the counterpart does not block on top of the block. */
  predicate Respects(e: Event, pair: Pair, setter: CompanyId) {
    && !(e.OwnerAction? && e.pair == pair && e.action.Unblock? && e.company == setter)
    && !(e.BlockCounterpart? && e.company != e.other && PairOf(e.company, e.other) == pair && e.company != setter)
  }

  predicate BlockedBy(table: Table, pair: Pair, setter: CompanyId) {
    BlockedIn(table, pair) && table[pair].setter == Some(setter)
  }

  /** One event keeps a block and its setter exactly when it respects them. */
  lemma StepKeepsBlockExactly(table: Table, e: Event, pair: Pair, setter: CompanyId)
    requires Sound(table) && BlockedBy(table, pair, setter)
    ensures BlockedBy(Step(table, e), pair, setter) <==> Respects(e, pair, setter)
  {
    OnlySetterUnblocks(table, e, pair);
  }

  /** The pair is blocked by `setter` at the start of the run and after every event of it. */
  ghost predicate BlockedThroughout(table: Table, events: seq<Event>, pair: Pair, setter: CompanyId) {
    forall k :: 0 <= k <= |events| ==> BlockedAfter(table, events, k, pair, setter)
  }

  predicate BlockedAfter(table: Table, events: seq<Event>, k: nat, pair: Pair, setter: CompanyId)
    requires k <= |events|
  {
    BlockedBy(Run(table, events[..k]), pair, setter)
  }

  lemma BlockedAfterFront(table: Table, events: seq<Event>, k: nat, pair: Pair, setter: CompanyId)
    requires k < |events|
    ensures BlockedAfter(table, events[..|events| - 1], k, pair, setter) <==> BlockedAfter(table, events, k, pair, setter)
  {
    assert events[..|events| - 1][..k] == events[..k];
  }

  lemma BlockedAfterAll(table: Table, events: seq<Event>, pair: Pair, setter: CompanyId)
    ensures BlockedAfter(table, events, |events|, pair, setter) <==> BlockedBy(Run(table, events), pair, setter)
  {
    assert events[..|events|] == events;
  }

  lemma BlockedThroughoutFront(table: Table, events: seq<Event>, pair: Pair, setter: CompanyId)
    requires events != []
    ensures BlockedThroughout(table, events, pair, setter) <==>
            BlockedThroughout(table, events[..|events| - 1], pair, setter) && BlockedBy(Run(table, events), pair, setter)
  {
    var front := events[..|events| - 1];
    BlockedAfterAll(table, events, pair, setter);
    forall k: nat | k < |events|
      ensures BlockedAfter(table, front, k, pair, setter) <==> BlockedAfter(table, events, k, pair, setter)
    {
      BlockedAfterFront(table, events, k, pair, setter);
    }
    if BlockedThroughout(table, front, pair, setter) && BlockedBy(Run(table, events), pair, setter) {
      forall k | 0 <= k <= |events|
        ensures BlockedAfter(table, events, k, pair, setter)
      {
        if k < |events| {
          assert BlockedAfter(table, front, k, pair, setter);
        }
      }
    }
  }

  /** A block and its setter last through a run exactly when every event of the run respects them. */
  lemma {:induction false} BlockLastsExactly(table: Table, events: seq<Event>, pair: Pair, setter: CompanyId)
    requires Sound(table) && BlockedBy(table, pair, setter)
    ensures BlockedThroughout(table, events, pair, setter) <==> forall e :: e in events ==> Respects(e, pair, setter)
  {
    if events != [] {
      var front, last := events[..|events| - 1], events[|events| - 1];
      assert events == front + [last];
      BlockLastsExactly(table, front, pair, setter);
      BlockedThroughoutFront(table, events, pair, setter);
      if BlockedThroughout(table, front, pair, setter) {
        assert BlockedAfter(table, front, |front|, pair, setter);
        BlockedAfterAll(table, front, pair, setter);
        RunIsSound(table, front);
        StepKeepsBlockExactly(Run(table, front), last, pair, setter);
      }
    }
  }

  /** Without that, b's block does not outlive a's: a blocks over it, becomes the setter, and unblocks. */
  lemma CounterBlockLiftsABlock()
    ensures var table := map[("a", "b") := Connection(Blocked, Some("b"))];
            Run(table, [BlockCounterpart("a", "b"), OwnerAction("a", ("a", "b"), Unblock)]) == map[("a", "b") := ACTIVE]
  {
  }

  /** `list`: pauses and blocks show only to the company that set them. */
  predicate Listed(company: CompanyId, pair: Pair, c: Connection) {
    Counterpart(company, pair).Some? && (c.status.Active? || c.setter == Some(company))
  }

  /**
   * In every reachable table an active pair is listed to its two companies and to nobody else, and a block or a pause
   * to the company that set it and to nobody else.
   */
  lemma BlocksAreSilent(events: seq<Event>, pair: Pair, company: CompanyId)
    requires pair in Run(map[], events)
    ensures var c := Run(map[], events)[pair];
            Listed(company, pair, c) <==>
            if c.status.Active? then company == pair.0 || company == pair.1 else c.setter == Some(company)
  {
    EveryRunIsSound(events);
  }

  // ---- Backfill ----

  datatype Follow = Follow(follower: CompanyId, followed: CompanyId)

  datatype Counts = Counts(examined: nat, created: nat, alreadyActive: nat, skippedBlocked: nat)

  /** The pairs of the first `n` follows. */
  function PairsUpTo(rows: seq<Follow>, n: nat): set<Pair>
    requires n <= |rows|
  {
    set k | 0 <= k < n && !SelfFollow(rows[k]) :: PairOf(rows[k].follower, rows[k].followed)
  }

  function PairsOf(rows: seq<Follow>): set<Pair> {
    PairsUpTo(rows, |rows|)
  }

  lemma OneMoreFollow(rows: seq<Follow>, n: nat)
    requires n < |rows| && !SelfFollow(rows[n])
    ensures PairsUpTo(rows, n + 1) == PairsUpTo(rows, n) + {PairOf(rows[n].follower, rows[n].followed)}
  {
  }

  predicate SelfFollow(row: Follow) {
    row.follower == row.followed
  }

  /** Every pair made Active unless it was blocked. */
  function Backfilled(table: Table, pairs: set<Pair>): Table {
    map pair | pair in table.Keys + pairs ::
      if pair in pairs && !BlockedIn(table, pair) then ACTIVE else table[pair]
  }

  function BlockedAmong(table: Table, pairs: set<Pair>): set<Pair> {
    set p | p in pairs && BlockedIn(table, p)
  }

  function ActiveAmong(table: Table, pairs: set<Pair>): set<Pair> {
    set p | p in pairs && p in table && table[p].status.Active?
  }

  lemma OneMoreBlocked(table: Table, pairs: set<Pair>, pair: Pair)
    requires pair !in pairs
    ensures |BlockedAmong(table, pairs + {pair})| == |BlockedAmong(table, pairs)| + (if BlockedIn(table, pair) then 1 else 0)
  {
    if BlockedIn(table, pair) {
      assert BlockedAmong(table, pairs + {pair}) == BlockedAmong(table, pairs) + {pair};
    } else {
      assert BlockedAmong(table, pairs + {pair}) == BlockedAmong(table, pairs);
    }
  }

  lemma OneMoreActive(table: Table, pairs: set<Pair>, pair: Pair)
    requires pair !in pairs
    ensures |ActiveAmong(table, pairs + {pair})| ==
            |ActiveAmong(table, pairs)| + (if pair in table && table[pair].status.Active? then 1 else 0)
  {
    if pair in table && table[pair].status.Active? {
      assert ActiveAmong(table, pairs + {pair}) == ActiveAmong(table, pairs) + {pair};
    } else {
      assert ActiveAmong(table, pairs + {pair}) == ActiveAmong(table, pairs);
    }
  }

  lemma OneMoreBackfilled(table: Table, pairs: set<Pair>, pair: Pair)
    requires Sound(table) && pair !in pairs
    ensures var before, after := Backfilled(table, pairs), Backfilled(table, pairs + {pair});
            && EnsureOutcome(before, pair) == EnsureOutcome(table, pair)
            && after == if EnsureOutcome(table, pair).Created? then before[pair := ACTIVE] else before
  {
  }

  /** A backfill keeps the table sound. */
  lemma BackfilledIsSound(table: Table, pairs: set<Pair>)
    requires Sound(table) && forall pair :: pair in pairs ==> Less(pair.0, pair.1)
    ensures Sound(Backfilled(table, pairs))
  {
  }

  /** The entry a pair has in `seen`. */
  function KeyOf(pair: Pair): string {
    pair.0 + ":" + pair.1
  }

  function Keys(pairs: set<Pair>): set<string> {
    set p | p in pairs :: KeyOf(p)
  }

  /** A pair is examined unless its key has been seen. */
  function WithPair(pairs: set<Pair>, pair: Pair): set<Pair> {
    if KeyOf(pair) in Keys(pairs) then pairs else pairs + {pair}
  }

  /** The pairs that a backfill of the first `n` follows examines. */
  function ExaminedUpTo(rows: seq<Follow>, n: nat): set<Pair>
    requires n <= |rows|
  {
    if n == 0 then {}
    else if SelfFollow(rows[n - 1]) then ExaminedUpTo(rows, n - 1)
    else WithPair(ExaminedUpTo(rows, n - 1), PairOf(rows[n - 1].follower, rows[n - 1].followed))
  }

  function Examined(rows: seq<Follow>): set<Pair> {
    ExaminedUpTo(rows, |rows|)
  }

  lemma {:induction false} ExaminedAreOrdered(rows: seq<Follow>, n: nat)
    requires n <= |rows|
    ensures forall pair :: pair in ExaminedUpTo(rows, n) ==> Less(pair.0, pair.1)
  {
    if n > 0 {
      ExaminedAreOrdered(rows, n - 1);
    }
  }

  predicate DistinctKeys(pairs: set<Pair>) {
    forall p, q :: p in pairs && q in pairs && KeyOf(p) == KeyOf(q) ==> p == q
  }

  lemma {:induction false} ExaminedHaveDistinctKeys(rows: seq<Follow>, n: nat)
    requires n <= |rows|
    ensures ExaminedUpTo(rows, n) <= PairsUpTo(rows, n)
    ensures DistinctKeys(ExaminedUpTo(rows, n))
    ensures Keys(ExaminedUpTo(rows, n)) == Keys(PairsUpTo(rows, n))
  {
    if n > 0 {
      ExaminedHaveDistinctKeys(rows, n - 1);
      if SelfFollow(rows[n - 1]) {
        assert PairsUpTo(rows, n) == PairsUpTo(rows, n - 1);
      } else {
        OneMoreFollow(rows, n - 1);
        WithPairKeepsKeys(ExaminedUpTo(rows, n - 1), PairsUpTo(rows, n - 1),
                          PairOf(rows[n - 1].follower, rows[n - 1].followed));
      }
    }
  }

  lemma WithPairKeepsKeys(examined: set<Pair>, pairs: set<Pair>, pair: Pair)
    requires examined <= pairs && DistinctKeys(examined) && Keys(examined) == Keys(pairs)
    ensures var after := WithPair(examined, pair);
            after <= pairs + {pair} && DistinctKeys(after) && Keys(after) == Keys(pairs + {pair})
  {
    OneMoreKey(examined, pair);
    OneMoreKey(pairs, pair);
  }

  lemma OneMoreKey(pairs: set<Pair>, pair: Pair)
    ensures Keys(pairs + {pair}) == Keys(pairs) + {KeyOf(pair)}
    ensures KeyOf(pair) !in Keys(pairs) && DistinctKeys(pairs) ==> DistinctKeys(pairs + {pair})
  {
  }

  /** A backfill examines every pair exactly when no two of them share a key. */
  lemma ExaminedExactly(rows: seq<Follow>)
    ensures Examined(rows) == PairsOf(rows) <==> DistinctKeys(PairsOf(rows))
  {
    var examined, pairs := Examined(rows), PairsOf(rows);
    ExaminedHaveDistinctKeys(rows, |rows|);
    if DistinctKeys(pairs) {
      forall p | p in pairs
        ensures p in examined
      {
        assert KeyOf(p) in Keys(examined);
        var q :| q in examined && KeyOf(q) == KeyOf(p);
      }
    }
  }

  /** Distinct pairs have distinct `low:high` keys when ids hold no colon. */
  lemma KeyIsInjective(p: Pair, q: Pair)
    requires ':' !in p.0 && ':' !in q.0 && KeyOf(p) == KeyOf(q)
    ensures p == q
  {
    var a, b := KeyOf(p), KeyOf(q);
    assert a == p.0 + (":" + p.1) && b == q.0 + (":" + q.1);
    BeforeOfConcat(p.0, ":" + p.1, ':');
    BeforeOfConcat(q.0, ":" + q.1, ':');
    assert a[|p.0| + 1..] == p.1 && b[|q.0| + 1..] == q.1;
  }

  lemma ColonFreePairsHaveDistinctKeys(pairs: set<Pair>)
    requires forall p :: p in pairs ==> ':' !in p.0
    ensures DistinctKeys(pairs)
  {
    forall p, q | p in pairs && q in pairs && KeyOf(p) == KeyOf(q)
      ensures p == q
    {
      KeyIsInjective(p, q);
    }
  }

  /** With colons in ids two pairs can share a key, and the second is never examined. */
  lemma ColonsHideAPair()
    ensures var rows := [Follow("a", "b:c"), Follow("a:b", "c")];
            Examined(rows) == {("a", "b:c")} && ("a:b", "c") in PairsOf(rows)
  {
    var rows := [Follow("a", "b:c"), Follow("a:b", "c")];
    assert PairOf("a", "b:c") == ("a", "b:c") && PairOf("a:b", "c") == ("a:b", "c");
    assert KeyOf(("a", "b:c")) == "a:b:c" == KeyOf(("a:b", "c"));
    assert ExaminedUpTo(rows, 0) == {};
    assert ExaminedUpTo(rows, 1) == {("a", "b:c")};
    assert KeyOf(("a:b", "c")) in Keys({("a", "b:c")});
    assert !SelfFollow(rows[1]);
  }

  /** The follows a backfill acts on, as events. */
  function FollowEvents(rows: seq<Follow>, n: nat): seq<Event>
    requires n <= |rows|
  {
    if n == 0 then []
    else
      var front, row := FollowEvents(rows, n - 1), rows[n - 1];
      if SelfFollow(row) || KeyOf(PairOf(row.follower, row.followed)) in Keys(ExaminedUpTo(rows, n - 1)) then front
      else front + [FollowAllow(row.follower, row.followed)]
  }

  /** A backfill is a run of allowed follows, so whatever holds over every run holds over backfills too. */
  lemma {:induction false} BackfillIsARun(table: Table, rows: seq<Follow>, n: nat)
    requires Sound(table) && n <= |rows|
    ensures Run(table, FollowEvents(rows, n)) == Backfilled(table, ExaminedUpTo(rows, n))
  {
    if n > 0 {
      BackfillIsARun(table, rows, n - 1);
      var row := rows[n - 1];
      if !SelfFollow(row) && KeyOf(PairOf(row.follower, row.followed)) !in Keys(ExaminedUpTo(rows, n - 1)) {
        var front := FollowEvents(rows, n - 1);
        var e := FollowAllow(row.follower, row.followed);
        assert (front + [e])[..|front|] == front;
        FollowBackfillsItsPair(table, ExaminedUpTo(rows, n - 1), row);
      }
    }
  }

  lemma FollowBackfillsItsPair(table: Table, pairs: set<Pair>, row: Follow)
    requires Sound(table) && !SelfFollow(row) && PairOf(row.follower, row.followed) !in pairs
    ensures Step(Backfilled(table, pairs), FollowAllow(row.follower, row.followed)) ==
            Backfilled(table, pairs + {PairOf(row.follower, row.followed)})
  {
  }

  datatype EnsureResult = Created | AlreadyActive | SkippedBlocked

  function EnsureOutcome(table: Table, pair: Pair): EnsureResult {
    if BlockedIn(table, pair) then SkippedBlocked
    else if pair in table && table[pair].status.Active? then AlreadyActive
    else Created
  }

  function Counted(counts: Counts, result: EnsureResult): Counts {
    match result
    case Created => counts.(created := counts.created + 1)
    case AlreadyActive => counts.(alreadyActive := counts.alreadyActive + 1)
    case SkippedBlocked => counts.(skippedBlocked := counts.skippedBlocked + 1)
  }

  /** The loop's variables. */
  datatype Scan = Scan(table: Table, seen: set<string>, counts: Counts)

  /** The loop's variables once `pairs` have been examined. */
  ghost predicate Progress(before: Table, pairs: set<Pair>, s: Scan) {
    && s.seen == Keys(pairs) && |s.seen| == |pairs|
    && s.table == Backfilled(before, pairs)
    && s.counts.skippedBlocked == |BlockedAmong(before, pairs)|
    && s.counts.alreadyActive == |ActiveAmong(before, pairs)|
    && s.counts.created + s.counts.alreadyActive + s.counts.skippedBlocked == |pairs|
  }

  lemma CountsAdd(before: Table, pairs: set<Pair>, pair: Pair, counts: Counts)
    requires pair !in pairs
    requires counts.skippedBlocked == |BlockedAmong(before, pairs)| && counts.alreadyActive == |ActiveAmong(before, pairs)|
    ensures var after := Counted(counts, EnsureOutcome(before, pair));
            && after.skippedBlocked == |BlockedAmong(before, pairs + {pair})|
            && after.alreadyActive == |ActiveAmong(before, pairs + {pair})|
            && after.created + after.alreadyActive + after.skippedBlocked ==
               counts.created + counts.alreadyActive + counts.skippedBlocked + 1
  {
    OneMoreBlocked(before, pairs, pair);
    OneMoreActive(before, pairs, pair);
  }

  lemma ProgressAdds(before: Table, pairs: set<Pair>, pair: Pair, s: Scan)
    requires Sound(before) && Progress(before, pairs, s)
    requires pair !in pairs && KeyOf(pair) !in s.seen && Keys(pairs + {pair}) == s.seen + {KeyOf(pair)}
    ensures var result := EnsureOutcome(s.table, pair);
            Progress(before, pairs + {pair},
                     Scan(if result.Created? then s.table[pair := ACTIVE] else s.table, s.seen + {KeyOf(pair)},
                          Counted(s.counts, result)))
  {
    CountsAdd(before, pairs, pair, s.counts);
    OneMoreBackfilled(before, pairs, pair);
  }

  function ExamineStep(s: Scan, row: Follow): Scan
    requires !SelfFollow(row)
  {
    var pair := PairOf(row.follower, row.followed);
    var result := EnsureOutcome(s.table, pair);
    if KeyOf(pair) in s.seen then s
    else Scan(if result.Created? then s.table[pair := ACTIVE] else s.table, s.seen + {KeyOf(pair)}, Counted(s.counts, result))
  }

  /** The loop's variables after the first `n` follows. */
  function ScanUpTo(table: Table, rows: seq<Follow>, n: nat): Scan
    requires n <= Stop(rows)
  {
    if n == 0 then Scan(table, {}, Counts(0, 0, 0, 0))
    else
      StopIsFirst(rows);
      ExamineStep(ScanUpTo(table, rows, n - 1), rows[n - 1])
  }

  /** Where the loop ends: the first self-follow, or the end of the list. */
  function Stop(rows: seq<Follow>): (n: nat)
    ensures n <= |rows|
  {
    if rows == [] || SelfFollow(rows[0]) then 0 else 1 + Stop(rows[1..])
  }

  lemma {:induction false} StopIsFirst(rows: seq<Follow>)
    ensures Stop(rows) < |rows| ==> FirstSelfFollow(rows, Stop(rows)) && rows[Stop(rows)] in rows
    ensures forall k :: 0 <= k < Stop(rows) ==> !SelfFollow(rows[k])
  {
    if rows != [] && !SelfFollow(rows[0]) {
      StopIsFirst(rows[1..]);
      assert forall k :: 0 < k < |rows| ==> rows[k] == rows[1..][k - 1];
    }
  }

  lemma StepKeepsProgress(before: Table, pairs: set<Pair>, s: Scan, row: Follow)
    requires !SelfFollow(row) && Sound(before) && Progress(before, pairs, s)
    ensures Progress(before, WithPair(pairs, PairOf(row.follower, row.followed)), ExamineStep(s, row))
  {
    var pair := PairOf(row.follower, row.followed);
    if KeyOf(pair) !in s.seen {
      OneMoreKey(pairs, pair);
      ProgressAdds(before, pairs, pair, s);
    }
  }

  lemma NotSelfBeforeStop(rows: seq<Follow>, k: nat)
    requires k < Stop(rows)
    ensures !SelfFollow(rows[k])
  {
    StopIsFirst(rows);
  }

  lemma {:induction false} ScanMakesProgress(before: Table, rows: seq<Follow>, n: nat, pairs: set<Pair>, s: Scan)
    requires Sound(before) && n <= Stop(rows)
    requires pairs == ExaminedUpTo(rows, n) && s == ScanUpTo(before, rows, n)
    ensures Progress(before, pairs, s)
  {
    if n == 0 {
      ScanStarts(before, rows);
    } else {
      NotSelfBeforeStop(rows, n - 1);
      var pairs', s' := ExaminedUpTo(rows, n - 1), ScanUpTo(before, rows, n - 1);
      ScanMakesProgress(before, rows, n - 1, pairs', s');
      StepKeepsProgress(before, pairs', s', rows[n - 1]);
    }
  }

  lemma ScanStarts(before: Table, rows: seq<Follow>)
    ensures Progress(before, ExaminedUpTo(rows, 0), ScanUpTo(before, rows, 0))
  {
  }

  /** What the loop's variables mean when it ends. */
  lemma ScanTells(before: Table, rows: seq<Follow>)
    requires Sound(before)
    ensures var n := Stop(rows);
            var s, pairs := ScanUpTo(before, rows, n), ExaminedUpTo(rows, n);
            && s.table == Backfilled(before, pairs) && Sound(s.table) && |s.seen| == |pairs|
            && s.counts.skippedBlocked == |BlockedAmong(before, pairs)|
            && s.counts.alreadyActive == |ActiveAmong(before, pairs)|
            && s.counts.created + s.counts.alreadyActive + s.counts.skippedBlocked == |pairs|
  {
    var n := Stop(rows);
    ScanMakesProgress(before, rows, n, ExaminedUpTo(rows, n), ScanUpTo(before, rows, n));
    ExaminedAreOrdered(rows, n);
    BackfilledIsSound(before, ExaminedUpTo(rows, n));
  }

  class AccessService {
    var connections: Table

    constructor ()
      ensures connections == map[]
    {
      connections := map[];
    }

    method ApplyOwnerAction(company: CompanyId, pair: Pair, action: Action) returns (r: Option<Refusal>)
      modifies this
      ensures r == RefusalOf(old(connections), OwnerAction(company, pair, action))
      ensures connections == Step(old(connections), OwnerAction(company, pair, action))
      ensures r == if pair !in old(connections) || (company != pair.0 && company != pair.1) then Some(NotFound)
                   else
                     var was := old(connections)[pair];
                     if action.Pause? || (action.Resume? && !was.status.Paused?) || (action.Block? && !was.status.Active?)
                        || (action.Unblock? && !was.status.Blocked?)
                     then Some(InvalidTransition)
                     else if !action.Block? && was.setter != Some(company) then Some(NotFound)
                     else None
      ensures connections == if r.Some? then old(connections)
                             else old(connections)[pair := if action.Block? then Connection(Blocked, Some(company))
                                                           else Connection(Active, None)]
    {
      if pair !in connections || (pair.0 != company && pair.1 != company) {
        return Some(NotFound);
      }
      if action.Pause? {
        return Some(InvalidTransition);
      }
      if connections[pair].status !in AllowedFrom(action) {
        return Some(InvalidTransition);
      }
      if (action.Resume? || action.Unblock?) && connections[pair].setter != Some(company) {
        return Some(NotFound);
      }
      var nextStatus := match action case Pause => Paused case Resume => Active case Block => Blocked case Unblock => Active;
      var setter := if nextStatus.Active? then None else Some(company);
      connections := connections[pair := Connection(nextStatus, setter)];
      return None;
    }

    method EnsureActiveConnection(company: CompanyId, other: CompanyId) returns (r: Option<Refusal>)
      modifies this
      ensures r == RefusalOf(old(connections), ChatAccept(company, other))
      ensures Sound(old(connections)) ==> connections == Step(old(connections), ChatAccept(company, other))
      ensures r.Some? ==> unchanged(this)
      ensures r == if company == other then Some(SelfPair)
                   else if PairOf(company, other) in old(connections)
                           && old(connections)[PairOf(company, other)].status.Blocked? then Some(ConnectionBlocked)
                   else None
      ensures r.None? && Sound(old(connections)) ==>
                connections == old(connections)[PairOf(company, other) := Connection(Active, None)]
    {
      if company == other {
        return Some(SelfPair);
      }
      var pair := PairOf(company, other);
      if pair in connections && connections[pair].status.Blocked? {
        return Some(ConnectionBlocked);
      }
      if pair in connections && connections[pair].status.Active? {
        return None;
      }
      connections := connections[pair := ACTIVE];
      return None;
    }

    method BlockCounterpart(company: CompanyId, other: CompanyId) returns (r: Option<Refusal>)
      modifies this
      ensures r == RefusalOf(old(connections), Event.BlockCounterpart(company, other))
      ensures connections == Step(old(connections), Event.BlockCounterpart(company, other))
      ensures if company == other then r == Some(SelfPair) && unchanged(this)
              else r == None && connections == old(connections)[PairOf(company, other) := Connection(Blocked, Some(company))]
    {
      if company == other {
        return Some(SelfPair);
      }
      connections := connections[PairOf(company, other) := Connection(Blocked, Some(company))];
      return None;
    }

    method FinalizeApprove(target: CompanyId, requester: CompanyId) returns (r: Option<Refusal>)
      modifies this
      ensures r == RefusalOf(old(connections), Approve(target, requester))
      ensures connections == Step(old(connections), Approve(target, requester))
      ensures r == if target == requester then Some(SelfPair)
                   else if PairOf(target, requester) in old(connections)
                           && old(connections)[PairOf(target, requester)].status.Blocked? then Some(ConnectionBlocked)
                   else None
      ensures if r.Some? then unchanged(this)
              else connections == old(connections)[PairOf(target, requester) := Connection(Active, None)]
    {
      if target == requester {
        return Some(SelfPair);
      }
      var pair := PairOf(target, requester);
      if pair in connections && connections[pair].status.Blocked? {
        return Some(ConnectionBlocked);
      }
      connections := connections[pair := ACTIVE];
      return None;
    }

    method EnsureActiveConnectionUnlessBlocked(a: CompanyId, b: CompanyId) returns (r: EnsureResult)
      modifies this
      ensures Sound(old(connections)) ==> connections == Step(old(connections), FollowAllow(a, b))
      ensures a != b ==>
                var pair := PairOf(a, b);
                && r == EnsureOutcome(old(connections), pair)
                && (r.SkippedBlocked? <==> pair in old(connections) && old(connections)[pair].status.Blocked?)
                && (r.AlreadyActive? <==> pair in old(connections) && old(connections)[pair].status.Active?)
                && connections == if r.Created? then old(connections)[pair := Connection(Active, None)] else old(connections)
      ensures a == b ==> unchanged(this)
    {
      if a == b {
        return AlreadyActive;
      }
      var pair := PairOf(a, b);
      if pair in connections && connections[pair].status.Blocked? {
        return SkippedBlocked;
      }
      if pair in connections && connections[pair].status.Active? {
        return AlreadyActive;
      }
      connections := connections[pair := ACTIVE];
      return Created;
    }

    /** One turn of the backfill loop, for a follow between two companies. */
    method Examine(row: Follow, seen: set<string>, counts: Counts) returns (seen': set<string>, counts': Counts)
      requires !SelfFollow(row)
      modifies this
      ensures Scan(connections, seen', counts') == ExamineStep(Scan(old(connections), seen, counts), row)
    {
      var pair := PairOf(row.follower, row.followed);
      var key := KeyOf(pair);
      if key in seen {
        return seen, counts;
      }
      var result := EnsureActiveConnectionUnlessBlocked(row.follower, row.followed);
      return seen + {key}, Counted(counts, result);
    }

    /** The loop of the backfill, up to the first self-follow. */
    method ExamineAll(rows: seq<Follow>) returns (n: nat, seen: set<string>, counts: Counts)
      modifies this
      ensures n == Stop(rows)
      ensures Scan(connections, seen, counts) == ScanUpTo(old(connections), rows, n)
    {
      seen, counts, n := {}, Counts(0, 0, 0, 0), 0;
      while n < |rows| && !SelfFollow(rows[n])
        invariant n <= Stop(rows)
        invariant Scan(connections, seen, counts) == ScanUpTo(old(connections), rows, n)
      {
        StopIsFirst(rows);
        seen, counts := Examine(rows[n], seen, counts);
        n := n + 1;
      }
      StopIsFirst(rows);
    }

    /** Stops with an error at the first self-follow, keeping what it has already written. */
    method Backfill(rows: seq<Follow>) returns (r: Result<Counts, Refusal>)
      requires Sound(connections)
      modifies this
      ensures Sound(connections)
      ensures r.Err? <==> exists row :: row in rows && SelfFollow(row)
      ensures r.Err? ==> exists k :: FirstSelfFollow(rows, k)
                                     && connections == Backfilled(old(connections), ExaminedUpTo(rows, k))
      ensures r.Ok? ==>
                && connections == Backfilled(old(connections), Examined(rows))
                && r.value.examined == |Examined(rows)|
                && r.value.skippedBlocked == |BlockedAmong(old(connections), Examined(rows))|
                && r.value.alreadyActive == |ActiveAmong(old(connections), Examined(rows))|
                && r.value.created + r.value.alreadyActive + r.value.skippedBlocked == r.value.examined
    {
      var n, seen, counts := ExamineAll(rows);
      StopIsFirst(rows);
      ScanTells(old(connections), rows);
      if n < |rows| {
        assert FirstSelfFollow(rows, n);
        return Err(SelfPair);
      }
      return Ok(counts.(examined := |seen|));
    }
  }

  predicate FirstSelfFollow(rows: seq<Follow>, k: int) {
    0 <= k < |rows| && SelfFollow(rows[k]) && forall j :: 0 <= j < k ==> !SelfFollow(rows[j])
  }

  /** After a backfill every pair is Active or was already blocked, blocks are as they were, and so are other pairs. */
  lemma BackfillReaches(table: Table, pairs: set<Pair>, pair: Pair)
    ensures pair in Backfilled(table, pairs) <==> pair in table || pair in pairs
    ensures pair in Backfilled(table, pairs) ==>
              Backfilled(table, pairs)[pair] ==
              if pair in pairs && !(pair in table && table[pair].status.Blocked?) then Connection(Active, None)
              else table[pair]
  {
  }

  /** A second backfill over the same follows creates nothing. */
  lemma SecondBackfillCreatesNothing(table: Table, pairs: set<Pair>)
    ensures var after := Backfilled(table, pairs);
            && Backfilled(after, pairs) == after
            && |BlockedAmong(after, pairs)| + |ActiveAmong(after, pairs)| == |pairs|
  {
    var after := Backfilled(table, pairs);
    forall pair | pair in pairs
      ensures pair in BlockedAmong(after, pairs) || pair in ActiveAmong(after, pairs)
      ensures BlockedIn(after, pair) || after[pair] == ACTIVE
    {
      BackfillReaches(table, pairs, pair);
    }
    assert BlockedAmong(after, pairs) + ActiveAmong(after, pairs) == pairs;
    assert BlockedAmong(after, pairs) !! ActiveAmong(after, pairs);
  }
}
