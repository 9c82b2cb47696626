# Ekum: what the catalogue, chat and session code keeps

A Dafny model of the parts of the repository with the most state and arithmetic, with proofs about every run, every
table or every input. `dafny verify dfyconfig.toml` checks all of it.

Where a method in the repository rewrites rows, the model is a class whose fields are the tables (maps, sets, sequences);
each method states, field by field, what it writes and what it leaves, and is proved equal to a step of the runs that the
laws are about. Expressions and parsers are functions. A database transaction is one atomic step; several service calls
are a run. Ids chosen by the database, signed tokens, clocks and the outcome of calls the model does not look into are
parameters (`freshId`, `minted`, `now`, `Fault`, `allowed`).

| file | what it models |
|---|---|
| `Packs.dfy`, `HideCascade.dfy` | withdrawing a pack: the job queue that hides its published reposts, with cycles allowed |
| `MembershipSync.dfy` | the three-way merge of a repost's designs under a watermark |
| `SourceChain.dfy`, `RepostLineage.dfy` | source chains, the cached root, manual reposts and automatic delivery |
| `CatalogExclusivity.dfy`, `CatalogService.dfy` | a design belongs to one catalog: stamps and membership rows over all calls |
| `TrioCollapse.dfy` | one group per trade trio: clones collapsed into a survivor |
| `MessagePaging.dfy` | pages that are filtered after they are cut |
| `Connections.dfy` | mutual connections, blocks, and the backfill for allowed follows |
| `RefreshRotation.dfy` | refresh-token rotation with a grace cache |
| `Crc32.dfy`, `CrcCheck.dfy`, `Png.dfy` | the bitwise checksum and its check values, PNG chunks and the raster of a solid image |
| `OrderBilling.dfy`, `CatalogWholeGroup.dfy`, `TicketBilling.dfy` | billing by line, regrouping by catalog, and billing by group |
| `CatalogOrders.dfy` | ordering designs of whole catalogs: from what `setProducts` stamped to what the ticket bills |
| `MediaPaths.dfy`, `MediaUrls.dfy` | storage keys and links of photos and their variants |
| `TagSlots.dfy`, `BulkPaste.dfy` | tag slots and pruning; pasting tags in bulk |
| `EscapeHtml.dfy`, `Fingerprint.dfy`, `Diversify.dfy` | HTML escaping, the group key, the Explore window |
| `Common.dfy`, `Text.dfy`, `Lists.dfy`, `LabelLists.dfy` | shared types and facts about strings and lists |

Nine promises do not hold on all inputs. Each has a counterexample, and the exact condition under which it holds:

- the bounded root walk misreads an unstamped chain of 33 links (`LongUnstampedChainIsMisread`, `RootIdExactly`); every
  creation path stamps its row, so such a chain can only come from rows whose root column was left null, and but for
  that the chain is sound (`LongChainHasSoundSources`);
- bringing an archived catalog back can put a design in two catalogs, although `unarchive` calls Archived permanent,
  because `setStatus` and `publish` do not look at the current status (`RevivalBreaksExclusivity`,
  `StepKeepsExclusiveExactly`);
- a call for one trio on a stored group can turn that group into a second group of another trio
  (`ReactivationMakesATwin`, `SettlingKeepsOneGroupExactly`);
- a page whose rows are all hidden ends the crawl early (`AllHiddenPageLosesTheRest`, `PagingIsCompleteExactly`);
- a company can block over its counterpart's block and then lift it (`CounterBlockLiftsABlock`, `BlockLastsExactly`);
- a backfill skips a pair whose `low:high` key another pair has, which takes a colon in an id (`ColonsHideAPair`,
  `ExaminedExactly`);
- pruning the grace cache shows when the clock goes back (`PruningShowsWhenTheClockGoesBack`,
  `PruningIsUnobservableExactly`);
- relocating a key twice differs when the key is already in `original` and its first character past any leading slashes
  is a backslash (`BackslashKeyRelocatesTwice`, `RelocationIsIdempotentExactly`);
- ids with commas can share a group key (`CommaConfusesKeys`, `KeysAgreeExactly`).

## Model

| member | source | states |
|---|---|---|
| HideCascade.PropagateService.Propagate | apps/api/src/catalog/collection-propagate.service.ts:80-109 | one job: an unknown or General pack does nothing, a published pack goes to delivery, any other hides its published reposts and queues one job for each |
| HideCascade.PropagateService.HideImmediateChildren | apps/api/src/catalog/collection-propagate.service.ts:111-127 | exactly the published packs sourced from this one become Draft off Explore, and exactly they are queued, once each |
| HideCascade.HidingJobKeepsMidway | apps/api/src/catalog/collection-propagate.service.ts:111-127 | a job keeps the cascade invariant: what changed is doomed and hidden, what is doomed and still published has a queued ancestor |
| HideCascade.PropagateService.RunOneJob | apps/api/src/catalog/collection-propagate.service.ts:80-127 | whichever job is taken, published packs plus queue length falls by exactly one |
| HideCascade.PropagateService.Drain | apps/api/src/catalog/collection-propagate.service.ts:80-127 | the queue drains even if links form cycles, in as many jobs as were queued plus packs doomed; the packs hidden are exactly those reachable from a hiding job through packs all published at the start; a hidden pack is a Draft without an Explore date and otherwise as it was, and no other row changes |
| HideCascade.PropagateService.Withdraw | apps/api/src/catalog/collection.service.ts:784-823 | drafting or archiving a pack and draining, with other hiding jobs queued or not, hides exactly what hangs from it and from them; a refused call changes nothing |
| HideCascade.EmptyQueueIsCascaded | apps/api/src/catalog/collection-propagate.service.ts:80-127 | once no job is left the table is the cascaded one and the published packs are those that were not doomed |
| HideCascade.HangingIsHidden | apps/api/src/catalog/collection-propagate.service.ts:111-127 | every pack that hung from a root by any number of published links is hidden when the queue is empty |
| HideCascade.NothingHangs | apps/api/src/catalog/collection-propagate.service.ts:111-127 | after a cascade no published pack hangs from a root any more |
| HideCascade.CascadeSettles | apps/api/src/catalog/collection-propagate.service.ts:80-127 | a second cascade from the same packs hides nothing more |
| MembershipSync.SyncedMembers | apps/api/src/catalog/collection-propagate.service.ts:290-342 | an applied sync leaves the source's designs plus the old members in neither the source nor the last snapshot |
| MembershipSync.SyncedOrder | apps/api/src/catalog/collection-propagate.service.ts:290-342 | an applied sync remembers the source's token and designs, puts the source's designs first in their order when a design comes or goes, and otherwise leaves the list alone; a skipped one changes nothing |
| MembershipSync.SkippedExactly | apps/api/src/catalog/collection-propagate.service.ts:290-342 | a sync is skipped exactly when its token is older, or equal with no design to add or withdraw |
| MembershipSync.ChangedMeansSetsDiffer | apps/api/src/catalog/collection-propagate.service.ts:290-342 | the length-and-inclusion test decides whether the two member sets differ |
| MembershipSync.SyncTwiceIsOnce | apps/api/src/catalog/collection-propagate.service.ts:290-342 | repeating the same sync changes nothing |
| MembershipSync.WatermarkNeverGoesBack | apps/api/src/catalog/collection-propagate.service.ts:290-342 | over any run of syncs and owner edits the watermark only grows |
| MembershipSync.HandAddedIsNeverLost | apps/api/src/catalog/collection-propagate.service.ts:290-342 | a design the source never carries and the owner keeps survives every run |
| MembershipSync.MembersAfterAnyRun | apps/api/src/catalog/collection-propagate.service.ts:290-342 | closed form after any run of syncs: the last applied source plus the original members no applied source or snapshot carried |
| SourceChain.RootIdExactly | apps/api/src/catalog/collection-lineage.ts:5-32 | the bounded walk returns the chain's end if and only if the end is at most 32 links away or one of the first 32 packs is stamped |
| SourceChain.RootIdReads | apps/api/src/catalog/collection-lineage.ts:5-32 | where the walk stops on any table: its 33rd pack or the first it meets twice, the pack it began with when one is unknown, a stamp, or a pack without a source |
| SourceChain.LongUnstampedChainIsMisread | apps/api/src/catalog/collection-lineage.ts:5-32 | a concrete chain of 33 unstamped links, each pack of its own company, is resolved to the wrong pack |
| SourceChain.LongChainOwners | apps/api/src/catalog/collection-propagate.service.ts:372-387 | no company owns two packs of that chain |
| RepostLineage.LongChainHasSoundSources | apps/api/src/catalog/collection.service.ts:291-340 | every source on that chain exists and belongs to another company, as creation demands |
| SourceChain.EndIsUnique | apps/api/src/catalog/collection-lineage.ts:5-32 | a chain has one end and every pack on it shares it |
| SourceChain.EndingChainHasNoRepeat | apps/api/src/catalog/collection-lineage.ts:5-32 | a chain that ends visits no pack twice, so the walk's `seen` set stops only cycles |
| RepostLineage.RepostService.ResolveRepostRootId | apps/api/src/catalog/collection-lineage.ts:5-32 | the loop computes the walk that the laws are about |
| RepostLineage.RepostService.CompanyOnSourceChain | apps/api/src/catalog/collection-propagate.service.ts:372-387 | decides exactly whether a company owns any pack on the chain, cycles included |
| RepostLineage.StepKeepsLineage | apps/api/src/catalog/collection-propagate.service.ts:129-358 | create, automatic stamp, sync stamp and any other row update keep: every stamped root is the end of its chain, chains end, and an automatic repost's company occurs nowhere further up |
| RepostLineage.EveryRunKeepsLineage | apps/api/src/catalog/collection-propagate.service.ts:129-358 | the same over every run of these events |
| RepostLineage.CacheAgreesFromScratch | apps/api/src/catalog/collection-lineage.ts:5-32 | in every table reached from the empty one, the cached root, the walked root and the end of the chain are the same pack, whatever the chain length, and automatic deliveries repeat no company |
| RepostLineage.RootIdIsTheEnd | apps/api/src/catalog/collection-lineage.ts:5-32 | under the invariant the walk reaches the end of chains of any length |
| RepostLineage.SurvivorExists | apps/api/src/catalog/collection-lineage.ts:50-59 | among any candidates there is an oldest published one, or an oldest one when none is published |
| RepostLineage.RepostService.PickRootSurvivor | apps/api/src/catalog/collection-lineage.ts:50-59 | the pack picked is published if any is, and none of its kind is older by Explore date, else creation date, ties by creation date |
| RepostLineage.Buyers | apps/api/src/catalog/collection-propagate.service.ts:160-177 | the buyers of a delivery are the distinct lane buyers other than the trader and the seller |
| RepostLineage.PublishedOfConcat | apps/api/src/catalog/collection-propagate.service.ts:360-370 | the published members keep their order |
| RepostLineage.RepostService.CreateRepost | apps/api/src/catalog/collection.service.ts:161-289 | refuses an unpublished source, an own source, a clashing name and a live second repost; reuses a draft or an automatic pack shown to selected buyers; otherwise adds one Draft of the company with the source, its root and a manual origin |
| RepostLineage.RepostService.AddRepost | apps/api/src/catalog/collection.service.ts:1595-1610 | the new row and its stamp leave the chain's end as its root |
| RepostLineage.RepostService.SyncMembership | apps/api/src/catalog/collection-propagate.service.ts:290-342 | the destination gets the merged members, the root, the token and the snapshot, and a new Explore date exactly when it is published and a design came or went; a skipped or refused sync changes nothing; a job is queued exactly when a published pack gains a design |
| RepostLineage.RepostService.SyncSelectedBuyers | apps/api/src/catalog/collection-propagate.service.ts:271-288 | an automatic Selected pack's audience becomes its union with the buyers; any other pack is left alone |
| RepostLineage.RepostService.DeliverToTrader | apps/api/src/catalog/collection-propagate.service.ts:129-269 | nothing happens exactly when one of the guards, each spelled out, stops it; a live repost is refreshed, an oldest one, and the buyers join its audience; otherwise, unless a step throws, one published row appears, shown to exactly the lane buyers other than trader and seller, with the source's forwarding, its published designs as members and snapshot, its Explore or update date as watermark, and the end of the chain as root |
| RepostLineage.RepostService.DeliverNew | apps/api/src/catalog/collection-propagate.service.ts:211-247 | fails exactly when a step throws or the source has no published design, and then no row is touched and none is published; else the new row, every column of it, and one job |
| RepostLineage.RepostService.CreateAndFill | apps/api/src/catalog/collection-propagate.service.ts:212-222 | a draft with exactly the source's published designs, or at most an empty draft when a step throws |
| RepostLineage.RepostService.StampAndPublish | apps/api/src/catalog/collection-propagate.service.ts:344-358 | the stamp and the publish leave one row, stated column by column, whose root is the end of its chain; without the publish it stays unpublished |
| RepostLineage.RepostService.Refresh | apps/api/src/catalog/collection-propagate.service.ts:200-209 | the survivor gets the merged members, the snapshot, the root, the Explore date of a changed published pack and the audience union; no other column or row changes; it fails only when the merge is refused and then writes nothing |
| CatalogExclusivity.CatalogMembersAreExclusive | apps/api/src/catalog/collection.service.ts:997-1279 | the invariant means: an own design in a live catalog sits in no other live pack and carries that catalog's stamp |
| CatalogExclusivity.SetProductsKeepsExclusive | apps/api/src/catalog/collection.service.ts:997-1279 | every accepted call, relocating or not, keeps stamps and rows in agreement |
| CatalogExclusivity.SetProductsDesigns | apps/api/src/catalog/collection.service.ts:1137-1246 | design by design: a catalog stamps and prices exactly the own designs newly taken in and unstamps those that leave; a regular pack unstamps those it relocates; status, market flag, company and every other price stay |
| CatalogExclusivity.SetProductsOwnRows | apps/api/src/catalog/collection.service.ts:1137-1246 | after an accepted call the pack holds exactly the listed designs |
| CatalogExclusivity.SetProductsOtherRows | apps/api/src/catalog/collection.service.ts:1137-1246 | of other packs' rows exactly those of relocated designs go, from live packs for a catalog and from the company's catalogs for a regular pack; the others keep their position |
| CatalogExclusivity.SetProductsPositions | apps/api/src/catalog/collection.service.ts:1173-1182 | each design stands at the place of its first mention, repeats not counted |
| CatalogExclusivity.TermsAfterStep | apps/api/src/catalog/product.service.ts:97-145 | a design's terms change only when its owner edits its price or a catalog takes it in, and then to the edited ones or the catalog's |
| CatalogExclusivity.TermsLast | apps/api/src/catalog/collection.service.ts:1200-1212 | over any run a design keeps the terms of the catalog that took it in until the next call that reprices it |
| CatalogExclusivity.TakenInTogetherAgree | apps/api/src/catalog/collection.service.ts:1200-1212 | designs taken in by one call and not repriced since have the same rate, unit and pack size |
| CatalogExclusivity.StatusKeepsExclusive | apps/api/src/catalog/collection.service.ts:784-823 | draft, publish and archive, with or without their designs, keep it unless they bring an archived pack back |
| CatalogExclusivity.RevivalExactly | apps/api/src/catalog/collection.service.ts:777-823 | bringing an archived pack back keeps it exactly when its own designs still carry its stamp (no stamp, for a regular pack) |
| CatalogExclusivity.StepKeepsExclusiveExactly | apps/api/src/catalog/collection.service.ts:777-1279 | for every call: the rule survives if and only if the call revives no archived pack whose designs have moved on |
| CatalogExclusivity.EveryRunIsExclusive | apps/api/src/catalog/collection.service.ts:777-1279 | every run that revives no archived pack keeps the rule |
| CatalogExclusivity.NoDesignInTwoPlaces | apps/api/src/catalog/collection.service.ts:997-1279 | from empty tables, in every such run, no design is in a live catalog and another live pack of its company |
| CatalogExclusivity.RevivalBreaksExclusivity | apps/api/src/catalog/collection.service.ts:784-823 | a concrete run: archive, relocate, un-archive leaves a design in two live catalogs |
| CatalogService.CollectionService.Refusal | apps/api/src/catalog/collection.service.ts:1008-1134 | each guard spelled out, in source order, with its reason; it decides the refusal that the exclusivity laws assume passed |
| CatalogService.CollectionService.SetProducts | apps/api/src/catalog/collection.service.ts:997-1279 | a refused call changes nothing; an accepted one leaves exactly the listed designs in the pack, the catalog's stamp and terms on the own designs newly taken in, no stamp on those that left, and every other column of every design; the tables are those the laws are about |
| CatalogService.CollectionService.ClaimForCatalog | apps/api/src/catalog/collection.service.ts:1137-1214 | the step-by-step relocate, claim, release and price writes add up to the tables of `SetProductsDesigns`, `SetProductsOwnRows` and `SetProductsOtherRows`, and the claim count never falls short |
| CatalogService.ClaimIsWhole | apps/api/src/catalog/collection.service.ts:1157-1172 | once the guards have passed every newly added own design is free to claim |
| CatalogService.RegularRows | apps/api/src/catalog/collection.service.ts:1215-1246 | a regular pack's relocation, stepwise, is the same as all at once |
| CatalogService.CollectionService.SetStatus | apps/api/src/catalog/collection.service.ts:784-823 | each refusal and each write spelled out: the pack's status, and which own designs are drafted off the market or archived and unstamped with it; nothing else changes |
| CatalogService.CollectionService.DeleteOwnUnsharedMembers | apps/api/src/catalog/collection.service.ts:1298-1326 | archives and unstamps exactly the own designs that no other live pack holds |
| CatalogService.CollectionService.Publish | apps/api/src/catalog/collection.service.ts:594-760 | each refusal and each write spelled out: the pack and its own draft members become published, nothing else changes |
| TrioCollapse.ThreadService.EnsureTradeLaneGroup | apps/api/src/conversation/thread.service.ts:1281-1305 | reuses and settles a survivor when there is one, makes the only exact trio, open and with its three shops active, for three different shops, and otherwise does nothing |
| TrioCollapse.ThreadService.ReuseExactTrio | apps/api/src/conversation/thread.service.ts:1306-1349 | the stored open group if any, else an open group of exactly the wanted shops older than any other, settled; nothing changes when there is none |
| TrioCollapse.ThreadService.CollapseTrioClones | apps/api/src/conversation/thread.service.ts:1410-1450 | the bulk updates leave the collapsed tables |
| TrioCollapse.ThreadService.ReactivateTrioParticipants | apps/api/src/conversation/thread.service.ts:1384-1408 | exactly the wanted participants of the survivor become active and present |
| TrioCollapse.OnlySurvivorRemains | apps/api/src/conversation/thread.service.ts:1306-1471 | no open exact trio other than the survivor is left |
| TrioCollapse.ThreadsAfterSettling | apps/api/src/conversation/thread.service.ts:1306-1450 | thread by thread: clones close now and keep everything else; in the survivor the wanted shops are active, present and unhidden and it moves up exactly when a card reached it; other threads are untouched |
| TrioCollapse.MessagesAfterSettling | apps/api/src/conversation/thread.service.ts:1410-1450 | message by message: exactly the order cards and rates of clones that point at something the survivor has no such card for move to it |
| TrioCollapse.CardsReachSurvivor | apps/api/src/conversation/thread.service.ts:1410-1450 | every card key found in a clone or in the survivor is in the survivor afterwards |
| TrioCollapse.MessagesAreConserved | apps/api/src/conversation/thread.service.ts:1410-1450 | no message is created, lost or altered but for its thread, and only clone cards the survivor lacked move |
| TrioCollapse.LanesFollowSurvivor | apps/api/src/conversation/thread.service.ts:1410-1450 | every lane that pointed at a clone points at the survivor and no other lane changes |
| TrioCollapse.SettledIsFixed | apps/api/src/conversation/thread.service.ts:1306-1471 | settling a settled survivor, at any later time, changes nothing |
| TrioCollapse.SecondCallIsNoOp | apps/api/src/conversation/thread.service.ts:1281-1349 | a second call picks the same group and writes nothing |
| TrioCollapse.FoundAgainExactly | apps/api/src/conversation/thread.service.ts:1306-1349 | called without the stored id, the group is found again exactly when it holds the three shops and no other present one |
| TrioCollapse.NewGroupIsExact | apps/api/src/conversation/thread.service.ts:1350-1382 | a group just made is the only exact trio and settling on it changes nothing |
| TrioCollapse.SettlingKeepsOneGroupExactly | apps/api/src/conversation/thread.service.ts:1306-1450 | a call keeps one open group per trio if and only if reactivating the survivor's participants does not make it the group of another trio that has one |
| TrioCollapse.FullGroupMakesNoTwin | apps/api/src/conversation/thread.service.ts:1384-1408 | a group that nobody has left is never turned into another trio's |
| TrioCollapse.NewGroupKeepsOneGroup | apps/api/src/conversation/thread.service.ts:1350-1382 | making a group for a trio that has none keeps one open group per trio |
| TrioCollapse.ReactivationMakesATwin | apps/api/src/conversation/thread.service.ts:1306-1408 | a concrete store where a call on a stored group gives three shops a second open group |
| MessagePaging.PagingIsCompleteExactly | apps/api/src/conversation/message.service.ts:180-222 | following the cursor ends, yields a prefix of the visible messages in order and once each, and all of them if and only if no run of `limit` hidden rows stands before a visible one |
| MessagePaging.NextStart | apps/api/src/conversation/message.service.ts:180-222 | a page that names a cursor ends at a visible row and the next page starts right after it |
| MessagePaging.HiddenExactly | apps/api/src/conversation/side-message.ts:2-30 | a denied request is hidden from all but the company asked; otherwise only a system notice for one company's side is hidden, from all but that company |
| MessagePaging.VisibleExactly | apps/api/src/conversation/message.service.ts:199-202 | filtering keeps each visible row as often as it occurs and no other |
| MessagePaging.PageExactly | apps/api/src/conversation/message.service.ts:191-222 | a page shows what is visible of the next `limit` rows and names its last row exactly when rows are left and it shows any |
| MessagePaging.StartExactly | apps/api/src/conversation/message.service.ts:191-197 | a page starts at the top, or right after the cursor's row, and is empty when that row is gone |
| MessagePaging.CursorAdvances | apps/api/src/conversation/message.service.ts:180-222 | every cursor moves strictly on |
| MessagePaging.AllHiddenPageLosesTheRest | apps/api/src/conversation/side-message.ts:2-30 | a concrete thread where a hidden page ends paging before a visible message |
| Connections.EveryRunIsSound | apps/api/src/access/connection.service.ts:57-122 | in every reachable table pairs are ordered, Active rows name no setter and any other setter is one of the pair |
| Connections.StepKeepsSound | apps/api/src/access/access.service.ts:174-287 | every event keeps that |
| Connections.OnlySetterUnblocks | apps/api/src/access/access.service.ts:174-287 | a blocked pair stays blocked unless its recorded setter unblocks it; only a block by the counterpart changes the setter |
| Connections.BlockLastsExactly | apps/api/src/access/connection.service.ts:57-122 | a block and its setter last through a whole run if and only if the setter does not unblock and the counterpart does not block on top |
| Connections.CounterBlockLiftsABlock | apps/api/src/access/access.service.ts:216-245 | a concrete run in which the blocked company blocks back, becomes the setter and unblocks |
| Connections.BlocksAreSilent | apps/api/src/access/connection.service.ts:36-55 | in every reachable table an active pair is listed to its two companies, a block or a pause to the company that set it, and neither to anybody else |
| Connections.PairOf | apps/api/src/access/connection-pair.ts:4-21 | the ordered pair of two different companies |
| Connections.PairOfIsUnordered | apps/api/src/access/connection-pair.ts:4-21 | the pair does not depend on who is named first |
| Connections.AccessService.ApplyOwnerAction | apps/api/src/access/connection.service.ts:57-122 | each refusal spelled out in order; a block leaves the pair Blocked by the caller, a resume or an unblock leaves it Active with no setter, and no other pair changes |
| Connections.AccessService.EnsureActiveConnection | apps/api/src/access/access.service.ts:174-213 | refuses a self-pair and a block; otherwise the pair is Active with no setter and no other pair changes |
| Connections.AccessService.BlockCounterpart | apps/api/src/access/access.service.ts:216-245 | whatever the row was, the pair is Blocked by the caller and no other pair changes; a self-pair is refused |
| Connections.AccessService.FinalizeApprove | apps/api/src/access/access.service.ts:247-308 | a blocked pair is refused, never reactivated; any other becomes Active with no setter, and no other pair changes |
| Connections.AccessService.EnsureActiveConnectionUnlessBlocked | apps/api/src/access/ensure-active-connection.ts:35-76 | reports created, already active or blocked, and writes only in the first case |
| Connections.AccessService.Backfill | apps/api/src/access/ensure-active-connection.ts:78-112 | for any ids: every examined pair not blocked becomes Active, the table stays sound, the counters count what they name and sum to the pairs examined, and the first self-follow stops it where it stands |
| Connections.ExaminedExactly | apps/api/src/access/ensure-active-connection.ts:78-112 | every pair is examined if and only if no two pairs share a key |
| Connections.ColonFreePairsHaveDistinctKeys | apps/api/src/access/ensure-active-connection.ts:78-112 | pairs of ids without colons share no key |
| Connections.ColonsHideAPair | apps/api/src/access/ensure-active-connection.ts:78-112 | two concrete follows whose pairs share a key, the second never examined |
| Connections.BackfillIsARun | apps/api/src/access/ensure-active-connection.ts:35-112 | a backfill is a run of allowed follows, so what holds over every run holds over backfills |
| Connections.KeyIsInjective | apps/api/src/access/ensure-active-connection.ts:78-112 | different pairs of ids without colons have different `seen` keys |
| Connections.BackfillReaches | apps/api/src/access/ensure-active-connection.ts:78-112 | afterwards every examined pair is Active or was already blocked, and blocks and all other pairs are as they were |
| Connections.SecondBackfillCreatesNothing | apps/api/src/access/ensure-active-connection.ts:78-112 | a second backfill changes nothing and finds every pair active or blocked |
| RefreshRotation.PruningIsUnobservableExactly | apps/api/src/auth/token.service.ts:59-147 | on any clock, the last reply of a run is the one a service that never prunes would give if and only if the call does not replay an entry, still in its window, that an earlier rotation found past its window |
| RefreshRotation.AnyRunIsKeptBut | apps/api/src/auth/token.service.ts:141-147 | on any clock the two services hold the same tokens and their caches differ in exactly the dropped entries |
| RefreshRotation.SequentialRunsReplayNothingDropped | apps/api/src/auth/token.service.ts:59-147 | a run whose clock never goes back never meets that exception |
| RefreshRotation.PruningIsUnobservable | apps/api/src/auth/token.service.ts:59-147 | in every sequential run, even one that mints a token twice, each reply is the one a service that never prunes would give |
| RefreshRotation.PrunedRunIsKeptRun | apps/api/src/auth/token.service.ts:141-147 | the two services hold the same tokens and differ only in expired cache entries |
| RefreshRotation.PruningShowsWhenTheClockGoesBack | apps/api/src/auth/token.service.ts:141-147 | a run of four calls from the empty service whose clock goes back by a millisecond, where pruning shows |
| RefreshRotation.ReplayExactly | apps/api/src/auth/token.service.ts:59-116 | whatever happens in between, replaying a rotated token returns the identical pair for 60 seconds and is rejected from then on |
| RefreshRotation.FirstRotationExactly | apps/api/src/auth/token.service.ts:59-116 | whatever happens in between, on any clock, the first rotation of a token answers with the new pair up to and including `ttl` after the call that handed it out, unless it was revoked, and is refused otherwise |
| RefreshRotation.EveryRunKeepsChains | apps/api/src/auth/token.service.ts:44-124 | over every run the tokens of one login form one chain, revoked but for at most the last |
| RefreshRotation.AtMostOneUnrevoked | apps/api/src/auth/token.service.ts:44-124 | one login never has two unrevoked tokens |
| RefreshRotation.LogoutEndsExactly | apps/api/src/auth/token.service.ts:118-124 | a logout ends a login if and only if it presents the login's newest token or the login had ended |
| RefreshRotation.EndedStaysEnded | apps/api/src/auth/token.service.ts:59-124 | once a login has ended, no later call of any run gives it a usable token |
| RefreshRotation.TokenService.Rotate | apps/api/src/auth/token.service.ts:59-116 | a cached replay, a new pair or a refusal, each in its exact case, with the old token revoked and the new one stored for `ttl` in the second; reply and state are the step of the run laws |
| RefreshRotation.TokenService.Issue | apps/api/src/auth/token.service.ts:44-49 | the one token stored is unrevoked and expires `ttl` from now; the call is the event `Issue` of the run laws |
| RefreshRotation.TokenService.Revoke | apps/api/src/auth/token.service.ts:118-124 | an unrevoked stored token is revoked now and no other token changes; the call is the event `Revoke` of the run laws |
| RefreshRotation.TokenService.PruneRefreshGrace | apps/api/src/auth/token.service.ts:141-147 | the loop drops exactly the expired entries |
| Crc32.ComputeCrc32 | apps/api/src/common/seed-media.ts:50-59 | the two loops compute the fold the laws are about |
| Crc32.FoldConcat | apps/api/src/common/seed-media.ts:50-59 | the register after a concatenation is the fold of its parts in turn |
| Crc32.BitStepIsInjective | apps/api/src/common/seed-media.ts:50-59 | one turn of the inner loop loses nothing |
| Crc32.FoldIsInjective | apps/api/src/common/seed-media.ts:50-59 | on a fixed buffer the register is injective in its start |
| Crc32.CrcIsAffine | apps/api/src/common/seed-media.ts:50-59 | xor-affine on buffers of equal length, the constant being the checksum of zeros |
| Crc32.FoldIsPackedSteps | apps/api/src/common/seed-media.ts:50-59 | feeding bytes one by one is mixing in the whole little-endian number and then turning eight times per byte |
| Crc32.BurstsAreDetected | apps/api/src/common/seed-media.ts:50-59 | different contents of a window of at most four bytes give different checksums |
| Crc32.NearbyErrorsAreDetected | apps/api/src/common/seed-media.ts:50-59 | two buffers of one length that differ only inside four consecutive bytes have different checksums |
| CrcCheck.PolynomialOfTheStandard | apps/api/src/common/seed-media.ts:55 | the constant is the exclusive or of one bit for each exponent 26, 23, 22, 16, 12, 11, 10, 8, 7, 5, 4, 2, 1, 0, as in section 3.4 of RFC 2083 |
| CrcCheck.XorIsMix | apps/api/src/common/seed-media.ts:50-59 | exclusive or on numbers is `^` on 32-bit words, digit by digit |
| CrcCheck.TurnIsBitStep | apps/api/src/common/seed-media.ts:55 | the turn of the inner loop on 32-bit words is the turn on numbers that the laws are about |
| CrcCheck.ChecksumOfIend | apps/api/src/common/seed-media.ts:50-59 | the checksum of the four letters of IEND is 0xae426082, which fixes polynomial, start and end |
| Png.ChunkRoundTrip | apps/api/src/common/seed-media.ts:61-68 | length, type, data and CRC are recovered from a chunk in front of anything (sections 3.2 and 3.4 of RFC 2083) |
| Png.ChunkPrintRoundTrip | apps/api/src/common/seed-media.ts:61-68 | whatever reads as a chunk is exactly that chunk written out |
| Png.DamagedChunkIsRejected | apps/api/src/common/seed-media.ts:61-68 | damage confined to four consecutive bytes of type and data is never accepted |
| Png.FillRow | apps/api/src/common/seed-media.ts:79-85 | the row buffer, filled in place, is filter byte 0 and the pixels |
| Png.FillRaster | apps/api/src/common/seed-media.ts:86-89 | the raw buffer, filled in place, is one copy of the row per line |
| Png.RasterIsSolid | apps/api/src/common/seed-media.ts:79-89 | zero at each row start and the exact colour at every (x, y) |
| Png.PngReadsBack | apps/api/src/common/seed-media.ts:71-104 | the file reads back as its three chunks, with the dimensions and an 8-bit RGB header |
| Png.FileIsFramed | apps/api/src/common/seed-media.ts:92-103 | byte for byte, a file begins with the signature and a 13-byte IHDR and ends with the empty IEND and its checksum (sections 3.1, 4.1.1 and 4.1.4 of RFC 2083) |
| Png.SolidColorPng | apps/api/src/common/seed-media.ts:71-104 | the two loops and the framing produce that file, for any compression |
| Png.FileShowsTheColour | apps/api/src/common/seed-media.ts:71-104 | whoever undoes the compression of the file's data chunk finds filter byte 0 and the exact colour at every (x, y) |
| OrderBilling.SumOfPermutation | packages/domain-types/src/order-billing.ts:96-118 | the order of the lines does not matter to the total, missing amounts included |
| OrderBilling.BunchBillIsMemberSum | packages/domain-types/src/order-billing.ts:73-94 | at equal quantity and terms, and no bunch price, the bunch bill is the sum of its members' rounded amounts |
| OrderBilling.LineBillIsWhole | packages/domain-types/src/order-billing.ts:39-60 | every line amount is a whole number of paise |
| OrderBilling.PiecesBillTheirRate | packages/domain-types/src/order-billing.ts:39-60 | pieces bill rate times quantity to the nearest paisa, half a paisa up, exactly when rate and quantity allow |
| OrderBilling.PacksBillTheirPieces | packages/domain-types/src/order-billing.ts:22-60 | packs of p pieces bill what that many pieces bill |
| OrderBilling.PacksWithoutASize | packages/domain-types/src/order-billing.ts:12-60 | without a pack size a dozen bills twelve pieces, and a set, a box or a bundle has no amount |
| OrderBilling.BunchPriceIsBilledOnce | packages/domain-types/src/order-billing.ts:73-94 | at a rate per set, dozen, box or bundle a catalog is billed rate times quantity once, however many designs it has |
| OrderBilling.RateUnitStaysPerPiece | packages/domain-types/src/order-billing.ts:73-94 | when Rate per is not a bunch unit, neither is the unit that stands in for a blank one |
| TicketBilling.ComputeOrderBillTotal | packages/domain-types/src/order-billing.ts:96-118 | the accumulating loop computes the rounded sum; there is none exactly when there is no line or a line has no amount |
| TicketBilling.TotalIsTheSum | packages/domain-types/src/order-billing.ts:96-118 | the final rounding never changes the total |
| TicketBilling.AssertEqualCatalogWholeQty | packages/domain-types/src/catalog-whole-group.ts:110-125 | passes exactly when every catalog row's designs agree on quantity, and otherwise names the first that does not |
| TicketBilling.GroupedExactly | packages/domain-types/src/catalog-whole-group.ts:10-12 | a line is grouped exactly when it was ordered in a whole catalog, with an id that is not blank, and is no mill hop; its group is the trimmed id |
| TicketBilling.NamedExactly | packages/domain-types/src/catalog-whole-group.ts:50-56 | a catalog shows its trimmed name, or the word Catalog when that is blank |
| TicketBilling.RowBillAtBunchPrice | packages/domain-types/src/order-billing.ts:73-94 | a catalog priced per bunch bills its rate once per bunch |
| TicketBilling.RowsBillTheOrder | packages/domain-types/src/order-billing.ts:62-118 | billing row by row is the flat order total, rounding included, and null in exactly the same cases, when each catalog's designs share terms and quantity and none is priced per bunch |
| CatalogOrders.AssertEqualWholeCatalogQuantities | apps/api/src/orders/catalog-whole-order.ts:174-199 | the loop passes exactly when all lines of each whole catalog ask for one quantity |
| CatalogOrders.LineGroup | apps/api/src/orders/order.service.ts:6927-6987 | a line is shown in the row of the whole catalog its design was stamped with, or alone |
| CatalogOrders.LineBillsCatalogTerms | apps/api/src/orders/order.service.ts:6957-6987 | after any run, a line of a design that a catalog took in and nobody repriced since is billed at that catalog's rate, unit and pack size |
| CatalogOrders.WholeCatalogOrderBillsByRow | apps/api/src/orders/order.service.ts:6905-6987 | an order whose whole catalogs agree on terms and quantity costs by row what it costs by line |
| CatalogOrders.StampedOrderBillsByRow | apps/api/src/orders/catalog-whole-order.ts:118-199 | after any run of catalog calls: an order of designs that their whole catalogs took in together and nobody repriced since costs by row what it costs by line |
| CatalogWholeGroup.CollapseCatalogWholeLines | packages/domain-types/src/catalog-whole-group.ts:18-59 | the three loops compute the rows the laws are about |
| CatalogWholeGroup.CollapseConserves | packages/domain-types/src/catalog-whole-group.ts:18-59 | no line is lost or repeated |
| CatalogWholeGroup.RowsAreRight | packages/domain-types/src/catalog-whole-group.ts:18-59 | a catalog row holds its whole group in ticket order under its first line's name; a single line belongs to no group |
| CatalogWholeGroup.GroupOfConcat | packages/domain-types/src/catalog-whole-group.ts:25-33 | a group keeps the ticket's order |
| CatalogWholeGroup.CatalogsAreDistinct | packages/domain-types/src/catalog-whole-group.ts:18-59 | one row per catalog |
| CatalogWholeGroup.EveryGroupHasItsRow | packages/domain-types/src/catalog-whole-group.ts:18-59 | every catalog met among the first lines has its row among the rows they open |
| CatalogWholeGroup.RowsKeepOrder | packages/domain-types/src/catalog-whole-group.ts:18-59 | later lines never move or remove the rows opened before them |
| CatalogWholeGroup.PeersExactly | packages/domain-types/src/catalog-whole-group.ts:87-100 | the peers of a group member are exactly the items of the row that holds it; any other line, or an unknown id, stands alone |
| MediaPaths.ParsedNames | packages/domain-types/src/media-paths.ts:65-109 | the names in a parsed key can be printed again |
| MediaPaths.KeyParses | packages/domain-types/src/media-paths.ts:65-109 | the key of any owner, folder and file name reads as just that |
| MediaPaths.ImageExactly | packages/domain-types/src/media-paths.ts:28-46 | a name is an image's exactly when it ends in .jpg, .jpeg, .png or .webp, in any case, after at least one character |
| MediaPaths.VariantParsesBack | packages/domain-types/src/media-paths.ts:128-146 | every printed variant parses back to the same owner, the asked folder and the same stem, as an image |
| MediaPaths.VariantOfKey | packages/domain-types/src/media-paths.ts:128-146 | each variant of each kind of key, printed out: `.webp` thumbnails of the same stem, a company's original under its name, a seed's beside the folders |
| MediaPaths.ThumbnailOfVariant | packages/domain-types/src/media-paths.ts:128-146 | any variant and then a thumbnail is the thumbnail |
| MediaPaths.RelocatedExactly | packages/domain-types/src/media-paths.ts:149-160 | a company's legacy image moves to `original`, one that is there stays, nothing else is relocated |
| MediaPaths.CandidatesExactly | packages/domain-types/src/media-paths.ts:112-126 | the keys tried for an original, and in which order |
| MediaPaths.RelocationKeepsCandidates | packages/domain-types/src/media-paths.ts:112-160 | a key and its relocated key are tried under the same names |
| MediaPaths.RelocationIsIdempotentExactly | packages/domain-types/src/media-paths.ts:149-160 | relocating twice is relocating once, except for keys already in `original` whose first character past the slashes is a backslash |
| MediaPaths.RelocatingTwiceDiffers | packages/domain-types/src/media-paths.ts:149-160 | every image key in `original` behind a backslash is relocated to two different keys in turn |
| MediaPaths.BackslashKeyRelocatesTwice | packages/domain-types/src/media-paths.ts:149-160 | one such key |
| MediaUrls.SwappedLinkReadsBack | packages/domain-types/src/media-paths.ts:174-240 | a link whose key was swapped reads back as the same host and place holding a key of the same meaning |
| MediaUrls.ThumbnailLinkExactly | packages/domain-types/src/media-paths.ts:174-240 | the thumbnail link of an image, printed out, under `/media` of any address or in an Azure container |
| MediaUrls.OriginalLinkExactly | packages/domain-types/src/media-paths.ts:174-240 | the original link of a company's image, printed out, whichever folder the link named |
| MediaUrls.OtherLinksStay | packages/domain-types/src/media-paths.ts:174-226 | blob, data and empty links, and links without an image, stay as they are |
| MediaUrls.ThumbnailUrlOfVariantUrl | packages/domain-types/src/media-paths.ts:216-226 | the variant law on links, whatever the link |
| TagSlots.CategoriesToTagSlots | packages/domain-types/src/category-taxonomy.ts:659-692 | for any taxonomy the loop sorts labels by its official keys as the laws assume, sizes once per key |
| TagSlots.OfficialKeysExactly | packages/domain-types/src/category-taxonomy.ts:604-642 | the official keys are exactly the non-blank labels of the taxonomy, folded: sub-categories and items, qualities, sizes |
| TagSlots.SlotExactly | packages/domain-types/src/category-taxonomy.ts:659-692 | a label goes to the sizes when the taxonomy has it as a size, else to the items when it has it as one or not at all, else to the qualities |
| TagSlots.TagSlotsToCategories | packages/domain-types/src/category-taxonomy.ts:644-656 | the loop keeps the first label of each key |
| TagSlots.NormalFormIsOrdered | packages/domain-types/src/category-taxonomy.ts:644-692 | items, then qualities, then sizes, input order inside each class, each key once |
| TagSlots.NormalFormKeepsEveryLabel | packages/domain-types/src/category-taxonomy.ts:644-692 | exactly the non-blank labels up to case, none twice |
| TagSlots.NormalFormTwice | packages/domain-types/src/category-taxonomy.ts:644-692 | normalising is idempotent for every taxonomy and every lower-casing |
| TagSlots.PruneOfficialTagsOnCategoryChange | packages/domain-types/src/category-taxonomy.ts:706-733 | each bucket is pruned against its own pools: from its keys exactly those go that its old pool offers and its new one does not |
| TagSlots.KeptExactly | packages/domain-types/src/category-taxonomy.ts:706-733 | pruning keeps exactly the keys that are not official before and unoffered after, none twice |
| TagSlots.KeptInOrder | packages/domain-types/src/category-taxonomy.ts:706-733 | what is kept are labels of the list in its order, the first spelling of each |
| TagSlots.CustomLabelsStay | packages/domain-types/src/category-taxonomy.ts:706-733 | a custom label is never dropped |
| TagSlots.PruneTwice | packages/domain-types/src/category-taxonomy.ts:706-733 | pruning twice for the same change is pruning once |
| BulkPaste.ParseBulkTagInput | apps/api/src/admin/bulk-tag-parse.ts:14-24 | the loop keeps the trimmed non-blank fields in order |
| BulkPaste.UnifiedOfConcat | apps/api/src/admin/bulk-tag-parse.ts:15 | line ends of any kind become one line feed, and text around them is unchanged |
| BulkPaste.ParseAcross | apps/api/src/admin/bulk-tag-parse.ts:14-24 | a line feed, a tab or a comma separates the labels before it from those after it |
| BulkPaste.ParseOfOne | apps/api/src/admin/bulk-tag-parse.ts:14-24 | a text without separators is one trimmed label, or none when blank |
| BulkPaste.ParseOfJoinedLines | apps/api/src/admin/bulk-tag-parse.ts:14-24 | parsing the lines of any parse result returns that result |
| BulkPaste.BuildBulkPreview | apps/api/src/admin/bulk-tag-parse.ts:26-60 | each row's status depends on its label, the valid labels before it and what exists |
| BulkPaste.PreviewExactly | apps/api/src/admin/bulk-tag-parse.ts:26-60 | row by row: blank or over 80 characters is invalid, a valid label met before is a duplicate, one that is there already exists, any other is new |
| BulkPaste.NewRowsExactly | apps/api/src/admin/bulk-tag-parse.ts:26-60 | the new rows are the first valid label of each key that is not there yet, in paste order |
| BulkPaste.NewRowsAreNew | apps/api/src/admin/bulk-tag-parse.ts:26-60 | new rows are distinct up to case and their keys are exactly the valid ones that do not exist |
| BulkPaste.AdminTagService.BulkCommit | apps/api/src/admin/admin-tag.service.ts:240-292 | all or nothing: the store and the counts of the modelled transaction, or the old store when an id is taken |
| BulkPaste.CreateOneExactly | apps/api/src/admin/admin-tag.service.ts:255-283 | an option of the kind with that label, up to case, is linked; else one is added under its derived id and linked, and a taken id aborts |
| BulkPaste.CommitExactly | apps/api/src/admin/admin-tag.service.ts:240-292 | a commit makes known exactly the valid labels of its text, in its category and kind only, counts as created those that were not known, and its three counts cover every label |
| BulkPaste.SecondCommitCreatesNothing | apps/api/src/admin/admin-tag.service.ts:240-292 | committing the same labels again creates and changes nothing, and reports as skipped what it had created |
| EscapeHtml.EscapeIsSubstitution | apps/api/src/catalog/share-link-og.ts:3-10 | the five chained replacements are one substitution, character by character |
| EscapeHtml.EscapeOneExactly | apps/api/src/catalog/share-link-og.ts:3-10 | the five entities, and every other character as it was |
| EscapeHtml.EscapeOfConcat | apps/api/src/catalog/share-link-og.ts:3-10 | escaping works piece by piece |
| EscapeHtml.EscapedIsInert | apps/api/src/catalog/share-link-og.ts:3-10 | the result has no angle bracket and no quote |
| EscapeHtml.EscapeReadsBack | apps/api/src/catalog/share-link-og.ts:3-10 | every string is read back from its escape |
| Fingerprint.KeyIsTheSet | packages/domain-types/src/chat-membership.ts:2-4 | for ids without commas, keys agree exactly when the sets of non-empty ids agree |
| Fingerprint.KeyOfAscending | packages/domain-types/src/chat-membership.ts:2-4 | the key is the ascending listing of the non-empty ids, joined by commas |
| Fingerprint.KeysAgreeExactly | packages/domain-types/src/chat-membership.ts:2-4 | for any ids, keys agree if and only if the sorted listings agree once cut at every comma |
| Fingerprint.FingerprintIsTheGroup | packages/domain-types/src/chat-membership.ts:13-21 | the fingerprint decides equality of the company sets and the people sets |
| Fingerprint.AscendingIsUnique | packages/domain-types/src/chat-membership.ts:2-4 | a set of ids has one ascending listing |
| Fingerprint.CommaConfusesKeys | packages/domain-types/src/chat-membership.ts:2-4 | two different groups with one key, by a comma in an id |
| Diversify.DiversifyNewestThenFill | apps/api/src/discovery/explore-feed-page.ts:6-25 | the loop computes the window the laws are about |
| Diversify.OrderedIsAPermutation | apps/api/src/discovery/explore-feed-page.ts:6-25 | before the cut no row is lost or repeated |
| Diversify.OrderIsKept | apps/api/src/discovery/explore-feed-page.ts:6-25 | leads keep the input order, and so does the fill |
| Diversify.LeadIsFirst | apps/api/src/discovery/explore-feed-page.ts:6-25 | the row that leads for a company is its first |
| Diversify.WindowIsFull | apps/api/src/discovery/explore-feed-page.ts:6-25 | the window holds `limit` rows, or all there are, and cuts the order at its end |
| Diversify.NoRepeatBeforeAllAppear | apps/api/src/discovery/explore-feed-page.ts:6-25 | when a company shows twice, every company has shown before |
| Diversify.EveryCompanyShowsExactly | apps/api/src/discovery/explore-feed-page.ts:6-25 | every company shows exactly when the window has room for all of them |

## Left out

- Interleavings of two service calls, and the retry after a unique-key conflict in delivery and trio creation: each call
  is one atomic step. In `setProducts` kept members are not claimed again, so exclusivity is for atomic calls only.
- `inheritRepostIdentityFromMembers`: it sets a source on an existing pack, which can make cycles and stale roots, so the
  lineage laws are about sources fixed at creation. `CompanyOnSourceChain` and the hide cascade do allow cycles.
- The revocation of direct links, relist grants and the audience lists they leave behind: different protocols.
- HideCascade.PropagateService.Propagate: for a published pack it says only that delivery follows; delivery is
  `DeliverToTrader`, modelled on its own tables.
- HideCascade.PropagateService.RunOneJob: a queued job of a published pack delivers instead of hiding and may queue more
  jobs; two traders can feed each other's packs, so no measure falls and such jobs are excluded here.
- HideCascade.PropagateService.Drain: the same; it drains queues of hiding jobs.
- HideCascade.PropagateService.Withdraw: the same; the jobs already queued are hiding jobs, but for the withdrawn pack's own.
- RepostLineage.SurvivorExists: among candidates equal in both dates the choice is left open, where the stable sort keeps
  the order the database returned.
- RepostLineage.RepostService.DeliverToTrader: whether the follow is allowed, the direct-link lanes, an owner and the
  step that throws are parameters; the branch that catches a unique conflict needs another call in between.
- RepostLineage.RepostService.DeliverNew: the branch that catches a unique conflict and refreshes whatever row won is not
  modelled, because in an atomic call no other row can have won.
- RepostLineage.RepostService.CreateRepost: names, covers, categories and a catalog's kind are not modelled; a name clash
  is a parameter.
- RepostLineage.StepKeepsLineage: the Prisma client is taken to have the repost columns, and `updatedAt` is not moved by
  writes, so it matters only as the token of a pack never shown on Explore.
- CatalogService.CollectionService.SetProducts: the curation rules, the Explore activity counters and the job they queue
  are not modelled; who may take in a foreign design is the parameter `curatable`.
- CatalogExclusivity.TermsAfterStep: an update names every pricing column, where the code changes those it is given.
- CatalogService.CollectionService.Publish: pricing, audience and schedule checks are the parameter `allowed`.
- TrioCollapse.ThreadService.EnsureTradeLaneGroup: owners, staff and member rows of a new group are not modelled; a card's
  type and order id are a pair, where the code joins them with a colon.
- MessagePaging.PagingIsCompleteExactly: the thread does not change between two pages, and no search filter is applied.
- Connections.AccessService.FinalizeApprove: the request row, the audit row and the check that the caller acts for the
  company are not modelled; they do not touch connections.
- `mergeConnectionStatuses`: it ranks the statuses of directed edges, and no service calls it.
- RefreshRotation.TokenService.Rotate: hashes are taken as collision-free and signing, memberships and the user row are
  the parameter `minted`.
- RefreshRotation.PruningIsUnobservableExactly: calls are sequential and mint fresh tokens; two rotations of one token
  that overlap are not modelled.
- CatalogOrders.StampedOrderBillsByRow: ids of whole catalogs are taken to differ in more than outer space; which orders are
  accepted, offers, and lines copied from another order are not modelled.
- Png.PngReadsBack: deflate is not modelled, any function stands for it; bytes are in range, where a Buffer would truncate.
- OrderBilling.BunchBillIsMemberSum: amounts are exact reals, so binary floating point and non-finite numbers are not
  captured; `Math.round` is rounding half up.
- MediaUrls.ThumbnailUrlOfVariantUrl: hosts are lower-cased as ASCII, and only thumbnails are claimed: the original of a
  thumbnail has a different extension.
- TagSlots.NormalFormTwice: lower-casing is any function of a label, so Unicode folding itself is not modelled.
- BulkPaste.CommitExactly: the database's case-insensitive match is taken to agree with lower-casing, and ids are unique.
- Strings are sequences of characters, not UTF-16 code units; lengths and sorting differ outside the basic plane.
- Taxonomy suggestions, display strings and timeline copy: they are shown and not stored, so nothing above depends on them.
- Storage drivers, controllers and schemas: wiring around the modelled calls.
