# MHServerEmu core, modelled in Dafny

This project models a set of self-contained pieces of the MHServerEmu game server and proves what each of them promises:

- **GBitArray** (`Collections`). The word-packed, auto-growing bitset.
  - It is a class over an `array` of 64-bit words and a word count.
  - Reads beyond the stored words see 0.
  - Writes beyond them grow storage to `max(NextPowerOfTwo(index / 64 + 1), 8)` words.
  - `NextPowerOfTwo` is the shift-or smear on unsigned 64-bit values, with its wrap-around at 0 and above 2^63 written out.
  - `And`, `Or` and `Xor` grow `left` to `right`'s word count and then combine only the words below that count, so `And` keeps `left`'s higher words (`AndKeepsBitsBeyondRight`).
- **DBEntityCollection** (`DatabaseModels`). A guid → entity map plus per-container buckets.
  - Both are specified by value functions on a `Store`.
  - The invariant `StoreValid` ties the two indices together.
  - `AddRange` folds `success |= Add(...)` from `true`, so it always returns true, which the model states.
- **LoginQueueManager** (`PlayerManagement`). The two FIFO login queues, the capacity counter, and the place-in-line status messages.
  - Connectivity and the user level are functions passed in.
  - The process timer's verdict is a boolean.
  - Sent messages are appended to an outbox.
- **Player** (`Players`). The stash tab options dictionary and the other pieces of the player:
  - The dictionary is a sequence of entries in enumeration order, i.e. insertion order, since tabs are never removed.
  - `StashTabInsert` covers the ref checks, the sort-order shift pass, and the renumbering fallback on overflow through a `SortedList`.
  - `UpdateStashTabOptions` covers name truncation to 30 UTF-16 code units (a display name is a sequence of UTF-16 code units, as a C# string is) and optional fields.
  - Also modelled: badges as a set, the console account ids, the tagged entities, and the avatar level properties.
  - A tab created by `UpdateStashTabOptions` gets sort order 0 without the other tabs being shifted, as in the code.
- **TagPlayers** (`Tags`). A sorted set under `TagInfo.CompareTo`.
  - Two tags of one player compare equal whatever their power, so the set holds one tag per player.
  - The `GetPlayers` enumeration skips consecutive repeats and players that do not resolve.
- **RegionAffixPrototype / RegionAffixTablePrototype** (`RegionAffixes`). The black/whitelist rule over keyword masks, with masks modelled as keyword sets, and the tier lookup.
- **GameDataExtensions.ShareElement** (`GameDataExtensions`). The nested intersection search.
- **Mission options** (`Dialog`):
  - the `BaseMissionOption` defaults;
  - the state-flag activation rule, with a `[Flags]` enumeration modelled as a set of members;
  - the completed-mission references built by `InitializeForMission`;
  - the cycle-guarded, recursive `InterestedInEntity` query of the mission-complete option, and the region option's query.

  The query is specified by mutually recursive functions over a catalog of options, `Interest`, `CompletionInterest`, `InterestRefs` and `InterestAll`. They terminate because each completion option adds itself to the check list before recursing. The methods, which mutate a `CheckList` and a `TrackingContextMap` object, are proved equal to those functions.

Calls into code outside this core are parameters of the operations. These are: inventory lookups, the entity manager's lookup by database id, entity filters, the level cap, the interaction manager's mission data, the prototype hierarchy, and region areas.

## Model

| member | source | states |
|---|---|---|
| Collections.GBitArray.Test | src/MHServerEmu.Core/Collections/GBitArray.cs:25-30 | an index at or beyond Size reads 0; otherwise the result is exactly the one-bit mask `1UL << (index % 64)` when the bit is set and 0 when it is clear |
| Collections.GBitArray.Get | src/MHServerEmu.Core/Collections/GBitArray.cs:32-35 | the result is the stored bit, and false for every index at or beyond Size, without growing storage |
| Collections.GBitArray.SetValue | src/MHServerEmu.Core/Collections/GBitArray.cs:37-41 | afterwards Get(index) is the value written, every other bit is unchanged, and the word count is the grown one |
| Collections.GBitArray.Set | src/MHServerEmu.Core/Collections/GBitArray.cs:49-53 | grows to GrownWords, then sets exactly bit `index`: Get(index) holds and every other bit keeps its value |
| Collections.GBitArray.Reset | src/MHServerEmu.Core/Collections/GBitArray.cs:43-47 | grows to GrownWords, then clears exactly bit `index`; every other bit keeps its value |
| Collections.GBitArray.Expand | src/MHServerEmu.Core/Collections/GBitArray.cs:55-62 | the word count becomes GrownWords(size, index), so the index is addressable; old words are kept and new words are 0 |
| Collections.GrowthCoversIndex | src/MHServerEmu.Core/Collections/GBitArray.cs:55-62 | growth never shrinks, makes the index addressable, and past the end gives a power of two of at least 8 words |
| Collections.NextPowerOfTwoIsLeast | src/MHServerEmu.Core/Collections/GBitArray.cs:64-74 | for 1 <= n <= 2^63 the result is a power of two, at least n, and its half is below n (the least such) |
| Collections.NextPowerOfTwoValue | src/MHServerEmu.Core/Collections/GBitArray.cs:64-74 | for 1 <= n <= 2^63 nothing wraps and the result is 2 to the bit length of n - 1 |
| Collections.NextPowerOfTwoWraps | src/MHServerEmu.Core/Collections/GBitArray.cs:64-74 | for n == 0 or n above 2^63 the unsigned arithmetic wraps to 0 |
| Collections.SmearIsLowMask | src/MHServerEmu.Core/Collections/GBitArray.cs:66-72 | the six shift-or lines turn a 64-bit value into the mask of all bits up to its highest set bit |
| Collections.GBitArray.Any | src/MHServerEmu.Core/Collections/GBitArray.cs:76-81 | true exactly when some stored word is non-zero |
| Collections.GBitArray.Clear | src/MHServerEmu.Core/Collections/GBitArray.cs:83-87 | every word becomes 0 and the word count is unchanged, so no index reads true |
| Collections.GBitArray.Copy | src/MHServerEmu.Core/Collections/GBitArray.cs:89-96 | a fresh array with its own fresh storage, the same word count and the same words |
| Collections.GBitArray.Free | src/MHServerEmu.Core/Collections/GBitArray.cs:98-102 | no words are stored afterwards |
| Collections.GBitArray.Resize | src/MHServerEmu.Core/Collections/GBitArray.cs:104-116 | the word count becomes ceil(len / 64) (0 for len <= 0, freeing storage); the surviving prefix of words is kept |
| Collections.GetAfterResize | src/MHServerEmu.Core/Collections/GBitArray.cs:104-126 | after resizing to n words a bit reads true exactly when it was set and lies below n * 64 |
| Collections.GBitArray.Reserve | src/MHServerEmu.Core/Collections/GBitArray.cs:118-126 | the word count becomes max(old, ceil(len / 64)), so it never shrinks; old words are kept, new ones are 0 |
| Collections.GBitArray.FirstUnset | src/MHServerEmu.Core/Collections/GBitArray.cs:128-132 | the lowest index below Size whose bit is 0, or -1 exactly when every bit below Size is set; never an index at or beyond Size |
| Collections.ScanForwardUnset | src/MHServerEmu.Core/Collections/GBitArray.cs:134-141 | the first clear bit at or after startIndex among the first `size` words, or -1 when there is none |
| Collections.GetAfterSet | src/MHServerEmu.Core/Collections/GBitArray.cs:49-53 | setting bit i turns on exactly bit i |
| Collections.GetAfterReset | src/MHServerEmu.Core/Collections/GBitArray.cs:43-47 | resetting bit i turns off exactly bit i |
| Collections.And | src/MHServerEmu.Core/Collections/GBitArray.cs:143-150 | returns `left`, whose words become Combined(And, left, right); `right` is unchanged |
| Collections.GetAfterAnd | src/MHServerEmu.Core/Collections/GBitArray.cs:143-150 | below right's bit count a bit is the AND of both operands; above it, left's bit is kept, with no zero padding |
| Collections.AndKeepsBitsBeyondRight | src/MHServerEmu.Core/Collections/GBitArray.cs:143-150 | a concrete pair where left's bit 64 survives And with a one-word right whose bit 64 reads false |
| Collections.Or | src/MHServerEmu.Core/Collections/GBitArray.cs:157-164 | returns `left`, whose words become Combined(Or, left, right); `right` is unchanged |
| Collections.GetAfterOr | src/MHServerEmu.Core/Collections/GBitArray.cs:157-164 | every bit of the result is the OR of both operands' bits |
| Collections.Xor | src/MHServerEmu.Core/Collections/GBitArray.cs:171-178 | returns `left`, whose words become Combined(Xor, left, right); `right` is unchanged |
| Collections.GetAfterXor | src/MHServerEmu.Core/Collections/GBitArray.cs:171-178 | every bit of the result is the XOR of both operands' bits |
| Collections.CombineInto | src/MHServerEmu.Core/Collections/GBitArray.cs:145-147 | the shared reserve-then-combine loop: left's words become Combined(op, left, right), right unchanged |
| Collections.GBitArray.constructor | src/MHServerEmu.Core/Collections/GBitArray.cs:14-17 | a new array stores no words |
| Collections.GBitArray.Size | src/MHServerEmu.Core/Collections/GBitArray.cs:11 | the size in bits is 64 for every stored word |
| Collections.GBitArray.Bytes | src/MHServerEmu.Core/Collections/GBitArray.cs:12 | the size in bytes is 8 for every stored word, an eighth of Size |
| DatabaseModels.DBEntityCollection.Add | src/MHServerEmu.DatabaseAccess/Models/DBEntityCollection.cs:27-41 | succeeds exactly when the guid is unused; the new state is AddTo of the old, and the invariant between the two indices is kept |
| DatabaseModels.AddNewGuid | src/MHServerEmu.DatabaseAccess/Models/DBEntityCollection.cs:27-41 | an unused guid: true, Count grows by one, the entity is appended to its container's bucket, other buckets unchanged |
| DatabaseModels.AddDuplicateGuid | src/MHServerEmu.DatabaseAccess/Models/DBEntityCollection.cs:29-30 | a guid in use: false, and both indices are unchanged |
| DatabaseModels.AddPreservesValid | src/MHServerEmu.DatabaseAccess/Models/DBEntityCollection.cs:13-14 | every bucket entity lies in its container's bucket and in the map under its guid, before and after Add |
| DatabaseModels.EmptyValid | src/MHServerEmu.DatabaseAccess/Models/DBEntityCollection.cs:20 | the empty collection satisfies the index invariant and has Count 0 |
| DatabaseModels.DBEntityCollection.AddRange | src/MHServerEmu.DatabaseAccess/Models/DBEntityCollection.cs:43-51 | adds each entity in order, keeping the invariant, and returns true whatever the individual Adds return |
| DatabaseModels.AddAllAlwaysSucceeds | src/MHServerEmu.DatabaseAccess/Models/DBEntityCollection.cs:45-48 | folding `success |= ok` from true yields true, even when every Add fails |
| DatabaseModels.AddAllGuids | src/MHServerEmu.DatabaseAccess/Models/DBEntityCollection.cs:43-51 | the guids afterwards are the old guids plus the guids of the added entities |
| DatabaseModels.AddAllPreservesValid | src/MHServerEmu.DatabaseAccess/Models/DBEntityCollection.cs:43-51 | AddRange keeps the two indices consistent |
| DatabaseModels.DBEntityCollection.FromRange | src/MHServerEmu.DatabaseAccess/Models/DBEntityCollection.cs:22-25 | the collection built from a sequence is AddRange over the empty one |
| DatabaseModels.DBEntityCollection.Clear | src/MHServerEmu.DatabaseAccess/Models/DBEntityCollection.cs:53-59 | the state becomes Cleared of the old one |
| DatabaseModels.ClearEmpties | src/MHServerEmu.DatabaseAccess/Models/DBEntityCollection.cs:53-59 | after Clear, Count is 0 and every bucket is empty, but the bucket keys remain |
| DatabaseModels.DBEntityCollection.GetEntriesForContainer | src/MHServerEmu.DatabaseAccess/Models/DBEntityCollection.cs:61-67 | the container's bucket (empty for an unknown container), each entry in that container and in the guid map |
| DatabaseModels.EntriesAreContainerMembers | src/MHServerEmu.DatabaseAccess/Models/DBEntityCollection.cs:61-67 | an entity is in a container's entries exactly when the map holds it under its guid with that container |
| DatabaseModels.DBEntityCollection.Guids | src/MHServerEmu.DatabaseAccess/Models/DBEntityCollection.cs:16 | the guids in use; under the invariant exactly the guids of the entities held in the buckets |
| DatabaseModels.GuidsAreBucketed | src/MHServerEmu.DatabaseAccess/Models/DBEntityCollection.cs:13-16 | under the invariant a guid is a key of the guid map exactly when some bucket holds an entity with it |
| DatabaseModels.DBEntityCollection.Count | src/MHServerEmu.DatabaseAccess/Models/DBEntityCollection.cs:18 | one entity per guid in use: Count is the number of guids, 0 exactly when there are none |
| PlayerManagement.LoginQueueManager.EnqueueNewClient | src/MHServerEmu.PlayerManagement/LoginQueueManager.cs:38-41 | the client is appended to the new-client queue and nothing else changes |
| PlayerManagement.LoginQueueManager.AcceptNewClients | src/MHServerEmu.PlayerManagement/LoginQueueManager.cs:46-71 | drains the new-client queue; connected elevated clients are appended to the high-priority queue and other connected clients to the normal queue, both in arrival order; disconnected clients are dropped |
| PlayerManagement.LoginQueueManager.AcceptClient | src/MHServerEmu.PlayerManagement/LoginQueueManager.cs:54-67 | one dequeued client: a disconnected one is dropped with nothing changed; a connected one is suspended and appended to the high-priority queue when elevated, to the normal queue otherwise |
| PlayerManagement.AcceptPartition | src/MHServerEmu.PlayerManagement/LoginQueueManager.cs:54-67 | every connected new client lands in exactly one of the two queues, and no disconnected one does |
| PlayerManagement.FilterMembers | src/MHServerEmu.PlayerManagement/LoginQueueManager.cs:113-122 | a client is routed to a queue exactly when it arrived and passes that queue's test (connected, user level above User or not) |
| PlayerManagement.IsHighPriority | src/MHServerEmu.PlayerManagement/LoginQueueManager.cs:113-122 | a client at user level User is not high priority; any elevated level is |
| PlayerManagement.LoginQueueManager.ProcessLoginQueue | src/MHServerEmu.PlayerManagement/LoginQueueManager.cs:76-111 | a failed timer check changes nothing; otherwise the high-priority queue is drained, the first Admitted clients of the normal queue are processed in order, and the rest get their status |
| PlayerManagement.LoginQueueManager.DrainHighPriorityQueue | src/MHServerEmu.PlayerManagement/LoginQueueManager.cs:86-90 | the high-priority queue is emptied whatever the capacity; each connected client passes and uses one slot |
| PlayerManagement.LoginQueueManager.DrainLoginQueue | src/MHServerEmu.PlayerManagement/LoginQueueManager.cs:93-97 | exactly the first Admitted clients of the normal queue are dequeued, in FIFO order, and the connected ones pass |
| PlayerManagement.AdmittedUnlimited | src/MHServerEmu.PlayerManagement/LoginQueueManager.cs:93 | with the capacity check off (total <= 0) the whole normal queue is admitted |
| PlayerManagement.AdmittedRespectsCapacity | src/MHServerEmu.PlayerManagement/LoginQueueManager.cs:93-97 | with the check on, no more connected clients pass than there were free slots, and the loop stops early only once the slots are used up |
| PlayerManagement.LoginQueueManager.SendQueueStatus | src/MHServerEmu.PlayerManagement/LoginQueueManager.cs:100-110 | each waiting client, in queue order, is sent the queue length and its place; nothing is sent to an empty queue |
| PlayerManagement.StatusPlacesAreDistinct | src/MHServerEmu.PlayerManagement/LoginQueueManager.cs:100-110 | the n waiting clients get NumberOfPlayersInLine = n and the distinct places 1..n in queue order |
| PlayerManagement.LoginQueueManager.ProcessQueuedClient | src/MHServerEmu.PlayerManagement/LoginQueueManager.cs:124-143 | a connected client passes, is sent SessionEncryptionChanged and uses one slot; a disconnected one returns false and uses none |
| PlayerManagement.LoginQueueManager.Update | src/MHServerEmu.PlayerManagement/LoginQueueManager.cs:32-36 | accepts the new clients, then processes the queues. With the timer ready the high-priority queue (old plus new elevated clients) empties, the first Admitted clients of the normal queue pass, and the outbox gains their SessionEncryptionChanged messages in that order followed by a LoginQueueStatus for each client still waiting. Otherwise the new clients are only queued and nothing is sent |
| PlayerManagement.LoginQueueManager.constructor | src/MHServerEmu.PlayerManagement/LoginQueueManager.cs:19-21 | all queues start empty, nothing is sent |
| Players.Player.StashTabInsert | src/MHServerEmu.Games/Entities/Player.cs:543-638 | the new tabs and result are InsertedStashTabs of the old ones; one key per tab is kept (Valid); badges, console account ids, tagged entities and avatar level properties are unchanged |
| Players.InsertRefusals | src/MHServerEmu.Games/Entities/Player.cs:545-563 | returns false, without change, exactly for a negative order, an invalid or non-stash ref, a missing inventory, or an existing tab at its own order |
| Players.InsertKeepsEntries | src/MHServerEmu.Games/Entities/Player.cs:566-573 | only sort orders change; a lone tab is returned without any reordering |
| Players.MoveWithinRange | src/MHServerEmu.Games/Entities/Player.cs:576-617 | moving a tab to an order inside a dense range gives it that order and keeps the relative order of every other tab, and the orders stay dense |
| Players.NewTabAtFront | src/MHServerEmu.Games/Entities/Player.cs:576-617 | a new tab inserted at 0 is at 0 and every other tab shifts up by one; the orders stay dense |
| Players.NewTabInside | src/MHServerEmu.Games/Entities/Player.cs:575-617 | a new tab inserted at 0 < v <= Count takes v, moved as if from the default order 0: each tab at an order up to v moves one step down, the others keep theirs, and nothing is renumbered |
| Players.NewTabInsideExample | src/MHServerEmu.Games/Entities/Player.cs:575-617 | inserting a third tab at 2 behind tabs at 0 and 1 gives the orders -1, 0 and 2 |
| Players.NewTabPastEnd | src/MHServerEmu.Games/Entities/Player.cs:575-637 | a new tab inserted at v > Count overflows: after the renumbering every old tab is exactly as before and the new tab is appended at order Count, so a dense dictionary stays dense |
| Players.NewTabPastEndExample | src/MHServerEmu.Games/Entities/Player.cs:575-637 | inserting a third tab at 5 behind tabs at 0 and 1 gives it order 2 and leaves the others untouched |
| Players.InsertedNewPastEnd | src/MHServerEmu.Games/Entities/Player.cs:598-637 | for a new tab at v > Count the insert succeeds through the overflow renumbering, with the old tabs followed by the new one at Count |
| Players.ShiftedNewPastEnd | src/MHServerEmu.Games/Entities/Player.cs:598-623 | the pass for a new tab at v > Count gives it v and moves every old tab one step down, with all orders distinct |
| Players.SortedNewPastEnd | src/MHServerEmu.Games/Entities/Player.cs:619-622 | after that pass the sorted list holds the old tabs at orders -1 .. Count-2 and then the new tab |
| Players.RenumberedPrefixShift | src/MHServerEmu.Games/Entities/Player.cs:625-635 | renumbering along a list whose leading entries hold the consecutive orders c, c+1, ... gives each of those entries its order minus c and keeps the others |
| Players.RenumberedNewPastEnd | src/MHServerEmu.Games/Entities/Player.cs:625-635 | the renumbering after that pass restores every old tab's order and gives the new tab Count |
| Players.RenumberedOldTabsBack | src/MHServerEmu.Games/Entities/Player.cs:629-634 | along the first Count entries of the sorted list, the renumbering gives every old tab its order before the pass, and the list has Count + 1 entries |
| Players.AppendedLastDense | src/MHServerEmu.Games/Entities/Player.cs:575-637 | appending a new tab at order Count keeps the dictionary valid and dense |
| Players.ShiftedPastEnd | src/MHServerEmu.Games/Entities/Player.cs:598-623 | the pass moving a tab of a dense dictionary to v >= Count gives it v, shifts the others into 0 .. Count-2 and keeps all orders distinct |
| Players.ShiftedNewAtFront | src/MHServerEmu.Games/Entities/Player.cs:598-623 | the pass for a new tab at order 0 gives it 0 and moves every other tab of a dense dictionary one step back, all below the new Count |
| Players.MovePastEnd | src/MHServerEmu.Games/Entities/Player.cs:598-635 | moving a tab past the end overflows and the fallback renumbering puts it last while keeping the others' relative order |
| Players.ShiftKeepsRanks | src/MHServerEmu.Games/Entities/Player.cs:580-617 | the shift of the other tabs keeps their relative order and never lands on the new order |
| Players.RenumberedWithOneOverflow | src/MHServerEmu.Games/Entities/Player.cs:625-635 | renumbering in sorted order when only the moved tab overflows gives it order Count - 1 and leaves every other tab alone |
| Players.RenumberedKeepsOtherFields | src/MHServerEmu.Games/Entities/Player.cs:629-634 | renumbering changes only sort orders |
| Players.SortedPutMembers | src/MHServerEmu.Games/Entities/Player.cs:620 | putting a fresh order into the sorted list adds exactly its entry and keeps every other one |
| Players.SortedPutAscending | src/MHServerEmu.Games/Entities/Player.cs:620 | putting a fresh order into a strictly ascending sorted list keeps it strictly ascending |
| Players.SortedTabsOfDistinct | src/MHServerEmu.Games/Entities/Player.cs:598-623 | with distinct orders the sorted list holds every (order, ref) pair once, ascending |
| Players.Player.SortOrderPass | src/MHServerEmu.Games/Entities/Player.cs:601-623 | the foreach pass: the tabs become ShiftedTabs, the sorted list is SortedTabsOf them, and the overflow flag is AnyOverflow; badges, console account ids, tagged entities and avatar level properties are unchanged |
| Players.Player.RenumberTabs | src/MHServerEmu.Games/Entities/Player.cs:626-635 | the tabs become Renumbered along the sorted list; badges, console account ids, tagged entities and avatar level properties are unchanged |
| Players.Player.UpdateStashTabOptions | src/MHServerEmu.Games/Entities/Player.cs:506-538 | the new tabs and result are UpdatedStashTabs of the old ones, with the name cut in UTF-16 code units; one key per tab is kept; badges, console account ids, tagged entities and avatar level properties are unchanged |
| Players.UpdateStashTabOptionsEntries | src/MHServerEmu.Games/Entities/Player.cs:506-538 | succeeds exactly for a stash ref with an inventory; on failure nothing changes; on success only the message's tab changes, a missing tab being created |
| Players.ApplyMessage | src/MHServerEmu.Games/Entities/Player.cs:522-536 | the stored name is the sent one cut to its first 30 UTF-16 code units; only fields present in the message change; the sort order is kept |
| Players.TruncateDisplayName | src/MHServerEmu.Games/Entities/Player.cs:526-527 | the name is a prefix of at most 30 UTF-16 code units, exactly 30 when longer, the whole name when it fits |
| Players.TruncationSplitsSurrogatePair | src/MHServerEmu.Games/Entities/Player.cs:526-527 | a 31-unit name whose last character is a surrogate pair is stored with the high surrogate alone at unit 30 |
| Players.WithTabValid | src/MHServerEmu.Games/Entities/Player.cs:516-520 | a missing tab is appended with default options (sort order 0), an existing one is left as is |
| Players.CharacterLevelForAvatar | src/MHServerEmu.Games/Entities/Player.cs:1504-1512 | 0 for a cap or level <= 0; otherwise a value in [1, cap] congruent to the level modulo the cap, equal to the level when within the cap |
| Players.Player.GetCharacterLevelForAvatar | src/MHServerEmu.Games/Entities/Player.cs:1504-1512 | for the stored AvatarLibraryLevel of that mode and avatar: 0 without a positive cap or level, otherwise a level in [1, cap], the stored one when within the cap |
| Players.Player.GetConsoleAccountId | src/MHServerEmu.Games/Entities/Player.cs:435-441 | 0 for an index outside Primary..Count, the stored id otherwise |
| Players.Player.AddBadge | src/MHServerEmu.Games/Entities/Player.cs:856 | set insertion; true exactly when the badge was absent; Valid, stash tabs, console account ids, tagged entities and avatar levels are unchanged |
| Players.Player.RemoveBadge | src/MHServerEmu.Games/Entities/Player.cs:861 | set removal; true exactly when the badge was present; Valid, stash tabs, console account ids, tagged entities and avatar levels are unchanged |
| Players.Player.HasBadge | src/MHServerEmu.Games/Entities/Player.cs:866 | set membership |
| Players.Player.AddTag | src/MHServerEmu.Games/Entities/Player.cs:868 | the entity id is added to the tagged entities; Valid, stash tabs, console account ids, badges and avatar levels are unchanged |
| Players.Player.RemoveTag | src/MHServerEmu.Games/Entities/Player.cs:869 | the entity id is removed from the tagged entities; Valid, stash tabs, console account ids, badges and avatar levels are unchanged |
| Players.Player.OnAvatarCharacterLevelChanged | src/MHServerEmu.Games/Entities/Player.cs:1070-1079 | stores the level for mode 0; PlayerMaxAvatarLevel becomes the max of old and new, so it never decreases; Valid, stash tabs, console account ids, badges and tagged entities are unchanged |
| Players.Player.constructor | src/MHServerEmu.Games/Entities/Player.cs:88-93 | no tabs, badges or tags, console account ids 0 |
| Tags.CompareTo | src/MHServerEmu.Games/Entities/TagPlayers.cs:50-54 | -1, 0 or 1 ordering by player id alone: 0 exactly when the ids agree, whatever the powers |
| Tags.InsertedPresent | src/MHServerEmu.Games/Entities/TagPlayers.cs:32-35 | adding a tag for a player already in the set leaves it unchanged |
| Tags.InsertedAbsent | src/MHServerEmu.Games/Entities/TagPlayers.cs:32-35 | adding a tag for a new player inserts exactly that tag and keeps the ids strictly ascending, so the set (line 9) holds one tag per player |
| Tags.TagPlayers.Add | src/MHServerEmu.Games/Entities/TagPlayers.cs:32-36 | the set becomes Inserted(tags, tag) and stays ordered; the player always records the owner, whether or not the set changed, and keeps its Valid invariant, stash tabs, badges, console account ids and avatar levels |
| Tags.TagPlayers.GetPlayers | src/MHServerEmu.Games/Entities/TagPlayers.cs:18-30 | the players resolved from Yielded(tags, 0, known ids), in that order |
| Tags.YieldedMembers | src/MHServerEmu.Games/Entities/TagPlayers.cs:18-30 | over an ordered set the enumeration holds exactly the resolvable tag ids other than the start id |
| Tags.YieldedAscending | src/MHServerEmu.Games/Entities/TagPlayers.cs:18-30 | over an ordered set the enumerated ids are strictly ascending and above the start id |
| Tags.PlayersOfOrderedTags | src/MHServerEmu.Games/Entities/TagPlayers.cs:18-30 | GetPlayers yields each resolvable tagging player once, in ascending id order, and never id 0 |
| Tags.TagPlayers.constructor | src/MHServerEmu.Games/Entities/TagPlayers.cs:11-16 | an empty tag set for the owner |
| RegionAffixes.CanApplyToRegion | src/MHServerEmu.Games/GameData/Prototypes/RegionAffixPrototype.cs:54-71 | a blacklist hit gives false even if the whitelist matches; otherwise a non-empty whitelist decides by whether some area hits it; with no lists the result is true |
| RegionAffixes.GetByTier | src/MHServerEmu.Games/GameData/Prototypes/RegionAffixPrototype.cs:95-104 | the first non-null entry with that tier; null for null or empty Tiers and when no entry matches |
| GameDataExtensions.ShareElement | src/MHServerEmu.Games/GameData/GameDataExtensions.cs:95-110 | false when either array is null or empty, otherwise true exactly when some element lies in both |
| GameDataExtensions.ShareSymmetric | src/MHServerEmu.Games/GameData/GameDataExtensions.cs:95-110 | sharing an element is symmetric in the two arrays |
| GameDataExtensions.ShareSelf | src/MHServerEmu.Games/GameData/GameDataExtensions.cs:97-107 | an array shares an element with itself exactly when it is non-null and non-empty |
| Dialog.MissionOption.constructor | src/MHServerEmu.Games/Dialog/MissionOptions.cs:42-51 | ObjectiveIndex -1 (so no objective), no state flags, Priority 10, empty interest sets, and the tracking flags of the subclass constructors (lines 124-128, 145-148, 223-226, 247-251): HUD for a hint option, MissionCondition for every condition option, plus TransitionRegion for the region option and Hotspot for the hotspot option, none for the others |
| Dialog.MissionOption.HasObjective | src/MHServerEmu.Games/Dialog/MissionOptions.cs:40 | true exactly when ObjectiveIndex is not -1 |
| Dialog.MissionOption.IsActiveForMissionAndEntity | src/MHServerEmu.Games/Dialog/MissionOptions.cs:75-108 | without an objective active iff the state's flag is set, with one iff the mission is Completed and the Completed objective flag is set; active with an interactee gives the filter's verdict, inactive gives false |
| Dialog.MissionOption.InitializeForMission | src/MHServerEmu.Games/Dialog/MissionOptions.cs:170-188 | stores the arguments (the base method, lines 53-62); the completion option adds its mission ref only when valid, plus every hierarchy mission whose keywords hold a valid mission keyword; the refs stay a sorted set; the interest sets, priority and tracking flags are unchanged |
| Dialog.MissionOption.InitializeBase | src/MHServerEmu.Games/Dialog/MissionOptions.cs:53-62 | stores the mission ref, the state and objective filters and the option type, and sets the filter context to the mission; the interest sets, priority, tracking flags and mission refs are unchanged |
| Dialog.MissionOption.AddCompleteMissionRefs | src/MHServerEmu.Games/Dialog/MissionOptions.cs:174-187 | the refs afterwards are the old ones, plus the mission ref when valid, plus every hierarchy mission whose non-empty keywords hold a valid mission keyword; they stay strictly ascending |
| Dialog.AddSortedMembers | src/MHServerEmu.Games/Dialog/MissionOptions.cs:175-186 | SortedSet.Add adds exactly the element: afterwards the refs are the old ones plus it |
| Dialog.AddSortedAscending | src/MHServerEmu.Games/Dialog/MissionOptions.cs:175-186 | SortedSet.Add keeps strictly ascending refs strictly ascending |
| Dialog.CheckedCompletionAnswersNone | src/MHServerEmu.Games/Dialog/MissionOptions.cs:199-200 | a completion option already in the check list answers None and changes nothing |
| Dialog.UncheckedCompletionRecords | src/MHServerEmu.Games/Dialog/MissionOptions.cs:201-217 | an unchecked option adds itself first, answers the OR over its missions' options, and inserts that into the map exactly when it is not None |
| Dialog.Interest | src/MHServerEmu.Games/Dialog/MissionOptions.cs:195-242 | any option's answer only grows the check list by completion options, only appends inserts with a non-None flag, and uses no flag outside the catalog's |
| Dialog.InterestRefs | src/MHServerEmu.Games/Dialog/MissionOptions.cs:205-212 | the OR over the completed-mission refs includes the running flag, only adds catalog flags, and only grows the state |
| Dialog.InterestAll | src/MHServerEmu.Games/Dialog/MissionOptions.cs:209-211 | the OR over one mission's options includes the running flag, only adds catalog flags, and only grows the state |
| Dialog.RegionAnswer | src/MHServerEmu.Games/Dialog/MissionOptions.cs:228-242 | the region option answers its own flags exactly when the entity is a Transition with a valid destination in its non-empty InterestRegions, None otherwise |
| Dialog.InterestedInEntity | src/MHServerEmu.Games/Dialog/MissionOptions.cs:195-242 | the answer and the new check list and map are Interest of the old ones |
| Dialog.CompletionInterestedInEntity | src/MHServerEmu.Games/Dialog/MissionOptions.cs:195-218 | the answer and the new check list and map are CompletionInterest of the old ones |
| Dialog.CompleteMissionRefsInterestedInEntity | src/MHServerEmu.Games/Dialog/MissionOptions.cs:206-212 | the outer loop's answer and state are InterestRefs from None |
| Dialog.MissionDataInterestedInEntity | src/MHServerEmu.Games/Dialog/MissionOptions.cs:209-211 | the inner loop's answer and state are InterestAll |
| Dialog.RegionInterestedInEntity | src/MHServerEmu.Games/Dialog/MissionOptions.cs:228-242 | returns the option's flags and inserts them once exactly when the region test matches, otherwise None with no insert |

## Left out

- The `Archive` codec: its implementation is not part of this model.
- GBitArray indices are `nat`. Negative indices, which make C#'s `/` and `%` misbehave, are not modelled.
- Collections.GBitArray.Expand: requires the index to be below Size or below 2^30. Larger indices overflow the 32-bit `newSize * BitsPerWord`, which is not modelled.
- Collections.GBitArray.Set: requires what Expand requires.
- Collections.GBitArray.Reset: requires what Expand requires.
- Collections.GBitArray.SetValue: requires what Expand requires.
- Collections.GBitArray.Resize: requires `len` to fit the 32-bit word count range; the overflow of `len + 63` is not modelled.
- Collections.GBitArray.Reserve: requires `len` to fit the 32-bit word count range, as Resize does.
- The GBitArray indexer and the `&`, `|` and `^` operators are aliases of Get/Set and And/Or/Xor and have no members of their own.
- The `Copy<T>` generic parameter: the copy is always a GBitArray.
- `DoubleBufferQueue`'s swap and thread hand-off: the new-client queue is a plain queue that `Update` drains once.
- Logging: `Logger.Warn` and `Logger.Info` calls have no observable effect here.
- `SuspendReceiveTimeout` is recorded as adding the client to a `suspended` set.
- The process timer, server capacity and player count are parameters of `Update` and `ProcessLoginQueue`.
- DBEntity fields other than the two guids are opaque data.
- DatabaseModels.DBEntityCollection.GetEntriesForContainer returns the bucket's entries at the time of the call. The C# hands out the live bucket `List` as an `IReadOnlyList`, so a caller that keeps it sees later `Add` and `Clear` calls; that aliasing is not modelled.
- Players.Renumbered: the code indexes the dictionary with every ref of the sorted list. The model guards that lookup with `if j >= 0`, which always holds, because every ref in the list is a key.
- Inventory predicates (`IsPlayerStashInventory`, `GetInventoryByRef`) and `GetAvatarLevelCap` are parameters.
- The property collection is reduced to the two properties used, AvatarLibraryLevel and PlayerMaxAvatarLevel.
- RegionAffixPrototype.PostProcess is not modelled: the black and white masks are given fields, and keyword bitmasks are keyword sets.
- Dialog.MissionOption.IsActiveForMissionAndEntity: the branch for a non-null objective is left out, because GetObjective always returns null.
- The entity filter's verdict is a function parameter.
- `1 << (int)state` is the singleton set of the state; the shift's masking for large values does not arise for these enumerations.
- Dialog.Interest: the option classes other than the mission-complete and region options are not modelled one by one.
  - Their answer for the entity is the `verdict` parameter of `OtherOption`.
  - It is inserted under the mission ref when not None.
  - MissionConnectionTargetEnableOption inserts under a target ref instead, which is not modelled.
- EntityTrackingContextMap's merging semantics are not modelled: the map is the sequence of its `Insert` calls.
- The enumerations MissionState, MissionObjectiveState and EntityTrackingFlag are modelled by their member names, not their numeric values.
- Dialog.Interest: the proto's `NoTrackingOptimization` short cut of BaseMissionConditionOption is not modelled.
- Tags.TagPlayers.GetPlayers builds the whole sequence when it is called. The C# method is a lazy `yield return` iterator that reads the tag set and the entity manager while it is enumerated, so changes made during the enumeration are not modelled.
- A new stash tab inserted at an order from 1 to Count is modelled as the code does it (Players.NewTabInside): it is a move from the default order 0, so the tab at order 0 ends at -1 and the orders are no longer dense. The comment at Player.cs:609-613 speaks of shifting everything for a new tab, but the code does that only for an insert at 0; no corrected variant is modelled. Past Count the renumbering repairs the orders (Players.NewTabPastEnd).
- The checkList is a set of option ids, not of object references.
- The prototype hierarchy iteration is the `hierarchy` sequence; prototypes that are not missions are not in it.
- The rest of Player.cs (messages, AOI, teleport, avatars, currency), the SQL managers, the frontend server, metrics, loot and commands are outside this model.
