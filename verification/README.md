# Verified model of the xixibase cache server

A Dafny model of the parts of xixibase whose correctness is not evident from reading one function: the cache manager
and its data structures, the watch protocol, the binary-protocol connection, and the hashing, checksum and compression
kernels that ship with it. `dafny verify dfyconfig.toml` checks everything.

## What is modelled

- **The cache.** `CacheSpec` is the cache as its clients see it: a finite map from (group, key) to versioned entries,
  with one step for each operation and theorems over all runs of steps. `CacheMgr.Manager` is the manager: blocks with
  reference counts, the hash table, 34 expiry lists, size-class free lists, the memory account, ids and watches. Every
  public operation is proved to keep the structure invariant (`CacheState`) and to take exactly the step of the map
  that its result code announces. `CacheRun.Run` puts them together: any requests in any order, where an update is
  three requests (allocate, link, release), as it takes the lock three times, with anything in between or a connection
  that closes halfway. Each request's step is a function of the request and the state; from this the theorems about
  ids, lost references and full scans follow for the manager's own runs. `CacheMeaning` says for each request, in terms
  of entries and watches alone, what the map is afterwards and who has heard of what (`Notices` for the walks of a
  flush and of a sweep).
- **Expiry.** Bucket i is visited about every 2^i seconds only (`ExpiryWheel`). `ExpirySweep` and
  `Manager.ExpireItems` prove that a sweep is nevertheless a full scan as long as every item is on schedule; all
  operations keep items on schedule except `get_touch` and a link that comes after a later sweep
  (`TouchBreaksSchedule`, `LateLinkBreaksSchedule`); `CacheStories` has a run for each.
- **Containers.** `IntrusiveList` and `HashMap` model the pointer structures on which the manager rests, node by
  node; `ItemLists` has the 34 expiry lists and 200 free lists over shared nodes and proves that they stand for the
  manager's sequences, so that a block is never in two lists and an unlinked one has no links.
- **Watches.** `Watch` is the watch object; `WatchDelivery` runs it against a client over a channel that loses, repeats
  and reorders; `WatchFeed` ties it to the events that the manager posts; `WakeUp` is the handshake between a connection that arms its timer and one that wakes it.
- **Connections.** `Pdu` has the request layouts and a reference parse; `WireBytes` has each request in literal bytes,
  and `Commands` what it asks of the manager; `ReceiveBuffer` the compacting buffer;
  `PeerState` and `PeerSteps` the relation between a connection's state and the stream; `Peer` the loop itself.
- **Kernels.** `Crc32`, `Adler32`, `Lookup3`, and the string matching of deflate (`Lz77Hash`, `Lz77State`, `Lz77`)
  and the output side of inflate (`InflateWindow`), which meet in `Lz77.RoundTrip`.

## How it is modelled

- Every public operation of the manager runs under one lock, so each is one atomic step; a client's update is three of
  them. What a connection writes into an item that is not linked yet can be seen by no one else. Addresses are
  numbers; what `malloc` would answer, what memory holds behind a stored text, and the wall clock are parameters.
- `read_some` takes any number of the bytes that have arrived and fit, and none only if there are none or no room; a
  write is complete when issued. What the cache answers to a request (room for an item, nothing to report on a watch)
  is arbitrary. `get_base` is a `get` with no watch and a release.
- Where the code and its promise differ, the code is modelled and the difference stated: `get_touch` leaves an item in
  a bucket that does not suit it, and so does a link after a later sweep (`TouchBreaksSchedule`,
  `LateLinkBreaksSchedule`, with `ScheduledExactly` the exact condition, for items linked late as well); a size of
  2^32 or more passes for a small one, so that a block need not hold its item (`WrappedSizeIsAccepted`,
  `LengthsCanWrap`, with `BlockHolds` and `FollowingExactly` the exact conditions); the overflow test of `safe_toi64`
  can be passed by a number that is too large (`OverflowCanGoUnnoticed`, with `ParseExactIff` the exact condition),
  and a text of blanks is read on into the memory behind it (`BlankReadsOn`, with `ParseInIsParse` and
  `CounterStepExactly` the exact condition); the mismatch branches of `append`, `prepend`, `update_flags` and
  `update_expiration` keep a reference for ever (`Leaking` in their contracts), and so does a connection that closes
  between an update's allocation and its link (`LeakedExactly`), so that the 16-bit reference count can come round and
  a linked block be freed (`CountComesRound`, with `SameTestExactly` the exact condition and `RunIsExact` one that a
  caller can check); a woken watch client gets an empty answer (`EndOfWaitDeliversNothing`); a connection that reads
  the next header straight after a reply waits for a stale number of bytes, so that a complete request may lie unread
  (`StaleCount`, with `CaughtUpExactly` the exact condition); the receive buffer can be left without space when it
  cannot grow (`HandleProcessed`).
- An update's size arithmetic goes through 32 bits, as in the code.

## Model

| member | source | states |
|---|---|---|
| CacheSpec.GroupSizesDrop | src/cache.cpp:1084-1103 | Dropping one item of a group lowers the group's count by one and its byte total by exactly that item's size. |
| CacheSpec.GroupGone | src/cache.cpp:1084-1103 | When none of a group is left, what was dropped is all of it and nothing else. |
| CacheSpec.StepKeepsVersions | src/cache.cpp:201-206 | Every operation keeps ids issued, nonzero and distinct, and content under an old id unchanged. |
| CacheSpec.RunKeepsVersions | src/cache.cpp:201-206 | The same over every run, between any two of its moments: ids only grow, and an old id is either gone or still names untouched content. |
| CacheSpec.VersionNamesContent | src/cache.cpp:381-391 | In any run, one id seen twice is seen with the same key and the same data, flags and ext. |
| CacheSpec.StepSpendsId | src/cache.cpp:797-815 | A change made on the strength of an id leaves no entry carrying that id. |
| CacheSpec.IdAuthorisesOnce | src/cache.cpp:605-635 | In any run, one id value authorises at most one change of a present key among set, replace, append, prepend, delta, remove and update_flags. |
| CacheSpec.CounterStep | src/cache.cpp:1025-1067 | One counter step in range, from a text that is not just blanks: whatever lies behind the text in memory, the new text parses to the new value, and no other field moves. |
| CacheSpec.CounterStepExactly | src/cache.cpp:1025-1035 | A text that parses is counted from its own number, whatever lies behind it in memory, if and only if it is not just blanks. |
| CacheSpec.BlankCounts | src/cache.cpp:1025-1035 | A text of blanks is counted from the signed number that lies behind it. |
| CacheSpec.CounterIsExact | src/cache.cpp:1010-1067 | After any sequence of increments and decrements in range, from a text that is not just blanks and whatever lies behind it at each step, the stored text parses to the initial value plus the sum of the steps (and is the canonical text, by `Decimal.PrintCanonical`); flags, ext and expiry are as at the start. |
| Decimal.ScanDigits | src/util.cpp:94-112 | The digit loop with its 64-bit wrapping, its `temp < ret` test and the length it is given, which may lead it past the text, computes the accumulating function, and what it returns is in range. |
| Decimal.SafeToI64 | src/util.cpp:71-116 | The pointer-stepping parser in memory: blanks, one sign, digits up to the first non-digit, refusal on detected overflow; behind a text of blanks it takes a sign for the text's own, and its 32-bit length wraps. |
| Decimal.SettledIff | src/util.cpp:80-83 | The blanks loop uses the whole text up exactly if there is nothing but blanks. |
| Decimal.ParseInIsParse | src/util.cpp:80-92 | The parser's answer is that of the text alone, whatever lies behind it, if and only if the text is empty or holds something other than blanks. |
| Decimal.ReadsOn | src/util.cpp:85-92 | A text of blanks only, which by itself parses to 0, parses to the signed number behind it. |
| Decimal.BlankReadsOn | src/util.cpp:85-92 | One blank before a block's old bytes -123 parses to -123. |
| Decimal.AccumulateFits | src/util.cpp:94-112 | Digits whose value fits 63 bits are accumulated exactly, and the loop stops at the first non-digit. |
| Decimal.ParseExactIff | src/util.cpp:94-115 | Digits, with anything behind them that begins with a non-digit, parse to their value if and only if that is below 2^63. |
| Decimal.ParseOneMoreDigit | src/util.cpp:107-110 | What one more digit does to a parsed number: accepted exactly when the wrapped product does not fall below the previous value. |
| Decimal.OverflowCanGoUnnoticed | src/util.cpp:107-110 | The overflow test can be passed by a number that is too large: a concrete text whose parse is wrong, so the exactness condition cannot be dropped. |
| Decimal.ParsePrint | src/cache.cpp:1034-1035 | Parsing undoes the decimal print for every 64-bit value above the least one. |
| Decimal.PrintCanonical | src/cache.cpp:1034-1035 | The text is all digits, behind a minus sign for a negative number, and begins with 0 only if it is exactly 0. |
| Decimal.PrintParse | src/cache.cpp:1034-1035 | A digit text without a zero in front, signed or not, that parses to v is the text printed for v if and only if its digits denote a number below 2^63. |
| Decimal.ParseBlank | src/util.cpp:80-83 | A blank, one of the bytes 9 to 13 and 32, in front of more text is passed over. |
| Decimal.ParseFirst | src/util.cpp:85-115 | What the first byte that is not blank decides: a sign counts for the digits behind it, anything but a digit gives 0. |
| Decimal.WrapsRound | src/util.cpp:107-110 | 64-bit arithmetic loses only whole multiples of 2^64. |
| SizeClasses.BuildTable | src/cache.cpp:146-174 | `init` builds a table that is strictly increasing up to its last class, whose size is the largest item; every class below is the aligned growth of the one before, and the table stops exactly where the grown size passes the bound; the condition on the growth factor is what keeps it so within 200 classes. |
| SizeClasses.GrownByAChunk | src/cache.cpp:155-171 | Under the stated condition each class is at least one alignment chunk above the last. |
| SizeClasses.NextClass | src/cache.cpp:155-171 | Each turn of the table loop uses up one of the classes counted in advance. |
| SizeClasses.ClassIsUnique | src/cache.cpp:176-199 | At most one class is the least that fits a size. |
| SizeClasses.ClassOf | src/cache.cpp:176-199 | The class of a size is the least whose capacity fits it, 0 exactly if none does. |
| SizeClasses.FindClass | src/cache.cpp:176-199 | The search from the remembered class finds the least fitting class whatever was remembered. |
| ExpiryWheel.GetExpirationId | src/cache.cpp:364-379 | The bucket chosen is the highest whose span the item still has to live, the last one for items that never expire. |
| ExpiryWheel.FilingSchedules | src/cache.cpp:132-136 | An item filed in its bucket now is visited no later than it expires, or by the very next sweep, whatever the schedule of checks. |
| ExpiryWheel.DueIsExpired | src/cache.cpp:270-297 | For an item on schedule, being due at its bucket's visit is the same as being expired. |
| ExpiryWheel.ScheduledExactly | src/cache.cpp:270-297 | For every bucket, expiry and schedule, late or not: whenever the next sweep comes it removes the item exactly if it has expired, if and only if the bucket is the last one (for an item that never expires) or is visited by its expiry or by the next sweep. |
| ExpiryWheel.LateLinkBreaksSchedule | src/cache.cpp:329-329 | An item linked after a sweep that came later than its filing can outlive its second: a concrete case. |
| ExpiryWheel.TouchBreaksSchedule | src/cache.cpp:490-491 | Retiming without refiling breaks the schedule both ways: a concrete item told never to expire is removed by the next sweep, and one filed for ever is never swept. |
| ExpiryWheel.LaterKeepsSchedule | src/cache.cpp:490-491 | Putting an expiry off, where there was one, does not. |
| ExpiryWheel.SpansGrow | src/cache.cpp:132-136 | The spans of the buckets increase, which is what lets a visited item move only downwards. |
| ExpiryWheel.SpanTable | src/cache.cpp:132-136 | The spans are the source table: 1, then doubling up to 2^31, then 2^32 - 1. |
| ExpirySweep.SweptRemove | src/cache.cpp:277-280 | Removing a due item of the bucket being visited keeps the account of the sweep. |
| ExpirySweep.SweptMove | src/cache.cpp:281-292 | Refiling an unexpired item in its own or a lower bucket keeps it; the item is back on schedule. |
| ExpirySweep.SweptSkip | src/cache.cpp:271-272 | A bucket whose check time has not come holds nothing that is due. |
| ExpirySweep.SweptAll | src/cache.cpp:270-297 | When every bucket has had its turn exactly the due items are gone and the rest is unchanged. |
| ExpirySweep.DueKeysAreExpired | src/cache.cpp:270-297 | With every item on schedule, the due keys are exactly the expired ones. |
| ExpirySweep.MoveElsewhere | src/cache.cpp:282-292 | Moving an item to the front of a list while the list is walked leaves what lies ahead of the iterator in place. |
| CacheState.CountedRelease | src/cache.cpp:427-433 | Giving back a reference leaves the whole count right, and takes the block exactly if neither the table nor any holder nor a lost reference is left. |
| CacheState.SameTestExactly | src/cache.h:175-175 | The 16-bit count goes on showing the whole one modulo 2^16, and its test for the last reference errs if and only if more than one is left and the count is one more than a multiple of 2^16. |
| CacheState.SpareRelease | src/cache.cpp:427-433 | It cannot err while fewer than 2^16 references to the block are held and lost. |
| CacheState.CountedUnlink | src/cache.cpp:393-409 | Unlinking turns the table's reference into one to be given back. |
| CacheState.CountedStrike | src/cache.cpp:624-627 | A lookup reference is either given back or, on the mismatch branches, written off; the count stays the sum of all references. |
| CacheState.PoolTakeFree | src/cache.cpp:307-309 | A block taken from a free list is not in use, has its class's capacity, and leaves the account exact. |
| CacheState.PoolTakeNew | src/cache.cpp:310-326 | A new block is taken only within the memory limit, and the account grows by its class's capacity. |
| CacheState.BlockHolds | src/cache.cpp:299-339 | At any time, a block in use holds its header, key, data and ext if and only if their sum is below 2^32. |
| CacheState.PoolDrop | src/cache.cpp:341-358 | A freed block goes to its class's free list or back to the system, and the account stays the sum of live capacities. |
| CacheState.FreeCountsMean | src/cache.cpp:146-174 | A free list keeps as many blocks as make up a megabyte, a thousand at most, and none in the last class. |
| CacheMgr.Manager.constructor | src/cache.cpp:116-174 | A new manager is valid, empty, and uses no memory; its table of classes and free-list limits is the one that `init` computes. |
| CacheMgr.Manager.WrappedSizeIsAccepted | src/cache.cpp:301-306 | A size of 2^32 + 4 goes through 32 bits as 4 and is given a block of the first class, smaller than the size. |
| CacheMgr.Manager.GetClassId | src/cache.cpp:176-199 | The class depends on the size alone; only the remembered hint changes. |
| CacheMgr.Manager.FreeItem | src/cache.cpp:341-358 | A block without references leaves the blocks in use and goes to the front of its class's free list while that is short of its limit, else back to the system; the pool afterwards is given exactly. |
| CacheMgr.Manager.DoReleaseReference | src/cache.cpp:427-433 | Gives back one reference: the map is unchanged, the block is freed at its last one, and `exact` records whether the 16-bit test says the same. |
| CacheMgr.Manager.TakeBlock | src/cache.cpp:307-326 | A block is had exactly if the class's free list has one or the limit and the system allow a new one; the free list is drawn on first, and the pool afterwards is given exactly. |
| CacheMgr.Manager.DoAlloc | src/cache.cpp:299-339 | Allocation succeeds exactly under the stated condition on class, free list, limit and system; the block holds header, key, data and ext if and only if their sum is below 2^32; the item is filed for the current second and held by the caller. |
| CacheMgr.Manager.DoLink | src/cache.cpp:381-391 | Links a block under an absent key: the map gains exactly that entry under a fresh id, in exactly one expiry list. |
| CacheMgr.Manager.NotifyWatch | src/cache.cpp:1164-1176 | Each living watch of the item has its old history with exactly that event behind it and its old expiry; every other watch is as before, and no watch comes or goes; the item forgets the lapsed ones. |
| CacheMgr.Manager.ToldAt | src/cache.cpp:1164-1176 | Whoever watches what is stored under a key has heard exactly one event more, with the id that it had; nobody else has. |
| CacheMgr.Manager.DoUnlink | src/cache.cpp:393-409 | Unlinking by key removes exactly the intended item from table and list, tells its watchers, and drops the table's reference. |
| CacheMgr.Manager.DoGet | src/cache.cpp:440-452 | A lookup by the table's map finds the item exactly if the key is present, and the caller holds one more reference. |
| CacheMgr.Manager.Release | src/cache.cpp:671-675 | A held reference is given back; no linked or held item is freed; the 16-bit test says the same exactly as `SameTestExactly` has it, and always while there is room in the count. |
| CacheMgr.Manager.DoReplace | src/cache.cpp:435-438 | The new block takes the old one's place under a fresh id; the old one's watchers are told. |
| CacheMgr.Manager.LinkWatched | src/cache.cpp:770-778 | A block is linked under an absent key, and the watch named, and no other, is added to it. |
| CacheMgr.Manager.Add | src/cache.cpp:756-787 | Exactly the map effect its result announces; the watch named is put on what is stored. |
| CacheMgr.Manager.Set | src/cache.cpp:789-840 | Exactly the map effect its result announces; the watchers of what was stored are told exactly on success, and the watch named is put on what is stored. |
| CacheMgr.Manager.Replace | src/cache.cpp:842-879 | Exactly the map effect its result announces, watchers told as for `set`. |
| CacheMgr.Manager.Exchange | src/cache.cpp:903-916 | The copy takes the found block's place; the old block's watchers are told and do not pass to the copy; the watch named ends up on the request's own item. |
| CacheMgr.Manager.Extend | src/cache.cpp:881-981 | `append` and `prepend`: exactly the map effect announced; watchers are told exactly on success; afterwards nobody watches what is stored, and the watch named is on the request's own item; a mismatch, and nothing else, loses a reference for ever. |
| CacheMgr.Manager.AddWatch | src/cache.h:158-163 | A watch is added to a block; the map and the schedule do not move. |
| CacheMgr.Manager.ReplaceFound | src/cache.cpp:797-820 | The present-key branch of `set`: mismatch, missing watch or replacement, in that order, with the lookup reference given back. |
| CacheMgr.Manager.PutCopy | src/cache.cpp:892-920 | A found block is replaced by a copy with other data exactly if there is room and the watch named exists; its watchers are told then and only then. |
| CacheMgr.Manager.CopyOver | src/cache.cpp:892-921 | The same, and the lookup reference is given back. |
| CacheMgr.Manager.InstallCopy | src/cache.cpp:898-916 | The copy takes the found block's place exactly if the watch named exists; its own reference is given back either way. |
| CacheMgr.Manager.ChangeInPlace | src/cache.cpp:1054-1059 | Data or flags change in place under a fresh id; bucket, references and size stay. |
| CacheMgr.Manager.Counter | src/cache.cpp:1026-1032 | The new value is the number read, or 0, plus or minus the delta, in 64 bits; for a text that is not just blanks, the text's own number. |
| CacheMgr.Manager.Refile | src/cache.cpp:646-653 | A new expiry and bucket: the item is in exactly the list of its bucket, and off schedule only if that bucket is visited too late. |
| CacheMgr.Manager.SweepOne | src/cache.cpp:277-293 | The step for one item of a bucket keeps the account of the sweep and what lies ahead of the iterator; the watchers of an item whose second has come are told of its expiry, and nobody else of anything. |
| CacheMgr.Manager.SweepTurn | src/cache.cpp:271-296 | A bucket's turn: visited, and next visited its span later, if its time has come; otherwise holding nothing due and left for its time. |
| CacheMgr.Manager.FlushOne | src/cache.cpp:1091-1097 | One item of the group is unlinked and counted, and its watchers are told of the flush. |
| CacheMgr.Manager.Remove | src/cache.cpp:983-1007 | Exactly the map effect its result announces, with all references returned and the watchers told of the deletion. |
| CacheMgr.Manager.Rewrite | src/cache.cpp:1036-1066 | The in-place and the reallocating branch of a counter step have the same effect on data, key, flags, ext and expiry. |
| CacheMgr.Manager.Delta | src/cache.cpp:1010-1082 | Exactly the map effect its result announces, counted from the number that the parser reads in memory; the value returned is the one stored; watchers are told only when the text changes its length. |
| CacheMgr.Manager.Reflag | src/cache.cpp:615-623 | Flags change in place under a fresh id, and the watchers are told. |
| CacheMgr.Manager.UpdateFlags | src/cache.cpp:605-635 | Exactly the map effect announced, with the watchers told; a failed update reports id 0 exactly if the key is absent; the mismatch branch keeps its lookup reference. |
| CacheMgr.Manager.UpdateExpiration | src/cache.cpp:637-669 | Exactly the map effect announced; the item is refiled, so no item leaves the schedule. |
| CacheMgr.Manager.Get | src/cache.cpp:508-544 | Reads what is stored, removes what is found expired and tells its watchers, and leaves one reference to the key's own item with the caller exactly on success, with the watch named on it. |
| CacheMgr.Manager.GetTouch | src/cache.cpp:546-574 | Retimes without refiling; the handle is the key's item and the watch named is put on it; the touched item is off schedule afterwards exactly if its old bucket does not suit the new expiry, and every other item stands as before. |
| CacheMgr.Manager.FlushList | src/cache.cpp:1088-1100 | One list is walked while it shrinks; afterwards no item of the group is on it, and the watches have heard of exactly those that were, in the order of the list. |
| CacheMgr.Manager.Flush | src/cache.cpp:1084-1103 | Deletes exactly the group and reports its exact item count and byte total; each watch has heard of exactly the items it watched, in the order of the lists. |
| CacheMgr.Manager.MoveDown | src/cache.cpp:283-291 | An unexpired item goes to the highest bucket from its own downwards whose span it still has to live. |
| CacheMgr.Manager.SweepBucket | src/cache.cpp:276-294 | The walk over a bucket ends although items are moved to list fronts meanwhile, and visits what the list held; the watches hear of the due ones, in that order. |
| CacheMgr.Manager.ExpireItems | src/cache.cpp:270-297 | A sweep removes exactly the due items, sets exactly the next visits of the lists it visited, and tells their watchers in the order of the lists; with every item on schedule the due items are exactly the expired ones, as in a full scan. |
| CacheMgr.Manager.SetCurrentTime | src/currtime.cpp:27-37 | The clock moves by exactly the wall clock's step, cut to ten seconds, and never back; the wall clock's reading is kept. |
| CacheMgr.Manager.AllocItem | src/cache.cpp:499-506 | An item allocated for a request is on schedule, and its block holds it if and only if its size is below 2^32. |
| CacheMgr.Manager.RunUpdate | src/peer_cache.cpp:639-658 | The update operation named by the request is the one run, and a code that names none changes nothing; who is told is said watch by watch. |
| CacheMgr.Manager.DraftItem | src/peer_cache.cpp:600-623 | The item of an update is allocated from its lengths alone, before its bytes are here; when it cannot be had, out-of-memory is answered exactly if its size has a class. |
| CacheMgr.Manager.FillItem | src/peer_cache.cpp:625-634 | Key and data that arrive are what the item holds, field by field; every other field, and everything a client could see, is as before. |
| CacheMgr.Manager.ContentsVersioned | src/cache.cpp:381-391 | The manager's map satisfies the hypothesis of the theorems about runs. |
| CacheMgr.Manager.CreateWatch | src/cache.cpp:1105-1131 | A watch gets an unused nonzero id; 0 is answered exactly if a hundred candidates are taken, so never with fewer than a hundred watches. |
| CacheMgr.Manager.FewWatches | src/cache.cpp:1105-1115 | A hundred successive candidates, 0 left out, are a hundred different ids, so with fewer watches one is unused. |
| CacheMgr.Manager.TriedExactly | src/cache.cpp:1105-1115 | The candidates are a hundred different ids, all those that follow the last one taken. |
| CacheMgr.Manager.ExpireWatches | src/cache.cpp:1178-1188 | Exactly the watches not checked in time are dropped. |
| CacheMgr.Manager.CheckExpired | src/cache.cpp:208-220 | At most once a second, and then the lapsed watches go, exactly the items due at the manager's second go, their watchers among the rest are told, and exactly the lists visited get their next visit; with every item on schedule, no stored item is expired afterwards and every other is still stored. |
| CacheRun.ServeDraft | src/peer_cache.cpp:600-623 | Allocating an update's item puts one draft on the desk exactly if there is room, and the map does not move. |
| CacheRun.ServeFill | src/peer_cache.cpp:213-242 | Key and data that arrive are what the draft holds, field by field, and nothing else changes. |
| CacheRun.ServeSubmit | src/peer_cache.cpp:625-678 | Linking a draft, however much later, takes exactly the step of the map that its code names; the draft becomes a reference to give back; only it can go off schedule. |
| CacheRun.ServeAbandon | src/peer_cache.cpp:80-87 | A connection that closes forgets its draft, whose reference is lost for ever; nothing else changes. |
| CacheRun.ServeRelease | src/peer_cache.cpp:671-676 | Giving a reference back changes neither map nor schedule. |
| CacheRun.ServeRead | src/peer_cache.cpp:486-563 | A read takes exactly its step of the map, and on success, and only then, one reference to the key's item comes to the desk. |
| CacheRun.ServeChange | src/peer_cache.cpp:744-832 | Removals and counter steps take exactly the step they ask for. |
| CacheRun.ServeDetails | src/peer_cache.cpp:680-742 | Changes of flags and of expiry take exactly the step they ask for, and lose exactly the reference of a mismatch. |
| CacheRun.ServeFlush | src/peer_cache.cpp:895-905 | A flush drops exactly its group and tells its watchers. |
| CacheRun.ServeWatch | src/peer_cache.cpp:835-893 | Creating or checking a watch touches no item and no other watch. |
| CacheRun.ServeTime | src/cache.cpp:208-220 | The clock and the periodic check: exactly the keys due at the manager's second are dropped, and nothing goes off schedule. |
| CacheRun.Serve | src/peer_cache.cpp:390-484 | Every request, from any state: the manager's invariant is kept, every reference is accounted for, and the map, the desk, the clock, the watches and the losses are exactly what the request asks for in that state. |
| CacheRun.Run | src/cache.cpp:116-1188 | Any requests in any order, with allocation, filling, linking, abandoning and releasing as requests of their own: at every moment the invariant holds and each reference is on the desk, in the table or lost; each step is the one its request asks for. Counts are whole; `RunIsExact` says when the 16 bits agree. |
| CacheRun.TraceIsTheRun | src/cache.cpp:116-1188 | The manager's map moves by exactly the concatenated steps that the requests ask for, so the theorems of `CacheSpec` hold of the manager's own runs. |
| CacheRun.RunIsLater | src/cache.cpp:201-206 | In every run of the manager ids only grow: from one moment to any later one, an old id is gone or still names untouched content. |
| CacheRun.IdNamesContent | src/cache.cpp:381-391 | In every run of the manager, an id seen at two moments is seen under one key and with one content. |
| CacheRun.IdSpentOnce | src/cache.cpp:605-635 | In every run of the manager, one id authorises at most one change. |
| CacheRun.LeakedExactly | src/cache.cpp:624-627 | In every run, the references lost for ever are those of the mismatches and of the abandoned drafts, one each, and no others. |
| CacheRun.AllReturned | src/cache.cpp:427-433 | When all clients have given everything back and nothing was lost, the blocks in use are exactly the linked ones, with one reference each. |
| CacheRun.RunIsExact | src/cache.h:175-175 | In every run in which no block has 2^16 - 1 references held and lost when a request begins, every 16-bit test tells what the whole count tells, so blocks are freed exactly when the model says. |
| CacheRun.MismatchesLose | src/cache.cpp:624-627 | Each change of flags refused for its id loses one more reference to the same block, and nothing else changes. |
| CacheRun.CountComesRound | src/cache.cpp:605-635 | 65535 of them, a lookup and its release: the release finds the 16-bit count at one and frees a block that is linked. |
| CacheRun.PunctualSubmit | src/peer_cache.cpp:600-678 | A draft linked before the next completed sweep after its allocation never goes off schedule. |
| CacheRun.StaysPunctual | src/cache.cpp:270-297 | As long as no request touches an item off its bucket or links one too late, every item stays on schedule. |
| CacheRun.ChecksAreFullScans | src/cache.cpp:208-297 | In such a run every check is a full scan: it removes exactly the entries expired at the manager's second, and none is left. |
| CacheMeaning.SetMeans | src/cache.cpp:789-840 | Set writes the item's own entry under a fresh id unless the id named is another one or the watch named is missing, in that order. |
| CacheMeaning.AddMeans | src/cache.cpp:756-787 | Add answers exists on a present key, and otherwise writes the item's entry if the watch named exists. |
| CacheMeaning.ReplaceMeans | src/cache.cpp:842-879 | Replace answers not-found on an absent key, and otherwise writes as set does. |
| CacheMeaning.AppendMeans | src/peer_cache.cpp:639-658 | Append puts the item's data behind the old data; flags, ext and expiry stay the old ones; not-found, mismatch, out-of-memory and missing watch are answered in that order. |
| CacheMeaning.PrependMeans | src/peer_cache.cpp:639-658 | Prepend puts the item's data before the old data, otherwise as append. |
| CacheMeaning.UnknownMeans | src/peer_cache.cpp:639-658 | A code that names no operation leaves the map as it is. |
| CacheMeaning.SubmitMeans | src/peer_cache.cpp:625-678 | An update submitted in a run: the whole map afterwards, for each of the codes, in terms of entries. |
| CacheMeaning.RemoveMeans | src/cache.cpp:983-1007 | A delete takes exactly the entry under its key, and only if no id or the entry's is named. |
| CacheMeaning.FlagsMeans | src/cache.cpp:605-635 | A change of flags changes the flags and the id of exactly that entry. |
| CacheMeaning.ExpirationMeans | src/cache.cpp:637-669 | A change of expiry changes the expiry of exactly that entry, and not its id. |
| CacheMeaning.TouchMeans | src/cache.cpp:546-574 | A touch retimes a present entry even if the watch it names is missing; the reference comes to the desk only if it is not. |
| CacheMeaning.GetMeans | src/cache.cpp:508-544 | A read takes away an entry that it finds expired, and otherwise leaves the map alone; the reference comes to the desk exactly on success. |
| CacheMeaning.DeltaMeans | src/cache.cpp:1010-1082 | A counter step writes the text of the number read plus or minus the delta under a fresh id, exactly if no other id is named and the text fits or a block is to be had. |
| CacheMeaning.FlushMeans | src/cache.cpp:1084-1103 | A flush takes exactly the entries of its group. |
| CacheMeaning.CheckMeans | src/cache.cpp:208-220 | In a run with every item on schedule, a check in a new second takes exactly the entries whose second has come. |
| CacheMeaning.RestMeans | src/peer_cache.cpp:600-623 | Drafts, bytes, releases, watches and the clock leave the map alone. |
| CacheMeaning.DetailsLose | src/cache.cpp:624-627 | A change of flags or expiry loses a reference to the entry's block exactly at a mismatch of ids. |
| CacheMeaning.SubmitLoses | src/cache.cpp:881-981 | An update loses one exactly at a mismatch of append or prepend. |
| CacheMeaning.OthersLose | src/peer_cache.cpp:80-87 | Of the other requests only an abandoned draft loses one, its own. |
| CacheMeaning.SubmitTells | src/cache.cpp:1164-1176 | Exactly an update that succeeds on a present key tells: each watch of the old entry hears of its old id that the data changed, once, and every other watch is as before. |
| CacheMeaning.RemoveTells | src/cache.cpp:983-1007 | A delete that succeeds tells likewise of the deletion. |
| CacheMeaning.FlagsTells | src/cache.cpp:605-635 | A change of flags that succeeds tells likewise of changed base information. |
| CacheMeaning.DeltaTells | src/cache.cpp:1034-1067 | A counter step tells exactly if the text changes its length. |
| CacheMeaning.GetTells | src/cache.cpp:508-544 | A read tells exactly of an entry that it finds expired. |
| CacheMeaning.FlushTells | src/cache.cpp:1084-1103 | After a flush each watch has heard, once each, of exactly the entries of the group that it watched, and of nothing else; no watch comes or goes. |
| CacheMeaning.CheckTells | src/cache.cpp:208-220 | A check in a new second drops exactly the lapsed watches, and each of the others has heard, once each, of exactly the removed entries that it watched. |
| CacheMeaning.FlushCounts | src/cache.cpp:1084-1103 | What a flush counts are the 32-bit sizes (header, key, data, ext) of exactly the group's blocks. |
| Notices.WalkMeans | src/cache.cpp:270-297 | A walk over the lists meets each linked item that is hit exactly once. |
| Notices.HeardMeans | src/cache.cpp:1164-1176 | Of items unlinked one after the other, their ids all different, a watch hears exactly of those it watches, once each. |
| CacheStories.TouchReached | src/cache.cpp:546-574 | A run of five requests in which an item that never expires any more is removed by the next check. |
| CacheStories.LateReached | src/peer_cache.cpp:600-678 | A run of six requests in which an item added two seconds after its allocation is still stored after a check in the second it expires. |
| CacheStories.LaterTouch | src/cache.cpp:546-574 | A touch with an expiry not before the old one, neither being never, puts nothing off schedule. |
| CacheStories.SetIsStored | src/peer_cache.cpp:600-678 | In every run: an item allocated by announced lengths, filled and set is stored under its group and key with exactly that data and those flags, no ext, and the expiry counted from its allocation; every other entry is as before. |
| ItemLists.UnlinkedIsLoose | src/cache.cpp:341-343 | A block in use that is not linked is in none of the expiry and free lists. |
| ItemLists.LinkedIsPlaced | src/cache.cpp:393-395 | A linked block is in the list of its bucket and in no other. |
| ItemLists.Lists.constructor | src/cache.cpp:116-130 | Empty lists stand for the empty cache. |
| ItemLists.Lists.PushFront | src/xixi_list.hpp:171-186 | With many lists over the same nodes: the block enters one list at the front, and every other list and block is as before. |
| ItemLists.Lists.PushBack | src/xixi_list.hpp:188-203 | The same at the back. |
| ItemLists.Lists.Remove | src/xixi_list.hpp:241-264 | The block leaves its list with no links, and every other list is as before. |
| ItemLists.Lists.PopFront | src/xixi_list.hpp:205-221 | The first block leaves its list with no links, and every other list is as before. |
| ItemLists.Lists.Link | src/cache.cpp:390-390 | Linking a block in the linked lists is linking it in the manager's model. |
| ItemLists.Lists.Unlink | src/cache.cpp:401-401 | Unlinking likewise, and the block is left without links. |
| ItemLists.Lists.Refile | src/cache.cpp:286-288 | Moving a block between expiry lists, or to the front of its own, is the model's move. |
| ItemLists.Lists.Free | src/cache.cpp:347-348 | A freed block enters the free list that the model names. |
| ItemLists.Lists.Take | src/cache.cpp:309-309 | The block taken from a free list is the one the model names, and has no links. |
| ItemLists.Lists.UnlinkedIsDetached | src/cache.cpp:341-343 | Whenever the lists stand for the model, a block in use and not linked has null links. |
| ItemLists.Lists.Allocate | src/cache.cpp:310-326 | A block had from the system is in no list, and the lists stand for the model's pool. |
| ItemLists.Lists.GiveBack | src/cache.cpp:350-357 | A block given back to the system leaves no trace in the lists, and its address can be had again. |
| WatchFeed.HistoryGrows | src/cache.cpp:1164-1176 | A watch's history is exactly the notifications it got, in order. |
| WatchFeed.PostedIsDelivered | src/cache.cpp:38-114 | When the events the manager posts to a watch are the notifications it gets, its client has at any time the first of them, each once and in order, and the watch still holds the rest. |
| WatchFeed.PostedCatchesUp | src/cache.cpp:38-82 | Two rounds without loss bring the client all events posted. |
| Watch.ChecksKeepConsistent | src/cache.cpp:38-114 | Ids and types stay in step, and a live registered sink implies that both queues are empty. |
| Watch.EndOfWaitDeliversNothing | src/cache.cpp:84-104 | The end of a wait never hands a batch to the living waiter; a woken client gets an empty answer and checks again. |
| Watch.CacheWatch.constructor | src/cache.cpp:32-36 | A new watch has empty queues and sequence 0. |
| Watch.CacheWatch.EmitBatch | src/cache.cpp:59-72 | Queued notifications become a batch with the next number and are kept for resending. |
| Watch.CacheWatch.CheckAndSetCallback | src/cache.cpp:38-82 | The method is the check step: an acknowledged batch is forgotten, an unacknowledged one sent again unchanged, and with nothing to send the caller is registered. |
| Watch.CacheWatch.CheckAndClearCallback | src/cache.cpp:84-104 | The method is the end-of-wait step. |
| Watch.CacheWatch.NotifyWatch | src/cache.cpp:106-114 | The method is the notification step: queue, wake, let go. |
| WatchDelivery.CheckKeeps | src/cache.cpp:38-82 | A check, however late or repeated, keeps the system's invariant: stale and zero acknowledgements discard nothing. |
| WatchDelivery.EndOfWaitKeeps | src/cache.cpp:84-104 | So does the end of a wait. |
| WatchDelivery.DeliveryKeeps | src/cache.cpp:38-114 | So does a reply's arrival at the client, in whatever order and however often. |
| WatchDelivery.StepKeeps | src/cache.cpp:38-114 | Every step of watch, channel and client keeps the invariant. |
| WatchDelivery.RunKeeps | src/cache.cpp:38-114 | Every run does. |
| WatchDelivery.DeliveredExactlyOnce | src/cache.cpp:38-114 | In every run the history is acknowledged ++ waiting ++ queued, and a client on a lossy channel that applies each number once holds a prefix of it, in order. |
| WatchDelivery.NumberNamesBatch | src/cache.h:52-58 | In every run one sequence number always carries the same batch. |
| WatchDelivery.TwoRoundsCatchUp | src/cache.cpp:38-82 | From any reachable state, two undisturbed check rounds bring the client everything. |
| WakeUp.StepKeeps | src/peer_cache.cpp:848-892 | Every step of the handshake between waiting and waking connections, the lapse of the watch among them, keeps its invariant. |
| WakeUp.RunKeeps | src/peer_cache.cpp:848-892 | Every interleaving does. |
| WakeUp.NoLostWakeUp | src/peer_cache.cpp:848-892 | In every interleaving, with the watch lapsing at any point, a waiting connection that was woken has its timer cancelled, whichever side came first; one that was not has its timer running and, unless the watch has lapsed, is registered and has missed nothing. |
| WakeUp.NotificationCancels | src/peer_cache.cpp:940-954 | One notification cancels the timer of a waiting connection not yet woken. |
| IntrusiveList.List.constructor | src/xixi_list.hpp:132-140 | An empty list. |
| IntrusiveList.List.IsLinked | src/xixi_list.hpp:145-147 | True for every node of the list, and false for every detached node. |
| IntrusiveList.List.PushFront | src/xixi_list.hpp:171-186 | The node becomes the first; the others keep their order. |
| IntrusiveList.List.PushBack | src/xixi_list.hpp:188-203 | The node becomes the last. |
| IntrusiveList.List.PopFront | src/xixi_list.hpp:205-221 | The first node is taken out and detached, null exactly if the list is empty. |
| IntrusiveList.List.PopBack | src/xixi_list.hpp:223-239 | The last node likewise. |
| IntrusiveList.List.Remove | src/xixi_list.hpp:241-264 | Exactly that node is taken out and detached. |
| IntrusiveList.List.MoveToFront | src/xixi_list.hpp:266-286 | The node becomes the first; the others keep their order. |
| IntrusiveList.List.MoveToBack | src/xixi_list.hpp:288-308 | The node becomes the last; the others keep their order. |
| HashMap.NextBucketSize | src/xixi_hash_map.hpp:96-108 | The next size is the least larger one of the table while it lasts, and double beyond it. |
| HashMap.Map.constructor | src/xixi_hash_map.hpp:76-87 | An empty table with all chains ended. |
| HashMap.Map.Find | src/xixi_hash_map.hpp:110-119 | A search finds a node with the key in the hash's bucket, and null exactly if there is none. |
| HashMap.Map.Lookup | src/xixi_hash_map.hpp:110-119 | With keys unique and hashed by one function, looking a key up is looking it up in a finite map. |
| HashMap.Map.PushChain | src/xixi_hash_map.hpp:122-125 | A node put in front of a chain leaves all chains acyclic and otherwise as they were. |
| HashMap.Map.MoveChain | src/xixi_hash_map.hpp:199-205 | Rehashing one chain moves each of its nodes exactly once. |
| HashMap.Map.Rehash | src/xixi_hash_map.hpp:198-207 | Rehashing keeps the node set: every node ends in the bucket of its hash in the new table. |
| HashMap.Map.Expand | src/xixi_hash_map.hpp:190-213 | Growing keeps the node set, the count and every hash value, hence every answer; without memory nothing changes. |
| HashMap.Map.Insert | src/xixi_hash_map.hpp:121-131 | The node set gains exactly the node, the count is exact, and each node lies in its bucket, also when the table grows, which it does exactly past the load limit and with memory. |
| HashMap.Map.Unhook | src/xixi_hash_map.hpp:148-157 | Taking a node out of a chain keeps every other chain and node. |
| HashMap.Map.Remove | src/xixi_hash_map.hpp:144-163 | Removes exactly the node, answering null exactly if it is not there. |
| HashMap.Map.RemoveKey | src/xixi_hash_map.hpp:165-184 | Removes a node with the key that a search could find, null exactly if there is none. |
| ReceiveBuffer.Buffer.constructor | src/util.h:300-305 | An empty buffer of the default size. |
| ReceiveBuffer.Buffer.Compact | src/util.h:322-327 | Moving the unread bytes to the front keeps them. |
| ReceiveBuffer.Buffer.Resize | src/util.h:331-340 | Reallocation keeps the unread bytes, or fails and keeps everything. |
| ReceiveBuffer.Buffer.HandleProcessed | src/util.h:321-353 | No unread byte is lost; space is left exactly unless unread bytes fill the array and it cannot grow; a large array is given up when little data is left. |
| ReceiveBuffer.Buffer.Fill | src/util.h:313-319 | Bytes read follow the unread ones. |
| ReceiveBuffer.Buffer.Take | src/peer_cache.cpp:173-174 | Processing consumes exactly the first unread bytes. |
| Pdu.SizesAgree | src/peer_cache_pdu.h:68-507 | For every request the declared body size is the sum of the widths of the fields decoded from it. |
| Pdu.UnsignedBytes | src/util.h:126-134 | Decoding undoes encoding of a network-order number. |
| Pdu.BytesUnsigned | src/util.h:126-134 | Encoding undoes decoding. |
| Pdu.DecodeEncode | src/peer_cache_pdu.h:68-507 | A fixed body decodes to the fields it was encoded from. |
| Pdu.ParseFlatten | src/peer_cache.cpp:320-484 | Requests laid end to end are found again by the reference parse, whatever follows them. |
| Pdu.FlattenParse | src/peer_cache.cpp:320-484 | What the reference parse finds is well-formed and is the front of the stream, byte for byte; nothing complete is left over. |
| Pdu.ClientToServer | src/peer_cache_pdu.h:68-507 | The messages a client sends are the ones decoded, field for field. |
| Pdu.FollowingExactly | src/peer_cache.cpp:609-609 | The bytes taken to follow an update are its key and data if and only if their lengths add up below 2^32. |
| Pdu.LengthsCanWrap | src/peer_cache.cpp:609-609 | They can fail to: a key of one byte and data of 2^32 - 1 are announced, and nothing is taken to follow. |
| WireBytes.WholeAndPart | src/peer_cache.cpp:320-388 | A well-formed request is found at the front of whatever begins with its bytes, and no proper part of it is a request. |
| WireBytes.HelloBytes | src/peer_pdu.h:41-46 | The bytes 0 1 are a greeting without a body. |
| WireBytes.StopBytes | src/peer_cache.cpp:320-388 | Any other two bytes than those of the known requests, authentication among them, end the parse. |
| WireBytes.GetBytes | src/peer_cache_pdu.h:68-85 | 2 1, group of 4, watch of 4, key length of 2, then exactly that many bytes of key, whatever follows; the fields are the big-endian sums of those bytes. |
| WireBytes.GetTouchBytes | src/peer_cache_pdu.h:86-106 | 2 2, group, watch, expiration of 4 each, key length of 2, then the key. |
| WireBytes.GetBaseBytes | src/peer_cache_pdu.h:126-142 | 2 4, group of 4, key length of 2, then the key. |
| WireBytes.UpdateBytes | src/peer_cache_pdu.h:168-186 | 2 6, op of 1, id of 8, group, flags, expiration, watch of 4 each, key length of 2, data length of 4, then key and data. |
| WireBytes.FlagsBytes | src/peer_cache_pdu.h:216-231 | 2 8, op, id, group, flags, key length, then the key. |
| WireBytes.ExpirationBytes | src/peer_cache_pdu.h:254-265 | 2 10, op, id, group, expiration, key length, then the key. |
| WireBytes.DeleteBytes | src/peer_cache_pdu.h:294-304 | 2 12, op of 1, id of 8, group of 4, key length of 2, then the key; the next request begins behind it. |
| WireBytes.DeltaBytes | src/peer_cache_pdu.h:324-336 | 2 14, op of 1, id of 8, group of 4, delta of 8, key length of 2, then the key. |
| WireBytes.FlushBytes | src/peer_cache_pdu.h:367-375 | 2 16 and a group of 4. |
| WireBytes.StatsBytes | src/peer_cache_pdu.h:430-440 | 2 20, op of 1, class of 1, group of 4. |
| WireBytes.CreateWatchBytes | src/peer_cache_pdu.h:462-471 | 2 22, group of 4, interval of 4. |
| WireBytes.CheckWatchBytes | src/peer_cache_pdu.h:489-501 | 2 24, group, watch, timeout, next interval and acknowledged sequence of 4 each. |
| Commands.GetAsks | src/peer_cache.cpp:486-524 | From the bytes of a get: a read of the key sent, with the watch named. |
| Commands.TouchAsks | src/peer_cache.cpp:526-563 | From the bytes of a get-and-touch: a touch with the expiration sent. |
| Commands.BaseAsks | src/peer_cache.cpp:565-598 | From the bytes of a get-base: a read without a watch, and a release. |
| Commands.UpdateAsks | src/peer_cache.cpp:600-678 | From the bytes of an update: allocation by its lengths, the key and data sent, the operation that the low three bits name, and a release. |
| Commands.FlagsAsks | src/peer_cache.cpp:680-710 | From the bytes of a change of flags. |
| Commands.ExpirationAsks | src/peer_cache.cpp:712-742 | From the bytes of a change of expiry. |
| Commands.DeleteAsks | src/peer_cache.cpp:744-767 | From the bytes of a delete: the removal of exactly the key sent, under the id sent. |
| Commands.DeltaAsks | src/peer_cache.cpp:796-828 | From the bytes of a delta: up if the op's low bit is 0, else down, by the eight bytes taken as a signed number. |
| Commands.FlushAsks | src/peer_cache.cpp:895-905 | From the bytes of a flush. |
| Commands.WatchAsks | src/peer_cache.cpp:835-846 | From the bytes that create a watch. |
| Commands.CheckAsks | src/peer_cache.cpp:848-893 | From the bytes that check one. |
| Commands.SetFromBytes | src/peer_cache.cpp:600-678 | From the wire to the map, in every run: the bytes of a set put exactly the data and flags sent under the group and key sent, with the expiry asked for, and change nothing else. |
| PeerState.LogIsPrefix | src/peer_cache.cpp:153-313 | From the invariant: the requests dealt with are a prefix of the reference parse of the stream and anything after it. |
| PeerState.CaughtUp | src/peer_cache.cpp:153-313 | Waiting for more of a request, between requests with less than a header unread, authenticating, or ending: the connection has dealt with every complete request received. |
| PeerState.ParseStops | src/peer_cache.cpp:320-388 | An unknown or authenticating request is no part of the reference parse, and neither is what follows it. |
| PeerState.CaughtUpExactly | src/peer_cache.cpp:169-185 | A connection resting in want of a header has dealt with every complete request received, whatever the unread bytes are, if and only if the byte count it waits for is at most the header's two. |
| PeerState.StaleCount | src/peer_cache.cpp:284-292 | How the other case comes about: behind a reply the count awaited is the last request's, and a greeting of two bytes is not looked at. |
| PeerState.BookedAnswered | src/peer_cache.cpp:600-623 | A step that books a request keeps the log in agreement with the cache's answers: exactly the updates without room are booked as turned down. |
| PeerState.InvTake | src/peer_cache.cpp:153-313 | Bytes taken as part of a request keep the relation between stream, log and state. |
| PeerState.InvFinish | src/peer_cache.cpp:153-313 | Bytes that complete a request add exactly it to the log. |
| PeerSteps.HeaderRead | src/peer_cache.cpp:320-388 | Reading a header: the body awaited, the greeting answered, or an unknown request ending the connection. |
| PeerSteps.FixedRead | src/peer_cache.cpp:390-425 | After the fixed body exactly the bytes it announces are awaited. |
| PeerSteps.FixedDone | src/peer_cache.cpp:426-437 | A request without extra bytes is complete. |
| PeerSteps.Refused | src/peer_cache.cpp:600-623 | A rejected update swallows exactly the bytes that the code takes to follow: key + data in 32 bits. |
| PeerSteps.ExtrasDone | src/peer_cache.cpp:625-678 | The bytes copied into an accepted update's item are exactly those sent. |
| PeerSteps.KeyRead | src/peer_cache.cpp:486-524 | The key passed on is exactly the one sent. |
| PeerSteps.SwallowDone | src/peer_cache.cpp:260-262 | When the last byte is swallowed the stream is at the next request. |
| PeerSteps.ErrorSkips | src/peer_cache.cpp:127-151 | What an error reply with bytes to swallow leads to: once they are here, exactly the rest of that update's key and data is passed over, it is booked as turned down, and the connection is at the start of the next request. |
| Peer.Connection.constructor | src/peer_cache.cpp:65-78 | A new connection has read nothing and done nothing. |
| Peer.Connection.Refill | src/peer_cache.cpp:176-183 | Reading keeps the relation; nothing changes if nothing comes. |
| Peer.Connection.OnHeader | src/peer_cache.cpp:169-174 | The header step keeps the relation and makes progress. |
| Peer.Connection.OnFixed | src/peer_cache.cpp:187-200 | The fixed-body step likewise. |
| Peer.Connection.UpdateFixed | src/peer_cache.cpp:600-623 | An update is accepted exactly if there is room; otherwise it is turned down with its bytes to be swallowed. |
| Peer.Connection.OnExtras | src/peer_cache.cpp:213-240 | Copying from the buffer and reading straight into the item amount to the same. |
| Peer.Connection.OnExtras2 | src/peer_cache.cpp:243-247 | The key step likewise; authentication stays where it is. |
| Peer.Connection.OnSwallow | src/peer_cache.cpp:260-267 | Swallowing counts down exactly, and what it ends is a request turned down. |
| Peer.Connection.OnWrite | src/peer_cache.cpp:284-296 | After a reply the next header is read at once exactly if two bytes are here and fewer than 32 requests were; it is never decoded from fewer although the byte count awaited is a stale one. |
| Peer.Connection.Turn | src/peer_cache.cpp:159-311 | Every turn of the loop keeps the relation, only adds to the log, books an update as the cache answers, and leaves less to do. |
| Peer.Connection.Process | src/peer_cache.cpp:153-313 | The loop ends, and leaves off only short of bytes with none to be had, behind a reply with less than a header unread or 32 headers read or bytes to be swallowed, in a wait, in authentication, or at the end; and each header it has counted is a request dealt with or the one in hand. |
| Peer.Connection.HandleRead | src/peer_cache.cpp:985-1014 | A chunk of any size that arrives keeps the relation. |
| Peer.Connection.HandleTimer | src/peer_cache.cpp:1101-1126 | The end of a wait returns the connection to the start of a request. |
| Peer.Session | src/peer_cache.cpp:153-313 | For every stream, every way reads split it and all answers of the cache, the connection has dealt with a prefix of the reference parse, byte exact, with exactly the updates without room turned down; after an event it rests where `process` may leave off, between requests only if it has dealt with some; where nothing complete can lie unread, all complete requests received are dealt with, and if it waits for more with room to read it and everything sent has arrived, all those sent. |
| Peer.StaleCountReached | src/peer_cache.cpp:284-292 | A connection that is sent a flush and a greeting in one piece ends up with the greeting unread, waiting for as many bytes as the flush had. |
| Crc32.BitLinear | 3rd/zlib/crc32.c:131-132 | A step of the register is linear over exclusive or. |
| Crc32.ShiftLinear | 3rd/zlib/crc32.c:131-132 | So is any number of steps. |
| Crc32.ByTable | 3rd/zlib/crc32.c:128-134 | Eight steps are one table entry and a shift. |
| Crc32.FeedTogether | 3rd/zlib/crc32.c:258-260 | Up to four bytes may be fed at once as one little-endian word. |
| Crc32.ShiftSlices | 3rd/zlib/crc32.c:258-260 | A shift by whole bytes splits into one table lookup per byte. |
| Crc32.MakeTables | 3rd/zlib/crc32.c:128-147 | Table k holds for each byte the register after it and k zero bytes. |
| Crc32.PolyTerms | 3rd/zlib/crc32.c:116-125 | The pattern has exactly one bit for each exponent of the source's list. |
| Crc32.MakePoly | 3rd/zlib/crc32.c:116-125 | The loop over the exponents computes it. |
| Crc32.CheckValue | 3rd/zlib/crc32.c:221-253 | The bit-by-bit checksum of the digits 1 to 9 is the published 0xCBF43926. |
| Crc32.OneByte | 3rd/zlib/crc32.c:217-218 | The table step is eight bit steps. |
| Crc32.FourBytes | 3rd/zlib/crc32.c:258-260 | The four-table step is four byte steps. |
| Crc32.ByteWise | 3rd/zlib/crc32.c:221-253 | The bytewise table form is the bit-by-bit checksum of section 8 of RFC 1952, for every buffer. |
| Crc32.ByFour | 3rd/zlib/crc32.c:264-295 | So is the four-bytes-at-a-time form, for every buffer and alignment. |
| Crc32.TimesShift | 3rd/zlib/crc32.c:344-358 | The matrix of the register's step, applied to a vector, is that step. |
| Crc32.MatrixTimes | 3rd/zlib/crc32.c:344-358 | The loop over the bits of the vector is the matrix product. |
| Crc32.MatrixSquare | 3rd/zlib/crc32.c:361-369 | The square of the operator for k bits is the operator for 2k. |
| Crc32.OneStep | 3rd/zlib/crc32.c:386-392 | The initial matrix is the operator for one zero bit. |
| Crc32.CrcConcat | 3rd/zlib/crc32.c:372-425 | The checksum of a concatenation is the first part's, shifted by the second's length, plus the second's. |
| Crc32.Zeros | 3rd/zlib/crc32.c:400-420 | In each round `even`, then `odd`, holds the operator for the right power of two, and the zeros of the whole length are applied. |
| Crc32.Combine | 3rd/zlib/crc32.c:372-425 | Combining crc(A), crc(B) and |B| gives crc(A ++ B); a length of zero or less gives back the first. |
| Adler32.SumsAreRaw | 3rd/zlib/adler32.c:60-128 | Putting the reductions off changes nothing. |
| Adler32.SumsOne | 3rd/zlib/adler32.c:60-128 | One byte more, in numbers: both sums modulo 65521, the second taking in the first. |
| Adler32.DeferralLimit | 3rd/zlib/adler32.c:14-16 | A block of n bytes can never overflow 32 bits exactly if n is at most NMAX. |
| Adler32.AddBlock | 3rd/zlib/adler32.c:100-106 | No 32-bit sum overflows within a block. |
| Adler32.Blocks | 3rd/zlib/adler32.c:99-124 | Blocks with one reduction each, and the rest, give the per-byte sums. |
| Adler32.Adler | 3rd/zlib/adler32.c:60-128 | The result is the per-byte definition of section 2.2 of RFC 1950 for every length, on each of the three paths. |
| Adler32.Moved | 3rd/zlib/adler32.c:131-152 | The formula that moves the second part's sums to the first part's end. |
| Adler32.Combine | 3rd/zlib/adler32.c:131-152 | Combining two checksums gives the checksum of the concatenation. |
| Lookup3.MixInvertible | src/lookup3.cpp:117-125 | Mixing can be undone, in both directions. |
| Lookup3.ReadWord | src/lookup3.cpp:294-336 | The aligned read, masked where it goes past the key, takes in exactly the key's bytes, and never leaves the key's last word. |
| Lookup3.ReadHalves | src/lookup3.cpp:360-405 | The 16-bit reads take in the same. |
| Lookup3.ReadBytes | src/lookup3.cpp:407-447 | So do the single-byte reads. |
| Lookup3.AddBlock | src/lookup3.cpp:299-336 | A block is added alike on each of the three paths. |
| Lookup3.HashBlocks | src/lookup3.cpp:285-452 | All blocks: the registers depend on the key's bytes alone. |
| Lookup3.HashLittle | src/lookup3.cpp:285-452 | The hash is a function of bytes, length and seed; alignment and what follows the key do not matter. |
| Lookup3.SameKeySameHash | src/cache.cpp:511-511 | A key in a request and the same key in a stored item hash alike, wherever each lies. |
| Lookup3.HashLittle2 | src/lookup3.cpp:465-637 | The two-result form; with a second seed of zero its first result is the plain hash. |
| Lookup3.KnownHashes | src/lookup3.cpp:972-989 | The hashes of the empty key and of the author's sentence with seeds 0 and 1 are those that the source's own driver prints. |
| Lookup3.WordsAreBytes | src/lookup3.cpp:176-209 | Hashing words is hashing their little-endian bytes. |
| Lookup3.HashWord | src/lookup3.cpp:176-209 | `hashword` on n words is `hashlittle` on their 4n bytes. |
| InflateWindow.ExtendAt | 3rd/zlib/inflate.c:1145-1149 | Every byte of a match is the byte one distance back, as in section 3.2.3 of RFC 1951, also where the match overlaps itself. |
| InflateWindow.WindowAppend | 3rd/zlib/inflate.c:390-404 | Bytes written round the ring become the newest of the past in rotated order. |
| InflateWindow.Inflater.constructor | 3rd/zlib/inflate.c:104-128 | A new decoder has no history. |
| InflateWindow.Inflater.UpdateWindow | 3rd/zlib/inflate.c:358-406 | After a call the window holds the last bytes of all output, in rotated order. |
| InflateWindow.Inflater.Append | 3rd/zlib/inflate.c:389-404 | Output that fits is written in one piece or two. |
| InflateWindow.Inflater.CopyWindow | 3rd/zlib/inflate.c:1133-1149 | Match bytes in the window are copied as the match prescribes. |
| InflateWindow.Inflater.CopyOutput | 3rd/zlib/inflate.c:1141-1149 | Match bytes in the output likewise, overlapping or not. |
| InflateWindow.Inflater.MatchStep | 3rd/zlib/inflate.c:1108-1152 | One pass of MATCH copies a nonempty part of the match, and refuses exactly the distances beyond window and output. |
| InflateWindow.Inflater.FastMatch | 3rd/zlib/inffast.c:186-281 | The fast copy writes the whole match, from window, wrapped window or output, and refuses the same distances. |
| InflateWindow.Inflater.WindowTwice | 3rd/zlib/inffast.c:227-245 | The wrapped case: window end, window start, then output. |
| InflateWindow.Inflater.NextCall | 3rd/zlib/inflate.c:1215-1221 | A call boundary keeps the history. |
| InflateWindow.Inflater.SlowMatch | 3rd/zlib/inflate.c:1108-1152 | A match cut by output space is finished over as many calls as it takes; a distance within the window's size is refused exactly if it reaches back too far, a longer one only where the output of the call has run out. |
| InflateWindow.Inflater.DoLiteral | 3rd/zlib/inflate.c:1153-1158 | A literal is appended. |
| InflateWindow.Inflater.DoStored | 3rd/zlib/inflate.c:864-876 | A stored block's bytes are appended. |
| InflateWindow.Inflate | 3rd/zlib/inflate.c:1108-1158 | For every distance and length in the format, however output is cut into calls and whichever decoder copies, the whole output is what the tokens mean, up to a match that is refused; one within the window's size is refused exactly if it reaches back before the first byte, a longer one possibly after part of it is copied. |
| Lz77Hash.Forgets | 3rd/zlib/deflate.c:164-165 | After three bytes nothing is left in the running hash of what came before, for every table size. |
| Lz77Hash.ThirdByte | 3rd/zlib/deflate.c:1162-1169 | Strings with equal hashes that agree in two bytes agree in the third. |
| Lz77Hash.IndexOk | 3rd/zlib/deflate.c:164-165 | Every hash is an index into the table. |
| Lz77State.ChainsInsert | 3rd/zlib/deflate.c:178-187 | Entering a string keeps every chain within reach: heads and links lead to the last earlier string with the same hash. |
| Lz77State.FirstCandidate | 3rd/zlib/deflate.c:178-187 | What the table held before a string was entered is the first candidate of its search, and no earlier string with its hash is missed. |
| Lz77State.LongestOfAll | 3rd/zlib/deflate.c:1199-1200 | When the chain has been followed to the end of reach, no string entered there repeats for longer than the best found. |
| Lz77State.ChainsSlide | 3rd/zlib/deflate.c:1345-1362 | Sliding the tables keeps the chains. |
| Lz77State.WindowSlide | 3rd/zlib/deflate.c:1332-1336 | Sliding the window keeps its agreement with the input. |
| Lz77State.PrimedNext | 3rd/zlib/deflate.c:164-187 | The running hash after a string is ready for the next. |
| Lz77State.NextCandidate | 3rd/zlib/deflate.c:1199-1200 | From a candidate in reach the chain leads to another, earlier, with the same hash. |
| Lz77State.ThirdAgrees | 3rd/zlib/deflate.c:1157-1169 | The byte the search does not compare is equal. |
| Lz77State.RepeatsExtend | 3rd/zlib/deflate.c:1560-1564 | A match found in the input expands to the input's own bytes. |
| Lz77State.CoversMatch | 3rd/zlib/deflate.c:1560-1564 | Emitting a match covers exactly its bytes. |
| Lz77.Deflater.constructor | 3rd/zlib/deflate.c:1022-1047 | A new compressor has read and emitted nothing. |
| Lz77.Deflater.Insert | 3rd/zlib/deflate.c:178-187 | INSERT_STRING answers the last string entered before with the same hash and in the window, 0 exactly if there is none, and keeps window and chains in agreement with the input. |
| Lz77.Deflater.SlideTable | 3rd/zlib/deflate.c:1345-1362 | Each entry follows the slide or ends its chain. |
| Lz77.Deflater.Slide | 3rd/zlib/deflate.c:1332-1364 | Positions in the input stay what they are. |
| Lz77.Deflater.ReadMore | 3rd/zlib/deflate.c:1380-1390 | What is read follows what was read, and the running hash starts right. |
| Lz77.Deflater.FillWindow | 3rd/zlib/deflate.c:1305-1395 | No input is lost; room for a longest match is left; pending matches keep their place. |
| Lz77.Deflater.Compare | 3rd/zlib/deflate.c:1168-1184 | The comparison's length is an agreement of the strings, up to 258 bytes. |
| Lz77.Deflater.Promising | 3rd/zlib/deflate.c:1157-1160 | A candidate that fails the four-byte test cannot agree in more bytes than the best so far. |
| Lz77.Deflater.Search | 3rd/zlib/deflate.c:1110-1200 | The walk visits the chain in order until the match is long enough, the chain leads out of reach or enough has been tried; its best is an agreement, and nothing visited agrees in more bytes. |
| Lz77.Deflater.LongestMatch | 3rd/zlib/deflate.c:1063-1204 | A result longer than the previous match is a true repetition of the input within lookahead, although the comparison may run past the input; none of the candidates tried, which are the latest strings with the same hash, repeats for longer; and unless the match is an improvement of `nice_match` bytes or as many as the chain limit were tried, no string entered in reach does. |
| Lz77.Deflater.FindLazy | 3rd/zlib/deflate.c:1638-1671 | The search is made exactly if there is a candidate in reach and the previous match is short enough to be improved; what it finds is a true repetition, settled for as `LongestMatch` says, less the short and far matches that the source drops. |
| Lz77.Deflater.SlowStep | 3rd/zlib/deflate.c:1638-1723 | One turn of the lazy loop: tokens cover what has been passed, less a pending byte; the match pending is the token exactly if the one found here is no longer, else the pending byte is, if there is one. |
| Lz77.Deflater.Adopt | 3rd/zlib/deflate.c:1676-1699 | The previous match is the token emitted, and exactly the strings it spans are entered, as far as there are bytes. |
| Lz77.Deflater.DeflateSlow | 3rd/zlib/deflate.c:1616-1733 | Every run of the lazy compressor keeps the coverage; done means all input is covered. |
| Lz77.Deflater.FindFast | 3rd/zlib/deflate.c:1552-1571 | The search is made exactly if there is a candidate in reach; a match found is a true repetition of at least three bytes within lookahead, settled for as `LongestMatch` says. |
| Lz77.Deflater.FastStep | 3rd/zlib/deflate.c:1541-1603 | One turn of the fast loop: tokens cover exactly what has been passed; the token is the match settled for exactly if it has three bytes, else the next byte. |
| Lz77.Deflater.SkipRun | 3rd/zlib/deflate.c:1585-1596 | Past a long match the running hash starts afresh. |
| Lz77.Deflater.DeflateFast | 3rd/zlib/deflate.c:1520-1608 | Every run of the fast compressor keeps the coverage; done means all input is covered. |
| Lz77.Deflater.Forget | 3rd/zlib/deflate.c:848-853 | The end of a full flush: the table is cleared and the window starts anew, so that nothing made later reaches back before it. |
| Lz77.DecodedBehind | 3rd/zlib/inflate.c:1108-1158 | Tokens that mean something by themselves mean the same behind others. |
| Lz77.Compress | 3rd/zlib/deflate.c:1520-1733 | However input is cut into calls, flushed, fully flushed or stopped, the tokens of either compressor expand to exactly the input, with lengths from 3 to 258 and distances from 1 to the window less 262; and those between two full flushes expand to their part of it by themselves. |
| Lz77.RoundTrip | 3rd/zlib/inflate.c:1108-1158 | What either compressor makes of an input, the decompressor model makes into it again. |

## Left out

- Sockets, SSL, threads and the accept loop (src/server.cpp, src/io_service_pool.cpp): plumbing around the connection.
- The HTTP front end (src/peer_http.cpp), settings, logging, authentication and the statistics counters.
- `load_from_file` (src/cache.cpp:678-754): file-system calls around an ordinary link.
- `do_unlink_flush`, `flush_cache_list_` and `free_flushed_items`: never called with work to do.
- The wrap-around of 64-bit cache ids and of 32-bit times: both are unbounded here. The watch theorems have fewer than
  2^32 batches as a hypothesis.
- `hash_map` under the manager: the manager uses the table by its map from keys to blocks; that the pointer structure
  is such a map is proved in `HashMap` by itself. For the lists, `ItemLists` proves the elementary steps to agree, and for the
  watches, `WatchFeed` what becomes of the events posted; the manager's methods call neither.
- CacheMgr.Manager.constructor: the growth factor is a real number, not a double, and is required to lift each class by
  an alignment chunk and to need fewer than 199 classes, as the source's fixed arrays do.
- CacheMgr.Manager.Get: the reference that the code takes and drops on an expired item is not shown separately.
- CacheMgr.Manager.DoAlloc: for sizes of 2^32 and more it says that the block is too small, not what copying the bytes
  then does to the memory behind it; data are sequences here.
- CacheRun.Run: the replies to the requests, and their encodings, are not part of the runs; nor is what the code does
  after a 16-bit count has erred.
- Commands.UpdateAsks: key and data lengths that add up to 2^32 or more are left to `Pdu.LengthsCanWrap`.
- Watch.CacheWatch.CheckAndClearCallback: the number reported when nothing is handed out is the caller's own variable,
  a parameter here.
- Peer.Connection.OnExtras2: authentication with an announced length of zero makes the code's loop run for ever; the
  model leaves the loop there.
- Peer.Session: a request may lie unread behind a stale byte count, a pending reply or a wait; nothing is said of how
  long the events that end these take to come.
- ReceiveBuffer.Buffer.HandleProcessed: sizes are unbounded, not 32-bit.
- Crc32.ByFour: the eightfold unrolling of the word loop is one loop; the big-endian form is not modelled, nor are the
  precomputed tables, of which `MakeTables` builds the little-endian half.
- Lookup3.ReadBytes: inside a block the code adds a word's bytes from the first, at the end from the last; the model
  adds them from the last in both.
- Adler32.Adler: the sixteenfold unrolling is one loop; both halves of the starting value are below the modulus.
- InflateWindow.Inflate: distances are positive and lengths at least 3, as the format has them; preset
  dictionaries and the trailing check, after which the window is no longer read, are not modelled.
- Lz77.Compress: the level and strategy stay what they were; `deflate_stored`, preset dictionaries, and the Huffman
  coding on both sides are not modelled. Bytes behind the input are arbitrary rather than zeroed.
- Lz77.Deflater.Compare: the comparison is byte by byte; the variant that compares two bytes at once is not modelled.
