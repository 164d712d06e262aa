# loki.h in Dafny

loki.h is a single-header actor runtime in C. Services own slots. Signals sent to a slot are queued on the slot's service. Worker threads take ready services off a queue and dispatch their signals to handlers. This project models the sequential core of the runtime and proves properties about it:

- the intrusive FIFO queue of the `lkQ_*` macros (`LkQueue`): a linked structure whose `next` pointers are rewritten in place, with a ghost sequence as its contents;
- the growable character buffer `lk_Buffer` (`LkBuffer`): an array with `size` and `capacity` that doubles from `LK_BUFFERSIZE`;
- the string-keyed scatter table `lk_Table` (`LkTable`, `LkChain`, `LkHashTable`):
  - an array of entries whose collision chains are relative `next` offsets;
  - colliding keys move to free slots found by a downward `lastfree` scan;
  - a resize to a power of two of at least 8;
  - `LkChain` holds the pure chain invariant and the step lemmas;
  - `LkHashTable.Table` is the class over the array, proved to behave as a map;
- the string helpers `lk_strncpy` and `lkT_makemodname` (`LkString`), and the configuration table (`LkConfig`);
- the execution contexts and their cleanup lists (`LkContext`);
- the runtime state and the signal path: `lk_State`, `lk_Service`, `lk_Slot`, `lk_Poll` and `lk_emit` (`LkRuntime`);
- the service lifecycle (`LkService`) and `lkT_dispatchL` (`LkDispatch`);
- `LkScenarios`: sequences of calls on a fresh runtime, which exhibit the defects listed under Findings next to their corrections;
- `LkTableAsWritten`: the table as loki.h writes it, with the sequence of calls that loses a key.

Each locked critical section of the C code is one atomic method. Interleavings between critical sections are allowed, and none are modelled inside one. The runtime's queues (`active_services`, `freed_signals`, the signal queues of services and polls) are `seq` fields. `LkQueue` proves separately what the macros do to such a sequence. `lkQ_enqueue` gives `LkQueue.Enqueued`: a node that is not queued is appended, and a node that is already queued becomes `last`, which cuts off the nodes behind it. The other macros behave as sequence operations. `LkRuntime.ReadyMarked` states that the ready queue repeats no service and that every service on it is marked `inqueue`. Enqueue and DequeueActive keep it, and the dispatch methods require the part of it they use. User handlers are opaque: each is reduced to the outcome it reports (`LkCodes.Outcome`: a returned code, or a raised error), which is a parameter of the method that calls it. Unwinding follows the C++ build of `lk_try`: the catch sets the frame's status to `LK_ERR`. The model returns the unwinding as a result instead of jumping.

## Model

| member | source | states |
|---|---|---|
| LkQueue.Queue.constructor | loki.h:349 | a new header holds the empty queue |
| LkQueue.Queue.Init | loki.h:349 | lkQ_init empties the queue |
| LkQueue.Queue.IsEmpty | loki.h:350 | lkQ_empty is true exactly when the queue holds no node |
| LkQueue.Queue.Enqueue | loki.h:358-363 | a node not yet queued is appended at the back (the queue is Enqueued(old, n)) and the other nodes keep their order; only the old last node's link changes |
| LkQueue.Queue.Requeue | loki.h:358-363 | lkQ_enqueue of a node already queued keeps a valid chain, which is Enqueued(old, n): it ends at n, and the nodes that were behind n are cut off |
| LkQueue.EnqueuedMeaning | loki.h:358-363 | after lkQ_enqueue, n is last and occurs once at the end; the queue is a prefix of the old one followed by n, all of it when n was not queued, and no longer than before when it was |
| LkQueue.EnqueuedDistinct | loki.h:358-363 | lkQ_enqueue never makes a node occur twice in a queue that had no repeats |
| LkQueue.Queue.Dequeue | loki.h:365-370 | the front node is removed and returned, null when the queue is empty; the rest keep their order |
| LkQueue.Queue.Head | loki.h:355-356 | returns the front node (null when empty) and ends the chain at the last node, so a walk from the result visits exactly the queue |
| LkQueue.Queue.Merge | loki.h:372-378 | after lkQ_merge(h1, h2), h1 holds h1's nodes followed by h2's; h2's header is left as it was |
| LkBuffer.GrowIsCapacity | loki.h:579-596 | the doubling loop of lk_prepbuffsize reaches LK_BUFFERSIZE times a power of two |
| LkBuffer.GrowFits | loki.h:579-596 | the grown capacity holds the needed size and is the least doubling that does |
| LkBuffer.ToCInt | loki.h:598-601 | the size_t result of lk_addlstring as its `int` return: in the 32-bit range and congruent to the size modulo 2^32 |
| LkBuffer.ReplacedMeaning | loki.h:633-638 | after a replacement the length is kept, no `orig` is left, `orig` becomes `repl`, and every other character is kept |
| LkBuffer.Buffer.constructor | loki.h:566-571 | lk_initbuffer: empty, on its inline storage of LK_BUFFERSIZE characters |
| LkBuffer.Buffer.Reset | loki.h:163 | lk_resetbuffer empties the contents and keeps the storage |
| LkBuffer.Buffer.Free | loki.h:573-577 | lk_freebuffer: back to the empty inline storage |
| LkBuffer.Buffer.PrepSize | loki.h:579-596 | keeps the contents and returns the position at the current size; capacity covers size + len; capacity and storage are unchanged when they sufficed, otherwise the capacity is the least LK_BUFFERSIZE·2^k that fits |
| LkBuffer.Buffer.AddChar | loki.h:164 | lk_addchar appends exactly the one character |
| LkBuffer.Buffer.AddLString | loki.h:598-601 | size grows by exactly len and the contents become the old contents followed by s[0..len); capacity as in PrepSize; the result is the new size as a C int |
| LkBuffer.Buffer.Replace | loki.h:633-638 | the contents become Replaced(old contents, orig, repl) |
| LkBuffer.Buffer.Result | loki.h:640-646 | a fresh array holding the contents followed by NUL, and the buffer is empty on its inline storage again |
| LkString.StrNCpy | loki.h:550-561 | the first n characters of the destination are s cut to n-1 characters and padded with NUL to n; the rest of the destination is unchanged |
| LkString.StrNCpyReadsBack | loki.h:550-561 | reading the copy back as a C string gives s cut to n-1 characters, when s has no NUL |
| LkString.ExpandLength | loki.h:1266-1271 | an expanded segment is as long as the segment, plus the length of the name minus one for each `?` |
| LkString.ExpandWithoutWildcard | loki.h:1266-1271 | a segment without `?` expands to itself |
| LkString.ExpandAppend | loki.h:1266-1271 | expanding two pieces of a segment is expanding each and concatenating |
| LkString.AddPiece | loki.h:1267-1270 | one character of the segment is appended to the buffer, or the whole name for a `?` |
| LkString.ExpandSegment | loki.h:1266-1271 | stops at the first `;` or at the end; nothing before the stop is a `;`; the buffer holds the expansion of the consumed text |
| LkString.MakeModName | loki.h:1263-1275 | the buffer is reset and then holds the expanded first segment followed by NUL, or nothing when the expansion is empty; the count consumed stops at the first `;` or at the end |
| LkTable.HashSizeFits | loki.h:651-656 | lkH_hashsize gives LK_MIN_HASHSIZE times a power of two that holds len entries, and the least such size |
| LkTable.ComputeHashSize | loki.h:651-656 | the loop computes HashSize(len) |
| LkTable.ComputeHash | loki.h:715-722 | the loop computes CalcHash: seeded with the length, mixing every step-th character from the end on 32-bit values |
| LkTable.SampledKeysCollide | loki.h:715-722 | keys of one length that agree on the sampled characters have the same hash |
| LkTable.ShortKeysReadWhole | loki.h:715-722 | a key shorter than 2^LK_HASHLIMIT characters is sampled with step 1, so two such keys agree on what lkH_calchash reads exactly when every character agrees as an unsigned char |
| LkTable.LongKeysSkipOne | loki.h:715-722 | a key of 32 or more characters is sampled with step at least 2, so changing its second-to-last character keeps the hash |
| LkChain.MainPos | loki.h:667-670 | the main position is inside the table |
| LkChain.FreshInv | loki.h:735-750 | a zeroed array satisfies the chain invariant, holds the empty map and has no slot used |
| LkChain.LookupStep | loki.h:752-767 | one step of the chain walk: a match is the key's slot; an end of chain means the key is absent; otherwise the walk stays on the key's chain, short of the key |
| LkChain.PlaceAtMain | loki.h:707-711 | storing a key at its free main position keeps the invariant |
| LkChain.PlaceAfterMain | loki.h:699-706 | linking the new key into free slot f right after its main position keeps the invariant |
| LkChain.MoveOccupant | loki.h:690-697 | moving a foreign key from the main position to the free slot and patching its predecessor's offset keeps the invariant |
| LkChain.MapAtMain | loki.h:707-711 | the map view after storing at the main position is the old map plus the new key |
| LkChain.MapAfterMain | loki.h:699-706 | the map view after inserting behind the main position is the old map plus the new key |
| LkChain.MapAfterMove | loki.h:690-697 | the map view after moving the occupant is the old map plus the new key; the moved key keeps its value |
| LkChain.ClearKeeps | loki.h:780-785 | clearing an entry's key, hash and value, with its link kept, keeps the invariant less that key |
| LkChain.MapCleared | loki.h:780-785 | the map view after clearing is the old map minus the cleared key |
| LkChain.SetValueKeeps | loki.h:769-778 | writing an entry's value keeps the invariant |
| LkChain.MapSetValue | loki.h:769-778 | the map view after writing a value is the old map with that key's value replaced |
| LkChain.LinksFitInt | loki.h:225 | every link is an offset strictly between -size and size, so it fits lk_Entry.next's C `int` in a table of at most 2^31 slots |
| LkChain.LiveCount | loki.h:658-665 | the number of keyed entries is at most the table size |
| LkHashTable.Table.constructor | loki.h:724-728 | lk_inittable: no array, the empty map |
| LkHashTable.Table.Free | loki.h:730-733 | lk_freetable: no array, the empty map |
| LkHashTable.Table.GetEntry | loki.h:752-767 | None for a NULL key or a table of size 0; otherwise Some exactly when the key is in the map, at the slot holding that key |
| LkHashTable.Table.ScanFree | loki.h:680-683 | the lastfree scan returns the highest never-used slot below lastfree, or None when every slot below is used |
| LkHashTable.Table.FindPred | loki.h:691-692 | the walk from the colliding key's main position stops at the slot whose offset leads to mp |
| LkHashTable.Table.TryInsert | loki.h:676-711 | corrected scan (Finding loki.h:680-683): one pass from `redo`: either the key is added to the map at its returned slot, or nothing changes and every slot is used; a table with an unused slot always inserts |
| LkHashTable.Table.InsertAtMain | loki.h:707-711 | case 1: the key goes to its free main position and the map gains it |
| LkHashTable.Table.InsertAfterMain | loki.h:699-706 | case 2: the key goes to the free slot f, and the map gains it |
| LkHashTable.Table.InsertMoving | loki.h:690-697 | case 3: the occupant moves to f, the key takes mp, and the map gains the key |
| LkHashTable.Table.CountSize | loki.h:658-665 | lkH_countsize counts the keyed entries |
| LkHashTable.Table.Resize | loki.h:735-750 | the new array has size HashSize(len) (0 or a power of two ≥ 8) and holds the same map |
| LkHashTable.Table.NewKey | loki.h:672-713 | corrected scan (Finding loki.h:680-683): the new key is in the map at the returned slot, holding the given value; every other key keeps its value; the table is resized first when it has no array |
| LkHashTable.Table.InsertOrGrow | loki.h:676-688 | corrected scan (Finding loki.h:680-683): from `redo`: the key is inserted, after at most one resize to twice the live count |
| LkHashTable.Table.GrowAndInsert | loki.h:684-688 | corrected scan (Finding loki.h:680-683): the full-table path: resize to twice the live count, then insert |
| LkHashTable.Table.SetEntry | loki.h:769-778 | corrected scan (Finding loki.h:680-683): None exactly for a NULL key; an existing key's entry comes back with the array and the map unchanged; a new key is added with no value; the result slot holds the key |
| LkHashTable.Table.SetValue | loki.h:769-778 | the caller's `e->value = v` on a returned entry updates that key in the map |
| LkHashTable.Table.DelEntry | loki.h:780-785 | the entry's key leaves the map, nothing else changes, and the array is the same |
| LkHashTable.Table.NextEntry | loki.h:787-796 | returns the next keyed slot after prev, skipping only keyless slots, or None when none is left; from the start it is None exactly when the map is empty |
| LkHashTable.SetTwo | loki.h:769-778 | after two lk_setentry calls both keys are in the table, and so is every key it held before |
| LkHashTable.SetThenFind | loki.h:752-778 | lk_setentry, then a value store, then lk_getentry finds the same slot with that value; the size is 0 or a power of two ≥ 8 |
| LkHashTable.RemoveKey | loki.h:780-785 | lk_delentry of one key leaves every other key in the table |
| LkHashTable.ReuseKeepsKey | loki.h:672-713 | corrected table: after setting D, L, A, I, deleting D and setting Q, L is still found |
| LkTableAsWritten.EmptyW | loki.h:735-750 | the zeroed array: no slot keyed, lastfree at the end |
| LkTableAsWritten.ScanW | loki.h:680-683 | as written, the scan stops at the first keyless slot below lastfree, whatever its link |
| LkTableAsWritten.NewKeyW | loki.h:672-713 | as written, the result has the same size and lastfree does not grow |
| LkTableAsWritten.GetW | loki.h:752-767 | a found slot holds the key |
| LkTableAsWritten.SetW | loki.h:769-778 | a key that lk_getentry finds leaves the table unchanged |
| LkTableAsWritten.DelW | loki.h:780-785 | the key is cleared and the `next` link is kept |
| LkTableAsWritten.ReuseLosesKey | loki.h:680-711 | for any keys hashing like D, L, A, I and Q, L still sits in slot 7 after the sequence, but lk_getentry does not find it |
| LkTableAsWritten.DeletedSlotReuseLosesKey | loki.h:680-711 | the same sequence on the keys "D", "L", "A", "I", "Q" |
| LkConfig.GetConfig | loki.h:1736-1744 | the value stored under key; NULL exactly when the key is NULL or absent |
| LkConfig.SetConfig | loki.h:1746-1766 | the configuration map becomes the old one with key mapped to value, whether the value is overwritten in place or repacked |
| LkConfig.SetThenGet | loki.h:1736-1766 | a value set is the value read back, and any other key reads as before |
| LkContext.RegisterAllIsReverse | loki.h:1719-1734 | registering cleanups by prepending leaves them in reverse registration order in front of the old list |
| LkContext.PushContext | loki.h:1223-1230 | the frame becomes innermost, linked to the previous one, with no cleanups and status LK_OK |
| LkContext.PopContext | loki.h:1220-1221 | the frame's parent becomes innermost |
| LkContext.AddCleanup | loki.h:1719-1734 | LK_ERR with nothing changed outside a frame; otherwise LK_OK and the entry is prepended, taken from the recycled pool when it has one |
| LkContext.Discard | loki.h:1696-1717 | outside a frame the process aborts; otherwise every cleanup runs once, newest first, the entries join the pool in that order, the list is empty and the frame unwinds |
| LkContext.PCall | loki.h:1687-1694 | on discard every registered cleanup runs once in reverse registration order and the result is LK_ERR; on return the code is passed through and no cleanup runs; the innermost frame is restored |
| LkRuntime.RootName | loki.h:1235 | the root's name is the argument, or "root" without one, cut to its first 31 characters by lk_strncpy |
| LkRuntime.Runtime.constructor | loki.h:1602-1631 | lk_newstate: the root service is named RootName(name), registered under that name, SLEEPING and counted; the runtime is INITIALING |
| LkRuntime.Start | loki.h:1672-1685 | the runtime becomes WORKING |
| LkRuntime.Enqueue | loki.h:803-804 | the ready queue becomes Enqueued(old, svr) and svr is marked as queued. A service not on the queue is appended. One already on it becomes the last, and the services behind it are cut off while still marked. ReadyMarked is kept |
| LkRuntime.EnqueueFixed | loki.h:803-804 | corrected: a service already marked as queued keeps its place, and any other is appended. Under ReadyMarked the old ready queue is a prefix of the new one, at most one shorter, so no queued service is cut off; ReadyMarked is kept |
| LkRuntime.DequeueActive | loki.h:806-807 | the front service is removed from the ready queue and unmarked, null when the queue is empty; ReadyMarked is kept |
| LkRuntime.EmitPoll | loki.h:1130-1142 | a STOPPING poll: the node goes to the free list, the result is LK_ERR and the poll's queue is unchanged; otherwise the node is appended and the result is LK_OK |
| LkRuntime.EmitSlot | loki.h:1144-1160 | a STOPPING service: the node goes to the free list and the result is LK_ERR; otherwise the node is appended and the result is LK_OK, and a SLEEPING service becomes WORKING and goes through lkT_enqueue: the ready queue becomes Enqueued(old, svr), so a SLEEPING service still on the queue cuts off the services behind it |
| LkRuntime.EmitSlotFixed | loki.h:1144-1160 | corrected: as EmitSlot over EnqueueFixed; a SLEEPING service already queued keeps its place, and the old ready queue is a prefix of the new one |
| LkRuntime.Emit | loki.h:1162-1192 | refused with LK_ERR and no change when the runtime, caller or target service is STOPPING; otherwise the source defaults to the caller, a copied payload is a fresh size+1 array ending in NUL, the node is routed (a SLEEPING target service makes the ready queue Enqueued(old, target)), and pending is incremented whatever the routing returned |
| LkRuntime.EmitData | loki.h:1194-1202 | lk_emit of a copied signal, with type, size and session truncated to their 7-, 24- and 32-bit fields |
| LkRuntime.Wait | loki.h:939-972 | a slot that is not a poll gives LK_ERR; otherwise the front signal with LK_OK, else LK_ERR for a stopped poll, else LK_TIMEOUT |
| LkService.DecSize | loki.h:1399 | a size_t decrement, wrapping at zero |
| LkService.Dec32 | loki.h:325 | lk_dec on the 32-bit lk_Atomic, wrapping at zero |
| LkService.RegisteredNamesDistinct | loki.h:1352-1377 | slots that the registry holds under their own names have distinct names |
| LkService.ReleaseSlots | loki.h:1355-1367 | every slot's name leaves the registry and the slot list is empty |
| LkService.StopPolls | loki.h:1368-1375 | every poll is stopped, its name leaves the registry, and the poll list is empty |
| LkService.FreeSlots | loki.h:1352-1377 | the registry loses exactly the names of the service's slots and polls; every poll is STOPPING; both lists are empty |
| LkService.DelService | loki.h:1379-1406 | slots and polls leave the registry; logger and monitor are cleared if they were this service; a non-root service is freed; a non-weak service is uncounted; the runtime stops when no live service is left, or only the root is left and it has no handler |
| LkService.CallHandler | loki.h:1408-1449 | only an INITIALING service runs its handler. A failure deletes the service and gives null. LK_WEAK marks it weak; any other code counts it. It then sleeps, or is queued if signals arrived. Any other service is returned unchanged |
| LkService.CallHandlerFixed | loki.h:1424-1427 | corrected start-up: a failed start leaves the live count as it was |
| LkService.NewService | loki.h:1244-1261 | the service registered under the name is returned; a name held by another slot gives null; otherwise a new INITIALING service is registered |
| LkService.NewModule | loki.h:1323-1350 | a registered service is returned; otherwise a preloaded handler is consumed; otherwise the module search decides |
| LkService.Preload | loki.h:1456-1468 | a handler is recorded only for a name with no registry entry and no handler preloaded |
| LkService.RequireF | loki.h:1470-1476 | a registered service is returned unchanged, so requiring twice runs the handler once; a name held by another slot gives null; a failed start removes the entry, decrements the live count (wrapping at zero) and stops the runtime when ShouldStop says so; a successful one registers and counts the new service |
| LkService.Require | loki.h:1323-1349 | lk_require: a registered service is returned unchanged. Otherwise a preloaded handler is consumed, removing its preload entry. With a preload, a name held by another slot gives null and leaves the registry, count and status. Without one, nothing found gives null and leaves an entry without a slot. When a service is created, a failed start removes the entry, decrements the live count and may stop the runtime; a successful one maps the name to the new service and counts it |
| LkService.RequireFFixed | loki.h:1470-1476 | corrected start-up: as RequireF, but a failed start leaves the live count unchanged |
| LkService.RequireFixed | loki.h:1323-1349 | corrected start-up: every case of Require, with the same registry and preload updates, but a failed start leaves the live count unchanged and stops the runtime only when ShouldStop holds of that count |
| LkService.SlotName | loki.h:986-995 | the qualified name is the service name, a dot, then the slot name |
| LkService.NewSlot | loki.h:1012-1027 | null for a STOPPING caller; otherwise a slot under the qualified name, registered and prepended to the slot list |
| LkService.NewPoll | loki.h:1054-1080 | as NewSlot, on the poll list with a WORKING poll; when its thread does not start the entry is deleted and the result is null |
| LkService.Close | loki.h:1633-1654 | outside a service it reports teardown when the runtime is STOPPING; inside one the service becomes STOPPING and, if it was asleep, goes through lkT_enqueue, so the ready queue becomes Enqueued(old, svr) |
| LkDispatch.Route | loki.h:1537-1542 | the refactor hook sees every signal not sent to the logger; the slot handler runs when it exists and the hook was absent, raised, or returned LK_ERR |
| LkDispatch.DispatchBegin | loki.h:1522-1525 | the whole queue is taken and the service's queue is left empty |
| LkDispatch.Deliver | loki.h:1529-1553 | as written, for a dispatched service that is marked if it is on the ready queue (ReadyMarked): the node is routed as Route says; only a STOPPING source's pending count is decremented (32-bit, wrapping), and when it reaches zero the service being dispatched, not the source, joins the ready queue unless already queued |
| LkDispatch.DeliverFixed | loki.h:1529-1553 | corrected: every delivered signal is uncounted from its source; a STOPPING source other than the service being dispatched joins the ready queue when its count reaches zero and it is not queued |
| LkDispatch.DispatchEnd | loki.h:1555-1569 | nodes join the free list. A service with new signals goes through lkT_enqueue, so the ready queue becomes Enqueued(old, svr); else one not STOPPING sleeps; else one with nothing pending is deleted |
| LkDispatch.Minus32Wraps | loki.h:325 | c calls of lk_dec on a 32-bit count leave (p - c) mod 2^32 |
| LkDispatch.PassCounts | loki.h:1548 | as written, after a pass a STOPPING source has lost one count per signal it sent, modulo 2^32, and any other source keeps its count |
| LkDispatch.PassQueue | loki.h:1548-1551 | as written, a pass appends to the ready queue at most the service being dispatched, exactly when it was not queued and some STOPPING source's count reached zero; no other queued flag changes |
| LkDispatch.PassFixedCounts | loki.h:1548 | corrected, every source loses one count per signal it sent |
| LkDispatch.PassFixedQueue | loki.h:1548-1551 | corrected, a pass never queues the service being dispatched, queues each service at most once and only STOPPING sources not already queued, and marks queued exactly those |
| LkDispatch.PassFixedWakesDrained | loki.h:1548-1551 | corrected, a STOPPING source other than the dispatched service, not queued, whose count some delivery brings to zero, is queued |
| LkDispatch.DeliverAll | loki.h:1529-1553 | as written, the loop routes every node in queue order, and the sources' counts, the queued flags and the ready queue end as DeliverPass computes from where they started |
| LkDispatch.DeliverAllFixed | loki.h:1529-1553 | corrected: as DeliverAll, with DeliverPassFixed |
| LkDispatch.Dispatch | loki.h:1516-1570 | lkT_dispatchL as written: every queued signal is routed in queue order and recycled; the counts, queued flags and ready queue change as DeliverPass says; the service then sleeps, or when STOPPING is deleted exactly when nothing is pending, whether or not the pass queued it |
| LkDispatch.DispatchFixed | loki.h:1516-1570 | corrected: as Dispatch with DeliverPassFixed, and the service is on the ready queue afterwards exactly when it was before, so a deleted service is never left queued |
| LkScenarios.FailedStartStopsRuntime | loki.h:1424-1427 | as written: after "a" starts and "b" fails, the count is 1 and the runtime is STOPPING while "a" lives |
| LkScenarios.FailedStartKeepsRuntime | loki.h:1424-1427 | corrected: the count is 2 and the runtime stays WORKING |
| LkScenarios.CloseAndDispatch | loki.h:1633-1654 | a sleeping service that closes is queued, and its dispatch deletes it exactly when nothing is pending |
| LkScenarios.SourceNeverDeleted | loki.h:1548 | as written: a sender whose signal was handled keeps pending 1 after closing and is never deleted |
| LkScenarios.SourceDeleted | loki.h:1548 | corrected: the same sender is deleted when it closes |
| LkScenarios.SleepingButQueued | loki.h:1548-1563 | as written: the receiver queues itself while it is dispatched, then goes to sleep while it is still on the ready queue |
| LkScenarios.WrongServiceQueued | loki.h:1548-1551 | as written: the sender stays STOPPING, off the ready queue, undeleted; a later signal to the sleeping receiver, already last on the ready queue, leaves it there once |
| LkScenarios.ServiceCutOff | loki.h:803-804 | as written: a signal to the sleeping but queued receiver cuts off the root service queued behind it; the root is WORKING with a signal waiting, marked as queued, and off the ready queue |
| LkScenarios.ServiceKeptQueued | loki.h:803-804 | corrected: with EmitSlotFixed the same calls leave both services on the ready queue, in order |
| LkScenarios.SourceQueued | loki.h:1548-1551 | corrected: the sender is queued when its count reaches zero |
| LkScenarios.SelfSignalQueuedWhileDeleted | loki.h:1548-1569 | as written: a service that signalled itself and closed queues itself while being dispatched and is then deleted while on the ready queue |
| LkScenarios.SelfSignalDeleted | loki.h:1548-1569 | corrected: the same service is deleted and the ready queue is empty |

## Left out

- Threads, locks, condition variables and atomics (`lkP_worker`, `lkP_poller`, `lk_waitclose`, the join in `lkS_stoppoll`): each critical section is one atomic method, and interleavings inside one are not modelled.
- LkRuntime.Wait: the blocking half of `lk_wait` (the timed wait) is not modelled. The result is decided from the node taken before waiting.
- Dynamic module loading: `lkT_findmodule` and the `dlopen`/`LoadLibrary` calls are foreign. The search result is the `found` parameter of LkService.NewModule and LkService.Require, and the walk over the `;`-separated path is left out.
- Formatting and logging (`lk_addvfstring`, `lk_addfstring`, `lk_log`, `lk_vlog`): they depend on `vsnprintf`.
- Allocation failure, `lkM_outofmemory`, `lkG_delstate`, and the resource setup of `lk_newstate`: allocation is taken to succeed.
- The setjmp/longjmp build of `lk_try`: the C++ semantics are modelled, in which an unwound frame has status `LK_ERR`.
- `lk_setthreads`, `lk_setpath`, `lk_register`, the slot accessors and `lk_emitstring`: configuration plumbing around the modelled core.
- LkService.DelService, LkService.CallHandler, LkService.CallHandlerFixed: the monitor signal. When a monitor slot is set, `lkT_delserviceL` (loki.h:1396-1397) and `lkT_callhandlerL` (loki.h:1438-1442) call `lk_emitdata` on it. That is runtime code, not user code: `lk_emit` takes a node off `freed_signals`, queues a signal on the monitor service, may put that service on `active_services`, and raises the emitter's `pending`. The model leaves this emit out. So the frames of these members, which keep `rt.active`, `rt.freed` and the monitor's queue, hold only when `rt.monitor` is null. Both calls are made with `S->lock` held, and `lk_emit` locks it again (loki.h:1175). On the POSIX build that lock is a default `pthread_mutex_t` (loki.h:317), so this re-lock does not return. On the Windows build it is a re-entrant `CRITICAL_SECTION` (loki.h:256, 273), so the emit goes ahead. Neither behaviour is modelled.
- The handler call that `lkT_delserviceL` makes for a service being deleted: user code, reduced to the `notified` result of LkService.DelService.
- LkService.DelService: the source reads `svr->weak` after `lk_free(svr)` (loki.h:1398-1399). The model reads the value the field had before the free.
- LkService.NewSlot: a name that already names a slot makes the source dereference the NULL that `lkS_newslot` returns (loki.h:1001, 1019-1020). This is a precondition, not modelled behaviour.
- LkService.NewPoll: when the poll thread fails to start, the source deletes the registry entry, which frees the poll through its key, while the poll stays on the service's list. The model keeps the poll on the list and does not model the free.
- LkString.StrNCpy: requires n ≥ 1, since for n = 0 the C code's `n-1` wraps around; s is the text before its terminating NUL, so it contains no NUL.
- LkContext.PCall: the protected body is user code, reduced to the cleanups it registers in order and to whether it returns a code or calls lk_discard.
- LkService.CallHandler: a failing start-up requires an empty signal queue, the assert of lkT_delserviceL (loki.h:1381). The source does not ensure it: the start-up handler runs with the service WORKING (loki.h:1417), and can emit to the service's own slot (loki.h:1147-1150) before it fails, which trips that assert. The assert is kept as a precondition.
- LkService.CallHandlerFixed: the same precondition as CallHandler, for the same reason.
- LkBuffer.Buffer.PrepSize: requires size + len ≤ 2^63, beyond which the doubling of the capacity overflows size_t and the C code writes past the end.
- Hooks installed after creation (`lk_setrefactor`, `lk_setslothandler`) are not modelled: a service's refactor hook and a slot's handler are fixed when they are made, so a dispatch pass routes every node with the hooks as they stood when it began.
- LkDispatch.DeliverFixed, LkDispatch.DeliverAllFixed, LkDispatch.DispatchFixed: the corrected delivery step of the Findings, not the source's behaviour; Deliver, DeliverAll and Dispatch model the source as written.
- LkRuntime.EnqueueFixed, LkRuntime.EmitSlotFixed: the corrected `lkT_enqueue` of the Findings, not the source's behaviour. The other callers of `lkT_enqueue` (Emit, Close, CallHandler, DispatchEnd) model the source as written.
- LkDispatch.Deliver, LkDispatch.DeliverFixed, LkDispatch.Dispatch, LkDispatch.DispatchFixed: they require that the services they may queue are marked `inqueue` if they are already on the ready queue. This is the part of ReadyMarked they use. Enqueue and DequeueActive are proved to keep ReadyMarked. The model does not prove that every other operation keeps it.
- LkRuntime.Emit: `pending` is the 32-bit unsigned `lk_Atomic` of the POSIX build, not the Windows `LONG`.
- LkChain: a link `next` is an unbounded `int`, while lk_Entry.next is a C `int` (loki.h:225). LinksFitInt bounds every link strictly between -size and size, so links fit in tables of at most 2^31 slots; for larger tables, which MAX_TABLE allows, the truncation of the stored pointer difference is not modelled.
- LkHashTable.Table.Resize: the requested length is at most 2^63 and the live count fits the new size. Tables are bounded by MAX_TABLE (2^62 slots) so that doubling stays within size_t.
- LkChain.MainPos: `hash & (size-1)` is written as `hash % size`; the two agree because sizes are powers of two.
- LkHashTable.Table.ScanFree: it takes only slots that have never held a key (the `used` flag), which is the correction of Finding 1. When the scan fails, `lastfree` is left as it was.
- LkHashTable.Table.InsertOrGrow: the `redo` loop runs at most twice, because a resized table always has a free slot.
- Key memory: the model does not track who owns a key string or when it is freed. Keys are values here, while the source frees them in lk_delentry (loki.h:781), through the slots whose names are registry keys (loki.h:1007, 1256, 1347), in lk_setconfig (loki.h:1761) and in lkG_delstate (loki.h:1583-1590).
- LkConfig.SetConfig: the `key\0value\0` buffer layout is abstracted to the key/value pair it holds. The free of the caller's key pointer when a new key is inserted is not modelled.
- LkTableAsWritten.NewKeyW: it does not follow the resize path (a full table gives None). Its predecessor walk (PredW) and the lookup (LookW) take a fuel bound.
- LkTableAsWritten: its cells carry no value, only link, hash and key.

## Findings

| source | as written | input that shows it | evidently intended | confidence | as-written member | corrected member |
|---|---|---|---|---|---|---|
| loki.h:680-683 | the lastfree scan accepts any slot whose key is NULL, including a deleted slot that `lk_delentry` left linked into a chain; reusing it rewrites its `next` | an 8-slot table: set "D", "L", "A", "I"; delete "D"; set "Q"; then "L" is stored in slot 7 but lk_getentry("L") returns NULL | the scan takes only slots that never held a key, as `assert(f->next == 0)` expects | not executed | LkTableAsWritten.DeletedSlotReuseLosesKey | LkHashTable.ReuseKeepsKey |
| loki.h:1548 | `src->status == LK_STOPPING && lk_dec(src->pending) == 0` decrements pending only for a STOPPING source, so signals handled while the source runs are never uncounted | "x" sends to "y", "y" handles it, then "x" closes: "x" stays STOPPING with pending 1 and is never deleted | every handled signal decrements its source's pending | not executed | LkScenarios.SourceNeverDeleted | LkScenarios.SourceDeleted |
| loki.h:1548-1551 | when the source's pending reaches zero, the dispatched service `svr` is enqueued instead of the source | "x" sends to "y" and closes; "x" is dispatched with the signal still pending; "y" delivers it: "y" is queued while being dispatched and "x" is never deleted | the source is queued so that its own dispatch deletes it | not executed | LkScenarios.WrongServiceQueued | LkScenarios.SourceQueued |
| loki.h:1548-1569 | a service that is the source of a signal in its own queue is enqueued by its own pass when its STOPPING count reaches zero, and the end of the same pass then frees it while it is on `active_services` | "y" emits to its own slot and calls lk_close; a worker dispatches "y": the delivery queues "y", and the end of the pass deletes it with "y" still on the ready queue | the service being dispatched is not queued by its own deliveries, since the end of its pass decides its deletion | not executed | LkScenarios.SelfSignalQueuedWhileDeleted | LkScenarios.SelfSignalDeleted |
| loki.h:803-804 | `lkT_enqueue` appends with `lkQ_enqueue` without looking at `inqueue`; a service already on `active_services` becomes `last`, and the services queued behind it are cut off while still marked `inqueue` | the as-written delivery queues "y" while it is dispatched and "y" then sleeps while still queued; a signal wakes the root, which is queued behind "y"; a signal to "y" then re-enqueues it: the root is cut off, WORKING with a signal waiting, and neither `lk_emit` nor a dispatch pass queues it again | a service already marked `inqueue` keeps its place, so no queued service is cut off | not executed | LkScenarios.ServiceCutOff | LkRuntime.EnqueueFixed |
| loki.h:1424-1427 | a failed start deletes the service through `lkT_delserviceL`, which decrements `nservices` for a service that was never counted | start "a" (count 2), then "b" fails to start: the count falls to 1 and the runtime stops while "a" is live | a service that fails to start leaves the live count unchanged | not executed | LkScenarios.FailedStartStopsRuntime | LkScenarios.FailedStartKeepsRuntime |
